/** What the sorted lists hold, as sequences in strictly ascending order of id. */
module SortedSeq {
  import opened Circle

  datatype Entry<+V> = Entry(id: Key, value: V)

  ghost predicate Ascending<V>(s: seq<Entry<V>>) {
    forall i, j :: 0 <= i < j < |s| ==> s[i].id < s[j].id
  }

  ghost function Ids<V(!new)>(s: seq<Entry<V>>): set<Key> {
    set x | x in s :: x.id
  }

  /** s with e at its place; an entry that has the id already wins. */
  function Inserted<V>(s: seq<Entry<V>>, e: Entry<V>): seq<Entry<V>> {
    if s == [] || e.id < s[0].id then [e] + s
    else if e.id == s[0].id then s
    else [s[0]] + Inserted(s[1..], e)
  }

  /** s without the first entry that has this id. */
  ghost function Removed<V>(s: seq<Entry<V>>, id: Key): seq<Entry<V>> {
    if s == [] then []
    else if s[0].id == id then s[1..]
    else [s[0]] + Removed(s[1..], id)
  }

  lemma {:induction false} InsertedBefore<V>(s: seq<Entry<V>>, e: Entry<V>, k: nat)
    requires k <= |s| && (forall i :: 0 <= i < k ==> s[i].id < e.id) && (k < |s| ==> e.id < s[k].id)
    ensures Inserted(s, e) == s[..k] + [e] + s[k..]
  {
    if k == 0 {
    } else {
      InsertedBefore(s[1..], e, k - 1);
      assert s[1..][..k - 1] == s[1..k] && s[1..][k - 1..] == s[k..];
    }
  }

  lemma {:induction false} InsertedPresent<V>(s: seq<Entry<V>>, e: Entry<V>, k: nat)
    requires k < |s| && (forall i :: 0 <= i < k ==> s[i].id < e.id) && s[k].id == e.id
    ensures Inserted(s, e) == s
  {
    if k == 0 {
    } else {
      InsertedPresent(s[1..], e, k - 1);
    }
  }

  lemma {:induction false} RemovedFrom<V>(s: seq<Entry<V>>, id: Key, k: nat)
    requires k <= |s| && (forall i :: 0 <= i < k ==> s[i].id != id) && (k < |s| ==> s[k].id == id)
    ensures Removed(s, id) == if k < |s| then s[..k] + s[k + 1..] else s
  {
    if k == 0 {
    } else {
      RemovedFrom(s[1..], id, k - 1);
      assert s == [s[0]] + s[1..];
      if k < |s| {
        assert s[1..][..k - 1] == s[1..k] && s[1..][k..] == s[k + 1..];
      }
    }
  }

  /** Where an id belongs in an ascending list. */
  ghost function Place<V>(s: seq<Entry<V>>, id: Key): (k: nat)
    requires Ascending(s)
    ensures k <= |s|
    ensures forall i :: 0 <= i < k ==> s[i].id < id
    ensures forall i :: k <= i < |s| ==> id <= s[i].id
  {
    if s == [] || id <= s[0].id then 0 else 1 + Place(s[1..], id)
  }

  lemma Present<V(!new)>(s: seq<Entry<V>>, k: nat)
    requires k < |s|
    ensures s[k].id in Ids(s)
  {
  }

  lemma RemovedAt<V>(s: seq<Entry<V>>, k: nat)
    requires Ascending(s) && k < |s|
    ensures Removed(s, s[k].id) == s[..k] + s[k + 1..]
  {
    RemovedFrom(s, s[k].id, k);
  }

  lemma NotAmong<V(!new)>(s: seq<Entry<V>>, id: Key)
    requires forall i :: 0 <= i < |s| ==> s[i].id != id
    ensures id !in Ids(s)
  {
  }

  lemma Absent<V(!new)>(s: seq<Entry<V>>, id: Key, k: nat)
    requires Ascending(s) && k <= |s| && (forall i :: 0 <= i < k ==> s[i].id < id) && (k < |s| ==> id < s[k].id)
    ensures id !in Ids(s)
    ensures forall i :: 0 <= i < |s| ==> s[i].id != id
    ensures forall i :: k <= i < |s| ==> id < s[i].id
  {
  }

  lemma SplicedIn<V(!new)>(s: seq<Entry<V>>, e: Entry<V>, k: nat)
    requires k <= |s|
    ensures forall x :: x in s[..k] + [e] + s[k..] <==> x in s || x == e
    ensures Ids(s[..k] + [e] + s[k..]) == Ids(s) + {e.id}
  {
  }

  lemma SplicedInAscends<V>(s: seq<Entry<V>>, e: Entry<V>, k: nat)
    requires Ascending(s) && k <= |s|
    requires (forall i :: 0 <= i < k ==> s[i].id < e.id) && (forall i :: k <= i < |s| ==> e.id < s[i].id)
    ensures Ascending(s[..k] + [e] + s[k..])
  {
  }

  lemma SplicedOut<V(!new)>(s: seq<Entry<V>>, k: nat)
    requires k < |s| && Ascending(s)
    ensures Ascending(s[..k] + s[k + 1..])
    ensures forall x :: x in s[..k] + s[k + 1..] <==> x in s && x.id != s[k].id
  {
  }

  /** Adding keeps the list ascending and its old entries, and adds the id. */
  lemma InsertedLaws<V(!new)>(s: seq<Entry<V>>, e: Entry<V>)
    requires Ascending(s)
    ensures Ascending(Inserted(s, e))
    ensures forall x :: x in Inserted(s, e) <==> x in s || (x == e && e.id !in Ids(s))
    ensures Ids(Inserted(s, e)) == Ids(s) + {e.id}
  {
    hide Inserted, Ascending, Ids;
    var k := Place(s, e.id);
    if k < |s| && s[k].id == e.id {
      InsertedPresent(s, e, k);
      Present(s, k);
    } else {
      Absent(s, e.id, k);
      InsertedBefore(s, e, k);
      SplicedIn(s, e, k);
      SplicedInAscends(s, e, k);
    }
  }

  /** Removing keeps the list ascending and takes out exactly that id. */
  lemma RemovedLaws<V(!new)>(s: seq<Entry<V>>, id: Key)
    requires Ascending(s)
    ensures Ascending(Removed(s, id))
    ensures forall x :: x in Removed(s, id) <==> x in s && x.id != id
    ensures Ids(Removed(s, id)) == Ids(s) - {id}
  {
    hide Removed, Ascending;
    var k := Place(s, id);
    if k < |s| && s[k].id == id {
      RemovedFrom(s, id, k);
      SplicedOut(s, k);
    } else {
      Absent(s, id, k);
      RemovedFrom(s, id, |s|);
    }
  }

  lemma RemovedUndoesInserted<V(!new)>(s: seq<Entry<V>>, e: Entry<V>)
    requires Ascending(s) && e.id !in Ids(s)
    ensures Removed(Inserted(s, e), e.id) == s
  {
  }

  // ---------------------------------------------------------------- lists built record by record

  /** The list that results from adding records one after the other. */
  function Loaded<V>(start: seq<Entry<V>>, records: seq<Entry<V>>): seq<Entry<V>>
    decreases |records|
  {
    if records == [] then start
    else Loaded(Inserted(start, records[0]), records[1..])
  }

  lemma IdsSplit<V(!new)>(s: seq<Entry<V>>)
    requires s != []
    ensures Ids(s) == {s[0].id} + Ids(s[1..])
  {
  }

  lemma {:induction false} LoadedOneMore<V>(start: seq<Entry<V>>, records: seq<Entry<V>>, e: Entry<V>)
    ensures Loaded(start, records + [e]) == Inserted(Loaded(start, records), e)
    decreases |records|
  {
    if records != [] {
      assert (records + [e])[1..] == records[1..] + [e];
      LoadedOneMore(Inserted(start, records[0]), records[1..], e);
    } else {
      assert [e][1..] == [] && Loaded(Inserted(start, e), []) == Inserted(start, e);
      assert records + [e] == [e];
    }
  }

  lemma {:induction false} LoadedAscends<V(!new)>(start: seq<Entry<V>>, records: seq<Entry<V>>)
    requires Ascending(start)
    ensures Ascending(Loaded(start, records))
    ensures Ids(Loaded(start, records)) == Ids(start) + Ids(records)
    decreases |records|
  {
    hide Inserted, Ascending;
    if records == [] {
    } else {
      InsertedLaws(start, records[0]);
      LoadedAscends(Inserted(start, records[0]), records[1..]);
      IdsSplit(records);
    }
  }

  /** Nothing turns up in the list that was not put in. */
  lemma {:induction false} LoadedFrom<V(!new)>(start: seq<Entry<V>>, records: seq<Entry<V>>, x: Entry<V>)
    requires Ascending(start) && x in Loaded(start, records)
    ensures x in start || x in records
    decreases |records|
  {
    hide Inserted, Ascending;
    if records == [] {
    } else {
      InsertedLaws(start, records[0]);
      LoadedFrom(Inserted(start, records[0]), records[1..], x);
    }
  }

  /** No two of the entries have the same id but different values. */
  ghost predicate Agree<V(!new)>(s: seq<Entry<V>>, t: seq<Entry<V>>) {
    forall x, y :: (x in s || x in t) && (y in s || y in t) && x.id == y.id ==> x == y
  }

  /** When all agree, exactly what was there or was added is in the list. */
  lemma {:induction false} LoadedExact<V(!new)>(start: seq<Entry<V>>, records: seq<Entry<V>>)
    requires Ascending(start) && Agree(start, records)
    ensures forall x :: x in Loaded(start, records) <==> x in start || x in records
    decreases |records|
  {
    hide Inserted, Ascending;
    if records == [] {
    } else {
      InsertedLaws(start, records[0]);
      assert forall x :: x in Inserted(start, records[0]) <==> x in start || x == records[0];
      LoadedExact(Inserted(start, records[0]), records[1..]);
      assert records == [records[0]] + records[1..];
    }
  }

  lemma {:induction false} LoadedAppends<V>(start: seq<Entry<V>>, records: seq<Entry<V>>)
    requires Ascending(start + records)
    ensures Loaded(start, records) == start + records
    decreases |records|
  {
    if records == [] {
    } else {
      assert forall i :: 0 <= i < |start| ==> start[i] == (start + records)[i];
      assert records[0] == (start + records)[|start|];
      InsertedBefore(start, records[0], |start|);
      assert start[..|start|] + [records[0]] + start[|start|..] == start + [records[0]];
      assert start + [records[0]] + records[1..] == start + records;
      LoadedAppends(start + [records[0]], records[1..]);
    }
  }

  /** Records come out as they went in exactly when they were strictly ascending. */
  lemma LoadedKeepsIffAscending<V(!new)>(records: seq<Entry<V>>)
    ensures Loaded([], records) == records <==> Ascending(records)
  {
    LoadedAscends([], records);
    if Ascending(records) {
      assert [] + records == records;
      LoadedAppends([], records);
    }
  }
}
