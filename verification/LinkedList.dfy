/** The sorted linked lists of files and of nodes, on the heap. */
module LinkedList {
  import opened Circle
  import opened SortedSeq

  class Cell<V> {
    const id: Key
    var value: V
    var next: Cell?<V>

    constructor (e: Entry<V>)
      ensures id == e.id && value == e.value
    {
      id := e.id;
      value := e.value;
    }
  }

  class SortedList<V(!new)> {
    var head: Cell?<V>

    /** The cells, in the order in which they are linked. */
    ghost var spine: seq<Cell<V>>

    /** What they hold. */
    ghost var contents: seq<Entry<V>>

    /** The pointer in front of place k of the spine leads to that place. */
    ghost predicate Leads(k: nat)
      requires k <= |spine|
      reads this, spine`next
    {
      var target := if k < |spine| then spine[k] else null;
      target == if k == 0 then head else spine[k - 1].next
    }

    ghost predicate Shows(k: nat)
      requires k < |spine| == |contents|
      reads this, spine`value
    {
      spine[k].id == contents[k].id && spine[k].value == contents[k].value
    }

    ghost predicate Valid()
      reads this, spine
    {
      && |contents| == |spine|
      && Ascending(contents)
      && (forall k {:trigger Shows(k)} :: 0 <= k < |spine| ==> Shows(k))
      && (forall k {:trigger Leads(k)} :: 0 <= k <= |spine| ==> Leads(k))
    }

    lemma CellsDiffer(i: nat, j: nat)
      requires Valid() && i < |spine| && j < |spine| && i != j
      ensures spine[i] != spine[j]
    {
      assert Shows(i) && Shows(j);
      assert contents[i].id != contents[j].id by {
        assert i < j ==> contents[i].id < contents[j].id;
      }
    }

    constructor ()
      ensures Valid() && spine == [] && contents == []
    {
      head := null;
      spine := [];
      contents := [];
    }

    // -------------------------------------------------------------- adding

    /** Links a fresh cell in front of place k. */
    method LinkAt(n: Cell<V>, p: Cell?<V>, ghost k: nat)
      requires Valid() && k <= |spine| && n !in spine
      requires p == if k == 0 then null else spine[k - 1]
      requires forall i :: 0 <= i < k ==> contents[i].id < n.id
      requires k < |spine| ==> n.id < contents[k].id
      modifies this, n`next, spine`next
      ensures Valid() && spine == old(spine)[..k] + [n] + old(spine)[k..]
      ensures contents == Inserted(old(contents), Entry(n.id, n.value))
    {
      hide Inserted, Ascending, Ids;
      assert Leads(k);
      ghost var before := spine;
      InsertedBefore(contents, Entry(n.id, n.value), k);
      InsertedLaws(contents, Entry(n.id, n.value));
      forall i | 0 <= i < |spine| && i != k - 1 ensures spine[i] != p {
        if p != null {
          CellsDiffer(i, k - 1);
        }
      }
      if p == null {
        n.next := head;
        head := n;
      } else {
        n.next := p.next;
        p.next := n;
      }
      spine := before[..k] + [n] + before[k..];
      contents := contents[..k] + [Entry(n.id, n.value)] + contents[k..];
      forall i | 0 <= i < |spine| ensures Shows(i) {
        assert i < k ==> old(Shows(i));
        assert i > k ==> old(Shows(i - 1));
      }
      forall i | 0 <= i <= |spine| ensures Leads(i) {
        assert i < k ==> old(Leads(i));
        assert i > k + 1 ==> old(Leads(i - 1));
      }
    }

    /** An entry that has the id already stays, and the new one is dropped. Otherwise a fresh
        cell enters between the old ones. */
    method Add(e: Entry<V>) returns (ghost place: nat)
      requires Valid()
      modifies this, spine`next
      ensures Valid() && contents == Inserted(old(contents), e)
      ensures e.id in Ids(old(contents)) ==> spine == old(spine)
      ensures e.id !in Ids(old(contents)) ==>
        && place <= |old(spine)| && |spine| == |old(spine)| + 1 && fresh(spine[place])
        && spine == old(spine)[..place] + [spine[place]] + old(spine)[place..]
    {
      hide Inserted, Ascending, Ids;
      var n := new Cell(e);
      place := 0;
      assert Leads(0);
      if head == null {
        Absent(contents, e.id, 0);
        LinkAt(n, null, 0);
        return;
      }
      assert Shows(0);
      if e.id < head.id {
        Absent(contents, e.id, 0);
        LinkAt(n, null, 0);
        return;
      } else if e.id == head.id {
        Present(contents, 0);
        InsertedPresent(contents, e, 0);
        return;
      }
      place := AddBehindHead(e, n);
    }

    /** The walk down the list, with every cell up to p below the new one. */
    method AddBehindHead(e: Entry<V>, n: Cell<V>) returns (ghost place: nat)
      requires Valid() && head != null && head.id < e.id
      requires n !in spine && n.id == e.id && n.value == e.value
      modifies this, n`next, spine`next
      ensures Valid() && contents == Inserted(old(contents), e)
      ensures e.id in Ids(old(contents)) ==> spine == old(spine)
      ensures e.id !in Ids(old(contents)) ==>
        place <= |old(spine)| && spine == old(spine)[..place] + [n] + old(spine)[place..]
    {
      hide Inserted, Ascending, Ids;
      assert Leads(0) && Shows(0);
      var p := head;
      place := 1;
      while p.next != null
        invariant 0 < place <= |spine| && spine[place - 1] == p
        invariant forall i :: 0 <= i < place ==> contents[i].id < e.id
        decreases |spine| - place
      {
        assert Leads(place) && Shows(place);
        if e.id < p.next.id {
          break;
        } else if e.id == p.next.id {
          Present(contents, place);
          InsertedPresent(contents, e, place);
          return;
        }
        p := p.next;
        place := place + 1;
      }
      assert Leads(place);
      Absent(contents, e.id, place);
      LinkAt(n, p, place);
    }

    // -------------------------------------------------------------- removing

    /** Unlinks the cell at place k. */
    method UnlinkAt(p: Cell?<V>, ghost k: nat)
      requires Valid() && k < |spine|
      requires p == if k == 0 then null else spine[k - 1]
      modifies this, spine`next
      ensures Valid() && spine == old(spine)[..k] + old(spine)[k + 1..]
      ensures contents == old(contents)[..k] + old(contents)[k + 1..]
      ensures contents == Removed(old(contents), old(contents)[k].id)
    {
      hide Removed, Ascending, Ids;
      assert Leads(k) && Leads(k + 1);
      ghost var before := spine;
      RemovedAt(contents, k);
      RemovedLaws(contents, contents[k].id);
      forall i | 0 <= i < |spine| && i != k - 1 ensures spine[i] != p {
        if p != null {
          CellsDiffer(i, k - 1);
        }
      }
      if p == null {
        head := head.next;
      } else {
        p.next := p.next.next;
      }
      spine := before[..k] + before[k + 1..];
      contents := contents[..k] + contents[k + 1..];
      forall i | 0 <= i < |spine| ensures Shows(i) {
        assert i < k ==> old(Shows(i));
        assert i >= k ==> old(Shows(i + 1));
      }
      forall i | 0 <= i <= |spine| ensures Leads(i) {
        assert i < k ==> old(Leads(i));
        assert i > k ==> old(Leads(i + 1));
      }
    }

    /** The list must not be empty: its head is read without a test. */
    method Remove(id: Key) returns (ghost place: nat)
      requires Valid() && head != null
      modifies this, spine`next
      ensures Valid() && contents == Removed(old(contents), id)
      ensures id !in Ids(old(contents)) ==> spine == old(spine) && contents == old(contents)
      ensures id in Ids(old(contents)) ==>
        && place < |old(spine)| && old(contents)[place].id == id
        && spine == old(spine)[..place] + old(spine)[place + 1..]
        && contents == old(contents)[..place] + old(contents)[place + 1..]
    {
      hide Removed, Ascending, Ids;
      assert Leads(0) && Shows(0);
      place := 0;
      if head.id == id {
        Present(contents, 0);
        UnlinkAt(null, 0);
        return;
      }
      var p := head;
      while p.next != null
        invariant place < |spine| && spine[place] == p
        invariant forall i :: 0 <= i <= place ==> contents[i].id != id
        decreases |spine| - place
      {
        assert Leads(place + 1) && Shows(place + 1);
        if p.next.id == id {
          place := place + 1;
          Present(contents, place);
          UnlinkAt(p, place);
          return;
        }
        p := p.next;
        place := place + 1;
      }
      assert Leads(place + 1);
      RemovedFrom(contents, id, |spine|);
      NotAmong(contents, id);
    }

    /** Removes a cell in the middle of a walk: its successor is read first. */
    method RemoveAndGoOn(p: Cell<V>, ghost k: nat) returns (next: Cell?<V>)
      requires Valid() && k < |spine| && p == spine[k]
      modifies this, spine`next
      ensures Valid() && next == if k < |spine| then spine[k] else null
      ensures spine == old(spine)[..k] + old(spine)[k + 1..]
      ensures contents == old(contents)[..k] + old(contents)[k + 1..]
    {
      hide Removed, Ids;
      assert Shows(k) && Leads(0) && Leads(k + 1);
      Present(contents, k);
      next := p.next;
      var place := Remove(p.id);
      assert place == k by {
        assert old(contents)[place].id == old(contents)[k].id;
      }
    }

    /** Changes the value of one cell in place. */
    method SetValue(p: Cell<V>, v: V, ghost k: nat)
      requires Valid() && k < |spine| && p == spine[k]
      modifies this`contents, p`value
      ensures Valid() && contents == old(contents)[k := Entry(p.id, v)]
    {
      assert Shows(k);
      forall i | 0 <= i < |spine| && i != k ensures spine[i] != p {
        CellsDiffer(i, k);
      }
      p.value := v;
      contents := contents[k := Entry(p.id, v)];
      forall i | 0 <= i < |spine| ensures Shows(i) {
        assert old(Shows(i));
      }
      forall i | 0 <= i <= |spine| ensures Leads(i) {
        assert old(Leads(i));
      }
    }

    /** Popping the head until the list is empty. */
    method Free()
      requires Valid()
      modifies this, spine`next
      ensures Valid() && contents == [] && head == null
    {
      hide Removed, Ascending;
      assert Leads(0);
      while head != null
        invariant Valid() && Leads(0)
        invariant forall i :: 0 <= i < |spine| ==> spine[i] in old(spine)
        decreases |spine|
      {
        assert Shows(0);
        Present(contents, 0);
        var _ := Remove(head.id);
        assert Leads(0);
      }
    }
  }
}
