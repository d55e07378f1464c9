/** Torrent files as the trackers send them to each other. */
module TorrentFile {
  import opened Circle
  import opened KeyBytes
  import opened SortedSeq
  import opened LinkedList

  const MAGIC_SIZE := 8
  const STRING_SIZE := 512

  /** Where the fields behind the magic and the id start, and where the header ends. */
  const NAME := 40
  const PATH := 552
  const SIZE_FIELD := 1064
  const HEADER := 1072

  const RECORD := 48
  const FILE_T := 1080

  /** One field behind the other; the record of a peer is a key and a 16-byte address, and the record of
      a file has a pointer to the peers behind the header. */
  lemma Layout()
    ensures NAME == MAGIC_SIZE + KEY_SIZE && PATH == NAME + STRING_SIZE && SIZE_FIELD == PATH + STRING_SIZE
    ensures HEADER == SIZE_FIELD + 8 && RECORD == KEY_SIZE + 16 && FILE_T == HEADER + 8
  {
  }

  /** A peer as it is stored, listed under the id that its first bytes spell. */
  function PeerOf(record: Bytes): Entry<Bytes>
    requires |record| == RECORD
  {
    Entry(Value(record[..KEY_SIZE]), record)
  }

  /** A torrent file: what comes before the peers, and the peers. */
  datatype File = File(header: Bytes, peers: seq<Entry<Bytes>>)

  /** The id of the file, behind the magic. */
  function IdOf(f: File): Key
    requires |f.header| == HEADER
  {
    Value(f.header[8..40])
  }

  ghost predicate IsPeer(p: Entry<Bytes>) {
    |p.value| == RECORD && p == PeerOf(p.value)
  }

  ghost predicate WellFormed(f: File) {
    |f.header| == HEADER && forall i :: 0 <= i < |f.peers| ==> IsPeer(f.peers[i])
  }

  // ---------------------------------------------------------------- one file

  function Flat(peers: seq<Entry<Bytes>>): Bytes {
    if peers == [] then [] else Flat(peers[..|peers| - 1]) + peers[|peers| - 1].value
  }

  function Serialized(f: File): Bytes {
    f.header + Flat(f.peers)
  }

  function Records(bytes: Bytes): seq<Entry<Bytes>> {
    if |bytes| < RECORD then []
    else Records(bytes[..|bytes| - RECORD]) + [PeerOf(bytes[|bytes| - RECORD..])]
  }

  /** The message ends where a record ends. */
  ghost predicate Complete(msg: Bytes) {
    |msg| >= HEADER && (|msg| - HEADER) % RECORD == 0
  }

  function Deserialized(msg: Bytes): (f: File)
    requires Complete(msg)
  {
    File(msg[..HEADER], Loaded([], Records(msg[HEADER..])))
  }

  lemma {:induction false} FlatLength(peers: seq<Entry<Bytes>>)
    requires forall i :: 0 <= i < |peers| ==> IsPeer(peers[i])
    ensures |Flat(peers)| == RECORD * |peers|
  {
    if peers == [] {
    } else {
      FlatLength(peers[..|peers| - 1]);
    }
  }

  lemma OneMoreRecord(front: Bytes, record: Bytes)
    requires |record| == RECORD
    ensures Records(front + record) == Records(front) + [PeerOf(record)]
  {
  }

  lemma NoRecord()
    ensures Records([]) == []
  {
  }

  lemma {:induction false} RecordsOfFlat(peers: seq<Entry<Bytes>>)
    requires forall i :: 0 <= i < |peers| ==> IsPeer(peers[i])
    ensures Records(Flat(peers)) == peers
  {
    hide PeerOf, Records;
    if peers == [] {
      NoRecord();
    } else {
      var front, last := peers[..|peers| - 1], peers[|peers| - 1];
      RecordsOfFlat(front);
      assert IsPeer(last);
      OneMoreRecord(Flat(front), last.value);
    }
  }

  /** In a message the header comes first, and then the peers in the order of the list. */
  lemma MessageLayout(f: File, i: nat)
    requires WellFormed(f)
    ensures |Serialized(f)| == HEADER + RECORD * |f.peers| && Serialized(f)[..HEADER] == f.header
    ensures i < |f.peers| ==>
      Serialized(f)[HEADER + RECORD * i..HEADER + RECORD * i + RECORD] == f.peers[i].value
  {
    hide Flat;
    FlatLength(f.peers);
    if i < |f.peers| {
      FlatAt(f.peers, i);
      var from := RECORD * i;
      assert Serialized(f)[HEADER + from..HEADER + from + RECORD] == Flat(f.peers)[from..from + RECORD];
    }
  }

  lemma {:induction false} FlatAt(peers: seq<Entry<Bytes>>, i: nat)
    requires (forall j :: 0 <= j < |peers| ==> IsPeer(peers[j])) && i < |peers|
    ensures |Flat(peers)| == RECORD * |peers|
    ensures Flat(peers)[RECORD * i..RECORD * i + RECORD] == peers[i].value
  {
    hide PeerOf;
    FlatLength(peers);
    var front, last := peers[..|peers| - 1], peers[|peers| - 1];
    FlatLength(front);
    assert IsPeer(last);
    if i == |peers| - 1 {
    } else {
      FlatAt(front, i);
      assert Flat(peers)[RECORD * i..RECORD * i + RECORD] == Flat(front)[RECORD * i..RECORD * i + RECORD];
    }
  }

  /** Record i of a message is made of its i-th 48 bytes. */
  lemma {:induction false} RecordAt(bytes: Bytes, n: nat, i: nat)
    requires |bytes| == RECORD * n && i < n
    ensures |Records(bytes)| == n && Records(bytes)[i] == PeerOf(bytes[RECORD * i..RECORD * i + RECORD])
    decreases n
  {
    hide PeerOf;
    var front := bytes[..|bytes| - RECORD];
    RecordCount(front, n - 1);
    assert Records(bytes) == Records(front) + [PeerOf(bytes[|bytes| - RECORD..])];
    if i == n - 1 {
      assert bytes[|bytes| - RECORD..] == bytes[RECORD * i..RECORD * i + RECORD];
    } else {
      RecordAt(front, n - 1, i);
      assert front[RECORD * i..RECORD * i + RECORD] == bytes[RECORD * i..RECORD * i + RECORD];
    }
  }

  lemma {:induction false} RecordCount(bytes: Bytes, n: nat)
    requires |bytes| == RECORD * n
    ensures |Records(bytes)| == n
    decreases n
  {
    if n == 0 {
    } else {
      RecordCount(bytes[..|bytes| - RECORD], n - 1);
    }
  }

  /** The id of a file is what the 32 bytes behind the magic spell, and that of a peer what its first
      32 bytes spell; other bytes play no part. */
  lemma IdsAreTheirBytes(f: File, g: File, p: Bytes, q: Bytes)
    requires |f.header| == HEADER == |g.header| && |p| == RECORD == |q|
    ensures IdOf(f) == IdOf(g) <==> f.header[MAGIC_SIZE..NAME] == g.header[MAGIC_SIZE..NAME]
    ensures PeerOf(p).id == PeerOf(q).id <==> p[..KEY_SIZE] == q[..KEY_SIZE]
    ensures PeerOf(p).value == p
  {
    hide Value;
    ValueIsInjective(f.header[MAGIC_SIZE..NAME], g.header[MAGIC_SIZE..NAME]);
    ValueIsInjective(p[..KEY_SIZE], q[..KEY_SIZE]);
  }

  /** What arrives has the header that was sent and the peers sorted, without duplicates; it
      is the file itself exactly when its peers are strictly ascending. */
  lemma RoundTrip(f: File)
    requires WellFormed(f)
    ensures Complete(Serialized(f))
    ensures Deserialized(Serialized(f)) == File(f.header, Loaded([], f.peers))
    ensures Deserialized(Serialized(f)) == f <==> Ascending(f.peers)
  {
    hide Flat, Records, Loaded, Ascending, IsPeer;
    FlatLength(f.peers);
    RecordsOfFlat(f.peers);
    assert Serialized(f)[HEADER..] == Flat(f.peers);
    LoadedKeepsIffAscending(f.peers);
  }

  /** A serialized file is never as long as the message that ends the stream. */
  lemma NeverTerminator(f: File)
    requires WellFormed(f)
    ensures |Serialized(f)| != FILE_T
  {
  }

  /** The file as every list stores it: peers sorted, without duplicates. */
  function Stored(f: File): File {
    File(f.header, Loaded([], f.peers))
  }

  ghost predicate Storable(f: File) {
    WellFormed(f) && Ascending(f.peers)
  }

  lemma StoredIsStorable(f: File)
    requires WellFormed(f)
    ensures Storable(Stored(f)) && (Ascending(f.peers) ==> Stored(f) == f)
  {
    LoadedAscends([], f.peers);
    LoadedKeepsIffAscending(f.peers);
    var peers := Loaded([], f.peers);
    forall i | 0 <= i < |peers| ensures IsPeer(peers[i]) {
      LoadedFrom([], f.peers, peers[i]);
    }
  }

  lemma {:induction false} RecordsArePeers(bytes: Bytes)
    ensures forall p :: p in Records(bytes) ==> IsPeer(p)
    decreases |bytes|
  {
    if |bytes| < RECORD {
    } else {
      RecordsArePeers(bytes[..|bytes| - RECORD]);
    }
  }

  /** Whatever message arrives, the file made of it has sorted peers. */
  lemma DeserializedIsStorable(msg: Bytes)
    requires Complete(msg)
    ensures Storable(Deserialized(msg))
  {
    hide Records, IsPeer;
    var records := Records(msg[HEADER..]);
    RecordsArePeers(msg[HEADER..]);
    LoadedAscends([], records);
    var peers := Loaded([], records);
    forall i | 0 <= i < |peers| ensures IsPeer(peers[i]) {
      LoadedFrom([], records, peers[i]);
    }
  }

  // ---------------------------------------------------------------- the path of a saved file

  const FOLDER: Bytes := [46, 47, 116, 111, 114, 114, 101, 110, 116, 47] // ./torrent/
  const EXTENSION: Bytes := [46, 116, 111, 114, 114, 101, 110, 116] // .torrent
  const UNDERSCORE: Byte := 95

  /** The characters in front of the first end of string. */
  function StringIn(bytes: Bytes): (s: Bytes)
    ensures |s| <= |bytes| && s == bytes[..|s|] && 0 !in s
  {
    if bytes == [] || bytes[0] == 0 then [] else [bytes[0]] + StringIn(bytes[1..])
  }

  function HexDigit(n: nat): (c: Byte)
    requires n < 16
    ensures c != 0
  {
    if n < 10 then 48 + n else 87 + n
  }

  /** Two hexadecimal digits for each byte. */
  function Hex(bytes: Bytes): (s: Bytes)
    ensures |s| == 2 * |bytes| && 0 !in s
  {
    if bytes == [] then [] else [HexDigit(bytes[0] / 16), HexDigit(bytes[0] % 16)] + Hex(bytes[1..])
  }

  /** ./torrent/name_id.torrent */
  function SavedPath(header: Bytes): (path: Bytes)
    requires |header| >= PATH
    ensures 0 !in path && |path| == |StringIn(header[NAME..PATH])| + 83
  {
    FOLDER + StringIn(header[NAME..PATH]) + [UNDERSCORE] + Hex(header[8..NAME]) + EXTENSION
  }

  /** Saving a torrent file writes the path into its header; one that would be too long is not
      written, and the caller does not notice. */
  function Saved(header: Bytes): (r: Bytes)
    ensures |r| == |header|
  {
    if |header| != HEADER then header
    else
      var path := SavedPath(header);
      if |path| >= 512 then header else header[..PATH] + path + [0] + header[PATH + |path| + 1..]
  }

  function SavedFile(f: File): File {
    File(Saved(f.header), f.peers)
  }

  /** Only the path changes. */
  lemma SavedKeepsData(header: Bytes)
    requires |header| == HEADER
    ensures Saved(header)[..PATH] == header[..PATH] && Saved(header)[SIZE_FIELD..] == header[SIZE_FIELD..]
  {
    hide SavedPath;
    var path := SavedPath(header);
    if |path| < 512 {
      Overwritten(header, PATH, path, SIZE_FIELD);
    }
  }

  /** It becomes a string of the name and the id, unless that is too long. */
  lemma SavedPathIsWritten(header: Bytes)
    requires |header| == HEADER
    ensures |SavedPath(header)| < 512 ==> StringIn(Saved(header)[PATH..SIZE_FIELD]) == SavedPath(header)
    ensures |SavedPath(header)| >= 512 ==> Saved(header) == header
  {
    hide SavedPath, StringIn;
    var path := SavedPath(header);
    if |path| < 512 {
      Overwritten(header, PATH, path, SIZE_FIELD);
      StringInFront(path, [0] + header[PATH + |path| + 1..SIZE_FIELD]);
    }
  }

  /** A string and its end written over a part of the header. */
  lemma Overwritten(header: Bytes, from: nat, path: Bytes, to: nat)
    requires from + |path| < to <= |header|
    ensures var r := header[..from] + path + [0] + header[from + |path| + 1..];
      && |r| == |header| && r[..from] == header[..from] && r[to..] == header[to..]
      && r[from + |path| + 1..] == header[from + |path| + 1..]
      && r[from..to] == path + ([0] + header[from + |path| + 1..to])
  {
    var r := header[..from] + path + [0] + header[from + |path| + 1..];
    var t := path + ([0] + header[from + |path| + 1..to]);
    assert |r[from..to]| == |t|;
    forall i | 0 <= i < |t| ensures r[from..to][i] == t[i] {
      assert r[from..to][i] == r[from + i];
    }
  }

  lemma {:induction false} StringInFront(s: Bytes, rest: Bytes)
    requires 0 !in s && rest != [] && rest[0] == 0
    ensures StringIn(s + rest) == s
  {
    if s == [] {
      assert s + rest == rest;
    } else {
      assert (s + rest)[1..] == s[1..] + rest;
      StringInFront(s[1..], rest);
    }
  }

  /** Saving again changes nothing. */
  lemma SavedTwice(header: Bytes)
    ensures Saved(Saved(header)) == Saved(header)
  {
    if |header| == HEADER {
      SamePath(header, Saved(header));
      var path := SavedPath(header);
      if |path| < 512 {
        Overwritten(header, PATH, path, SIZE_FIELD);
      }
    }
  }

  lemma SamePath(header: Bytes, header': Bytes)
    requires |header| == HEADER == |header'| && header' == Saved(header)
    ensures SavedPath(header') == SavedPath(header) && header'[..PATH] == header[..PATH]
  {
    SavedKeepsData(header);
    assert header'[NAME..PATH] == header'[..PATH][NAME..PATH] && header[NAME..PATH] == header[..PATH][NAME..PATH];
    assert header'[8..NAME] == header'[..PATH][8..NAME] && header[8..NAME] == header[..PATH][8..NAME];
  }

  lemma SavedKeepsId(f: File)
    requires |f.header| == HEADER
    ensures IdOf(SavedFile(f)) == IdOf(f)
  {
    SavedKeepsData(f.header);
    assert Saved(f.header)[8..40] == Saved(f.header)[..PATH][8..40] && f.header[8..40] == f.header[..PATH][8..40];
  }

  // ---------------------------------------------------------------- the byte loops

  method PeersSize(peers: SortedList<Bytes>) returns (size: nat)
    requires peers.Valid()
    ensures size == RECORD * |peers.contents|
  {
    size := 0;
    var peer := peers.head;
    ghost var k := 0;
    assert peers.Leads(0);
    while peer != null
      invariant k <= |peers.spine| && size == RECORD * k
      invariant peer == if k < |peers.spine| then peers.spine[k] else null
      decreases |peers.spine| - k
    {
      assert peers.Leads(k + 1);
      size := size + RECORD;
      peer := peer.next;
      k := k + 1;
    }
  }

  /** The header, then every peer in the order of the list. */
  method SerializeFile(header: Bytes, peers: SortedList<Bytes>) returns (msg: array<Byte>)
    requires |header| == HEADER && peers.Valid() && WellFormed(File(header, peers.contents))
    ensures fresh(msg) && msg[..] == Serialized(File(header, peers.contents))
  {
    var peersSize := PeersSize(peers);
    msg := new Byte[HEADER + peersSize];
    PutHeader(msg, header);
    PutPeers(msg, header, peers);
  }

  method PutHeader(msg: array<Byte>, header: Bytes)
    requires |header| == HEADER <= msg.Length
    modifies msg
    ensures msg[..HEADER] == header
  {
    forall i | 0 <= i < HEADER {
      msg[i] := header[i];
    }
  }

  method PutPeers(msg: array<Byte>, ghost header: Bytes, peers: SortedList<Bytes>)
    requires |header| == HEADER && peers.Valid() && WellFormed(File(header, peers.contents))
    requires msg.Length == HEADER + RECORD * |peers.contents| && msg[..HEADER] == header
    modifies msg
    ensures msg[..] == header + Flat(peers.contents)
  {
    hide PeerOf, Ascending;
    var peer, size := peers.head, 0;
    ghost var k := 0;
    assert peers.Leads(0);
    assert peers.contents[..0] == [];
    while peer != null
      invariant k <= |peers.spine| && size == RECORD * k
      invariant peer == if k < |peers.spine| then peers.spine[k] else null
      invariant msg[..HEADER + size] == header + Flat(peers.contents[..k])
      decreases |peers.spine| - k
    {
      assert peers.Leads(k + 1) && peers.Shows(k) && IsPeer(peers.contents[k]);
      FlatOneMore(peers.contents, k);
      PutRecord(msg, HEADER + size, peer.value);
      size := size + RECORD;
      peer := peer.next;
      k := k + 1;
    }
    assert peers.contents[..k] == peers.contents;
    assert msg[..] == msg[..HEADER + size];
  }

  lemma FlatOneMore(peers: seq<Entry<Bytes>>, k: nat)
    requires k < |peers|
    ensures Flat(peers[..k + 1]) == Flat(peers[..k]) + peers[k].value
  {
    assert peers[..k + 1][..k] == peers[..k];
  }

  method PutRecord(msg: array<Byte>, at: nat, record: Bytes)
    requires |record| == RECORD && at + RECORD <= msg.Length
    modifies msg
    ensures msg[..at + RECORD] == old(msg[..at]) + record
  {
    forall j | 0 <= j < RECORD {
      msg[at + j] := record[j];
    }
  }

  /** The list holds the first k records of the message. */
  ghost predicate Loading(msg: Bytes, k: nat, peers: seq<Entry<Bytes>>) {
    HEADER + RECORD * k <= |msg| && peers == Loaded([], Records(msg[HEADER..HEADER + RECORD * k]))
  }

  lemma LoadingStarts(msg: Bytes)
    requires |msg| >= HEADER
    ensures Loading(msg, 0, [])
  {
  }

  lemma LoadingGoesOn(msg: Bytes, k: nat, peers: seq<Entry<Bytes>>)
    requires Loading(msg, k, peers) && HEADER + RECORD * (k + 1) <= |msg|
    ensures Loading(msg, k + 1, Inserted(peers, PeerOf(msg[HEADER + RECORD * k..HEADER + RECORD * (k + 1)])))
  {
    hide Loaded, Inserted, PeerOf, Records;
    var done, record := msg[HEADER..HEADER + RECORD * k], msg[HEADER + RECORD * k..HEADER + RECORD * (k + 1)];
    OneMoreRecord(done, record);
    LoadedOneMore([], Records(done), PeerOf(record));
    assert done + record == msg[HEADER..HEADER + RECORD * (k + 1)];
  }

  lemma LoadingEnds(msg: Bytes, k: nat, peers: seq<Entry<Bytes>>)
    requires Loading(msg, k, peers) && |msg| == HEADER + RECORD * k
    ensures Complete(msg) && File(msg[..HEADER], peers) == Deserialized(msg)
  {
    hide Records, Loaded;
    assert msg[HEADER..HEADER + RECORD * k] == msg[HEADER..];
  }

  /** Every record goes through list_add, whatever order the message has them in. */
  method DeserializeFile(msg: Bytes) returns (header: Bytes, peers: SortedList<Bytes>)
    requires Complete(msg)
    ensures fresh(peers) && peers.Valid() && fresh(peers.spine)
    ensures File(header, peers.contents) == Deserialized(msg)
  {
    hide Loading, Deserialized, Inserted, Value, Ascending;
    header := msg[..HEADER];
    ghost var k, n := 0, (|msg| - HEADER) / RECORD;
    LoadingStarts(msg);
    peers := new SortedList<Bytes>();
    var i := HEADER;
    while i < |msg|
      invariant 0 <= k <= n && i == HEADER + RECORD * k
      invariant fresh(peers) && peers.Valid() && fresh(peers.spine)
      invariant Loading(msg, k, peers.contents)
    {
      LoadingGoesOn(msg, k, peers.contents);
      var record := msg[i..i + RECORD];
      var place := peers.Add(Entry(Value(record[..KEY_SIZE]), record));
      k, i := k + 1, i + RECORD;
    }
    LoadingEnds(msg, k, peers.contents);
  }

  // ---------------------------------------------------------------- a stream of files

  predicate IsTerminator(msg: Bytes) {
    |msg| == FILE_T && forall i :: 0 <= i < |msg| ==> msg[i] == 0
  }

  function Terminator(): (msg: Bytes)
    ensures IsTerminator(msg)
  {
    seq(FILE_T, i => 0)
  }

  function Messages(files: seq<File>): (r: seq<Bytes>)
    ensures |r| == |files| && forall i :: 0 <= i < |files| ==> r[i] == Serialized(files[i])
  {
    seq(|files|, i requires 0 <= i < |files| => Serialized(files[i]))
  }

  /** The messages that answer one MOVE_DATA request. */
  function Stream(files: seq<File>): seq<Bytes> {
    Messages(files) + [Terminator()]
  }

  /** What the reader makes of them; None while the terminator is still to come or when a
      message is no file. */
  ghost function Decoded(stream: seq<Bytes>): Option<seq<File>> {
    if stream == [] then None
    else if IsTerminator(stream[0]) then Some([])
    else if !Complete(stream[0]) then None
    else
      var rest := Decoded(stream[1..]);
      if rest.None? then None else Some([Deserialized(stream[0])] + rest.value)
  }

  lemma OneMessage(f: File)
    requires Storable(f)
    ensures !IsTerminator(Serialized(f)) && Complete(Serialized(f)) && Deserialized(Serialized(f)) == f
  {
    NeverTerminator(f);
    RoundTrip(f);
  }

  lemma {:induction false} StreamRoundTrip(files: seq<File>)
    requires forall i :: 0 <= i < |files| ==> Storable(files[i])
    ensures Decoded(Stream(files)) == Some(files)
  {
    hide Serialized, Deserialized, Storable, IsTerminator, Complete;
    if files != [] {
      OneMessage(files[0]);
      StreamRoundTrip(files[1..]);
      assert Stream(files)[0] == Serialized(files[0]) && Stream(files)[1..] == Stream(files[1..]);
      assert [files[0]] + files[1..] == files;
    } else {
      assert Stream(files) == [Terminator()] && Decoded([Terminator()]) == Some([]);
    }
  }
}
