/** The tokenizer itself, which works in place: it overwrites separators and closing quotes in the
    buffer and returns positions in it. */
module CmdParser {
  import opened Circle
  import opened Commands

  /** Where a flag and its value start. */
  datatype Slot = Slot(flag: nat, value: Option<nat>)

  /** The string that starts at position p. */
  ghost function Str(content: string, p: nat): string {
    if p <= |content| then Text(content[p..]) else ""
  }

  ghost function ReadSlot(content: string, s: Slot): Arg {
    Arg(Str(content, s.flag), if s.value.Some? then Some(Str(content, s.value.value)) else None)
  }

  ghost function ReadAll(content: string, args: seq<Slot>): (r: seq<Arg>)
    ensures |r| == |args| && forall i :: 0 <= i < |r| ==> r[i] == ReadSlot(content, args[i])
  {
    seq(|args|, i requires 0 <= i < |args| => ReadSlot(content, args[i]))
  }

  /** The string at pos ends at p at the latest. */
  ghost predicate EndsBy(content: string, pos: nat, p: nat) {
    p < |content| && pos + |Str(content, pos)| <= p
  }

  ghost predicate SlotEndsBy(content: string, s: Slot, p: nat) {
    EndsBy(content, s.flag, p) && (s.value.Some? ==> EndsBy(content, s.value.value, p))
  }

  /** Strings that have ended are not disturbed by changes behind them. */
  lemma Undisturbed(content: string, content': string, pos: nat, p: nat)
    requires EndsBy(content, pos, p) && |content'| == |content| && content'[..p + 1] == content[..p + 1]
    ensures Str(content', pos) == Str(content, pos) && EndsBy(content', pos, p)
  {
    var t := Str(content, pos);
    var end := pos + |t|;
    assert content[end] == '\0' == content'[end] by {
      assert content[pos..][|t|] == '\0';
      assert content[..p + 1][end] == content'[..p + 1][end];
    }
    assert content'[pos..] == content'[pos..end] + content'[end..];
    assert content'[pos..end] == content'[..p + 1][pos..end] == content[pos..end] == t;
    TextOf(t, content'[end..]);
  }

  lemma SlotsUndisturbed(content: string, content': string, args: seq<Slot>, p: nat)
    requires |content'| == |content| && p < |content| && content'[..p + 1] == content[..p + 1]
    requires forall i :: 0 <= i < |args| ==> SlotEndsBy(content, args[i], p)
    ensures ReadAll(content', args) == ReadAll(content, args)
    ensures forall i :: 0 <= i < |args| ==> SlotEndsBy(content', args[i], p)
  {
    hide Str, EndsBy;
    forall i | 0 <= i < |args|
      ensures ReadSlot(content', args[i]) == ReadSlot(content, args[i]) && SlotEndsBy(content', args[i], p)
    {
      Undisturbed(content, content', args[i].flag, p);
      if args[i].value.Some? {
        Undisturbed(content, content', args[i].value.value, p);
      }
    }
  }

  // ---------------------------------------------------------------- string functions

  /** strchr(p, 0) */
  method EndOf(buf: array<char>, p: nat) returns (e: nat)
    requires p < buf.Length && buf[buf.Length - 1] == '\0'
    ensures e == p + |Str(buf[..], p)| && e < buf.Length && buf[e] == '\0'
  {
    e := p;
    while buf[e] != '\0'
      invariant p <= e < buf.Length
      invariant p + |Str(buf[..], p)| == e + |Str(buf[..], e)|
      decreases buf.Length - e
    {
      assert buf[..][e..][1..] == buf[..][e + 1..];
      e := e + 1;
    }
  }

  /** strcmp(a, b) == 0 */
  method SameString(buf: array<char>, a: nat, b: nat) returns (same: bool)
    requires a < buf.Length && b < buf.Length && buf[buf.Length - 1] == '\0'
    ensures same <==> Str(buf[..], a) == Str(buf[..], b)
  {
    hide Str;
    var i: nat, j: nat := a, b;
    while buf[i] == buf[j] && buf[i] != '\0'
      invariant i < buf.Length && j < buf.Length
      invariant Str(buf[..], a) == Str(buf[..], b) <==> Str(buf[..], i) == Str(buf[..], j)
      decreases buf.Length - i
    {
      OneMoreEqual(buf[..], i, j);
      i, j := i + 1, j + 1;
    }
    FirstsDecide(buf[..], i, j);
    same := buf[i] == buf[j];
  }

  lemma FirstsDecide(content: string, i: nat, j: nat)
    requires i < |content| && j < |content| && (content[i] != content[j] || content[i] == '\0')
    ensures Str(content, i) == Str(content, j) <==> content[i] == content[j]
  {
  }

  lemma OneMoreEqual(content: string, i: nat, j: nat)
    requires i < |content| && j < |content| && content[i] == content[j] != '\0'
    ensures Str(content, i) == Str(content, j) <==> Str(content, i + 1) == Str(content, j + 1)
  {
    assert content[i..][1..] == content[i + 1..] && content[j..][1..] == content[j + 1..];
    var s, t := Str(content, i), Str(content, j);
    assert s == [content[i]] + Str(content, i + 1) && t == [content[j]] + Str(content, j + 1);
    assert s[1..] == Str(content, i + 1) && t[1..] == Str(content, j + 1);
  }

  method FlagRepeats(buf: array<char>, args: seq<Slot>, p: nat) returns (found: bool)
    requires p < buf.Length && buf[buf.Length - 1] == '\0'
    requires forall i :: 0 <= i < |args| ==> args[i].flag < buf.Length
    ensures found <==> Repeats(ReadAll(buf[..], args), Str(buf[..], p))
  {
    hide Str;
    var i := 0;
    while i < |args|
      invariant 0 <= i <= |args|
      invariant forall k :: 0 <= k < i ==> ReadAll(buf[..], args)[k].flag != Str(buf[..], p)
    {
      var same := SameString(buf, args[i].flag, p);
      if same {
        assert ReadAll(buf[..], args)[i].flag == Str(buf[..], p);
        return true;
      }
      i := i + 1;
    }
    return false;
  }

  // ---------------------------------------------------------------- the first pass

  /** Every space outside quotes becomes an end of string. */
  method MarkSpaces(buf: array<char>, n: nat)
    requires n < buf.Length
    modifies buf
    ensures buf[..n] == Marked(old(buf[..n]), false)
    ensures buf[n..] == old(buf[n..])
  {
    hide Marked;
    var quote, i := false, 0;
    ghost var s := buf[..n];
    assert s[0..] == s && buf[..0] + Marked(s, false) == Marked(s, false);
    while i < n
      invariant 0 <= i <= n
      invariant buf[..i] + Marked(s[i..], quote) == Marked(s, false)
      invariant forall k :: i <= k < buf.Length ==> buf[k] == old(buf[k])
    {
      ghost var front, wasQuote := buf[..i], quote;
      MarkStep(s, i, quote);
      if buf[i] == ' ' && !quote {
        buf[i] := '\0';
      }
      if buf[i] == '"' {
        quote := !quote;
      }
      assert buf[..i + 1] == front + [buf[i]];
      assert front + ([buf[i]] + Marked(s[i + 1..], quote)) == buf[..i + 1] + Marked(s[i + 1..], quote);
      i := i + 1;
    }
    MarkEnds(s[n..], quote);
    assert buf[..n] + "" == buf[..n];
  }

  lemma MarkEnds(s: string, quote: bool)
    requires s == ""
    ensures Marked(s, quote) == ""
  {
  }

  lemma MarkStep(s: string, i: nat, quote: bool)
    requires i < |s|
    ensures Marked(s[i..], quote)
         == [if s[i] == ' ' && !quote then '\0' else s[i]] + Marked(s[i + 1..], if s[i] == '"' then !quote else quote)
  {
  }

  // ---------------------------------------------------------------- the tokens

  ghost function PendingText(content: string, pending: Option<nat>): Option<string> {
    if pending.Some? then Some(Str(content, pending.value)) else None
  }

  ghost predicate Ended(content: string) {
    |content| > 0 && content[|content| - 1] == '\0'
  }

  /** What is still to be read, without the last end of string. */
  ghost function Ahead(content: string, p: nat): string
    requires p < |content|
  {
    content[p..|content| - 1]
  }

  /** The loop stands at p, behind a token; what it has and what is ahead add up to the goal. */
  ghost predicate Standing(content: string, p: nat, args: seq<Slot>, pending: Option<nat>, goal: Option<seq<Arg>>) {
    && Ended(content) && p < |content| && content[p] == '\0' && |args| < MAX_ARGS
    && (forall i :: 0 <= i < |args| ==> SlotEndsBy(content, args[i], p))
    && (pending.Some? ==> EndsBy(content, pending.value, p))
    && ParseArgs(Ahead(content, p), ReadAll(content, args), PendingText(content, pending)) == goal
  }

  /** The next token starts at q. */
  ghost predicate TokenAt(content: string, p: nat, q: nat) {
    && Ended(content) && p + 1 < |content| - 1 && p < q < |content| - 1
    && Ahead(content, q) == SkipEnds(Ahead(content, p))
  }

  lemma {:induction false} TextBeforeEnd(r: string)
    ensures Text(r + "\0") == Text(r)
  {
    TextOf(Text(r), r[|Text(r)|..] + "\0");
    assert r + "\0" == Text(r) + (r[|Text(r)|..] + "\0");
  }

  lemma TokenText(content: string, p: nat, q: nat)
    requires TokenAt(content, p, q)
    ensures |Ahead(content, p)| >= 2 && Str(content, q) == Text(SkipEnds(Ahead(content, p)))
    ensures q + |Str(content, q)| < |content| && content[q + |Str(content, q)|] == '\0'
    ensures Dashed(Str(content, q)) <==> content[q] == '-'
    ensures InQuotes(Str(content, q)) <==> content[q] == '"'
  {
    hide SkipEnds;
    var r := Ahead(content, q);
    TextBeforeEnd(r);
    assert content[q..] == r + "\0";
    assert Text(content[q..]) == content[q..][..|Text(content[q..])|];
    var t := Str(content, q);
    assert |t| < |content[q..]| ==> content[q..][|t|] == '\0';
    assert content[q] != '\0' ==> t != "" && t[0] == content[q];
  }

  lemma SkipStep(content: string, q: nat)
    requires q + 1 < |content| - 1 && content[q] == '\0'
    ensures SkipEnds(Ahead(content, q)) == SkipEnds(Ahead(content, q + 1))
  {
  }

  lemma TokenReached(content: string, p: nat, q: nat)
    requires Ended(content) && p + 1 < |content| - 1 && p < q < |content| - 1
    requires SkipEnds(Ahead(content, p)) == SkipEnds(Ahead(content, q))
    requires q + 1 == |content| - 1 || content[q] != '\0'
    ensures TokenAt(content, p, q)
  {
  }

  /** Skips ends of strings up to the next token, but never the last character. */
  method NextToken(buf: array<char>, p: nat) returns (q: nat)
    requires Ended(buf[..]) && p + 1 < buf.Length - 1 && buf[p] == '\0'
    ensures TokenAt(buf[..], p, q)
  {
    hide Ahead, SkipEnds, TokenAt;
    ghost var content := buf[..];
    q := p;
    while q + 1 < buf.Length - 1 && buf[q] == '\0'
      invariant p <= q < |content| - 1 && content == buf[..]
      invariant SkipEnds(Ahead(content, p)) == SkipEnds(Ahead(content, q))
      decreases |content| - q
    {
      SkipStep(content, q);
      q := q + 1;
    }
    TokenReached(content, p, q);
  }

  lemma NothingAhead(content: string, p: nat, args: seq<Slot>, pending: Option<nat>, goal: Option<seq<Arg>>)
    requires Standing(content, p, args, pending, goal) && p + 1 >= |content| - 1
    ensures goal == Some(ReadAll(content, if pending.Some? then args + [Slot(pending.value, None)] else args))
  {
    hide Str;
    assert pending.Some? ==>
      ReadAll(content, args + [Slot(pending.value, None)])
        == ReadAll(content, args) + [Arg(Str(content, pending.value), None)];
  }

  lemma Refused(content: string, p: nat, q: nat, args: seq<Slot>, pending: Option<nat>, goal: Option<seq<Arg>>)
    requires Standing(content, p, args, pending, goal) && TokenAt(content, p, q)
    requires if content[q] == '-' then Repeats(ReadAll(content, args), Str(content, q)) else pending.None?
    ensures goal == None
  {
    hide SkipEnds, Text, Repeats, Dashed, InQuotes, Unquoted, BehindValue;
    TokenText(content, p, q);
  }

  ghost function WithFlag(args: seq<Slot>, pending: Option<nat>): seq<Slot> {
    if pending.Some? then args + [Slot(pending.value, None)] else args
  }

  lemma ReadWithFlag(content: string, args: seq<Slot>, pending: Option<nat>)
    ensures ReadAll(content, WithFlag(args, pending))
         == ReadAll(content, args) + if pending.Some? then [Arg(Str(content, pending.value), None)] else []
  {
  }

  lemma LaterEnds(content: string, args: seq<Slot>, p: nat, e: nat)
    requires p <= e < |content| && forall i :: 0 <= i < |args| ==> SlotEndsBy(content, args[i], p)
    ensures forall i :: 0 <= i < |args| ==> SlotEndsBy(content, args[i], e)
  {
  }

  /** A flag token; the flag before it, if one waits, has no value. */
  lemma FlagTaken(content: string, p: nat, q: nat, args: seq<Slot>, pending: Option<nat>, goal: Option<seq<Arg>>)
    requires Standing(content, p, args, pending, goal) && TokenAt(content, p, q)
    requires content[q] == '-' && !Repeats(ReadAll(content, args), Str(content, q))
    ensures |WithFlag(args, pending)| == MAX_ARGS ==> goal == Some(ReadAll(content, WithFlag(args, pending)))
    ensures |WithFlag(args, pending)| < MAX_ARGS ==>
      Standing(content, q + |Str(content, q)|, WithFlag(args, pending), Some(q), goal)
  {
    hide SkipEnds, Text, Repeats, Dashed, InQuotes, Unquoted, BehindValue, Str;
    TokenText(content, p, q);
    ReadWithFlag(content, args, pending);
    var e := q + |Str(content, q)|;
    LaterEnds(content, WithFlag(args, pending), p, e);
    assert Ahead(content, q)[|Str(content, q)|..] == Ahead(content, e);
  }

  ghost function WithValue(args: seq<Slot>, flag: nat, v: nat): seq<Slot> {
    args + [Slot(flag, Some(v))]
  }

  /** A value token, read at v from a buffer in which its closing quote may be gone. */
  lemma ValueTaken(content: string, content': string, p: nat, q: nat, v: nat, e: nat,
                   args: seq<Slot>, flag: nat, goal: Option<seq<Arg>>)
    requires Standing(content, p, args, Some(flag), goal) && TokenAt(content, p, q) && content[q] != '-'
    requires |content'| == |content| && content'[..p + 1] == content[..p + 1] && Ended(content')
    requires Str(content', v) == Unquoted(Str(content, q))
    requires p <= e < |content| && content'[e] == '\0' && EndsBy(content', v, e)
    requires Ahead(content', e) == BehindValue(Ahead(content, q), Str(content, q))
    ensures var more := WithValue(args, flag, v);
      if |more| == MAX_ARGS then goal == Some(ReadAll(content', more)) else Standing(content', e, more, None, goal)
  {
    hide SkipEnds, Text, Repeats, Dashed, InQuotes, Unquoted, BehindValue, Str;
    TokenText(content, p, q);
    Undisturbed(content, content', flag, p);
    SlotsUndisturbed(content, content', args, p);
    var more := WithValue(args, flag, v);
    assert ReadAll(content', more)
        == ReadAll(content, args) + [Arg(Str(content, flag), Some(Unquoted(Str(content, q))))];
    LaterEnds(content', args, p, e);
  }

  // ---------------------------------------------------------------- quoted values

  lemma StrHead(content: string, q: nat)
    requires q < |content| && content[q] != '\0'
    ensures Str(content, q) == [content[q]] + Str(content, q + 1)
  {
  }

  lemma StrBound(content: string, p: nat)
    requires Ended(content) && p < |content|
    ensures var e := p + |Str(content, p)|;
      e < |content| && content[e] == '\0' && content[p..e] == Str(content, p)
  {
  }

  /** Cutting off the last character of a string. */
  lemma CutLast(content: string, p: nat)
    requires Ended(content) && p < |content| && Str(content, p) != ""
    ensures p + |Str(content, p)| - 1 < |content|
    ensures Str(content[p + |Str(content, p)| - 1 := '\0'], p) == Str(content, p)[..|Str(content, p)| - 1]
  {
    StrBound(content, p);
    var t := Str(content, p);
    var m := p + |t| - 1;
    var content' := content[m := '\0'];
    assert content'[p..] == t[..|t| - 1] + content'[m..];
    TextOf(t[..|t| - 1], content'[m..]);
  }

  /** A lone quote is overwritten itself, in front of the string. */
  lemma CutNothing(content: string, q: nat)
    requires q + 1 < |content|
    ensures Str(content[q := '\0'], q + 1) == Str(content, q + 1)
  {
  }

  lemma CutOff(content: string, q: nat)
    requires Ended(content) && q + 1 < |content| && content[q] == '"'
    ensures q + |Str(content, q + 1)| < |content| - 1
    ensures Str(content[q + |Str(content, q + 1)| := '\0'], q + 1) == Unquoted(Str(content, q))
  {
    hide Str;
    StrHead(content, q);
    StrBound(content, q + 1);
    var inner := Str(content, q + 1);
    if inner == "" {
      CutNothing(content, q);
    } else {
      CutLast(content, q + 1);
      assert (['"'] + inner)[1..|inner|] == inner[..|inner| - 1];
    }
  }

  lemma CutOffAhead(content: string, q: nat)
    requires Ended(content) && q + 1 < |content| && content[q] == '"'
    ensures var inner := Str(content, q + 1);
      var m, end := q + |inner|, q + 1 + if inner == "" then 0 else |inner| - 1;
      && m < |content| - 1 && end < |content| && content[m := '\0'][end] == '\0'
      && |Str(content, q)| <= |Ahead(content, q)|
      && Ahead(content[m := '\0'], end) == BehindValue(Ahead(content, q), Str(content, q))
  {
    hide Str;
    StrHead(content, q);
    StrBound(content, q + 1);
    var inner := Str(content, q + 1);
    var m, content' := q + |inner|, content[q + |inner| := '\0'];
    if inner == "" {
      assert Ahead(content', q + 1) == Ahead(content, q)[1..];
    } else {
      assert Ahead(content', m) == "\0" + Ahead(content, q)[|inner| + 1..];
    }
  }

  // ---------------------------------------------------------------- the loop

  datatype Verdict = GoOn | Fail | Full

  lemma StandingFacts(content: string, p: nat, args: seq<Slot>, pending: Option<nat>, goal: Option<seq<Arg>>)
    requires Standing(content, p, args, pending, goal)
    ensures Ended(content) && p < |content| && content[p] == '\0' && |args| < MAX_ARGS
    ensures forall i :: 0 <= i < |args| ==> args[i].flag < |content|
  {
  }

  /** Reads a quoted value: skips the quote and cuts off the last character of the string. */
  method Unquote(buf: array<char>, q: nat) returns (v: nat)
    requires Ended(buf[..]) && q + 1 < buf.Length && buf[q] == '"'
    modifies buf
    ensures v == q + 1 && Ended(buf[..]) && buf[..q] == old(buf[..q])
    ensures Str(buf[..], v) == Unquoted(Str(old(buf[..]), q)) && v + |Str(buf[..], v)| < buf.Length
    ensures |Str(old(buf[..]), q)| <= |Ahead(old(buf[..]), q)|
    ensures Ahead(buf[..], v + |Str(buf[..], v)|) == BehindValue(Ahead(old(buf[..]), q), Str(old(buf[..]), q))
  {
    hide Str, BehindValue, Ahead, Unquoted;
    ghost var content := buf[..];
    CutOff(content, q);
    CutOffAhead(content, q);
    StrHead(content, q);
    UnquotedLength(Str(content, q + 1));
    v := q + 1;
    var e := EndOf(buf, v);
    buf[e - 1] := '\0';
    assert buf[..] == content[e - 1 := '\0'];
  }

  lemma UnquotedLength(inner: string)
    ensures |Unquoted(['"'] + inner)| == if inner == "" then 0 else |inner| - 1
  {
  }

  /** A token that starts with a dash. */
  method FlagToken(buf: array<char>, p: nat, q: nat, args: seq<Slot>, pending: Option<nat>,
                   ghost goal: Option<seq<Arg>>)
    returns (verdict: Verdict, p': nat, args': seq<Slot>)
    requires Standing(buf[..], p, args, pending, goal) && TokenAt(buf[..], p, q) && buf[q] == '-'
    ensures match verdict
      case GoOn => Standing(buf[..], p', args', Some(q), goal) && p < p'
      case Fail => goal == None
      case Full => goal == Some(ReadAll(buf[..], args'))
  {
    hide Standing, Str, Ahead, SkipEnds;
    verdict, p', args' := Fail, p, args;
    StandingFacts(buf[..], p, args, pending, goal);
    var repeats := FlagRepeats(buf, args, q);
    if repeats {
      Refused(buf[..], p, q, args, pending, goal);
      return;
    }
    FlagTaken(buf[..], p, q, args, pending, goal);
    args' := if pending.Some? then args + [Slot(pending.value, None)] else args;
    if |args'| == MAX_ARGS {
      verdict := Full;
    } else {
      p' := EndOf(buf, q);
      verdict := GoOn;
    }
  }

  /** A token that is the value of the flag before it. */
  method ValueToken(buf: array<char>, ghost p: nat, q: nat, args: seq<Slot>, flag: nat, ghost goal: Option<seq<Arg>>)
    returns (verdict: Verdict, p': nat, args': seq<Slot>)
    requires Standing(buf[..], p, args, Some(flag), goal) && TokenAt(buf[..], p, q) && buf[q] != '-'
    modifies buf
    ensures match verdict
      case GoOn => Standing(buf[..], p', args', None, goal) && p < p'
      case Fail => false
      case Full => goal == Some(ReadAll(buf[..], args'))
    ensures p < buf.Length && buf[..p + 1] == old(buf[..p + 1])
  {
    hide Standing, Str, Ahead, SkipEnds, BehindValue, Unquoted, InQuotes;
    ghost var content := buf[..];
    StandingFacts(content, p, args, Some(flag), goal);
    TokenText(content, p, q);
    var v := q;
    if buf[q] == '"' {
      v := Unquote(buf, q);
    } else {
      PlainAhead(content, p, q);
    }
    args' := args + [Slot(flag, Some(v))];
    p' := EndOf(buf, v);
    assert content[..p + 1] == buf[..p + 1] by {
      assert content[..q][..p + 1] == buf[..q][..p + 1];
    }
    ValueTaken(content, buf[..], p, q, v, p', args, flag, goal);
    verdict := if |args'| == MAX_ARGS then Full else GoOn;
  }

  lemma PlainAhead(content: string, p: nat, q: nat)
    requires TokenAt(content, p, q) && content[q] != '"'
    ensures Unquoted(Str(content, q)) == Str(content, q) && q + |Str(content, q)| < |content|
    ensures |Str(content, q)| <= |Ahead(content, q)|
    ensures Ahead(content, q + |Str(content, q)|) == BehindValue(Ahead(content, q), Str(content, q))
  {
  }

  /** One pass of the loop. */
  method OneToken(buf: array<char>, p: nat, args: seq<Slot>, pending: Option<nat>, ghost goal: Option<seq<Arg>>)
    returns (verdict: Verdict, p': nat, args': seq<Slot>, pending': Option<nat>)
    requires Standing(buf[..], p, args, pending, goal) && p + 1 < buf.Length - 1
    modifies buf
    ensures match verdict
      case GoOn => Standing(buf[..], p', args', pending', goal) && p < p'
      case Fail => goal == None
      case Full => goal == Some(ReadAll(buf[..], args'))
    ensures buf[..p + 1] == old(buf[..p + 1])
  {
    hide Standing, Ahead, SkipEnds, Str;
    StandingFacts(buf[..], p, args, pending, goal);
    var q := NextToken(buf, p);
    pending' := None;
    if pending.None? && buf[q] != '-' {
      Refused(buf[..], p, q, args, pending, goal);
      verdict, p', args' := Fail, p, args;
    } else if buf[q] == '-' {
      verdict, p', args' := FlagToken(buf, p, q, args, pending, goal);
      pending' := Some(q);
    } else {
      verdict, p', args' := ValueToken(buf, p, q, args, pending.value, goal);
    }
  }

  /** Splits the text in the buffer; the text ends where the buffer does. */
  method CmdParse(buf: array<char>) returns (ok: bool, args: seq<Slot>)
    requires buf.Length > 0 && buf[buf.Length - 1] == '\0' && '\0' !in buf[..buf.Length - 1]
    modifies buf
    ensures Parse(old(buf[..buf.Length - 1]))
         == if ok then Parsed(Str(buf[..], 0), ReadAll(buf[..], args)) else Rejected
  {
    hide Marked, ParseArgs, Str, Standing;
    ghost var text := buf[..buf.Length - 1];
    MarkSpaces(buf, buf.Length - 1);
    assert Ended(buf[..]);
    ghost var marked := buf[..];
    NameAhead(marked, text);
    var p := EndOf(buf, 0);
    ghost var name, goal := Str(marked, 0), ParseArgs(Ahead(marked, p), [], None);
    var pending: Option<nat> := None;
    args := [];
    StandingAtFirst(marked, p, goal);
    while p + 1 < buf.Length - 1
      invariant Standing(buf[..], p, args, pending, goal) && p < buf.Length
      invariant EndsBy(buf[..], 0, p) && Str(buf[..], 0) == name
      decreases buf.Length - p
    {
      ghost var content := buf[..];
      var verdict, next, more, waiting := OneToken(buf, p, args, pending, goal);
      Undisturbed(content, buf[..], 0, p);
      match verdict {
        case Fail => return false, [];
        case Full => return true, more;
        case GoOn =>
      }
      StandingFacts(buf[..], next, more, waiting, goal);
      EndsLater(buf[..], 0, p, next);
      p, args, pending := next, more, waiting;
    }
    NothingAhead(buf[..], p, args, pending, goal);
    args := if pending.Some? then args + [Slot(pending.value, None)] else args;
    ok := true;
  }

  lemma EndsLater(content: string, pos: nat, p: nat, e: nat)
    requires EndsBy(content, pos, p) && p <= e < |content|
    ensures EndsBy(content, pos, e)
  {
  }

  lemma StandingAtFirst(content: string, p: nat, goal: Option<seq<Arg>>)
    requires Ended(content) && p == |Str(content, 0)| < |content| && content[p] == '\0'
    requires goal == ParseArgs(Ahead(content, p), [], None)
    ensures Standing(content, p, [], None, goal) && EndsBy(content, 0, p)
  {
  }

  /** The name is what stands in front of the first end of string. */
  lemma NameAhead(marked: string, text: string)
    requires Ended(marked) && marked[..|marked| - 1] == Marked(text, false)
    ensures var name := Str(marked, 0);
      && |name| < |marked| && name == Text(Marked(text, false))
      && Ahead(marked, |name|) == Marked(text, false)[|name|..]
  {
  }
}
