/** Command lines: what the tokenizer makes of a text, and why it gives back what was written. */
module Commands {
  import opened Circle

  datatype Arg = Arg(flag: string, value: Option<string>)

  datatype Result = Rejected | Parsed(name: string, args: seq<Arg>)

  const MAX_ARGS := 10

  // ---------------------------------------------------------------- what the tokenizer does

  /** Spaces outside quotes become ends of strings. */
  ghost function Marked(s: string, quote: bool): (r: string)
    ensures |r| == |s|
  {
    if s == "" then ""
    else
      var c := if s[0] == ' ' && !quote then '\0' else s[0];
      [c] + Marked(s[1..], if s[0] == '"' then !quote else quote)
  }

  ghost function Quotes(s: string): nat {
    if s == "" then 0 else Quotes(s[..|s| - 1]) + if s[|s| - 1] == '"' then 1 else 0
  }

  lemma {:induction false} QuotesBehind(c: char, s: string)
    ensures Quotes([c] + s) == Quotes(s) + if c == '"' then 1 else 0
  {
    if s == "" {
      assert [c] + s == [c] && [c][..0] == "";
    } else {
      assert ([c] + s)[..|s|] == [c] + s[..|s| - 1];
      QuotesBehind(c, s[..|s| - 1]);
    }
  }

  ghost predicate Even(s: string) {
    Quotes(s) % 2 == 0
  }

  lemma EvenBehind(c: char, s: string)
    ensures Even([c] + s) <==> (Even(s) <==> c != '"')
  {
    hide Quotes;
    QuotesBehind(c, s);
  }

  /** Exactly the spaces behind an even number of quotes become ends of strings; all else stays. */
  lemma {:induction false} MarkedAt(s: string, quote: bool, i: nat)
    requires i < |s|
    ensures Marked(s, quote)[i] == if s[i] == ' ' && (Even(s[..i]) <==> !quote) then '\0' else s[i]
  {
    hide Even;
    if i == 0 {
      NoQuoteYet(s);
    } else {
      MarkedAt(s[1..], if s[0] == '"' then !quote else quote, i - 1);
      assert s[..i] == [s[0]] + s[1..][..i - 1];
      EvenBehind(s[0], s[1..][..i - 1]);
    }
  }

  lemma NoQuoteYet(s: string)
    ensures Even(s[..0])
  {
  }

  /** The characters up to the first end of string. */
  ghost function Text(r: string): (t: string)
    ensures |t| <= |r| && t == r[..|t|] && '\0' !in t
    ensures |t| < |r| ==> r[|t|] == '\0'
  {
    if r == "" || r[0] == '\0' then "" else [r[0]] + Text(r[1..])
  }

  /** Moves over ends of strings, but never over the last character. */
  ghost function SkipEnds(r: string): (t: string)
    ensures |t| <= |r| && t == r[|r| - |t|..]
    ensures |r| >= 1 ==> |t| >= 1
    ensures |r| >= 2 && r[0] == '\0' ==> |t| < |r|
    ensures |t| >= 2 ==> t[0] != '\0'
  {
    if |r| >= 2 && r[0] == '\0' then SkipEnds(r[1..]) else r
  }

  lemma {:induction false} OnlyEndsSkipped(r: string)
    ensures forall i :: 0 <= i < |r| - |SkipEnds(r)| ==> r[i] == '\0'
  {
    if |r| >= 2 && r[0] == '\0' {
      OnlyEndsSkipped(r[1..]);
      assert forall i :: 1 <= i < |r| - |SkipEnds(r)| ==> r[i] == r[1..][i - 1];
    }
  }

  predicate Dashed(tok: string) {
    tok != "" && tok[0] == '-'
  }

  predicate InQuotes(tok: string) {
    tok != "" && tok[0] == '"'
  }

  /** A value that starts with a quote loses its first and its last character. */
  ghost function Unquoted(tok: string): string {
    if !InQuotes(tok) then tok
    else if |tok| >= 2 then tok[1..|tok| - 1]
    else ""
  }

  /** What is left behind a value; the last character of a quoted one is an end of string now. */
  ghost function BehindValue(r: string, tok: string): string
    requires |tok| <= |r|
  {
    if !InQuotes(tok) then r[|tok|..]
    else if |tok| >= 2 then "\0" + r[|tok|..]
    else r[1..]
  }

  ghost predicate Repeats(done: seq<Arg>, flag: string) {
    exists i :: 0 <= i < |done| && done[i].flag == flag
  }

  /** Takes the tokens of r one by one: a flag waits for a value or the next flag. */
  ghost function ParseArgs(r: string, done: seq<Arg>, pending: Option<string>): Option<seq<Arg>>
    decreases |r|
  {
    if |r| < 2 then Some(if pending.Some? then done + [Arg(pending.value, None)] else done)
    else
      var rest := SkipEnds(r);
      var tok := Text(rest);
      if Dashed(tok) then
        if Repeats(done, tok) then None
        else if pending.None? then ParseArgs(rest[|tok|..], done, Some(tok))
        else
          var more := done + [Arg(pending.value, None)];
          if |more| == MAX_ARGS then Some(more) else ParseArgs(rest[|tok|..], more, Some(tok))
      else if pending.None? then None
      else
        var more := done + [Arg(pending.value, Some(Unquoted(tok)))];
        if |more| == MAX_ARGS then Some(more) else ParseArgs(BehindValue(rest, tok), more, None)
  }

  ghost function Parse(s: string): Result {
    var t := Marked(s, false);
    var name := Text(t);
    match ParseArgs(t[|name|..], [], None)
    case None => Rejected
    case Some(args) => Parsed(name, args)
  }

  // ---------------------------------------------------------------- writing a command line

  datatype Value = Plain(text: string) | Quoted(text: string)

  datatype Given = Given(flag: string, value: Option<Value>)

  ghost function Shown(v: Value): string {
    match v
    case Plain(text) => text
    case Quoted(text) => "\"" + text + "\""
  }

  ghost function ValuePart(sep: string, value: Option<Value>): string {
    match value
    case None => ""
    case Some(v) => sep + Shown(v)
  }

  /** Flags and values, each behind one separator. */
  ghost function Rendered(sep: string, args: seq<Given>): string {
    if args == [] then ""
    else sep + args[0].flag + ValuePart(sep, args[0].value) + Rendered(sep, args[1..])
  }

  /** No blanks, no quotes, no ends of strings. */
  ghost predicate Word(w: string) {
    forall i :: 0 <= i < |w| ==> w[i] != ' ' && w[i] != '"' && w[i] != '\0'
  }

  ghost predicate NoQuote(w: string) {
    forall i :: 0 <= i < |w| ==> w[i] != '"' && w[i] != '\0'
  }

  ghost predicate GoodValue(v: Value) {
    match v
    case Plain(text) => Word(text) && text != "" && text[0] != '-'
    case Quoted(text) => NoQuote(text)
  }

  ghost predicate Good(g: Given) {
    Word(g.flag) && Dashed(g.flag) && (g.value.Some? ==> GoodValue(g.value.value))
  }

  ghost predicate AllGood(args: seq<Given>) {
    && (forall i :: 0 <= i < |args| ==> Good(args[i]))
    && (forall i, j :: 0 <= i < j < |args| ==> args[i].flag != args[j].flag)
  }

  ghost function Meant(g: Given): Arg {
    Arg(g.flag, if g.value.Some? then Some(g.value.value.text) else None)
  }

  ghost function MeantAll(args: seq<Given>): (r: seq<Arg>)
    ensures |r| == |args| && forall i :: 0 <= i < |r| ==> r[i] == Meant(args[i])
  {
    seq(|args|, i requires 0 <= i < |args| => Meant(args[i]))
  }

  // ---------------------------------------------------------------- marking

  lemma {:induction false} MarkWord(w: string, rest: string)
    requires Word(w)
    ensures Marked(w + rest, false) == w + Marked(rest, false)
  {
    if w == "" {
      assert w + rest == rest;
    } else {
      assert (w + rest)[1..] == w[1..] + rest;
      MarkWord(w[1..], rest);
    }
  }

  lemma {:induction false} MarkInside(text: string, rest: string)
    requires NoQuote(text)
    ensures Marked(text + "\"" + rest, true) == text + "\"" + Marked(rest, false)
  {
    var s := text + "\"" + rest;
    if text == "" {
      assert s[1..] == rest;
    } else {
      assert s[1..] == text[1..] + "\"" + rest;
      MarkInside(text[1..], rest);
    }
  }

  lemma MarkQuoted(text: string, rest: string)
    requires NoQuote(text)
    ensures Marked("\"" + text + "\"" + rest, false) == "\"" + text + "\"" + Marked(rest, false)
  {
    hide NoQuote;
    assert ("\"" + text + "\"" + rest)[1..] == text + "\"" + rest;
    MarkInside(text, rest);
    assert "\"" + (text + "\"" + Marked(rest, false)) == "\"" + text + "\"" + Marked(rest, false);
  }

  lemma MarkValue(v: Value, rest: string)
    requires GoodValue(v)
    ensures Marked(Shown(v) + rest, false) == Shown(v) + Marked(rest, false)
  {
    hide Marked, Word, NoQuote;
    match v
    case Plain(text) => MarkWord(text, rest);
    case Quoted(text) => MarkQuoted(text, rest);
  }

  lemma MarkBlank(rest: string)
    ensures Marked(" " + rest, false) == "\0" + Marked(rest, false)
  {
  }

  lemma MarkNothing()
    ensures Marked("", false) == ""
  {
  }

  lemma MarkValuePart(value: Option<Value>, rest: string)
    requires value.Some? ==> GoodValue(value.value)
    ensures Marked(ValuePart(" ", value) + rest, false) == ValuePart("\0", value) + Marked(rest, false)
  {
    hide Marked, GoodValue, Shown;
    if value.Some? {
      MarkValue(value.value, rest);
      MarkBlank(Shown(value.value) + rest);
      assert ValuePart(" ", value) + rest == " " + (Shown(value.value) + rest);
      assert ValuePart("\0", value) + Marked(rest, false) == "\0" + (Shown(value.value) + Marked(rest, false));
    } else {
      assert "" + rest == rest && "" + Marked(rest, false) == Marked(rest, false);
    }
  }

  /** What follows the separator in front of the first flag. */
  ghost function Behind(sep: string, args: seq<Given>): string
    requires args != []
  {
    args[0].flag + (ValuePart(sep, args[0].value) + Rendered(sep, args[1..]))
  }

  lemma RenderedIs(sep: string, args: seq<Given>)
    requires args != []
    ensures Rendered(sep, args) == sep + Behind(sep, args)
  {
    hide ValuePart;
    Regroup(sep, args[0].flag, ValuePart(sep, args[0].value), Rendered(sep, args[1..]));
  }

  lemma Regroup(a: string, b: string, c: string, d: string)
    ensures a + b + c + d == a + (b + (c + d))
  {
  }

  /** Marking only turns the separators into ends of strings. */
  lemma {:induction false} MarkRendered(args: seq<Given>)
    requires forall i :: 0 <= i < |args| ==> Good(args[i])
    ensures Marked(Rendered(" ", args), false) == Rendered("\0", args)
  {
    hide Marked, ValuePart, Word, GoodValue;
    if args == [] {
      MarkNothing();
    } else {
      var g, rest := args[0], Rendered(" ", args[1..]);
      MarkRendered(args[1..]);
      MarkValuePart(g.value, rest);
      MarkWord(g.flag, ValuePart(" ", g.value) + rest);
      MarkBlank(Behind(" ", args));
      RenderedIs(" ", args);
      RenderedIs("\0", args);
    }
  }

  // ---------------------------------------------------------------- reading it back

  lemma {:induction false} TextOf(w: string, rest: string)
    requires '\0' !in w && (rest == "" || rest[0] == '\0')
    ensures Text(w + rest) == w
  {
    if w == "" {
      assert w + rest == rest;
    } else {
      assert (w + rest)[1..] == w[1..] + rest;
      TextOf(w[1..], rest);
    }
  }

  lemma StartsWithEnd(args: seq<Given>)
    ensures Rendered("\0", args) == "" <==> args == []
    ensures args != [] ==> Rendered("\0", args)[0] == '\0'
  {
  }

  lemma SkipOneEnd(w: string)
    requires w != ""
    ensures SkipEnds("\0" + w) == SkipEnds(w)
  {
  }

  /** One or two ends of strings in front of a token are skipped. */
  lemma SkipToToken(z: string, w: string)
    requires z in {"", "\0"} && w != "" && w[0] != '\0'
    ensures SkipEnds(z + ("\0" + w)) == w
    ensures |z + ("\0" + w)| >= 2
  {
    SkipOneEnd(w);
    SkipOneEnd("\0" + w);
    assert "" + ("\0" + w) == "\0" + w;
  }

  /** Every list is cut to what the table can hold. */
  ghost function Capped(args: seq<Arg>): seq<Arg> {
    if |args| <= MAX_ARGS then args else args[..MAX_ARGS]
  }

  lemma WordIsClean(w: string)
    requires Word(w)
    ensures '\0' !in w
  {
  }

  lemma ShownIsClean(v: Value)
    requires GoodValue(v)
    ensures '\0' !in Shown(v) && Shown(v) != "" && !Dashed(Shown(v)) && Unquoted(Shown(v)) == v.text
    ensures InQuotes(Shown(v)) <==> v.Quoted?
    ensures v.Quoted? ==> |Shown(v)| >= 2
  {
  }

  /** A flag token at the front. */
  lemma TakeFlag(z: string, args: seq<Given>, done: seq<Arg>)
    requires z in {"", "\0"} && args != [] && Good(args[0])
    ensures ParseArgs(z + Rendered("\0", args), done, None)
         == if Repeats(done, args[0].flag) then None
            else ParseArgs(ValuePart("\0", args[0].value) + Rendered("\0", args[1..]), done, Some(args[0].flag))
  {
    hide Rendered, ValuePart, SkipEnds, Text, Good, Dashed, InQuotes, Unquoted, Repeats, BehindValue;
    FlagInFront(z, args);
  }

  /** The same when the flag before it has no value. */
  lemma TakeNextFlag(args: seq<Given>, done: seq<Arg>, flag: string)
    requires args != [] && Good(args[0])
    ensures ParseArgs(Rendered("\0", args), done, Some(flag)) ==
      if Repeats(done, args[0].flag) then None
      else if |done| + 1 == MAX_ARGS then Some(done + [Arg(flag, None)])
      else ParseArgs(ValuePart("\0", args[0].value) + Rendered("\0", args[1..]),
                     done + [Arg(flag, None)], Some(args[0].flag))
  {
    hide Rendered, ValuePart, SkipEnds, Text, Good, Dashed, InQuotes, Unquoted, Repeats, BehindValue;
    FlagInFront("", args);
    assert "" + Rendered("\0", args) == Rendered("\0", args);
  }

  lemma FlagInFront(z: string, args: seq<Given>)
    requires z in {"", "\0"} && args != [] && Good(args[0])
    ensures var r, flag := z + Rendered("\0", args), args[0].flag;
      && |r| >= 2 && Text(SkipEnds(r)) == flag && Dashed(flag)
      && |SkipEnds(r)| >= |flag| && SkipEnds(r)[|flag|..] == ValuePart("\0", args[0].value) + Rendered("\0", args[1..])
  {
    hide Rendered, ValuePart, SkipEnds, Text, Shown;
    RenderedIs("\0", args);
    SkipToToken(z, Behind("\0", args));
    WordIsClean(args[0].flag);
    TailStartsWithEnd(args[0].value, args[1..]);
    TextOf(args[0].flag, ValuePart("\0", args[0].value) + Rendered("\0", args[1..]));
  }

  lemma TailStartsWithEnd(value: Option<Value>, rest: seq<Given>)
    ensures var tail := ValuePart("\0", value) + Rendered("\0", rest); tail == "" || tail[0] == '\0'
  {
  }

  /** A value behind its flag; a quoted one leaves one more end of string. */
  lemma TakeValue(v: Value, rest: seq<Given>, done: seq<Arg>, flag: string)
    requires GoodValue(v) && |done| < MAX_ARGS
    ensures var more := done + [Arg(flag, Some(v.text))];
      ParseArgs(ValuePart("\0", Some(v)) + Rendered("\0", rest), done, Some(flag)) ==
        if |more| == MAX_ARGS then Some(more)
        else ParseArgs((if v.Quoted? then "\0" else "") + Rendered("\0", rest), more, None)
  {
    hide Rendered, ValuePart, SkipEnds, Text, GoodValue, Dashed, InQuotes, Unquoted, Repeats, BehindValue, Shown;
    ValueInFront(v, rest);
  }

  lemma ValueInFront(v: Value, rest: seq<Given>)
    requires GoodValue(v)
    ensures var r, tok := ValuePart("\0", Some(v)) + Rendered("\0", rest), Shown(v);
      && |r| >= 2 && Text(SkipEnds(r)) == tok && !Dashed(tok) && Unquoted(tok) == v.text
      && |SkipEnds(r)| >= |tok|
      && BehindValue(SkipEnds(r), tok) == (if v.Quoted? then "\0" else "") + Rendered("\0", rest)
  {
    hide Rendered, SkipEnds, Text, Shown, GoodValue, Unquoted, Dashed, InQuotes, BehindValue, ValuePart;
    var tok, behind := Shown(v), Rendered("\0", rest);
    ShownIsClean(v);
    StartsWithEnd(rest);
    TextOf(tok, behind);
    SkipToToken("", tok + behind);
    ValueIsFollowed(v, behind);
    ValueIsAhead(v, behind);
  }

  lemma ValueIsAhead(v: Value, behind: string)
    ensures ValuePart("\0", Some(v)) + behind == "" + ("\0" + (Shown(v) + behind))
  {
  }

  lemma ValueIsFollowed(v: Value, behind: string)
    requires GoodValue(v)
    ensures BehindValue(Shown(v) + behind, Shown(v)) == (if v.Quoted? then "\0" else "") + behind
  {
  }

  // ---------------------------------------------------------------- repeated flags

  /** The flags that are compared with flag j: all before it, but for one that still waits for its
      value. */
  ghost function ComparedAt(args: seq<Given>, j: nat): (n: nat)
    requires j <= |args|
    ensures n <= j
  {
    if j > 0 && args[j - 1].value.None? then j - 1 else j
  }

  /** The tokenizer gets as far as flag j when the table is not full before. */
  ghost predicate Arrives(args: seq<Given>, j: nat)
    requires j <= |args|
  {
    j < MAX_ARGS || (j == MAX_ARGS && args[MAX_ARGS - 1].value.None?)
  }

  ghost predicate ClashAt(args: seq<Given>, j: nat)
    requires j < |args|
  {
    Arrives(args, j) && exists i :: 0 <= i < ComparedAt(args, j) && args[i].flag == args[j].flag
  }

  /** What comes of the arguments from k on. */
  ghost function OutcomeFrom(args: seq<Given>, k: nat): Option<seq<Arg>> {
    if exists j :: k <= j < |args| && ClashAt(args, j) then None else Some(Capped(MeantAll(args)))
  }

  lemma RepeatsAmong(args: seq<Given>, n: nat, flag: string)
    requires n <= |args|
    ensures Repeats(MeantAll(args[..n]), flag) <==> exists i :: 0 <= i < n && args[i].flag == flag
  {
    var done := MeantAll(args[..n]);
    forall i | 0 <= i < n ensures done[i].flag == args[i].flag {
      assert args[..n][i] == args[i];
    }
  }

  lemma MeantGrows(args: seq<Given>, k: nat)
    requires k < |args|
    ensures MeantAll(args[..k + 1]) == MeantAll(args[..k]) + [Meant(args[k])]
  {
  }

  /** A full table holds the first ten. */
  lemma CappedAt(args: seq<Given>, k: nat)
    requires k <= |args| && (k == |args| <= MAX_ARGS || k == MAX_ARGS)
    ensures Capped(MeantAll(args)) == MeantAll(args[..k])
  {
    assert args[..k] + args[k..] == args;
    assert MeantAll(args)[..k] == MeantAll(args[..k]);
  }

  lemma NoClashLater(args: seq<Given>, k: nat)
    requires k <= |args| && (k == |args| || (k >= MAX_ARGS && !Arrives(args, k)) || k > MAX_ARGS)
    ensures OutcomeFrom(args, k) == Some(Capped(MeantAll(args)))
  {
  }

  lemma ClashNow(args: seq<Given>, k: nat)
    requires k < |args|
    ensures OutcomeFrom(args, k) == if ClashAt(args, k) then None else OutcomeFrom(args, k + 1)
  {
  }

  /** The tokenizer stands in front of flag k and none waits for a value. */
  lemma {:induction false} FreeAt(z: string, args: seq<Given>, k: nat)
    requires z in {"", "\0"} && (forall i :: 0 <= i < |args| ==> Good(args[i]))
    requires k <= |args| && k < MAX_ARGS && (k > 0 ==> args[k - 1].value.Some?)
    ensures ParseArgs(z + Rendered("\0", args[k..]), MeantAll(args[..k]), None) == OutcomeFrom(args, k)
    decreases |args| - k, 1
  {
    hide Rendered, ParseArgs, Good, Capped, OutcomeFrom, Repeats, Meant;
    var done := MeantAll(args[..k]);
    if k == |args| {
      NothingLeft(z, done, None);
      NoClashLater(args, k);
      CappedAt(args, k);
      assert args[k..] == [];
    } else {
      TakeFlag(z, args[k..], done);
      RepeatsAmong(args, k, args[k].flag);
      ClashNow(args, k);
      assert args[k..][0] == args[k] && args[k..][1..] == args[k + 1..];
      if !ClashAt(args, k) {
        WaitingAt(args, k);
      }
    }
  }

  /** The tokenizer stands behind flag k, which waits for its value. */
  lemma {:induction false} WaitingAt(args: seq<Given>, k: nat)
    requires (forall i :: 0 <= i < |args| ==> Good(args[i])) && k < |args| && k < MAX_ARGS
    ensures ParseArgs(ValuePart("\0", args[k].value) + Rendered("\0", args[k + 1..]),
                      MeantAll(args[..k]), Some(args[k].flag))
         == OutcomeFrom(args, k + 1)
    decreases |args| - k, 0
  {
    hide Rendered, ParseArgs, Good, Capped, OutcomeFrom, Repeats;
    var done, rest, more := MeantAll(args[..k]), args[k + 1..], MeantAll(args[..k + 1]);
    MeantGrows(args, k);
    if k + 1 == MAX_ARGS {
      CappedAt(args, k + 1);
    }
    match args[k].value {
      case Some(v) =>
        GoodHasGoodValue(args[k]);
        TakeValue(v, rest, done, args[k].flag);
        if k + 1 == MAX_ARGS {
          NoClashLater(args, k + 1);
        } else {
          FreeAt(if v.Quoted? then "\0" else "", args, k + 1);
        }
      case None =>
        assert ValuePart("\0", None) + Rendered("\0", rest) == Rendered("\0", rest) == "" + Rendered("\0", rest);
        if k + 1 == |args| {
          NothingLeft("", done, Some(args[k].flag));
          NoClashLater(args, k + 1);
          CappedAt(args, k + 1);
        } else {
          TakeNextFlag(rest, done, args[k].flag);
          RepeatsAmong(args, k, args[k + 1].flag);
          ClashNow(args, k + 1);
          assert rest[0] == args[k + 1] && rest[1..] == args[k + 2..];
          if k + 1 == MAX_ARGS {
            NoClashLater(args, k + 2);
          } else if !ClashAt(args, k + 1) {
            WaitingAt(args, k + 1);
          }
        }
    }
  }

  lemma GoodHasGoodValue(g: Given)
    requires Good(g) && g.value.Some?
    ensures GoodValue(g.value.value)
  {
  }

  lemma NothingLeft(z: string, done: seq<Arg>, pending: Option<string>)
    requires z in {"", "\0"} && |done| < MAX_ARGS
    ensures Rendered("\0", []) == ""
    ensures ParseArgs(z + "", done, pending) == Some(if pending.Some? then done + [Arg(pending.value, None)] else done)
    ensures Capped(done) == done
    ensures pending.Some? ==> Capped(done + [Arg(pending.value, None)]) == done + [Arg(pending.value, None)]
  {
  }

  /** Two equal flags that the tokenizer compares: the first one has its value or is not next to
      the second, and the second is within the first ten, or the eleventh behind a tenth without
      a value. */
  ghost predicate Clash(args: seq<Given>, i: nat, j: nat)
    requires i < j < |args|
  {
    && args[i].flag == args[j].flag
    && (i + 1 < j || args[i].value.Some?)
    && (j < MAX_ARGS || (j == MAX_ARGS && args[MAX_ARGS - 1].value.None?))
  }

  lemma ClashesAre(args: seq<Given>)
    ensures (exists j :: 0 <= j < |args| && ClashAt(args, j))
      <==> exists i, j :: 0 <= i < j < |args| && Clash(args, i, j)
  {
    if j :| 0 <= j < |args| && ClashAt(args, j) {
      var i :| 0 <= i < ComparedAt(args, j) && args[i].flag == args[j].flag;
      assert Clash(args, i, j);
    }
    if i, j :| 0 <= i < j < |args| && Clash(args, i, j) {
      assert i < ComparedAt(args, j);
      assert ClashAt(args, j);
    }
  }

  /** What a command line with any flags comes to: it is refused exactly when two equal flags are
      compared, and otherwise read back, as far as the table holds it. */
  lemma OutcomeOfAny(name: string, args: seq<Given>)
    requires Word(name) && forall i :: 0 <= i < |args| ==> Good(args[i])
    ensures Parse(name + Rendered(" ", args)) ==
      if exists i, j :: 0 <= i < j < |args| && Clash(args, i, j) then Rejected else Parsed(name, Capped(MeantAll(args)))
  {
    hide Marked, Rendered, ParseArgs, Word, Good, Clash, ClashAt;
    MarkRendered(args);
    MarkWord(name, Rendered(" ", args));
    WordIsClean(name);
    StartsWithEnd(args);
    TextOf(name, Rendered("\0", args));
    FreeAt("", args, 0);
    ClashesAre(args);
    assert args[0..] == args && MeantAll(args[..0]) == [];
    assert (name + Rendered("\0", args))[|name|..] == "" + Rendered("\0", args);
  }

  /** Whatever name and different flags are written out, with single blanks, are read back as they
      were; of more than ten flags the first ten are, and the rest is dropped without a complaint. */
  lemma RoundTrip(name: string, args: seq<Given>)
    requires Word(name) && AllGood(args)
    ensures Parse(name + Rendered(" ", args)) == Parsed(name, Capped(MeantAll(args)))
    ensures Parse(name + Rendered(" ", args)) == Parsed(name, MeantAll(args)) <==> |args| <= MAX_ARGS
  {
    hide Rendered, Parse, Word, Good;
    OutcomeOfAny(name, args);
  }
}
