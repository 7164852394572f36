/** `getopt` of `src/hev-compat.c`, with its state between calls. */
module Getopt {

  const NUL: char := '\0'

  /** The byte of a C string at an index: its terminator lies just behind the text. */
  function At(s: string, i: nat): char
    requires i <= |s|
  {
    if i < |s| then s[i] else NUL
  }

  /** A C string, and a vector of them. */
  ghost predicate CString(s: string) {
    forall c <- s :: c != NUL
  }

  ghost predicate CStrings(argv: seq<string>) {
    forall i :: 0 <= i < |argv| ==> CString(argv[i])
  }

  /** `strchr`: the first index of `c`, or -1. */
  function Strchr(s: string, c: char): (i: int)
    ensures -1 <= i < |s|
    ensures i >= 0 ==> s[i] == c && c !in s[..i]
    ensures i == -1 ==> c !in s
  {
    if s == [] then -1
    else if s[0] == c then 0
    else
      var i := Strchr(s[1..], c);
      if i < 0 then
        assert s == [s[0]] + s[1..];
        -1
      else
        assert s[..i + 1] == [s[0]] + s[1..][..i];
        i + 1
  }

  /** The globals `optind` and `optarg` and the static `pos`. */
  datatype State = State(optind: nat, pos: nat, optarg: string)

  const START := State(1, 0, "")

  /** What one call returns: an option character, `'?'`, or -1. */
  datatype Result = End | Opt(c: char)

  /** Between two calls `pos` is 0 or points at a character of the current word. */
  ghost predicate Inside(argv: seq<string>, s: State) {
    s.pos > 0 ==> s.optind < |argv| && s.pos < |argv[s.optind]|
  }

  /** The parts of one call. */
  function Enter(argv: seq<string>, s: State): (State, bool)
    requires Inside(argv, s)
  {
    if s.pos != 0 then (s, true)
    else if s.optind >= |argv| || At(argv[s.optind], 0) != '-' || |argv[s.optind]| == 1 then (s, false)
    else if argv[s.optind] == "--" then (s.(optind := s.optind + 1), false)
    else (s.(pos := 1), true)
  }

  function Leave(argv: seq<string>, s: State): State
    requires s.optind < |argv| && s.pos <= |argv[s.optind]|
  {
    if s.pos == |argv[s.optind]| then s.(optind := s.optind + 1, pos := 0) else s
  }

  /** One call. */
  function Call(argv: seq<string>, optstring: string, s: State): (r: (State, Result))
    requires Inside(argv, s)
    ensures Inside(argv, r.0)
  {
    var (t, more) := Enter(argv, s);
    if !more then (t, End)
    else
      var word, c := argv[t.optind], argv[t.optind][t.pos];
      var i := Strchr(optstring, c);
      if c == ':' || i < 0 then (Leave(argv, t.(pos := t.pos + 1)), Opt('?'))
      else if At(optstring, i + 1) != ':' then (Leave(argv, t.(pos := t.pos + 1)), Opt(c))
      else if t.pos + 1 < |word| then
        (Leave(argv, t.(optarg := word[t.pos + 1..], pos := |word|)), Opt(c))
      else if t.optind + 1 < |argv| then
        var u := t.(optind := t.optind + 1, optarg := argv[t.optind + 1]);
        (Leave(argv, u.(pos := |argv[u.optind]|)), Opt(c))
      else (Leave(argv, t.(pos := |word|)), Opt('?'))
  }

  class Parser {
    var optind: nat
    var pos: nat
    var optarg: string

    function Now(): State
      reads this
    {
      State(optind, pos, optarg)
    }

    constructor ()
      ensures Now() == START
    {
      optind, pos, optarg := 1, 0, "";
    }

    /** `getopt`. No index is ever out of bounds. */
    method Next(argv: seq<string>, optstring: string) returns (r: Result)
      requires CStrings(argv) && Inside(argv, Now())
      modifies this
      ensures Now() == Call(argv, optstring, old(Now())).0 && r == Call(argv, optstring, old(Now())).1
      ensures Inside(argv, Now())
    {
      NoNul(argv);
      if pos == 0 {
        if optind >= |argv| || At(argv[optind], 0) != '-' || At(argv[optind], 1) == NUL {
          return End;
        }
        if argv[optind] == "--" {
          optind := optind + 1;
          return End;
        }
        pos := 1;
      }
      var c := At(argv[optind], pos);
      assert Enter(argv, old(Now())) == (Now(), true);
      pos := pos + 1;
      var opt := Strchr(optstring, c);
      if c == ':' || opt < 0 {
        c := '?';
      } else if At(optstring, opt + 1) == ':' {
        if At(argv[optind], pos) != NUL {
          optarg := argv[optind][pos..];
        } else if optind + 1 < |argv| {
          optind := optind + 1;
          optarg := argv[optind];
        } else {
          c := '?';
        }
        pos := |argv[optind]|;
      }
      if At(argv[optind], pos) == NUL {
        optind := optind + 1;
        pos := 0;
      }
      r := Opt(c);
    }

    /** The option loop of `hev_conf_init`: calls until -1, given up at the first `'?'`. */
    method Options(argv: seq<string>, optstring: string) returns (items: seq<Item>, ok: bool)
      requires CStrings(argv) && Inside(argv, Now())
      modifies this
      ensures var p := Parse(argv, optstring, old(Now()));
              && (ok <==> Bad !in p.0)
              && (ok ==> items == p.0 && Now() == p.1)
              && (!ok ==> |items| < |p.0| && items == p.0[..|items|] && p.0[|items|] == Bad && Bad !in items)
    {
      hide Call, Inside, Takes, Remaining;
      items := [];
      ghost var whole := Parse(argv, optstring, Now());
      assert [] + whole.0 == whole.0;
      while true
        invariant Inside(argv, Now()) && Bad !in items
        invariant whole == (items + Parse(argv, optstring, Now()).0, Parse(argv, optstring, Now()).1)
        decreases Remaining(argv, Now())
      {
        ghost var s := Now();
        EveryOptionConsumes(argv, optstring, s);
        var r := Next(argv, optstring);
        if r == End {
          assert items + [] == items;
          return items, true;
        }
        ghost var more := Parse(argv, optstring, Now()).0;
        if r.c == '?' {
          assert whole.0 == items + ([Bad] + more);
          return items, false;
        }
        var item := AsItem(optstring, r.c, optarg);
        assert items + ([item] + more) == (items + [item]) + more;
        items := items + [item];
      }
    }
  }

  lemma NoNul(argv: seq<string>)
    requires CStrings(argv)
    ensures forall i, k :: 0 <= i < |argv| && 0 <= k < |argv[i]| ==> argv[i][k] != NUL
  {
    forall i, k | 0 <= i < |argv| && 0 <= k < |argv[i]| ensures argv[i][k] != NUL {
      assert CString(argv[i]);
      assert argv[i][k] in argv[i];
    }
  }

  // ----- progress on any argument vector -----

  /** The text from word `i` on, a terminator counted per word. */
  function Text(argv: seq<string>, i: nat): nat
    decreases |argv| - i
  {
    if i >= |argv| then 0 else |argv[i]| + 1 + Text(argv, i + 1)
  }

  function Remaining(argv: seq<string>, s: State): int {
    Text(argv, s.optind) - s.pos
  }

  /** Whatever the arguments, every call that returns an option consumes some of the text that remains. */
  lemma EveryOptionConsumes(argv: seq<string>, optstring: string, s: State)
    requires Inside(argv, s)
    ensures var (t, r) := Call(argv, optstring, s);
            Remaining(argv, t) >= 0 && (r.Opt? ==> Remaining(argv, t) < Remaining(argv, s))
  {
    var i := s.optind;
    assert i < |argv| ==> Text(argv, i) == |argv[i]| + 1 + Text(argv, i + 1);
    assert i + 1 < |argv| ==> Text(argv, i + 1) == |argv[i + 1]| + 1 + Text(argv, i + 2);
    hide Text, Strchr, At;
  }

  // ----- parsing a whole vector, and the vectors that spell an option list -----

  /** One option as the caller sees it, or the `'?'` of an unknown option or a missing argument. */
  datatype Item = Flag(c: char) | WithArg(c: char, arg: string) | Bad

  function AsItem(optstring: string, c: char, optarg: string): Item {
    if c == '?' then Bad else if Takes(optstring, c) then WithArg(c, optarg) else Flag(c)
  }

  predicate Takes(optstring: string, c: char) {
    var i := Strchr(optstring, c);
    i >= 0 && At(optstring, i + 1) == ':'
  }

  /** Calls until -1: the options returned, each with `optarg` if it takes one, and the state at the end. */
  function Parse(argv: seq<string>, optstring: string, s: State): (r: (seq<Item>, State))
    requires Inside(argv, s)
    decreases Remaining(argv, s)
  {
    EveryOptionConsumes(argv, optstring, s);
    var (t, r) := Call(argv, optstring, s);
    match r
    case End => ([], t)
    case Opt(c) =>
      var more := Parse(argv, optstring, t);
      ([AsItem(optstring, c, t.optarg)] + more.0, more.1)
  }

  // ----- options, read off the characters of `optstring` -----

  /** `optstring` declares the character; `:` only marks arguments. */
  predicate Known(optstring: string, c: char) {
    c != ':' && c in optstring
  }

  /** Its first occurrence in `optstring` is followed by a colon. */
  ghost predicate Wants(optstring: string, c: char) {
    c != ':' && exists i :: 0 <= i < |optstring| - 1 && FirstAt(optstring, c, i) && optstring[i + 1] == ':'
  }

  predicate FirstAt(optstring: string, c: char, i: nat)
    requires i < |optstring|
  {
    optstring[i] == c && c !in optstring[..i]
  }

  lemma {:induction false} StrchrReads(optstring: string, c: char)
    requires c != ':'
    ensures Strchr(optstring, c) >= 0 <==> Known(optstring, c)
    ensures Takes(optstring, c) <==> Wants(optstring, c)
    ensures Wants(optstring, c) ==> Known(optstring, c)
  {
    var i := Strchr(optstring, c);
    if i >= 0 {
      assert FirstAt(optstring, c, i);
      forall j: nat | j < |optstring| && FirstAt(optstring, c, j) ensures j == i {
        if i < j {
          assert false;
        } else if j < i {
          assert false;
        }
      }
    }
    hide Strchr;
  }

  /** Where the next option character of the word stands, or 0 if there is no option here. */
  function Ahead(argv: seq<string>, s: State): nat {
    if s.pos > 0 then s.pos
    else if s.optind < |argv| && |argv[s.optind]| >= 2 && argv[s.optind][0] == '-' && argv[s.optind] != "--" then 1
    else 0
  }

  /**
   * What one call returns, from the characters alone: -1 without an option ahead; `'?'` if and only if the
   * character is a colon or not declared, or is a question mark, or wants an argument and there is neither text
   * behind it nor a word; and else the character itself.
   */
  lemma AnswerFromCharacters(argv: seq<string>, optstring: string, s: State)
    requires Inside(argv, s)
    ensures Call(argv, optstring, s).1 == End <==> Ahead(argv, s) == 0
    ensures var p := Ahead(argv, s);
            p > 0 ==>
              && s.optind < |argv| && p < |argv[s.optind]|
              && var c := argv[s.optind][p];
              && (Call(argv, optstring, s).1 == Opt('?') <==>
                    !Known(optstring, c) || c == '?'
                    || (Wants(optstring, c) && p + 1 == |argv[s.optind]| && s.optind + 1 == |argv|))
              && (Call(argv, optstring, s).1 == Opt('?') || Call(argv, optstring, s).1 == Opt(c))
  {
    var p := Ahead(argv, s);
    if p > 0 && argv[s.optind][p] != ':' {
      StrchrReads(optstring, argv[s.optind][p]);
    }
    hide Strchr, Wants, Leave;
  }

  // ----- the vectors that spell a list of options, right or wrong -----

  /**
   * The words of an option list: a cluster of characters that want no argument, and at most one behind them that
   * does, its argument attached, in the next word, or missing.
   */
  datatype Word =
    | Flags(cs: string)
    | Attached(cs: string, c: char, arg: string)
    | Apart(cs: string, c: char, arg: string)
    | Missing(cs: string, c: char)

  function Spell(w: Word): (r: seq<string>)
    ensures |r| > 0
  {
    match w
    case Flags(cs) => ["-" + cs]
    case Attached(cs, c, arg) => ["-" + cs + [c] + arg]
    case Apart(cs, c, arg) => ["-" + cs + [c], arg]
    case Missing(cs, c) => ["-" + cs + [c]]
  }

  ghost predicate NoneWants(optstring: string, cs: string) {
    forall i :: 0 <= i < |cs| ==> !Wants(optstring, cs[i])
  }

  ghost predicate Legal(optstring: string, w: Word) {
    && NoneWants(optstring, w.cs)
    && (w.Flags? ==> w.cs != "")
    && (!w.Flags? ==> Wants(optstring, w.c))
    && (w.Attached? ==> w.arg != "")
    && Spell(w)[0] != "--"
  }

  /** A missing argument can only be at the very end. */
  ghost predicate Proper(optstring: string, ws: seq<Word>, rest: seq<string>) {
    && (forall k :: 0 <= k < |ws| ==> Legal(optstring, ws[k]))
    && (forall k :: 0 <= k < |ws| && ws[k].Missing? ==> k == |ws| - 1 && rest == [])
  }

  /** The words at `i` spell `w`. */
  ghost predicate Spelled(argv: seq<string>, i: nat, w: Word) {
    && i + |Spell(w)| <= |argv|
    && argv[i] == Spell(w)[0]
    && (w.Apart? ==> argv[i + 1] == w.arg)
    && (w.Missing? ==> i + 1 == |argv|)
  }

  function FlagItem(optstring: string, c: char): Item {
    if Known(optstring, c) && c != '?' then Flag(c) else Bad
  }

  function FlagItems(optstring: string, cs: string): seq<Item> {
    if cs == "" then [] else [FlagItem(optstring, cs[0])] + FlagItems(optstring, cs[1..])
  }

  function LastItem(w: Word): Item
    requires !w.Flags?
  {
    if w.Missing? || w.c == '?' then Bad else WithArg(w.c, w.arg)
  }

  function Items(optstring: string, w: Word): seq<Item> {
    FlagItems(optstring, w.cs) + if w.Flags? then [] else [LastItem(w)]
  }

  /** What `optarg` is after these words. */
  function ArgAfter(w: Word, a: string): string {
    if w.Attached? || w.Apart? then w.arg else a
  }

  function SpellAll(ws: seq<Word>): seq<string> {
    if ws == [] then [] else Spell(ws[0]) + SpellAll(ws[1..])
  }

  function AllItems(optstring: string, ws: seq<Word>): seq<Item> {
    if ws == [] then [] else Items(optstring, ws[0]) + AllItems(optstring, ws[1..])
  }

  /** What may follow the options: nothing, `--`, or an operand. */
  predicate Follows(rest: seq<string>) {
    rest == [] || rest[0] == "--" || rest[0] == "" || rest[0][0] != '-' || rest[0] == "-"
  }

  /** A call in the middle of a cluster returns the flag there, or `'?'`, and moves on. */
  lemma FlagStep(argv: seq<string>, optstring: string, s: State)
    requires Inside(argv, s) && s.pos > 0 && !Wants(optstring, argv[s.optind][s.pos])
    ensures var t := Leave(argv, s.(pos := s.pos + 1));
            Parse(argv, optstring, s)
            == ([FlagItem(optstring, argv[s.optind][s.pos])] + Parse(argv, optstring, t).0, Parse(argv, optstring, t).1)
  {
    var c := argv[s.optind][s.pos];
    if c != ':' {
      StrchrReads(optstring, c);
    }
    hide Wants, Strchr;
    assert Call(argv, optstring, s)
        == (Leave(argv, s.(pos := s.pos + 1)), Opt(if Known(optstring, c) then c else '?'));
    assert Known(optstring, c) ==> !Takes(optstring, c);
    hide Call, Takes, Leave, Inside, Known;
  }

  /** A cluster yields its items one by one. */
  lemma {:induction false} Cluster(argv: seq<string>, optstring: string, s: State, n: nat)
    requires Inside(argv, s) && s.pos > 0 && n > 0 && s.pos + n <= |argv[s.optind]|
    requires NoneWants(optstring, argv[s.optind][s.pos..s.pos + n])
    ensures var t := Leave(argv, s.(pos := s.pos + n));
            Parse(argv, optstring, s)
            == (FlagItems(optstring, argv[s.optind][s.pos..s.pos + n]) + Parse(argv, optstring, t).0,
                Parse(argv, optstring, t).1)
    decreases n
  {
    hide Call, Parse, Wants, Takes, FlagItem;
    var cs := argv[s.optind][s.pos..s.pos + n];
    assert cs[0] == argv[s.optind][s.pos];
    FlagStep(argv, optstring, s);
    if n > 1 {
      var u := s.(pos := s.pos + 1);
      assert cs[1..] == argv[s.optind][u.pos..u.pos + (n - 1)];
      Cluster(argv, optstring, u, n - 1);
      var after := Parse(argv, optstring, Leave(argv, s.(pos := s.pos + n))).0;
      assert ([FlagItem(optstring, cs[0])] + FlagItems(optstring, cs[1..])) + after
          == [FlagItem(optstring, cs[0])] + (FlagItems(optstring, cs[1..]) + after);
    } else {
      assert FlagItems(optstring, cs) == [FlagItem(optstring, cs[0])] + FlagItems(optstring, cs[1..])
          == [FlagItem(optstring, cs[0])];
    }
  }

  /** An option that wants an argument: attached, in the next word, or missing at the end of the vector. */
  lemma {:induction false} ArgStep(argv: seq<string>, optstring: string, s: State, arg: string, next: nat, item: Item)
    requires Inside(argv, s) && s.pos > 0 && Wants(optstring, argv[s.optind][s.pos])
    requires var word, c := argv[s.optind], argv[s.optind][s.pos];
             || (s.pos + 1 < |word| && arg == word[s.pos + 1..] && next == s.optind + 1
                 && item == if c == '?' then Bad else WithArg(c, arg))
             || (s.pos + 1 == |word| && s.optind + 1 < |argv| && arg == argv[s.optind + 1] && next == s.optind + 2
                 && item == if c == '?' then Bad else WithArg(c, arg))
             || (s.pos + 1 == |word| && s.optind + 1 == |argv| && arg == s.optarg && next == s.optind + 1
                 && item == Bad)
    ensures var t := Parse(argv, optstring, State(next, 0, arg));
            Parse(argv, optstring, s) == ([item] + t.0, t.1)
  {
    var c := argv[s.optind][s.pos];
    StrchrReads(optstring, c);
    hide Wants, Strchr;
    assert Call(argv, optstring, s) == (State(next, 0, arg), Opt(if item == Bad then '?' else c));
    assert Takes(optstring, c);
    hide Call, Takes, Leave, Inside;
  }

  /** Entering a word of options is the same as standing behind its dash. */
  lemma {:induction false} EnterWord(argv: seq<string>, optstring: string, i: nat, a: string)
    requires i < |argv| && |argv[i]| >= 2 && argv[i][0] == '-' && argv[i] != "--"
    ensures Parse(argv, optstring, State(i, 0, a)) == Parse(argv, optstring, State(i, 1, a))
  {
    assert Enter(argv, State(i, 0, a)) == Enter(argv, State(i, 1, a));
    assert Call(argv, optstring, State(i, 0, a)) == Call(argv, optstring, State(i, 1, a));
    hide Call, Enter, Takes, Inside;
  }

  /** The option that closes a word; `n` flags stand before it. */
  lemma {:induction false} ClosingOption(argv: seq<string>, optstring: string, i: nat, w: Word, a: string)
    requires Legal(optstring, w) && !w.Flags? && Spelled(argv, i, w)
    ensures |argv[i]| > 1 + |w.cs|
    ensures var t := Parse(argv, optstring, State(i + |Spell(w)|, 0, ArgAfter(w, a)));
            Parse(argv, optstring, State(i, 1 + |w.cs|, a)) == ([LastItem(w)] + t.0, t.1)
  {
    hide Call, Parse, Wants, Takes;
    var word, n := argv[i], |w.cs|;
    assert word[1 + n] == w.c;
    assert w.Attached? ==> word[2 + n..] == w.arg;
    ArgStep(argv, optstring, State(i, 1 + n, a), ArgAfter(w, a), i + |Spell(w)|, LastItem(w));
  }

  /** The flags that open a word, down to the closing option or to the next word. */
  lemma {:induction false} OpeningFlags(argv: seq<string>, optstring: string, i: nat, w: Word, a: string)
    requires Legal(optstring, w) && Spelled(argv, i, w)
    ensures w.Flags? || |argv[i]| > 1 + |w.cs|
    ensures var t := Parse(argv, optstring, if w.Flags? then State(i + 1, 0, a) else State(i, 1 + |w.cs|, a));
            Parse(argv, optstring, State(i, 0, a)) == (FlagItems(optstring, w.cs) + t.0, t.1)
  {
    hide Call, Parse, Wants, Takes, Strchr, FlagItem;
    var word, n := argv[i], |w.cs|;
    EnterWord(argv, optstring, i, a);
    if n > 0 {
      assert word[1..1 + n] == w.cs;
      Cluster(argv, optstring, State(i, 1, a), n);
    } else {
      assert w.cs == "";
      var t := Parse(argv, optstring, State(i, 1, a)).0;
      assert FlagItems(optstring, w.cs) + t == t;
    }
  }

  /** One word of options. */
  lemma {:induction false} OneWord(argv: seq<string>, optstring: string, i: nat, w: Word, a: string)
    requires Legal(optstring, w) && Spelled(argv, i, w)
    ensures var t := Parse(argv, optstring, State(i + |Spell(w)|, 0, ArgAfter(w, a)));
            Parse(argv, optstring, State(i, 0, a)) == (Items(optstring, w) + t.0, t.1)
  {
    hide Call, Parse, Legal, FlagItems, LastItem;
    OpeningFlags(argv, optstring, i, w, a);
    if !w.Flags? {
      ClosingOption(argv, optstring, i, w, a);
      var t := Parse(argv, optstring, State(i + |Spell(w)|, 0, ArgAfter(w, a))).0;
      assert FlagItems(optstring, w.cs) + ([LastItem(w)] + t) == Items(optstring, w) + t;
    } else {
      assert Items(optstring, w) == FlagItems(optstring, w.cs);
    }
  }

  /** The call that finds no more options: only `--` is stepped over. */
  lemma {:induction false} NoMoreOptions(argv: seq<string>, optstring: string, i: nat, a: string)
    requires i <= |argv| && Follows(argv[i..])
    ensures Parse(argv, optstring, State(i, 0, a))
            == ([], State(if i < |argv| && argv[i] == "--" then i + 1 else i, 0, a))
  {
    assert i < |argv| ==> argv[i..][0] == argv[i];
    assert Call(argv, optstring, State(i, 0, a)).1 == End;
  }

  /** Stepping over the words that spell `w`. */
  lemma NextWords(argv: seq<string>, i: nat, w: Word, more: seq<string>)
    requires i <= |argv| && argv[i..] == Spell(w) + more && (w.Missing? ==> more == [])
    ensures Spelled(argv, i, w) && argv[i + |Spell(w)|..] == more
  {
    assert argv[i] == argv[i..][0];
    if w.Apart? {
      assert argv[i + 1] == argv[i..][1];
    }
    assert argv[i + |Spell(w)|..] == argv[i..][|Spell(w)|..];
  }

  /**
   * `getopt` inverts every spelling: flags clustered or apart, arguments attached, in the next word or missing,
   * characters declared or not. The calls return exactly the items spelled, then -1 with `optind` at the first
   * operand.
   */
  lemma {:induction false} ParseInvertsSpelling(argv: seq<string>, optstring: string, i: nat, ws: seq<Word>,
                                                rest: seq<string>, a: string)
    requires i <= |argv| && argv[i..] == SpellAll(ws) + rest && Follows(rest) && Proper(optstring, ws, rest)
    ensures var r := Parse(argv, optstring, State(i, 0, a));
            && r.0 == AllItems(optstring, ws)
            && r.1.pos == 0
            && r.1.optind == i + |SpellAll(ws)| + (if rest != [] && rest[0] == "--" then 1 else 0)
    decreases |ws|
  {
    hide Call, Parse, Items, Spell, Spelled, Legal, Follows, ArgAfter;
    if ws == [] {
      assert rest == argv[i..];
      assert rest != [] ==> rest[0] == argv[i];
      NoMoreOptions(argv, optstring, i, a);
    } else {
      var w, more := ws[0], SpellAll(ws[1..]) + rest;
      assert SpellAll(ws) + rest == Spell(w) + more;
      assert w.Missing? ==> ws[1..] == [];
      NextWords(argv, i, w, more);
      OneWord(argv, optstring, i, w, a);
      ParseInvertsSpelling(argv, optstring, i + |Spell(w)|, ws[1..], rest, ArgAfter(w, a));
    }
  }

  /** From the first call on a program's own arguments. */
  lemma {:induction false} GetoptInvertsSpelling(prog: string, optstring: string, ws: seq<Word>, rest: seq<string>)
    requires Follows(rest) && Proper(optstring, ws, rest)
    ensures var argv := [prog] + SpellAll(ws) + rest;
            var r := Parse(argv, optstring, START);
            && r.0 == AllItems(optstring, ws)
            && r.1.optind <= |argv|
            && argv[r.1.optind..] == if rest != [] && rest[0] == "--" then rest[1..] else rest
  {
    hide Parse, Follows, Proper, AllItems;
    var argv := [prog] + SpellAll(ws) + rest;
    assert argv[1..] == SpellAll(ws) + rest;
    ParseInvertsSpelling(argv, optstring, 1, ws, rest, "");
  }

  // ----- every vector is a spelling -----

  /** The first character that wants an argument, or the length. */
  lemma {:induction false} FirstWanting(optstring: string, cs: string) returns (j: nat)
    ensures j <= |cs| && NoneWants(optstring, cs[..j]) && (j < |cs| ==> Wants(optstring, cs[j]))
  {
    hide Wants;
    if cs == "" || Wants(optstring, cs[0]) {
      j := 0;
    } else {
      j := FirstWanting(optstring, cs[1..]);
      assert cs[..j + 1] == [cs[0]] + cs[1..][..j];
      j := j + 1;
    }
  }

  /** A word with options has one reading. */
  lemma ReadWord(argv: seq<string>, optstring: string, i: nat) returns (w: Word)
    requires i < |argv| && !Follows(argv[i..])
    ensures Legal(optstring, w) && Spelled(argv, i, w)
  {
    assert argv[i..][0] == argv[i];
    hide Wants;
    var word := argv[i];
    var body := word[1..];
    assert word == "-" + body;
    var j := FirstWanting(optstring, body);
    if j == |body| {
      assert body[..j] == body;
      w := Flags(body);
    } else {
      assert body == body[..j] + [body[j]] + body[j + 1..];
      if j + 1 < |body| {
        w := Attached(body[..j], body[j], body[j + 1..]);
        assert "-" + (body[..j] + [body[j]] + body[j + 1..]) == "-" + body[..j] + [body[j]] + body[j + 1..];
      } else {
        assert body == body[..j] + [body[j]];
        assert "-" + (body[..j] + [body[j]]) == "-" + body[..j] + [body[j]];
        w := if i + 1 < |argv| then Apart(body[..j], body[j], argv[i + 1]) else Missing(body[..j], body[j]);
      }
    }
  }

  /** Whatever the arguments, they spell a list of options followed by operands: the inversion covers all vectors. */
  lemma {:induction false} EveryVectorSpells(argv: seq<string>, optstring: string, i: nat)
      returns (ws: seq<Word>, rest: seq<string>)
    requires i <= |argv|
    ensures argv[i..] == SpellAll(ws) + rest && Follows(rest) && Proper(optstring, ws, rest)
    decreases |argv| - i
  {
    if Follows(argv[i..]) {
      ws, rest := [], argv[i..];
    } else {
      var w := ReadWord(argv, optstring, i);
      hide *;
      var more, r := EveryVectorSpells(argv, optstring, i + |Spell(w)|);
      OneMoreWord(argv, optstring, i, w, more, r);
      ws, rest := [w] + more, r;
    }
  }

  lemma {:induction false} OneMoreWord(argv: seq<string>, optstring: string, i: nat, w: Word, more: seq<Word>,
                                       rest: seq<string>)
    requires Legal(optstring, w) && Spelled(argv, i, w) && Proper(optstring, more, rest)
    requires argv[i + |Spell(w)|..] == SpellAll(more) + rest
    ensures argv[i..] == SpellAll([w] + more) + rest && Proper(optstring, [w] + more, rest)
  {
    SpelledThere(argv, i, w);
    hide Legal, Spell, Spelled;
    assert argv[i..] == argv[i..i + |Spell(w)|] + argv[i + |Spell(w)|..];
    SpellsOneMore(w, more, rest);
    if w.Missing? {
      NothingSpelled(more, rest);
    }
    hide SpellAll;
    forall k | 0 <= k < |[w] + more| && ([w] + more)[k].Missing? ensures k == |more| && rest == [] {
      assert k > 0 ==> ([w] + more)[k] == more[k - 1];
    }
  }

  lemma SpelledThere(argv: seq<string>, i: nat, w: Word)
    requires Spelled(argv, i, w)
    ensures argv[i..i + |Spell(w)|] == Spell(w) && (w.Missing? ==> argv[i + |Spell(w)|..] == [])
  {}

  lemma {:induction false} SpellsOneMore(w: Word, more: seq<Word>, rest: seq<string>)
    ensures SpellAll([w] + more) + rest == Spell(w) + (SpellAll(more) + rest)
  {
    assert ([w] + more)[1..] == more;
    hide Spell;
  }

  lemma {:induction false} NothingSpelled(ws: seq<Word>, rest: seq<string>)
    requires SpellAll(ws) + rest == []
    ensures ws == [] && rest == []
  {
    assert |SpellAll(ws) + rest| == |SpellAll(ws)| + |rest|;
  }

  // ----- which spellings are free of errors -----

  /** Only declared characters, and every argument there. */
  ghost predicate Clean(optstring: string, w: Word) {
    && (forall i :: 0 <= i < |w.cs| ==> Known(optstring, w.cs[i]) && w.cs[i] != '?')
    && !w.Missing? && (!w.Flags? ==> w.c != '?')
  }

  lemma {:induction false} FlagsCleanIff(optstring: string, cs: string)
    ensures Bad !in FlagItems(optstring, cs) <==> forall i :: 0 <= i < |cs| ==> Known(optstring, cs[i]) && cs[i] != '?'
  {
    hide Known;
    if cs != "" {
      FlagsCleanIff(optstring, cs[1..]);
      assert cs == [cs[0]] + cs[1..];
      assert Bad in FlagItems(optstring, cs) <==>
          FlagItem(optstring, cs[0]) == Bad || Bad in FlagItems(optstring, cs[1..]);
    }
  }

  /** The option loop of a program sees an error if and only if some word is not clean. */
  lemma {:induction false} NoErrorIffClean(optstring: string, ws: seq<Word>)
    ensures Bad !in AllItems(optstring, ws) <==> forall k :: 0 <= k < |ws| ==> Clean(optstring, ws[k])
  {
    if ws != [] {
      FlagsCleanIff(optstring, ws[0].cs);
      NoErrorIffClean(optstring, ws[1..]);
      assert Bad in Items(optstring, ws[0]) <==> !Clean(optstring, ws[0]) by {
        hide FlagItems, Known;
      }
      hide Items, Clean;
      assert ws == [ws[0]] + ws[1..];
    }
  }

  /**
   * Clean words and then one whose last option lacks its argument: exactly the items spelled, then the error. So
   * the option loop gives up with exactly these items.
   */
  lemma {:induction false} MissingArgumentFails(prog: string, optstring: string, ws: seq<Word>, last: Word)
    requires last.Missing? && Legal(optstring, last) && Clean(optstring, Flags(last.cs))
    requires forall k :: 0 <= k < |ws| ==> Legal(optstring, ws[k]) && Clean(optstring, ws[k])
    ensures var items := Parse([prog] + SpellAll(ws + [last]), optstring, START).0;
            items == AllItems(optstring, ws) + FlagItems(optstring, last.cs) + [Bad]
            && Bad !in AllItems(optstring, ws) + FlagItems(optstring, last.cs)
  {
    assert [prog] + SpellAll(ws + [last]) + [] == [prog] + SpellAll(ws + [last]);
    assert Proper(optstring, ws + [last], []) by {
      hide Legal, Clean;
      assert forall k :: 0 <= k < |ws| ==> (ws + [last])[k] == ws[k];
      assert forall k :: 0 <= k < |ws| ==> !ws[k].Missing? by { NoneMissing(optstring, ws); }
    }
    hide Parse, Legal, Proper;
    GetoptInvertsSpelling(prog, optstring, ws + [last], []);
    AllItemsSnoc(optstring, ws, last);
    NoErrorIffClean(optstring, ws);
    FlagsCleanIff(optstring, last.cs);
    hide Clean;
    assert AllItems(optstring, ws) + (FlagItems(optstring, last.cs) + [Bad])
        == AllItems(optstring, ws) + FlagItems(optstring, last.cs) + [Bad];
  }

  lemma NoneMissing(optstring: string, ws: seq<Word>)
    requires forall k :: 0 <= k < |ws| ==> Clean(optstring, ws[k])
    ensures forall k :: 0 <= k < |ws| ==> !ws[k].Missing?
  {
    forall k | 0 <= k < |ws| ensures !ws[k].Missing? {
      assert Clean(optstring, ws[k]);
    }
  }

  lemma {:induction false} AllItemsSnoc(optstring: string, ws: seq<Word>, w: Word)
    ensures AllItems(optstring, ws + [w]) == AllItems(optstring, ws) + Items(optstring, w)
  {
    hide Items;
    if ws == [] {
      assert ws + [w] == [w] && [w][1..] == [];
    } else {
      assert (ws + [w])[1..] == ws[1..] + [w];
      AllItemsSnoc(optstring, ws[1..], w);
      assert Items(optstring, ws[0]) + (AllItems(optstring, ws[1..]) + Items(optstring, w))
          == (Items(optstring, ws[0]) + AllItems(optstring, ws[1..])) + Items(optstring, w);
    }
  }

  /** An option as `optstring` declares it. */
  ghost predicate Declared(optstring: string, it: Item) {
    !it.Bad? && Known(optstring, it.c) && it.c != '?' && it.c != '-' && (it.WithArg? <==> Wants(optstring, it.c))
  }

  /** The plainest spelling: one option per word, arguments apart. */
  function RenderOne(it: Item): Word
    requires !it.Bad?
  {
    if it.Flag? then Flags([it.c]) else Apart("", it.c, it.arg)
  }

  function Render(items: seq<Item>): seq<Word>
    requires Bad !in items
  {
    if items == [] then [] else [RenderOne(items[0])] + Render(items[1..])
  }

  lemma OneIsLegal(optstring: string, it: Item)
    requires Declared(optstring, it)
    ensures Items(optstring, RenderOne(it)) == [it] && Legal(optstring, RenderOne(it)) && !RenderOne(it).Missing?
  {
    hide Known, Wants;
    assert FlagItems(optstring, "") == [];
    assert it.Flag? ==> [it.c][1..] == "";
    assert Spell(RenderOne(it))[0][1] == it.c;
  }

  /** Every list of declared options has a legal spelling, so `getopt` can deliver any of them. */
  lemma {:induction false} RenderIsLegal(optstring: string, items: seq<Item>)
    requires forall k :: 0 <= k < |items| ==> Declared(optstring, items[k])
    ensures Bad !in items && AllItems(optstring, Render(items)) == items
    ensures Proper(optstring, Render(items), [])
  {
    assert Bad !in items;
    hide Legal, Items, RenderOne, Declared;
    if items != [] {
      OneIsLegal(optstring, items[0]);
      RenderIsLegal(optstring, items[1..]);
      assert Render(items)[1..] == Render(items[1..]);
    }
  }
}
