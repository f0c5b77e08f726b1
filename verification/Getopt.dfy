/** The argument permutation of `getopt`: an in-place exchange of two neighbouring blocks, and
    the state machine that calls it between one option and the next.
 */
module Getopt {
  import opened Options

  // ---------------------------------------------------------------- decoding one option

  /** `struct option`; hasArg is 0, 1 (required) or 2 (optional). */
  datatype LongOption = LongOption(name: string, hasArg: int, hasFlag: bool, val: int)

  /** What the caller passes to every call; `longopts` is None for plain `getopt`. */
  datatype Syntax = Syntax(optstring: string, longopts: Option<seq<LongOption>>, longOnly: bool)

  /** NONOPTION_P */
  predicate NonOption(s: string) {
    |s| < 2 || s[0] != '-'
  }

  /** `my_index`; |s| when the character is not there. */
  function IndexOf(s: string, c: char): (i: nat)
    ensures i <= |s| && c !in s[..i] && (i < |s| ==> s[i] == c)
  {
    if s == "" then 0 else if s[0] == c then 0
    else
      assert forall i: nat :: i <= |s[1..]| ==> s[..i + 1] == [s[0]] + s[1..][..i];
      1 + IndexOf(s[1..], c)
  }

  /** The first option from i on whose name is exactly, or begins with, the text. */
  function FirstExact(opts: seq<LongOption>, name: string, i: nat): (r: nat)
    requires i <= |opts|
    ensures i <= r <= |opts|
    ensures r < |opts| ==> opts[r].name == name
    ensures forall j :: i <= j < r ==> opts[j].name != name
    decreases |opts| - i
  {
    if i == |opts| || opts[i].name == name then i else FirstExact(opts, name, i + 1)
  }

  function FirstPrefix(opts: seq<LongOption>, name: string, i: nat): (r: nat)
    requires i <= |opts|
    ensures i <= r <= |opts|
    ensures r < |opts| ==> name <= opts[r].name
    ensures forall j :: i <= j < r ==> !(name <= opts[j].name)
    decreases |opts| - i
  {
    if i == |opts| || name <= opts[i].name then i else FirstPrefix(opts, name, i + 1)
  }

  datatype Match = NoMatch | Ambiguous | Found(index: nat)

  /** An exact name wins; otherwise an abbreviation must be unique. */
  function MatchLong(opts: seq<LongOption>, name: string): (m: Match)
    ensures m.Found? ==> m.index < |opts|
  {
    var e, p := FirstExact(opts, name, 0), FirstPrefix(opts, name, 0);
    if e < |opts| then Found(e)
    else if p == |opts| then NoMatch
    else if FirstPrefix(opts, name, p + 1) < |opts| then Ambiguous
    else Found(p)
  }

  /** One call's result: the value returned, the argument, the text still to be decoded in the
      same element, and how many elements `optind` moves over. */
  datatype Decoded = Decoded(ret: int, optarg: Option<string>, nextchar: string, used: nat)

  const QUESTION := '?' as int

  /** A missing argument is reported as ':' when the option string begins with ':'. */
  function Missing(syntax: Syntax): int {
    if syntax.optstring != "" && syntax.optstring[0] == ':' then ':' as int else QUESTION
  }

  predicate TakesLong(syntax: Syntax, elt: string)
    requires !NonOption(elt)
  {
    syntax.longopts.Some? && (elt[1] == '-' || (syntax.longOnly && (|elt| > 2 || elt[1] !in syntax.optstring)))
  }

  function DecodeLong(syntax: Syntax, opt: LongOption, nextchar: string, following: Option<string>): Decoded {
    var end := IndexOf(nextchar, '=');
    var ret := if opt.hasFlag then 0 else opt.val;
    if end < |nextchar| then
      if opt.hasArg != 0 then Decoded(ret, Some(nextchar[end + 1..]), "", 1) else Decoded(QUESTION, None, "", 1)
    else if opt.hasArg == 1 then
      if following.Some? then Decoded(ret, following, "", 2) else Decoded(Missing(syntax), None, "", 1)
    else Decoded(ret, None, "", 1)
  }

  function DecodeShort(syntax: Syntax, nextchar: string, following: Option<string>): Decoded
    requires nextchar != ""
  {
    var c, rest, opts := nextchar[0], nextchar[1..], syntax.optstring;
    var at := IndexOf(opts, c);
    var step := if rest == "" then 1 else 0;
    if at == |opts| || c == ':' then Decoded(QUESTION, None, rest, step)
    else if at + 1 < |opts| && opts[at + 1] == ':' then
      if rest != "" then Decoded(c as int, Some(rest), "", 1)
      else if at + 2 < |opts| && opts[at + 2] == ':' then Decoded(c as int, None, "", 1)
      else if following.Some? then Decoded(c as int, following, "", 2)
      else Decoded(Missing(syntax), None, "", 1)
    else Decoded(c as int, None, rest, step)
  }

  /** Decode the next option of an element, given the element behind it. */
  function Decode(syntax: Syntax, elt: string, nextchar: string, following: Option<string>): (d: Decoded)
    requires !NonOption(elt) && nextchar != ""
    ensures d.used > 0 ==> d.nextchar == ""
    ensures d.used == 0 ==> 0 < |d.nextchar| < |nextchar|
    ensures d.used <= if following.Some? then 2 else 1
  {
    if TakesLong(syntax, elt) then
      var m := MatchLong(syntax.longopts.value, nextchar[..IndexOf(nextchar, '=')]);
      if m == Ambiguous then Decoded(QUESTION, None, "", 1)
      else if m.Found? then DecodeLong(syntax, syntax.longopts.value[m.index], nextchar, following)
      else if !syntax.longOnly || elt[1] == '-' || nextchar[0] !in syntax.optstring then Decoded(QUESTION, None, "", 1)
      else DecodeShort(syntax, nextchar, following)
    else DecodeShort(syntax, nextchar, following)
  }

  /** Where decoding an element starts. */
  function FirstChar(syntax: Syntax, elt: string): (n: string)
    requires !NonOption(elt) && elt != "--"
    ensures n != ""
  {
    if syntax.longopts.Some? && elt[1] == '-' then elt[2..] else elt[1..]
  }

  // ---------------------------------------------------------------- what a run should do

  /** The arguments apart, in their original order: options with their arguments, and the
      others; and what the calls return for the options. */
  datatype Parted = Parted(options: seq<string>, others: seq<string>, returned: seq<(int, Option<string>)>)

  function Following(args: seq<string>): Option<string> {
    if |args| > 1 then Some(args[1]) else None
  }

  /** The reference: one walk over the arguments, nothing permuted. `nextchar` is what is left
      to decode in the first of them; "" at the start of an element. */
  function Part(syntax: Syntax, nextchar: string, args: seq<string>): Parted
    requires nextchar != "" ==> args != [] && !NonOption(args[0])
    decreases |args|, if nextchar == "" then 1 else 0, |nextchar|
  {
    if args == [] then Parted([], [], [])
    else if nextchar == "" then
      if args[0] == "--" then Parted(["--"], args[1..], [])
      else if NonOption(args[0]) then
        var p := Part(syntax, "", args[1..]);
        p.(others := [args[0]] + p.others)
      else Part(syntax, FirstChar(syntax, args[0]), args)
    else
      var d := Decode(syntax, args[0], nextchar, Following(args));
      var p := Part(syntax, d.nextchar, args[d.used..]);
      Parted(args[..d.used] + p.options, p.others, [(d.ret, d.optarg)] + p.returned)
  }

  /** Nothing is lost or made up. */
  lemma {:induction false} PartIsPermutation(syntax: Syntax, nextchar: string, args: seq<string>)
    requires nextchar != "" ==> args != [] && !NonOption(args[0])
    ensures var p := Part(syntax, nextchar, args);
      multiset(p.options) + multiset(p.others) == multiset(args)
    decreases |args|, if nextchar == "" then 1 else 0, |nextchar|
  {
    if args == [] {
    } else if nextchar == "" {
      assert args == [args[0]] + args[1..];
      if args[0] != "--" {
        if NonOption(args[0]) {
          PartIsPermutation(syntax, "", args[1..]);
        } else {
          PartIsPermutation(syntax, FirstChar(syntax, args[0]), args);
        }
      }
    } else {
      var d := Decode(syntax, args[0], nextchar, Following(args));
      PartIsPermutation(syntax, d.nextchar, args[d.used..]);
      assert args == args[..d.used] + args[d.used..];
    }
  }

  /** The arguments at the places that are marked so, in their order. */
  function Picked(args: seq<string>, marks: seq<bool>, mark: bool): seq<string>
    requires |args| == |marks|
  {
    if args == [] then []
    else (if marks[0] == mark then [args[0]] else []) + Picked(args[1..], marks[1..], mark)
  }

  lemma PickedMore(arg: string, mark: bool, args: seq<string>, marks: seq<bool>)
    requires |args| == |marks|
    ensures Picked([arg] + args, [mark] + marks, mark) == [arg] + Picked(args, marks, mark)
    ensures Picked([arg] + args, [mark] + marks, !mark) == Picked(args, marks, !mark)
  {
    assert ([arg] + args)[1..] == args && ([mark] + marks)[1..] == marks;
  }

  lemma {:induction false} PickedAll(args: seq<string>) returns (marks: seq<bool>)
    ensures |marks| == |args| && Picked(args, marks, false) == args && Picked(args, marks, true) == []
    decreases |args|
  {
    if args == [] {
      marks := [];
    } else {
      var rest := PickedAll(args[1..]);
      marks := [false] + rest;
      PickedMore(args[0], false, args[1..], rest);
      assert args == [args[0]] + args[1..];
    }
  }

  lemma PickedOptions(args: seq<string>, used: nat, rest: seq<bool>) returns (marks: seq<bool>)
    requires used <= 2 && used <= |args| && |rest| == |args| - used
    ensures |marks| == |args| && Picked(args, marks, true) == args[..used] + Picked(args[used..], rest, true)
    ensures Picked(args, marks, false) == Picked(args[used..], rest, false)
  {
    marks := rest;
    if used == 0 {
      assert args[0..] == args;
    } else {
      assert args == [args[0]] + args[1..];
      if used == 2 {
        PickedMore(args[1], true, args[2..], rest);
        assert args[1..] == [args[1]] + args[2..];
        marks := [true] + rest;
      }
      PickedMore(args[0], true, args[1..], marks);
      marks := [true] + marks;
    }
  }

  /** Options and others are complementary parts of the arguments, each in its original order. */
  lemma {:induction false} PartKeepsOrder(syntax: Syntax, nextchar: string, args: seq<string>)
    returns (marks: seq<bool>)
    requires nextchar != "" ==> args != [] && !NonOption(args[0])
    ensures |marks| == |args| && Part(syntax, nextchar, args).options == Picked(args, marks, true)
    ensures Part(syntax, nextchar, args).others == Picked(args, marks, false)
    decreases |args|, if nextchar == "" then 1 else 0, |nextchar|
  {
    if args == [] {
      marks := [];
    } else if nextchar == "" {
      assert args == [args[0]] + args[1..];
      if args[0] == "--" {
        marks := PickedAll(args[1..]);
        PickedMore(args[0], true, args[1..], marks);
        marks := [true] + marks;
      } else if NonOption(args[0]) {
        marks := PartKeepsOrder(syntax, "", args[1..]);
        PickedMore(args[0], false, args[1..], marks);
        marks := [false] + marks;
      } else {
        marks := PartKeepsOrder(syntax, FirstChar(syntax, args[0]), args);
      }
    } else {
      var d := Decode(syntax, args[0], nextchar, Following(args));
      marks := PartKeepsOrder(syntax, d.nextchar, args[d.used..]);
      marks := PickedOptions(args, d.used, marks);
    }
  }

  /** With no option and no "--" behind them, the other arguments are left as they are. */
  lemma {:induction false} OthersHoldNoOption(syntax: Syntax, nextchar: string, args: seq<string>)
    requires nextchar != "" ==> args != [] && !NonOption(args[0])
    requires "--" !in args
    ensures forall s :: s in Part(syntax, nextchar, args).others ==> NonOption(s)
    decreases |args|, if nextchar == "" then 1 else 0, |nextchar|
  {
    if args == [] {
    } else if nextchar == "" {
      assert args[0] in args;
      if NonOption(args[0]) {
        OthersHoldNoOption(syntax, "", args[1..]);
      } else {
        OthersHoldNoOption(syntax, FirstChar(syntax, args[0]), args);
      }
    } else {
      var d := Decode(syntax, args[0], nextchar, Following(args));
      OthersHoldNoOption(syntax, d.nextchar, args[d.used..]);
    }
  }

  // ---------------------------------------------------------------- the loops of the decoder

  method MyIndex(str: string, chr: char) returns (i: nat)
    ensures i == IndexOf(str, chr)
  {
    i := 0;
    while i < |str|
      invariant i <= |str| && chr !in str[..i]
    {
      if str[i] == chr {
        IndexIsFirst(str, chr, i);
        return;
      }
      i := i + 1;
    }
    assert str[..i] == str;
    IndexIsFirst(str, chr, i);
  }

  lemma IndexIsFirst(str: string, chr: char, i: nat)
    requires i <= |str| && chr !in str[..i] && (i < |str| ==> str[i] == chr)
    ensures IndexOf(str, chr) == i
  {
  }

  /** The search through the table of long options: one pass that stops at an exact match and
      otherwise remembers the first abbreviation and whether there was another. */
  method FindLong(opts: seq<LongOption>, name: string) returns (m: Match)
    ensures m == MatchLong(opts, name)
  {
    var pfound: nat, ambig := |opts|, false;
    var i: nat := 0;
    while i < |opts|
      invariant i <= |opts|
      invariant forall j :: 0 <= j < i ==> opts[j].name != name
      invariant pfound < |opts| ==>
        pfound < i && name <= opts[pfound].name && forall j :: 0 <= j < pfound ==> !(name <= opts[j].name)
      invariant pfound >= |opts| ==> pfound == |opts| && forall j :: 0 <= j < i ==> !(name <= opts[j].name)
      invariant ambig ==> pfound < |opts| && exists j :: pfound < j < i && name <= opts[j].name
      invariant !ambig && pfound < |opts| ==> forall j :: pfound < j < i ==> !(name <= opts[j].name)
    {
      if name <= opts[i].name {
        if |name| == |opts[i].name| {
          return Found(i);
        } else if pfound == |opts| {
          pfound := i;
        } else {
          ambig := true;
        }
      }
      i := i + 1;
    }
    m := if ambig then Ambiguous else if pfound < |opts| then Found(pfound) else NoMatch;
  }

  // ---------------------------------------------------------------- argv

  /** A block [lo, middle) and its neighbour [middle, hi) have changed places. */
  function Rotated(a: seq<string>, lo: nat, middle: nat, hi: nat): (r: seq<string>)
    requires lo <= middle <= hi <= |a|
    ensures |r| == |a|
  {
    a[..lo] + a[middle..hi] + a[lo..middle] + a[hi..]
  }

  /** Element x once n elements at i have been swapped with n elements at j. */
  function Swapped(a: seq<string>, i: nat, j: nat, n: nat, x: nat): string
    requires i + n <= j && j + n <= |a| && x < |a|
  {
    if i <= x < i + n then a[x - i + j] else if j <= x < j + n then a[x - j + i] else a[x]
  }

  predicate BlocksSwapped(a: seq<string>, i: nat, j: nat, n: nat, b: seq<string>)
    requires i + n <= j && j + n <= |a|
  {
    |b| == |a| && forall x :: 0 <= x < |a| ==> b[x] == Swapped(a, i, j, n, x)
  }

  /** The inner loops of `exchange`. */
  method SwapBlocks(argv: array<string>, i: nat, j: nat, n: nat)
    requires i + n <= j && j + n <= argv.Length
    modifies argv
    ensures BlocksSwapped(old(argv[..]), i, j, n, argv[..])
  {
    var k: nat := 0;
    while k < n
      invariant k <= n
      invariant forall x :: 0 <= x < argv.Length ==> argv[x] == Swapped(old(argv[..]), i, j, k, x)
    {
      argv[i + k], argv[j + k] := argv[j + k], argv[i + k];
      k := k + 1;
    }
  }

  /** The element at x once the blocks lo..middle and middle..hi have been exchanged. */
  lemma RotatedAt(a: seq<string>, lo: nat, middle: nat, hi: nat, x: nat)
    requires lo <= middle <= hi <= |a| && x < |a|
    ensures Rotated(a, lo, middle, hi)[x] ==
      if lo <= x < lo + (hi - middle) then a[x - lo + middle]
      else if lo + (hi - middle) <= x < hi then a[x - (hi - middle)] else a[x]
  {
  }

  /** Swapping the shorter block with the far end of the longer one leaves a smaller exchange. */
  lemma SwapTop(a: seq<string>, lo: nat, middle: nat, hi: nat, b: seq<string>)
    requires lo < middle < hi <= |a| && hi - middle > middle - lo
    requires |b| == |a| && BlocksSwapped(a, lo, hi - (middle - lo), middle - lo, b)
    ensures Rotated(b, lo, middle, hi - (middle - lo)) == Rotated(a, lo, middle, hi)
  {
    forall x | 0 <= x < |a|
      ensures Rotated(b, lo, middle, hi - (middle - lo))[x] == Rotated(a, lo, middle, hi)[x]
    {
      RotatedAt(b, lo, middle, hi - (middle - lo), x);
      RotatedAt(a, lo, middle, hi, x);
    }
  }

  lemma SwapBottom(a: seq<string>, lo: nat, middle: nat, hi: nat, b: seq<string>)
    requires lo < middle < hi <= |a| && hi - middle <= middle - lo
    requires |b| == |a| && BlocksSwapped(a, lo, middle, hi - middle, b)
    ensures Rotated(b, lo + (hi - middle), middle, hi) == Rotated(a, lo, middle, hi)
  {
    forall x | 0 <= x < |a|
      ensures Rotated(b, lo + (hi - middle), middle, hi)[x] == Rotated(a, lo, middle, hi)[x]
    {
      RotatedAt(b, lo + (hi - middle), middle, hi, x);
      RotatedAt(a, lo, middle, hi, x);
    }
  }

  /** One round of the loop of `exchange`: the shorter block goes into place. */
  method ExchangeRound(argv: array<string>, bottom: nat, middle: nat, top: nat) returns (bottom': nat, top': nat)
    requires bottom < middle < top <= argv.Length
    modifies argv
    ensures bottom <= bottom' <= middle <= top' <= top && top' - bottom' < top - bottom
    ensures Rotated(argv[..], bottom', middle, top') == Rotated(old(argv[..]), bottom, middle, top)
  {
    ghost var a := argv[..];
    bottom', top' := bottom, top;
    if top - middle > middle - bottom {
      var len := middle - bottom;
      top' := top - len;
      SwapBlocks(argv, bottom, top', len);
      SwapTop(a, bottom, middle, top, argv[..]);
    } else {
      var len := top - middle;
      bottom' := bottom + len;
      SwapBlocks(argv, bottom, middle, len);
      SwapBottom(a, bottom, middle, top, argv[..]);
    }
  }

  lemma RotatedEmpty(a: seq<string>, lo: nat, middle: nat, hi: nat)
    requires lo <= middle <= hi <= |a| && (lo == middle || middle == hi)
    ensures Rotated(a, lo, middle, hi) == a
  {
  }

  /** The loop of `exchange`, in place. */
  method ExchangeBlocks(argv: array<string>, first: nat, last: nat, end: nat)
    requires first <= last <= end <= argv.Length
    modifies argv
    ensures argv[..] == Rotated(old(argv[..]), first, last, end)
  {
    var bottom: nat, middle: nat, top: nat := first, last, end;
    ghost var want := Rotated(argv[..], first, last, end);
    while top > middle && middle > bottom
      invariant bottom <= middle <= top <= argv.Length
      invariant Rotated(argv[..], bottom, middle, top) == want
      decreases top - bottom
    {
      bottom, top := ExchangeRound(argv, bottom, middle, top);
    }
    RotatedEmpty(argv[..], bottom, middle, top);
  }

  /** Where the two blocks are once they have changed places. */
  lemma RotatedParts(a: seq<string>, first: nat, last: nat, end: nat)
    requires 1 <= first <= last <= end <= |a|
    ensures var r, f := Rotated(a, first, last, end), first + (end - last);
      && |r| == |a| && r[0] == a[0]
      && r[1..f] == a[1..first] + a[last..end]
      && r[f..end] == a[first..last]
      && r[end..] == a[end..]
  {
  }

  /** Passing one more argument that is no option. */
  lemma SkipOne(syntax: Syntax, a: seq<string>, original: seq<string>, first: nat, i: nat,
                returned: seq<(int, Option<string>)>)
    requires |a| == |original| && 1 <= first <= i < |a| && a[i..] == original[i..] && NonOption(a[i])
    ensures Apart(syntax, a, original, first, i, returned) == Apart(syntax, a, original, first, i + 1, returned)
    ensures a[i + 1..] == original[i + 1..]
  {
    var rest := original[i..];
    assert a[i] == a[i..][0] == rest[0] && rest[1..] == original[i + 1..];
    assert a[i + 1..] == a[i..][1..];
    assert a[first..i + 1] == a[first..i] + [a[i]];
    var p := Part(syntax, "", rest[1..]);
    assert a[first..i] + ([rest[0]] + p.others) == a[first..i + 1] + p.others;
  }

  /** The arguments once "--" has been exchanged with the others in front of it. */
  function PastMarker(a: seq<string>, first: nat, end: nat): seq<string>
    requires first <= end < |a|
  {
    if first == end then a else Rotated(a, first, end, end + 1)
  }

  /** "--" joins the options in front of the others, and everything behind it is one of the others. */
  lemma MarkerParts(syntax: Syntax, a: seq<string>, original: seq<string>, first: nat, end: nat,
                    returned: seq<(int, Option<string>)>)
    returns (b: seq<string>)
    requires |a| == |original| && 1 <= first <= end < |a| && a[end..] == original[end..] && a[end] == "--"
    ensures b == PastMarker(a, first, end)
    ensures |b| == |a| && b[0] == a[0] && a[end + 1..] == original[end + 1..]
    ensures Apart(syntax, a, original, first, end, returned) == Parted(b[1..first + 1], b[first + 1..], returned)
  {
    b := PastMarker(a, first, end);
    assert original[end..][0] == a[end..][0] && original[end..][1..] == a[end..][1..] == a[end + 1..];
    assert a[end + 1..] == original[end + 1..];
    if first == end {
      assert b[1..first + 1] == a[1..first] + [a[end]];
    } else {
      RotatedParts(a, first, end, end + 1);
      assert a[end..end + 1] == ["--"];
    }
    assert b[first + 1..] == a[first..end] + a[end + 1..];
  }

  // ---------------------------------------------------------------- the state machine

  class Scanner {
    const argv: array<string>
    var optind: nat
    var firstNonopt: nat
    var lastNonopt: nat
    var nextchar: string
    var optarg: Option<string>

    // the argument vector at first and now, and what the calls have returned
    ghost const original: seq<string>
    ghost var now: seq<string>
    ghost var returned: seq<(int, Option<string>)>

    /** `_getopt_initialize` for an option string that leaves the ordering at PERMUTE. */
    constructor (argv: array<string>, ghost syntax: Syntax)
      requires argv.Length >= 1
      ensures this.argv == argv && original == argv[..] && returned == []
      ensures Running(syntax)
    {
      this.argv := argv;
      original := argv[..];
      now := argv[..];
      optind, firstNonopt, lastNonopt := 1, 1, 1;
      nextchar, optarg := "", None;
      returned := [];
    }

    /** What the reference makes of the whole argument vector. */
    ghost function Whole(syntax: Syntax): Parted {
      Part(syntax, "", if original == [] then [] else original[1..])
    }

    ghost predicate Bounds()
      reads this, argv
    {
      && argv[..] == now && |now| == |original| && 1 <= firstNonopt <= lastNonopt <= optind <= |now|
      && now[0] == original[0] && now[optind..] == original[optind..]
    }

    /** Between two calls: options up to `firstNonopt`, others up to `lastNonopt`, options again
        up to `optind`, and what is behind is as it was. */
    ghost predicate Running(syntax: Syntax)
      reads this, argv
    {
      && Bounds()
      && (nextchar != "" ==> optind < |now| && !NonOption(original[optind]) && original[optind] != "--")
      && Whole(syntax) == Together(syntax, nextchar, now, original, firstNonopt, lastNonopt, optind, returned)
    }

    /** After the last call: every option and its argument before `optind`, everything else
        behind it, both in their original order. */
    ghost predicate Finished(syntax: Syntax)
      reads this, argv
    {
      && |original| >= 1 && argv.Length == |original|
      && argv[..] == [original[0]] + Whole(syntax).options + Whole(syntax).others
      && optind == 1 + |Whole(syntax).options|
      && returned == Whole(syntax).returned
    }

    method Exchange()
      requires Bounds()
      modifies this`firstNonopt, this`lastNonopt, this`now, argv
      ensures argv[..] == now == Rotated(old(now), old(firstNonopt), old(lastNonopt), optind)
      ensures firstNonopt == old(firstNonopt) + (optind - old(lastNonopt)) && lastNonopt == optind
    {
      ExchangeBlocks(argv, firstNonopt, lastNonopt, optind);
      now := argv[..];
      firstNonopt := firstNonopt + (optind - lastNonopt);
      lastNonopt := optind;
    }

    /** Options up to `firstNonopt`, others from there to `optind`. */
    ghost predicate Gathered(syntax: Syntax, first: nat)
      reads this, argv
    {
      && argv[..] == now && |now| == |original| && 1 <= first <= optind <= |now|
      && now[0] == original[0] && now[optind..] == original[optind..]
      && Whole(syntax) == Apart(syntax, now, original, first, optind, returned)
    }

    /** If options have been processed behind some others, exchange them. */
    method GatherOptions(ghost syntax: Syntax)
      requires Running(syntax) && nextchar == ""
      modifies this`firstNonopt, this`lastNonopt, this`now, argv
      ensures Gathered(syntax, firstNonopt)
      ensures old(firstNonopt) == old(lastNonopt) ==> firstNonopt == optind
    {
      GatherParts(syntax, now, original, firstNonopt, lastNonopt, optind, returned);
      if firstNonopt != lastNonopt && lastNonopt != optind {
        RotatedParts(now, firstNonopt, lastNonopt, optind);
        Exchange();
      } else if lastNonopt != optind {
        firstNonopt := optind;
      }
    }

    method SkipOthers(ghost syntax: Syntax)
      requires Gathered(syntax, firstNonopt)
      modifies this`optind, this`lastNonopt
      ensures Gathered(syntax, firstNonopt) && lastNonopt == optind
      ensures optind < argv.Length ==> !NonOption(argv[optind])
    {
      while optind < argv.Length && NonOption(argv[optind])
        invariant Gathered(syntax, firstNonopt)
      {
        SkipOne(syntax, now, original, firstNonopt, optind, returned);
        optind := optind + 1;
      }
      lastNonopt := optind;
    }

    /** Nothing is left to scan. */
    ghost predicate Closed(syntax: Syntax)
      reads this, argv
    {
      && argv[..] == now && |now| == |original| && 1 <= firstNonopt <= lastNonopt == optind == |now|
      && now[0] == original[0]
      && Whole(syntax) == Parted(now[1..firstNonopt], now[firstNonopt..], returned)
    }

    /** Step over "--" and exchange it with the others in front of it. */
    method PassMarker(ghost b: seq<string>)
      requires Bounds() && firstNonopt <= optind < |now| && b == PastMarker(now, firstNonopt, optind)
      requires lastNonopt == optind && now[optind + 1..] == original[optind + 1..]
      modifies this`optind, this`firstNonopt, this`lastNonopt, this`now, argv
      ensures optind == old(optind) + 1 && firstNonopt == old(firstNonopt) + 1
      ensures argv[..] == now == b
    {
      optind := optind + 1;
      if firstNonopt != lastNonopt && lastNonopt != optind {
        Exchange();
      } else if firstNonopt == lastNonopt {
        firstNonopt := optind;
      }
    }

    /** The special argument "--" is an option, and nothing behind it is. */
    method EndMarker(ghost syntax: Syntax)
      requires Gathered(syntax, firstNonopt) && lastNonopt == optind
      requires optind < |now| && now[optind] == "--"
      modifies this`optind, this`firstNonopt, this`lastNonopt, this`now, argv
      ensures Closed(syntax)
    {
      ghost var b := MarkerParts(syntax, now, original, firstNonopt, optind, returned);
      PassMarker(b);
      lastNonopt := argv.Length;
      optind := argv.Length;
    }

    /** Point `optind` at the arguments that were skipped. */
    method BackOver(ghost syntax: Syntax)
      requires Closed(syntax)
      modifies this`optind
      ensures Finished(syntax)
    {
      if firstNonopt != lastNonopt {
        optind := firstNonopt;
      }
      assert now == [now[0]] + now[1..firstNonopt] + now[firstNonopt..];
    }

    /** Advance to the next option element; true when there is none. */
    method NextElement(syntax: Syntax) returns (done: bool)
      requires Running(syntax) && nextchar == ""
      modifies this`optind, this`firstNonopt, this`lastNonopt, this`nextchar, this`now, argv
      ensures done ==> Finished(syntax)
      ensures !done ==> Running(syntax) && nextchar != ""
    {
      GatherOptions(syntax);
      SkipOthers(syntax);
      if optind != argv.Length && argv[optind] == "--" {
        EndMarker(syntax);
      } else if optind == argv.Length {
        NothingLeft(syntax, now, original, firstNonopt, returned);
      }
      if optind == argv.Length {
        BackOver(syntax);
        return true;
      }
      ElementStarts(syntax, now, original, firstNonopt, optind, returned);
      nextchar := FirstChar(syntax, argv[optind]);
      done := false;
    }

    /** Decode the next option of the current element. */
    method NextOption(syntax: Syntax) returns (ret: int)
      requires Running(syntax) && nextchar != ""
      modifies this`optind, this`nextchar, this`optarg, this`returned
      ensures Running(syntax)
      ensures returned == old(returned) + [(ret, optarg)]
    {
      SameSuffix(now, original, optind);
      var following := if optind + 1 < argv.Length then Some(argv[optind + 1]) else None;
      var d := DecodeElement(syntax, argv[optind], nextchar, following);
      JoinedParts(syntax, nextchar, now, original, firstNonopt, lastNonopt, optind, returned, d);
      ret := Consume(syntax, d);
    }

    method Consume(ghost syntax: Syntax, d: Decoded) returns (ret: int)
      requires Bounds() && optind + d.used <= |now| && now[optind + d.used..] == original[optind + d.used..]
      requires d.nextchar != "" ==>
        d.used == 0 && optind < |now| && !NonOption(original[optind]) && original[optind] != "--"
      requires Whole(syntax) == Together(syntax, d.nextchar, now, original, firstNonopt, lastNonopt, optind + d.used,
                                         returned + [(d.ret, d.optarg)])
      modifies this`optind, this`nextchar, this`optarg, this`returned
      ensures Running(syntax)
      ensures returned == old(returned) + [(ret, optarg)]
    {
      ret, optarg := d.ret, d.optarg;
      optind, nextchar, returned := optind + d.used, d.nextchar, returned + [(d.ret, d.optarg)];
    }

    /** `_getopt_internal`. The value -1 of the code is `done`: an option may carry any value. */
    method Getopt(syntax: Syntax) returns (done: bool, ret: int)
      requires Running(syntax)
      modifies this, argv
      ensures done ==> Finished(syntax) && returned == old(returned)
      ensures !done ==> Running(syntax) && returned == old(returned) + [(ret, optarg)]
    {
      optarg, ret := None, -1;
      done := false;
      if nextchar == "" {
        done := NextElement(syntax);
      }
      if !done {
        ret := NextOption(syntax);
      }
    }

    /** The loop of a caller, as in `init_cmd_line`: call until there are no more options. */
    method Run(syntax: Syntax) returns (results: seq<(int, Option<string>)>)
      requires Running(syntax) && returned == []
      modifies this, argv
      ensures Finished(syntax) && results == Whole(syntax).returned
    {
      results := [];
      var done, ret := Getopt(syntax);
      while !done
        invariant done ==> Finished(syntax) && returned == results
        invariant !done ==> Running(syntax) && returned == results + [(ret, optarg)]
        decreases |Whole(syntax).returned| - |returned|, !done
      {
        results := results + [(ret, optarg)];
        done, ret := Getopt(syntax);
      }
    }
  }

  method DecodeShortOption(syntax: Syntax, nextchar: string, following: Option<string>) returns (d: Decoded)
    requires nextchar != ""
    ensures d == DecodeShort(syntax, nextchar, following)
  {
    var c := nextchar[0];
    var rest := nextchar[1..];
    var temp := MyIndex(syntax.optstring, c);
    var used := if rest == "" then 1 else 0;
    if temp == |syntax.optstring| || c == ':' {
      return Decoded(QUESTION, None, rest, used);
    }
    if temp + 1 < |syntax.optstring| && syntax.optstring[temp + 1] == ':' {
      if temp + 2 < |syntax.optstring| && syntax.optstring[temp + 2] == ':' {
        if rest != "" {
          return Decoded(c as int, Some(rest), "", used + 1);
        }
        return Decoded(c as int, None, "", used);
      }
      if rest != "" {
        return Decoded(c as int, Some(rest), "", used + 1);
      } else if following == None {
        return Decoded(Missing(syntax), None, "", used);
      }
      return Decoded(c as int, following, "", used + 1);
    }
    d := Decoded(c as int, None, rest, used);
  }

  method DecodeElement(syntax: Syntax, elt: string, nextchar: string, following: Option<string>) returns (d: Decoded)
    requires !NonOption(elt) && nextchar != ""
    ensures d == Decode(syntax, elt, nextchar, following)
  {
    if TakesLong(syntax, elt) {
      var nameend := MyIndex(nextchar, '=');
      var m := FindLong(syntax.longopts.value, nextchar[..nameend]);
      if m == Ambiguous {
        return Decoded(QUESTION, None, "", 1);
      }
      if m.Found? {
        var pfound := syntax.longopts.value[m.index];
        if nameend < |nextchar| {
          if pfound.hasArg == 0 {
            return Decoded(QUESTION, None, "", 1);
          }
          return Decoded(if pfound.hasFlag then 0 else pfound.val, Some(nextchar[nameend + 1..]), "", 1);
        } else if pfound.hasArg == 1 {
          if following == None {
            return Decoded(Missing(syntax), None, "", 1);
          }
          return Decoded(if pfound.hasFlag then 0 else pfound.val, following, "", 2);
        }
        return Decoded(if pfound.hasFlag then 0 else pfound.val, None, "", 1);
      }
      if !syntax.longOnly || elt[1] == '-' || nextchar[0] !in syntax.optstring {
        return Decoded(QUESTION, None, "", 1);
      }
    }
    d := DecodeShortOption(syntax, nextchar, following);
  }

  /** What has been dealt with, and what the rest will give. */
  function Joined(options: seq<string>, others: seq<string>, returned: seq<(int, Option<string>)>, rest: Parted): Parted
  {
    Parted(options + rest.options, others + rest.others, returned + rest.returned)
  }

  /** The same when all options found are in front of all others. */
  function Apart(syntax: Syntax, a: seq<string>, original: seq<string>, first: nat, i: nat,
                 returned: seq<(int, Option<string>)>): Parted
    requires 1 <= first <= i <= |a| == |original|
  {
    Joined(a[1..first], a[first..i], returned, Part(syntax, "", original[i..]))
  }

  /** A scanner at index i, with options up to `first` and from `last` on: what it has moved and
      returned, and what the reference makes of the rest. */
  function Together(syntax: Syntax, nextchar: string, a: seq<string>, original: seq<string>, first: nat, last: nat,
                    i: nat, returned: seq<(int, Option<string>)>): Parted
    requires 1 <= first <= last <= i <= |a| == |original|
    requires nextchar != "" ==> i < |original| && !NonOption(original[i])
  {
    Joined(a[1..first] + a[last..i], a[first..last], returned, Part(syntax, nextchar, original[i..]))
  }

  lemma SameSuffix(a: seq<string>, original: seq<string>, i: nat)
    requires |a| == |original| && i < |a| && a[i..] == original[i..]
    ensures a[i] == original[i]
    ensures Following(original[i..]) == if i + 1 < |a| then Some(a[i + 1]) else None
  {
    assert a[i..][0] == original[i..][0];
    assert i + 1 < |a| ==> a[i..][1] == original[i..][1];
  }

  lemma TakeParts(a: seq<string>, original: seq<string>, first: nat, last: nat, i: nat, used: nat)
    requires |a| == |original| && 1 <= first <= last <= i && i + used <= |a| && a[i..] == original[i..]
    ensures a[i + used..] == original[i + used..] == original[i..][used..]
    ensures a[1..first] + a[last..i + used] == a[1..first] + a[last..i] + original[i..][..used]
  {
    assert a[i + used..] == a[i..][used..];
    assert a[last..i + used] == a[last..i] + a[i..][..used];
  }

  lemma JoinedStep(syntax: Syntax, nextchar: string, args: seq<string>, options: seq<string>, others: seq<string>,
                   returned: seq<(int, Option<string>)>, d: Decoded)
    requires nextchar != "" && args != [] && !NonOption(args[0])
    requires d == Decode(syntax, args[0], nextchar, Following(args))
    ensures Joined(options, others, returned, Part(syntax, nextchar, args)) ==
      Joined(options + args[..d.used], others, returned + [(d.ret, d.optarg)], Part(syntax, d.nextchar, args[d.used..]))
  {
  }

  /** The same for a scanner that holds its options in two parts. */
  lemma JoinedParts(syntax: Syntax, nextchar: string, a: seq<string>, original: seq<string>, first: nat, last: nat,
                    i: nat, returned: seq<(int, Option<string>)>, d: Decoded)
    requires |a| == |original| && 1 <= first <= last <= i < |a| && a[i..] == original[i..] && i + d.used <= |a|
    requires nextchar != "" && !NonOption(original[i])
    requires d == Decode(syntax, original[i], nextchar, Following(original[i..]))
    ensures a[i + d.used..] == original[i + d.used..]
    ensures Together(syntax, nextchar, a, original, first, last, i, returned) ==
      Together(syntax, d.nextchar, a, original, first, last, i + d.used, returned + [(d.ret, d.optarg)])
  {
    TakeParts(a, original, first, last, i, d.used);
    JoinedStep(syntax, nextchar, original[i..], a[1..first] + a[last..i], a[first..last], returned, d);
  }

  /** No exchange is needed when there are no others, or no options behind them. */
  lemma GatherParts(syntax: Syntax, a: seq<string>, original: seq<string>, first: nat, last: nat, i: nat,
                    returned: seq<(int, Option<string>)>)
    requires 1 <= first <= last <= i <= |a| == |original|
    ensures first == last ==>
      Together(syntax, "", a, original, first, last, i, returned) == Apart(syntax, a, original, i, i, returned)
    ensures last == i ==>
      Together(syntax, "", a, original, first, last, i, returned) == Apart(syntax, a, original, first, i, returned)
    ensures Together(syntax, "", a, original, first, last, i, returned) ==
      Apart(syntax, Rotated(a, first, last, i), original, first + (i - last), i, returned)
  {
    RotatedParts(a, first, last, i);
    assert first == last ==> a[1..first] + a[last..i] == a[1..i] && a[first..last] == a[i..i];
    assert last == i ==> a[1..first] + a[last..i] == a[1..first];
  }

  lemma NothingLeft(syntax: Syntax, a: seq<string>, original: seq<string>, first: nat,
                    returned: seq<(int, Option<string>)>)
    requires 1 <= first <= |a| == |original|
    ensures Apart(syntax, a, original, first, |a|, returned) == Parted(a[1..first], a[first..], returned)
  {
    assert original[|a|..] == [];
  }

  lemma ElementStarts(syntax: Syntax, a: seq<string>, original: seq<string>, first: nat, i: nat,
                      returned: seq<(int, Option<string>)>)
    requires 1 <= first <= i < |a| == |original| && a[i..] == original[i..]
    requires !NonOption(a[i]) && a[i] != "--"
    ensures a[i] == original[i]
    ensures Together(syntax, FirstChar(syntax, a[i]), a, original, first, i, i, returned) ==
      Apart(syntax, a, original, first, i, returned)
  {
    assert a[i..][0] == original[i..][0];
    assert a[1..first] + a[i..i] == a[1..first];
  }
}
