/** The ways in which options can be written, and what the calls of `getopt` return for each. */
module GetoptForms {
  import opened Options
  import opened Getopt

  type Value = (int, Option<string>)

  // ---------------------------------------------------------------- what the caller declares

  /** The first place of a letter in the option string. */
  predicate FirstAt(opts: string, c: char, i: nat) {
    i < |opts| && opts[i] == c && c !in opts[..i]
  }

  predicate ColonAt(opts: string, i: nat) {
    i < |opts| && opts[i] == ':'
  }

  /** A letter without ':' behind it is a flag; with one ':' it takes an argument; with two it
      may have one in the same element. */
  ghost predicate IsFlag(opts: string, c: char) {
    c != ':' && exists i: nat :: FirstAt(opts, c, i) && !ColonAt(opts, i + 1)
  }

  ghost predicate Takes(opts: string, c: char) {
    c != ':' && exists i: nat :: FirstAt(opts, c, i) && ColonAt(opts, i + 1) && !ColonAt(opts, i + 2)
  }

  ghost predicate MayTake(opts: string, c: char) {
    c != ':' && exists i: nat :: FirstAt(opts, c, i) && ColonAt(opts, i + 1) && ColonAt(opts, i + 2)
  }

  predicate Unknown(opts: string, c: char) {
    c == ':' || c !in opts
  }

  /** Every character is exactly one of these. */
  lemma OneKind(opts: string, c: char)
    ensures Unknown(opts, c) || IsFlag(opts, c) || Takes(opts, c) || MayTake(opts, c)
    ensures Unknown(opts, c) ==> !IsFlag(opts, c) && !Takes(opts, c) && !MayTake(opts, c)
    ensures IsFlag(opts, c) ==> !Takes(opts, c) && !MayTake(opts, c)
    ensures !(Takes(opts, c) && MayTake(opts, c))
  {
    var i := IndexOf(opts, c);
    if !Unknown(opts, c) {
      assert opts[..|opts|] == opts;
      assert FirstAt(opts, c, i);
    }
    forall j: nat | FirstAt(opts, c, j)
      ensures j == i
    {
      IndexIsFirst(opts, c, j);
    }
  }

  /** The long option that a text names: the first of exactly that name, or else the only one
      whose name begins with it. */
  ghost predicate Names(opts: seq<LongOption>, name: string, k: nat) {
    k < |opts| &&
    if opts[k].name == name then forall j :: 0 <= j < k ==> opts[j].name != name
    else
      && name <= opts[k].name
      && forall j :: 0 <= j < |opts| && j != k ==> !(name <= opts[j].name)
  }

  ghost predicate NamesTwo(opts: seq<LongOption>, name: string) {
    && (forall j :: 0 <= j < |opts| ==> opts[j].name != name)
    && exists i, j :: 0 <= i < j < |opts| && name <= opts[i].name && name <= opts[j].name
  }

  ghost predicate NamesNone(opts: seq<LongOption>, name: string) {
    forall j :: 0 <= j < |opts| ==> !(name <= opts[j].name)
  }

  lemma MatchMeans(opts: seq<LongOption>, name: string, k: nat)
    ensures MatchLong(opts, name) == Found(k) <==> Names(opts, name, k)
    ensures MatchLong(opts, name) == Ambiguous <==> NamesTwo(opts, name)
    ensures MatchLong(opts, name) == NoMatch <==> NamesNone(opts, name)
  {
    var e, p := FirstExact(opts, name, 0), FirstPrefix(opts, name, 0);
    if e < |opts| {
      assert name <= opts[e].name;
    } else if p < |opts| {
      var q := FirstPrefix(opts, name, p + 1);
    }
  }

  // ---------------------------------------------------------------- one option

  /** A call goes on with single letters at this place of the element: there are no long options,
      or it begins with one '-' and no long option is meant. */
  ghost predicate AsLetters(syntax: Syntax, elt: string, nextchar: string)
    requires !NonOption(elt) && nextchar != ""
  {
    syntax.longopts == None ||
    (elt[1] != '-' &&
     (!syntax.longOnly || (|elt| == 2 && elt[1] in syntax.optstring)
      || (nextchar[0] in syntax.optstring && NamesNone(syntax.longopts.value, nextchar[..IndexOf(nextchar, '=')]))))
  }

  /** A call takes this place of the element as the text of a long option. */
  predicate AsLong(syntax: Syntax, elt: string)
    requires !NonOption(elt)
  {
    syntax.longopts.Some? &&
    (elt[1] == '-' || (syntax.longOnly && (|elt| > 2 || elt[1] !in syntax.optstring)))
  }

  lemma LettersDecode(syntax: Syntax, elt: string, nextchar: string, following: Option<string>)
    requires !NonOption(elt) && nextchar != "" && AsLetters(syntax, elt, nextchar)
    ensures Decode(syntax, elt, nextchar, following) == DecodeShort(syntax, nextchar, following)
  {
    if TakesLong(syntax, elt) {
      MatchMeans(syntax.longopts.value, nextchar[..IndexOf(nextchar, '=')], 0);
    }
  }

  /** What is returned for a letter that takes nothing: itself, or '?' if it is unknown. */
  function LetterValue(opts: string, c: char): Value {
    (if Unknown(opts, c) then '?' as int else c as int, None)
  }

  lemma LetterRead(syntax: Syntax, elt: string, c: char, rest: string, following: Option<string>)
    requires !NonOption(elt) && AsLetters(syntax, elt, [c] + rest)
    requires IsFlag(syntax.optstring, c) || Unknown(syntax.optstring, c)
    ensures var v := LetterValue(syntax.optstring, c);
      Decode(syntax, elt, [c] + rest, following) == Decoded(v.0, v.1, rest, if rest == "" then 1 else 0)
  {
    LettersDecode(syntax, elt, [c] + rest, following);
    assert ([c] + rest)[1..] == rest;
    KindFound(syntax.optstring, c);
  }

  lemma KindFound(opts: string, c: char)
    ensures var i := IndexOf(opts, c);
      && (i == |opts| || c == ':' <==> Unknown(opts, c))
      && (Takes(opts, c) || MayTake(opts, c) ==> ColonAt(opts, i + 1))
      && (IsFlag(opts, c) ==> !ColonAt(opts, i + 1))
      && (MayTake(opts, c) ==> ColonAt(opts, i + 2)) && (Takes(opts, c) ==> !ColonAt(opts, i + 2))
  {
    var i := IndexOf(opts, c);
    assert opts[..|opts|] == opts;
    forall j: nat | FirstAt(opts, c, j)
      ensures j == i
    {
      IndexIsFirst(opts, c, j);
    }
  }

  /** The argument in the same element. */
  lemma AttachedRead(syntax: Syntax, elt: string, c: char, arg: string, following: Option<string>)
    requires !NonOption(elt) && arg != "" && AsLetters(syntax, elt, [c] + arg)
    requires Takes(syntax.optstring, c) || MayTake(syntax.optstring, c)
    ensures Decode(syntax, elt, [c] + arg, following) == Decoded(c as int, Some(arg), "", 1)
  {
    LettersDecode(syntax, elt, [c] + arg, following);
    assert ([c] + arg)[1..] == arg;
    KindFound(syntax.optstring, c);
  }

  /** What is returned for an argument that is missing. */
  function NoArgument(syntax: Syntax): Value {
    (if ":" <= syntax.optstring then ':' as int else '?' as int, None)
  }

  /** The argument in the next element, which may look like anything, or is missing. */
  lemma BehindRead(syntax: Syntax, elt: string, c: char, following: Option<string>)
    requires !NonOption(elt) && AsLetters(syntax, elt, [c])
    requires Takes(syntax.optstring, c)
    ensures Decode(syntax, elt, [c], following) ==
      if following.Some? then Decoded(c as int, following, "", 2) else Decoded(NoArgument(syntax).0, None, "", 1)
  {
    LettersDecode(syntax, elt, [c], following);
    KindFound(syntax.optstring, c);
  }

  /** An optional argument is never in the next element. */
  lemma OmittedRead(syntax: Syntax, elt: string, c: char, following: Option<string>)
    requires !NonOption(elt) && AsLetters(syntax, elt, [c])
    requires MayTake(syntax.optstring, c)
    ensures Decode(syntax, elt, [c], following) == Decoded(c as int, None, "", 1)
  {
    LettersDecode(syntax, elt, [c], following);
    KindFound(syntax.optstring, c);
  }

  /** A long option that sets a variable returns 0. */
  function LongValue(o: LongOption): int {
    if o.hasFlag then 0 else o.val
  }

  lemma NameEnd(name: string, rest: string)
    requires '=' !in name && (rest == "" || rest[0] == '=')
    ensures IndexOf(name + rest, '=') == |name| && (name + rest)[..|name|] == name
    ensures rest != "" ==> (name + rest)[|name| + 1..] == rest[1..]
  {
    assert (name + rest)[..|name|] == name;
    IndexIsFirst(name + rest, '=', |name|);
  }

  lemma LongAlone(syntax: Syntax, elt: string, name: string, k: nat, following: Option<string>)
    requires !NonOption(elt) && name != "" && '=' !in name && AsLong(syntax, elt)
    requires Names(syntax.longopts.value, name, k)
    ensures var o := syntax.longopts.value[k];
      Decode(syntax, elt, name, following) ==
        if o.hasArg != 1 then Decoded(LongValue(o), None, "", 1)
        else if following.Some? then Decoded(LongValue(o), following, "", 2)
        else Decoded(NoArgument(syntax).0, None, "", 1)
  {
    NameEnd(name, "");
    assert name + "" == name;
    MatchMeans(syntax.longopts.value, name, k);
  }

  /** The argument behind '=': everything up to the end of the element. */
  lemma LongWithArgument(syntax: Syntax, elt: string, name: string, arg: string, k: nat, following: Option<string>)
    requires !NonOption(elt) && '=' !in name && AsLong(syntax, elt)
    requires Names(syntax.longopts.value, name, k)
    ensures var o := syntax.longopts.value[k];
      Decode(syntax, elt, name + ['='] + arg, following) ==
        if o.hasArg == 0 then Decoded('?' as int, None, "", 1) else Decoded(LongValue(o), Some(arg), "", 1)
  {
    NameEnd(name, ['='] + arg);
    assert name + ['='] + arg == name + (['='] + arg) && (['='] + arg)[1..] == arg;
    MatchMeans(syntax.longopts.value, name, k);
  }

  /** A text that means several long options, or none that could be letters either. */
  lemma LongMistaken(syntax: Syntax, elt: string, name: string, rest: string, following: Option<string>)
    requires !NonOption(elt) && '=' !in name && (rest == "" || rest[0] == '=') && name + rest != ""
    requires AsLong(syntax, elt)
    requires NamesTwo(syntax.longopts.value, name)
             || (NamesNone(syntax.longopts.value, name)
                 && (!syntax.longOnly || elt[1] == '-' || (name + rest)[0] !in syntax.optstring))
    ensures Decode(syntax, elt, name + rest, following) == Decoded('?' as int, None, "", 1)
  {
    NameEnd(name, rest);
    MatchMeans(syntax.longopts.value, name, 0);
  }

  // ---------------------------------------------------------------- whole command lines

  /** One thing on a command line: letters that take nothing, alone or in front of a letter with
      its argument; a long option with one '-' or two, abbreviated or not; or an argument that is
      no option. */
  datatype Given =
    | Letters(letters: string)
    | Attached(letters: string, c: char, arg: string)
    | Behind(letters: string, c: char, arg: string)
    | Omitted(letters: string, c: char)
    | Long(single: bool, name: string, k: nat)
    | LongAttached(single: bool, name: string, arg: string, k: nat)
    | LongBehind(single: bool, name: string, arg: string, k: nat)
    | LongWrong(single: bool, name: string, rest: string)
    | Other(arg: string)

  function Dashes(single: bool): string {
    if single then "-" else "--"
  }

  /** What stands behind the dashes. */
  function TextOf(g: Given): string {
    match g
    case Letters(letters) => letters
    case Attached(letters, c, arg) => letters + ([c] + arg)
    case Behind(letters, c, _) => letters + [c]
    case Omitted(letters, c) => letters + [c]
    case Long(_, name, _) => name
    case LongAttached(_, name, arg, _) => name + ['='] + arg
    case LongBehind(_, name, _, _) => name
    case LongWrong(_, name, rest) => name + rest
    case Other(arg) => arg
  }

  function Element(g: Given): string {
    match g
    case Other(arg) => arg
    case Letters(_) => "-" + TextOf(g)
    case Attached(_, _, _) => "-" + TextOf(g)
    case Behind(_, _, _) => "-" + TextOf(g)
    case Omitted(_, _) => "-" + TextOf(g)
    case _ => Dashes(g.single) + TextOf(g)
  }

  function Rendered(g: Given): seq<string> {
    match g
    case Behind(_, _, arg) => [Element(g), arg]
    case LongBehind(_, _, arg, _) => [Element(g), arg]
    case _ => [Element(g)]
  }

  function LetterValues(opts: string, letters: string): seq<Value> {
    if letters == "" then [] else [LetterValue(opts, letters[0])] + LetterValues(opts, letters[1..])
  }

  /** What the calls return for it. */
  function Meant(syntax: Syntax, g: Given): seq<Value>
    requires g.Long? || g.LongAttached? || g.LongBehind? ==> syntax.longopts.Some? && g.k < |syntax.longopts.value|
  {
    var opts := syntax.optstring;
    match g
    case Letters(letters) => LetterValues(opts, letters)
    case Attached(letters, c, arg) => LetterValues(opts, letters) + [(c as int, Some(arg))]
    case Behind(letters, c, arg) => LetterValues(opts, letters) + [(c as int, Some(arg))]
    case Omitted(letters, c) => LetterValues(opts, letters) + [(c as int, None)]
    case Long(_, _, k) => [(LongValue(syntax.longopts.value[k]), None)]
    case LongAttached(_, _, arg, k) => [(LongValue(syntax.longopts.value[k]), Some(arg))]
    case LongBehind(_, _, arg, k) => [(LongValue(syntax.longopts.value[k]), Some(arg))]
    case LongWrong(_, _, _) => [('?' as int, None)]
    case Other(_) => []
  }

  /** The letters take nothing, and are read as letters wherever a call starts. */
  ghost predicate InFront(syntax: Syntax, elt: string, letters: string, behind: string)
    requires !NonOption(elt)
  {
    letters == "" ||
    (&& (IsFlag(syntax.optstring, letters[0]) || Unknown(syntax.optstring, letters[0]))
     && AsLetters(syntax, elt, letters + behind)
     && InFront(syntax, elt, letters[1..], behind))
  }

  ghost predicate LettersWith(syntax: Syntax, elt: string, letters: string, c: char, arg: string)
    requires !NonOption(elt)
  {
    InFront(syntax, elt, letters, [c] + arg) && AsLetters(syntax, elt, [c] + arg)
  }

  ghost predicate LongText(syntax: Syntax, g: Given)
    requires g.Long? || g.LongAttached? || g.LongBehind? || g.LongWrong?
  {
    && TextOf(g) != "" && '=' !in g.name && !NonOption(Element(g)) && AsLong(syntax, Element(g))
    && (g.single ==> TextOf(g)[0] != '-')
  }

  /** It is written as the caller's options ask for. */
  ghost predicate Proper(syntax: Syntax, g: Given) {
    var opts := syntax.optstring;
    match g
    case Other(arg) => NonOption(arg)
    case Letters(letters) => letters != "" && Element(g) != "--" && InFront(syntax, Element(g), letters, "")
    case Attached(letters, c, arg) =>
      arg != "" && (Takes(opts, c) || MayTake(opts, c)) && LettersWith(syntax, Element(g), letters, c, arg)
    case Behind(letters, c, _) =>
      Element(g) != "--" && Takes(opts, c) && LettersWith(syntax, Element(g), letters, c, "")
    case Omitted(letters, c) =>
      Element(g) != "--" && MayTake(opts, c) && LettersWith(syntax, Element(g), letters, c, "")
    case Long(_, name, k) =>
      LongText(syntax, g) && Names(syntax.longopts.value, name, k) && syntax.longopts.value[k].hasArg != 1
    case LongAttached(_, name, _, k) =>
      LongText(syntax, g) && Names(syntax.longopts.value, name, k) && syntax.longopts.value[k].hasArg != 0
    case LongBehind(_, name, _, k) =>
      LongText(syntax, g) && Names(syntax.longopts.value, name, k) && syntax.longopts.value[k].hasArg == 1
    case LongWrong(_, name, rest) =>
      && LongText(syntax, g) && (rest == "" || rest[0] == '=')
      && Mistaken(syntax, Element(g), name, rest)
  }

  /** A name that means nothing or too much, or that takes no argument and is given one. */
  ghost predicate Mistaken(syntax: Syntax, elt: string, name: string, rest: string)
    requires syntax.longopts.Some? && name + rest != "" && !NonOption(elt)
  {
    || NamesTwo(syntax.longopts.value, name)
    || (NamesNone(syntax.longopts.value, name)
        && (!syntax.longOnly || elt[1] == '-' || (name + rest)[0] !in syntax.optstring))
    || (rest != "" && exists k: nat :: Names(syntax.longopts.value, name, k) && syntax.longopts.value[k].hasArg == 0)
  }

  function OptionsOf(g: Given): seq<string> {
    if g.Other? then [] else Rendered(g)
  }

  function OthersOf(g: Given): seq<string> {
    if g.Other? then [g.arg] else []
  }

  /** One element whose decoding starts at `nextchar`, which uses it up with `behind` elements more. */
  lemma OneStep(syntax: Syntax, nextchar: string, args: seq<string>, d: Decoded)
    requires nextchar != "" && args != [] && !NonOption(args[0])
    requires d == Decode(syntax, args[0], nextchar, Following(args))
    ensures Part(syntax, nextchar, args) ==
      Joined(args[..d.used], [], [(d.ret, d.optarg)], Part(syntax, d.nextchar, args[d.used..]))
  {
  }

  /** What is left when the letters have been read. */
  function AfterLetters(syntax: Syntax, behind: string, args: seq<string>): Parted
    requires args != [] && !NonOption(args[0])
  {
    if behind != "" then Part(syntax, behind, args) else Joined([args[0]], [], [], Part(syntax, "", args[1..]))
  }

  lemma JoinedTwice(options: seq<string>, v: seq<Value>, w: seq<Value>, p: Parted)
    ensures Joined(options, [], v, Joined([], [], w, p)) == Joined(options, [], v + w, p)
    ensures Joined([], [], v, Joined(options, [], w, p)) == Joined(options, [], v + w, p)
  {
    assert v + (w + p.returned) == v + w + p.returned;
    assert [] + p.others == p.others && [] + p.options == p.options;
    assert [] + (options + p.options) == options + p.options;
  }

  lemma {:induction false} LettersRead(syntax: Syntax, letters: string, behind: string, args: seq<string>)
    requires letters != "" && args != [] && !NonOption(args[0]) && InFront(syntax, args[0], letters, behind)
    ensures Part(syntax, letters + behind, args) ==
      Joined([], [], LetterValues(syntax.optstring, letters), AfterLetters(syntax, behind, args))
    decreases |letters|
  {
    var c, rest := letters[0], letters[1..] + behind;
    assert letters + behind == [c] + rest;
    LetterRead(syntax, args[0], c, rest, Following(args));
    var v := LetterValue(syntax.optstring, c);
    OneStep(syntax, [c] + rest, args, Decoded(v.0, v.1, rest, if rest == "" then 1 else 0));
    var values, after := LetterValues(syntax.optstring, letters[1..]), AfterLetters(syntax, behind, args);
    assert args[..0] == [] && args[..1] == [args[0]] && args[0..] == args;
    JoinedTwice([], [v], values, after);
    if letters[1..] == "" {
      assert rest == behind && values == [] && [v] + [] == [v];
      JoinedTwice([args[0]], [v], [], Part(syntax, "", args[1..]));
    } else {
      LettersRead(syntax, letters[1..], behind, args);
    }
  }

  /** Letters, and then one that takes the rest of the element or the next one. */
  lemma LettersThen(syntax: Syntax, letters: string, behind: string, args: seq<string>, d: Decoded)
    requires args != [] && !NonOption(args[0]) && InFront(syntax, args[0], letters, behind) && behind != ""
    requires d == Decode(syntax, args[0], behind, Following(args)) && d.nextchar == ""
    ensures Part(syntax, letters + behind, args) ==
      Joined(args[..d.used], [], LetterValues(syntax.optstring, letters) + [(d.ret, d.optarg)],
             Part(syntax, "", args[d.used..]))
  {
    OneStep(syntax, behind, args, d);
    if letters == "" {
      assert letters + behind == behind && [] + [(d.ret, d.optarg)] == [(d.ret, d.optarg)];
    } else {
      LettersRead(syntax, letters, behind, args);
      JoinedTwice(args[..d.used], LetterValues(syntax.optstring, letters), [(d.ret, d.optarg)],
                  Part(syntax, "", args[d.used..]));
    }
  }

  /** Where the decoding of a rendered option starts. */
  lemma Starts(syntax: Syntax, g: Given, tail: seq<string>)
    requires Proper(syntax, g) && !g.Other?
    ensures var args := Rendered(g) + tail;
      && !NonOption(Element(g)) && Element(g) != "--" && args[0] == Element(g) && TextOf(g) != ""
      && Part(syntax, "", args) == Part(syntax, TextOf(g), args)
      && Following([Element(g)] + tail) == (if tail == [] then None else Some(tail[0]))
  {
    assert FirstChar(syntax, Element(g)) == TextOf(g);
  }

  lemma LettersForm(syntax: Syntax, g: Given, tail: seq<string>)
    requires Proper(syntax, g) && (g.Letters? || g.Attached? || g.Behind? || g.Omitted?)
    ensures Part(syntax, TextOf(g), Rendered(g) + tail) ==
      Joined(Rendered(g), [], Meant(syntax, g), Part(syntax, "", tail))
  {
    var args, elt := Rendered(g) + tail, Element(g);
    Starts(syntax, g, tail);
    assert args[..1] == [elt] && args[|Rendered(g)|..] == tail && args[..|Rendered(g)|] == Rendered(g);
    match g
    case Letters(letters) =>
      LettersRead(syntax, letters, "", args);
      assert letters + "" == letters;
      JoinedTwice([elt], LetterValues(syntax.optstring, letters), [], Part(syntax, "", tail));
      assert LetterValues(syntax.optstring, letters) + [] == LetterValues(syntax.optstring, letters);
    case Attached(letters, c, arg) =>
      AttachedRead(syntax, elt, c, arg, Following(args));
      LettersThen(syntax, letters, [c] + arg, args, Decoded(c as int, Some(arg), "", 1));
    case Behind(letters, c, arg) =>
      assert [c] + "" == [c];
      assert Following(args) == Some(arg);
      BehindRead(syntax, elt, c, Some(arg));
      LettersThen(syntax, letters, [c], args, Decoded(c as int, Some(arg), "", 2));
    case Omitted(letters, c) =>
      assert [c] + "" == [c];
      OmittedRead(syntax, elt, c, Following(args));
      LettersThen(syntax, letters, [c], args, Decoded(c as int, None, "", 1));
  }

  lemma LongForm(syntax: Syntax, g: Given, tail: seq<string>)
    requires Proper(syntax, g) && (g.Long? || g.LongAttached? || g.LongBehind? || g.LongWrong?)
    ensures Part(syntax, TextOf(g), Rendered(g) + tail) ==
      Joined(Rendered(g), [], Meant(syntax, g), Part(syntax, "", tail))
  {
    var args, elt := Rendered(g) + tail, Element(g);
    Starts(syntax, g, tail);
    assert args[|Rendered(g)|..] == tail && args[..|Rendered(g)|] == Rendered(g);
    var d := Decode(syntax, elt, TextOf(g), Following(args));
    match g {
      case Long(_, name, k) => LongAlone(syntax, elt, name, k, Following(args));
      case LongAttached(_, name, arg, k) => LongWithArgument(syntax, elt, name, arg, k, Following(args));
      case LongBehind(_, name, arg, k) =>
        assert Following(args) == Some(arg);
        LongAlone(syntax, elt, name, k, Some(arg));
      case LongWrong(_, name, rest) => WrongForm(syntax, elt, name, rest, Following(args));
    }
    OneStep(syntax, TextOf(g), args, d);
  }

  lemma WrongForm(syntax: Syntax, elt: string, name: string, rest: string, following: Option<string>)
    requires !NonOption(elt) && '=' !in name && (rest == "" || rest[0] == '=') && name + rest != ""
    requires AsLong(syntax, elt) && Mistaken(syntax, elt, name, rest)
    ensures Decode(syntax, elt, name + rest, following) == Decoded('?' as int, None, "", 1)
  {
    if k: nat :| rest != "" && Names(syntax.longopts.value, name, k) && syntax.longopts.value[k].hasArg == 0 {
      LongWithArgument(syntax, elt, name, rest[1..], k, following);
      assert name + ['='] + rest[1..] == name + rest;
    } else {
      LongMistaken(syntax, elt, name, rest, following);
    }
  }

  /** Whatever is behind it, a rendered option is returned as it is meant, and moved in front of
      the other arguments. */
  lemma FormRead(syntax: Syntax, g: Given, tail: seq<string>)
    requires Proper(syntax, g)
    ensures Part(syntax, "", Rendered(g) + tail) ==
      Joined(OptionsOf(g), OthersOf(g), Meant(syntax, g), Part(syntax, "", tail))
  {
    if g.Other? {
      assert (Rendered(g) + tail)[1..] == tail;
    } else {
      Starts(syntax, g, tail);
      if g.Letters? || g.Attached? || g.Behind? || g.Omitted? {
        LettersForm(syntax, g, tail);
      } else {
        LongForm(syntax, g, tail);
      }
    }
  }

  // ---------------------------------------------------------------- a run over a command line

  ghost predicate AllProper(syntax: Syntax, gs: seq<Given>) {
    forall i :: 0 <= i < |gs| ==> Proper(syntax, gs[i])
  }

  function Line(gs: seq<Given>): seq<string> {
    if gs == [] then [] else Rendered(gs[0]) + Line(gs[1..])
  }

  /** What the calls return for all of it, in order. */
  ghost function MeantBy(syntax: Syntax, gs: seq<Given>): seq<Value>
    requires AllProper(syntax, gs)
  {
    if gs == [] then [] else Meant(syntax, gs[0]) + MeantBy(syntax, gs[1..])
  }

  function AllOptions(gs: seq<Given>): seq<string> {
    if gs == [] then [] else OptionsOf(gs[0]) + AllOptions(gs[1..])
  }

  function AllOthers(gs: seq<Given>): seq<string> {
    if gs == [] then [] else OthersOf(gs[0]) + AllOthers(gs[1..])
  }

  lemma {:induction false} LineRead(syntax: Syntax, gs: seq<Given>, tail: seq<string>)
    requires AllProper(syntax, gs)
    ensures Part(syntax, "", Line(gs) + tail) ==
      Joined(AllOptions(gs), AllOthers(gs), MeantBy(syntax, gs), Part(syntax, "", tail))
    decreases |gs|
  {
    if gs == [] {
      assert Line(gs) + tail == tail;
      JoinedEmpty(Part(syntax, "", tail));
    } else {
      LineRead(syntax, gs[1..], tail);
      LineStep(syntax, gs[0], gs[1..], tail);
    }
  }

  lemma LineStep(syntax: Syntax, g: Given, rest: seq<Given>, tail: seq<string>)
    requires Proper(syntax, g) && AllProper(syntax, rest)
    requires Part(syntax, "", Line(rest) + tail) ==
      Joined(AllOptions(rest), AllOthers(rest), MeantBy(syntax, rest), Part(syntax, "", tail))
    ensures Part(syntax, "", Rendered(g) + Line(rest) + tail) ==
      Joined(OptionsOf(g) + AllOptions(rest), OthersOf(g) + AllOthers(rest), Meant(syntax, g) + MeantBy(syntax, rest),
             Part(syntax, "", tail))
  {
    FormRead(syntax, g, Line(rest) + tail);
    Rejoined(Rendered(g), Line(rest), tail);
    JoinedBoth(OptionsOf(g), OthersOf(g), Meant(syntax, g), AllOptions(rest), AllOthers(rest), MeantBy(syntax, rest),
               Part(syntax, "", tail));
  }

  lemma Rejoined(a: seq<string>, b: seq<string>, c: seq<string>)
    ensures a + (b + c) == a + b + c
  {
  }

  lemma JoinedEmpty(p: Parted)
    ensures Joined([], [], [], p) == p
  {
    assert [] + p.options == p.options && [] + p.others == p.others && [] + p.returned == p.returned;
  }

  lemma JoinedBoth(o: seq<string>, x: seq<string>, v: seq<Value>, o': seq<string>, x': seq<string>, v': seq<Value>,
                   p: Parted)
    ensures Joined(o, x, v, Joined(o', x', v', p)) == Joined(o + o', x + x', v + v', p)
  {
    assert o + (o' + p.options) == o + o' + p.options;
    assert x + (x' + p.others) == x + x' + p.others;
    assert v + (v' + p.returned) == v + v' + p.returned;
  }

  /** What may stand at the end of a command line. */
  datatype End =
    | Nothing
    | Marker(others: seq<string>)
    | Lacking(letters: string, c: char)
    | LongLacking(single: bool, name: string, k: nat)

  function Tail(e: End): seq<string> {
    match e
    case Nothing => []
    case Marker(others) => ["--"] + others
    case Lacking(letters, c) => ["-" + (letters + [c])]
    case LongLacking(single, name, _) => [Dashes(single) + name]
  }

  /** Nothing, "--" and any arguments at all, or an option whose argument is missing. */
  ghost predicate ProperEnd(syntax: Syntax, e: End) {
    match e
    case Lacking(letters, c) =>
      Tail(e) != ["--"] && Takes(syntax.optstring, c) && LettersWith(syntax, Tail(e)[0], letters, c, "")
    case LongLacking(single, name, k) => Proper(syntax, LongBehind(single, name, "", k))
    case _ => true
  }

  function EndParts(syntax: Syntax, e: End): Parted {
    match e
    case Nothing => Parted([], [], [])
    case Marker(others) => Parted(["--"], others, [])
    case Lacking(letters, _) =>
      Parted(Tail(e), [], LetterValues(syntax.optstring, letters) + [NoArgument(syntax)])
    case LongLacking(_, _, _) => Parted(Tail(e), [], [NoArgument(syntax)])
  }

  lemma LackingRead(syntax: Syntax, letters: string, c: char)
    requires ProperEnd(syntax, Lacking(letters, c))
    ensures Part(syntax, "", Tail(Lacking(letters, c))) == EndParts(syntax, Lacking(letters, c))
  {
    var args := Tail(Lacking(letters, c));
    var elt := args[0];
    assert elt[1..] == letters + [c] && FirstChar(syntax, elt) == elt[1..];
    assert [c] + "" == [c];
    BehindRead(syntax, elt, c, None);
    LettersThen(syntax, letters, [c], args, Decoded(NoArgument(syntax).0, None, "", 1));
    NothingBehind(args, LetterValues(syntax.optstring, letters) + [NoArgument(syntax)]);
  }

  lemma LongLackingRead(syntax: Syntax, single: bool, name: string, k: nat)
    requires ProperEnd(syntax, LongLacking(single, name, k))
    ensures Part(syntax, "", Tail(LongLacking(single, name, k))) == EndParts(syntax, LongLacking(single, name, k))
  {
    var args := Tail(LongLacking(single, name, k));
    var elt := args[0];
    assert elt == Element(LongBehind(single, name, "", k)) && FirstChar(syntax, elt) == name;
    LongAlone(syntax, elt, name, k, None);
    OneStep(syntax, name, args, Decoded(NoArgument(syntax).0, None, "", 1));
    NothingBehind(args, [NoArgument(syntax)]);
  }

  lemma NothingBehind(args: seq<string>, v: seq<Value>)
    requires |args| == 1
    ensures args[..1] == args && args[1..] == []
    ensures Joined(args, [], v, Parted([], [], [])) == Parted(args, [], v)
  {
  }

  lemma EndRead(syntax: Syntax, e: End)
    requires ProperEnd(syntax, e)
    ensures Part(syntax, "", Tail(e)) == EndParts(syntax, e)
  {
    match e
    case Nothing =>
    case Marker(others) => assert Tail(e)[1..] == others;
    case Lacking(letters, c) => LackingRead(syntax, letters, c);
    case LongLacking(single, name, k) => LongLackingRead(syntax, single, name, k);
  }

  /** Everything written on a command line, apart: the options, the others, and what is returned. */
  ghost function LineParts(syntax: Syntax, gs: seq<Given>, e: End): Parted
    requires AllProper(syntax, gs)
  {
    Joined(AllOptions(gs), AllOthers(gs), MeantBy(syntax, gs), EndParts(syntax, e))
  }

  lemma LineMeans(syntax: Syntax, args: seq<string>, gs: seq<Given>, e: End)
    requires args != [] && AllProper(syntax, gs) && ProperEnd(syntax, e)
    requires args == [args[0]] + (Line(gs) + Tail(e))
    ensures Part(syntax, "", args[1..]) == LineParts(syntax, gs, e)
  {
    LineRead(syntax, gs, Tail(e));
    EndRead(syntax, e);
    assert args[1..] == Line(gs) + Tail(e);
  }

  // ---------------------------------------------------------------- every command line is one of these

  /** Letters that take nothing, up to the first that takes an argument. */
  lemma {:induction false} SplitText(opts: string, text: string) returns (letters: string, behind: string)
    ensures text == letters + behind
    ensures forall i :: 0 <= i < |letters| ==> IsFlag(opts, letters[i]) || Unknown(opts, letters[i])
    ensures behind != "" ==> Takes(opts, behind[0]) || MayTake(opts, behind[0])
    decreases |text|
  {
    letters, behind := "", text;
    if text != "" {
      OneKind(opts, text[0]);
      if IsFlag(opts, text[0]) || Unknown(opts, text[0]) {
        letters, behind := SplitText(opts, text[1..]);
        letters := [text[0]] + letters;
      }
    }
  }

  lemma {:induction false} InFrontAlways(syntax: Syntax, elt: string, letters: string, behind: string)
    requires !NonOption(elt) && !syntax.longOnly && (syntax.longopts == None || elt[1] != '-')
    requires forall i :: 0 <= i < |letters| ==>
      IsFlag(syntax.optstring, letters[i]) || Unknown(syntax.optstring, letters[i])
    ensures InFront(syntax, elt, letters, behind)
    decreases |letters|
  {
    if letters != "" {
      InFrontAlways(syntax, elt, letters[1..], behind);
    }
  }

  lemma LettersCover(syntax: Syntax, args: seq<string>) returns (lacks: bool, g: Given, e: End)
    requires args != [] && !NonOption(args[0]) && args[0] != "--" && !syntax.longOnly
    requires syntax.longopts == None || args[0][1] != '-'
    ensures lacks ==> ProperEnd(syntax, e) && args == Tail(e)
    ensures !lacks ==> Proper(syntax, g) && Rendered(g) <= args
  {
    var elt := args[0];
    var letters, behind := SplitText(syntax.optstring, elt[1..]);
    InFrontAlways(syntax, elt, letters, behind);
    lacks, g, e := false, Letters(letters), Nothing;
    if behind == "" {
      assert letters + behind == letters && elt == "-" + letters;
    } else if behind[1..] != "" {
      assert behind == [behind[0]] + behind[1..] && elt == "-" + (letters + behind);
      g := Attached(letters, behind[0], behind[1..]);
    } else {
      assert behind == [behind[0]] + "" && elt == "-" + (letters + [behind[0]]);
      lacks, g, e := LastLetter(syntax, args, letters, behind[0]);
    }
  }

  /** A letter with an argument that is not in the same element. */
  lemma LastLetter(syntax: Syntax, args: seq<string>, letters: string, c: char)
    returns (lacks: bool, g: Given, e: End)
    requires args != [] && !NonOption(args[0]) && args[0] != "--" && args[0] == "-" + (letters + [c])
    requires LettersWith(syntax, args[0], letters, c, "")
    requires Takes(syntax.optstring, c) || MayTake(syntax.optstring, c)
    ensures lacks ==> ProperEnd(syntax, e) && args == Tail(e)
    ensures !lacks ==> Proper(syntax, g) && Rendered(g) <= args
  {
    lacks, g, e := false, Omitted(letters, c), Nothing;
    if MayTake(syntax.optstring, c) {
    } else if |args| > 1 {
      g := Behind(letters, c, args[1]);
    } else {
      lacks, e := true, Lacking(letters, c);
      assert Tail(e) == args;
    }
  }

  lemma LongCovers(syntax: Syntax, args: seq<string>) returns (lacks: bool, g: Given, e: End)
    requires args != [] && !NonOption(args[0]) && args[0] != "--" && !syntax.longOnly
    requires syntax.longopts.Some? && args[0][1] == '-'
    ensures lacks ==> ProperEnd(syntax, e) && args == Tail(e)
    ensures !lacks ==> Proper(syntax, g) && Rendered(g) <= args
  {
    var text := args[0][2..];
    var end := IndexOf(text, '=');
    assert text == text[..end] + text[end..] && args[0] == "--" + text;
    lacks, g, e := LongSplit(syntax, args, text[..end], text[end..]);
  }

  lemma LongSplit(syntax: Syntax, args: seq<string>, name: string, rest: string)
    returns (lacks: bool, g: Given, e: End)
    requires args != [] && '=' !in name && (rest == "" || rest[0] == '=') && args[0] == "--" + (name + rest)
    requires syntax.longopts.Some? && name + rest != "" && !syntax.longOnly
    ensures lacks ==> ProperEnd(syntax, e) && args == Tail(e)
    ensures !lacks ==> Proper(syntax, g) && Rendered(g) <= args
  {
    var opts := syntax.longopts.value;
    var m := MatchLong(opts, name);
    MatchMeans(opts, name, if m.Found? then m.index else 0);
    if rest == "" && m.Found? {
      assert name + rest == name;
      lacks, g, e := LongWhole(syntax, args, name, m.index);
    } else if m.Found? && opts[m.index].hasArg != 0 {
      lacks, g, e := false, LongAttached(false, name, rest[1..], m.index), Nothing;
      assert name + ['='] + rest[1..] == name + rest;
    } else {
      lacks, g, e := false, LongWrong(false, name, rest), Nothing;
      assert Mistaken(syntax, args[0], name, rest);
    }
  }

  lemma LongWhole(syntax: Syntax, args: seq<string>, name: string, k: nat) returns (lacks: bool, g: Given, e: End)
    requires args != [] && name != "" && '=' !in name && args[0] == "--" + name
    requires syntax.longopts.Some? && Names(syntax.longopts.value, name, k)
    ensures lacks ==> ProperEnd(syntax, e) && args == Tail(e)
    ensures !lacks ==> Proper(syntax, g) && Rendered(g) <= args
  {
    lacks, g, e := false, Long(false, name, k), Nothing;
    if syntax.longopts.value[k].hasArg == 1 {
      if |args| > 1 {
        g := LongBehind(false, name, args[1], k);
      } else {
        lacks, e := true, LongLacking(false, name, k);
        assert Element(LongBehind(false, name, "", k)) == args[0];
      }
    }
  }

  /** With two dashes for every long option, every argument vector is one of these lines. */
  lemma {:induction false} LineCovers(syntax: Syntax, args: seq<string>) returns (gs: seq<Given>, e: End)
    requires !syntax.longOnly
    ensures AllProper(syntax, gs) && ProperEnd(syntax, e) && args == Line(gs) + Tail(e)
    decreases |args|
  {
    gs, e := [], Nothing;
    if args == [] {
    } else if args[0] == "--" {
      e := Marker(args[1..]);
    } else {
      var lacks, g := false, Other(args[0]);
      if !NonOption(args[0]) {
        if syntax.longopts.Some? && args[0][1] == '-' {
          lacks, g, e := LongCovers(syntax, args);
        } else {
          lacks, g, e := LettersCover(syntax, args);
        }
      }
      if !lacks {
        gs, e := LineCovers(syntax, args[|Rendered(g)|..]);
        PrefixOf(Rendered(g), args);
        Rejoined(Rendered(g), Line(gs), Tail(e));
        gs := LineWith(syntax, g, gs);
      }
    }
  }

  lemma PrefixOf(p: seq<string>, args: seq<string>)
    requires p <= args
    ensures args == p + args[|p|..]
  {
  }

  lemma LineWith(syntax: Syntax, g: Given, rest: seq<Given>) returns (gs: seq<Given>)
    requires Proper(syntax, g) && AllProper(syntax, rest)
    ensures AllProper(syntax, gs) && Line(gs) == Rendered(g) + Line(rest)
  {
    gs := [g] + rest;
    assert gs[1..] == rest;
  }

  /** The loop of `init_cmd_line` over a command line written as the options ask for: the calls
      return what each option means, and the rest of the arguments is left behind the options. */
  method ReadLine(argv: array<string>, syntax: Syntax, ghost gs: seq<Given>, ghost e: End)
    returns (results: seq<Value>, optind: nat)
    requires argv.Length >= 1 && AllProper(syntax, gs) && ProperEnd(syntax, e)
    requires argv[..] == [argv[0]] + (Line(gs) + Tail(e))
    modifies argv
    ensures var p := LineParts(syntax, gs, e);
      && results == p.returned && argv[..] == [old(argv[0])] + p.options + p.others && optind == 1 + |p.options|
  {
    LineMeans(syntax, argv[..], gs, e);
    var scanner := new Scanner(argv, syntax);
    results := scanner.Run(syntax);
    optind := scanner.optind;
  }
}
