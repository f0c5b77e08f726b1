/** The `%@` substitution of aliases: parameters are written back quoted, so that parsing the
    expanded line gives the same parameters again.
 */
module AliasExpand {
  import opened GetParameter
  import opened ParameterText

  const INPUT_BUFFER_SZ := 512

  // ---------------------------------------------------------------- what is written

  /** A double quote closes the quoted text, stands alone in single quotes, and opens it again. */
  function EscapedChar(c: char): string {
    if c == '"' then ['"', '\'', '"', '\'', '"'] else [c]
  }

  function Escaped(w: string): string {
    if w == "" then "" else EscapedChar(w[0]) + Escaped(w[1..])
  }

  function Quoted(w: string): string {
    ['"'] + Escaped(w) + ['"']
  }

  /** One parameter: nothing for an empty one, and a space in front of all but the first index. */
  function One(w: string, first: bool): string {
    if w == "" then "" else (if first then [] else [' ']) + Quoted(w)
  }

  function Emitted(words: seq<string>, first: bool): string {
    if words == [] then "" else One(words[0], first) + Emitted(words[1..], false)
  }

  function NonEmpty(words: seq<string>): seq<string> {
    if words == [] then [] else (if words[0] == "" then [] else [words[0]]) + NonEmpty(words[1..])
  }

  /** The room that the non-empty words take up in a parameter buffer. */
  function Total(words: seq<string>): nat {
    if words == [] then 0 else (if words[0] == "" then 0 else |words[0]| + 1) + Total(words[1..])
  }

  // ---------------------------------------------------------------- and parsed again

  lemma {:induction false} EscapedSplit(a: string, b: string)
    ensures Escaped(a + b) == Escaped(a) + Escaped(b)
  {
    if a == "" {
      assert a + b == b;
    } else {
      EscapedSplit(a[1..], b);
      assert (a + b)[1..] == a[1..] + b;
      Associative(EscapedChar(a[0]), Escaped(a[1..]), Escaped(b));
    }
  }

  lemma {:induction false} EscapedPlain(w: string)
    requires forall i :: 0 <= i < |w| ==> w[i] != '"'
    ensures Escaped(w) == w
  {
    if w != "" {
      EscapedPlain(w[1..]);
    }
  }

  /** A quoted word in its parts: between the double quotes, and the double quotes themselves. */
  function PartsOf(w: string): (parts: Parts)
    ensures IsWord(parts) && parts.Then? && !EndsOpen(parts)
  {
    var n := Span(w, {'"'});
    if n == |w| then Then(InQuotes('"', w), End)
    else Then(InQuotes('"', w[..n]), Then(InQuotes('\'', ['"']), PartsOf(w[n + 1..])))
  }

  lemma ConcatQuote(a: string, quoted: string)
    ensures ['"'] + (a + ['"']) + (['\''] + (['"'] + ['\'']) + quoted) ==
      ['"'] + (a + ['"', '\'', '"', '\''] + quoted)
  {
  }

  lemma ConcatEscape(a: string, b: string)
    ensures ['"'] + (a + ['"', '\'', '"', '\''] + (['"'] + b + ['"'])) ==
      ['"'] + (a + (['"', '\'', '"', '\'', '"'] + b)) + ['"']
  {
  }

  lemma EscapedAround(a: string, b: string)
    requires forall i :: 0 <= i < |a| ==> a[i] != '"'
    ensures Escaped(a + (['"'] + b)) == a + (['"', '\'', '"', '\'', '"'] + Escaped(b))
  {
    EscapedSplit(a, ['"'] + b);
    EscapedPlain(a);
    assert (['"'] + b)[1..] == b;
  }

  lemma PartsAround(a: string, parts: Parts)
    ensures WordText(Then(InQuotes('"', a), Then(InQuotes('\'', ['"']), parts))) ==
      ['"'] + (a + ['"', '\'', '"', '\''] + WordText(parts))
    ensures Content(Then(InQuotes('"', a), Then(InQuotes('\'', ['"']), parts))) == a + (['"'] + Content(parts))
  {
    ConcatQuote(a, WordText(parts));
  }

  lemma CutAround(w: string, n: nat, a: string, b: string)
    requires n < |w| && w[n] == '"' && a == w[..n] && b == w[n + 1..]
    ensures w == a + (['"'] + b)
  {
  }

  /** What is written for a word is its parts, and they are the word. */
  lemma {:induction false} QuotedParts(w: string)
    ensures WordText(PartsOf(w)) == Quoted(w)
    ensures Content(PartsOf(w)) == w
    decreases |w|
  {
    var n := Span(w, {'"'});
    if n == |w| {
      EscapedPlain(w);
      OnePart(w);
    } else {
      var a, b := w[..n], w[n + 1..];
      QuotedParts(b);
      CutAround(w, n, a, b);
      QuotedStep(w, a, b, PartsOf(w), PartsOf(b));
    }
  }

  lemma QuotedStep(w: string, a: string, b: string, all: Parts, parts: Parts)
    requires w == a + (['"'] + b) && all == Then(InQuotes('"', a), Then(InQuotes('\'', ['"']), parts))
    requires forall i :: 0 <= i < |a| ==> a[i] != '"'
    requires WordText(parts) == Quoted(b) && Content(parts) == b
    ensures WordText(all) == Quoted(w) && Content(all) == w
  {
    PartsAround(a, parts);
    EscapedAround(a, b);
    ConcatEscape(a, Escaped(b));
  }

  lemma OnePart(w: string)
    ensures var one := Then(InQuotes('"', w), End);
      WordText(one) == ['"'] + w + ['"'] && Content(one) == w
  {
    assert ['"'] + (w + ['"']) + "" == ['"'] + w + ['"'] && w + "" == w;
  }

  /** A quoted word is parsed back as that word, up to the text behind it. */
  lemma WordOfQuoted(w: string, tail: string, room: nat)
    requires (tail == "" || tail[0] == ' ') && room >= |w| + 1
    ensures Word(Quoted(w) + tail, room).0 == w
    ensures room >= |w| + 2 ==> Word(Quoted(w) + tail, room).1 == tail
  {
    QuotedParts(w);
    WordOfParts(PartsOf(w), tail, room);
  }

  lemma EmittedHead(words: seq<string>)
    ensures Emitted(words, false) == "" || Emitted(words, false)[0] == ' '
  {
  }

  lemma SpaceInFront(t: string)
    requires t != "" && t[0] != ' '
    ensures SkipSpaces([' '] + t) == t
  {
    assert ([' '] + t)[1..] == t;
  }

  lemma ConcatSpace(q: string, tail: string)
    ensures [' '] + q + tail == [' '] + (q + tail)
    ensures [] + q + tail == q + tail
  {
  }

  lemma EmittedFront(words: seq<string>, first: bool)
    requires words != [] && words[0] != ""
    ensures SkipSpaces(Emitted(words, first)) == Quoted(words[0]) + Emitted(words[1..], false)
  {
    var q, tail := Quoted(words[0]), Emitted(words[1..], false);
    ConcatSpace(q, tail);
    SpaceInFront(q + tail);
  }

  /** The words emitted are the words parsed, whatever the room left behind them. */
  lemma {:induction false} ParseEmitted(done: seq<string>, words: seq<string>, first: bool, room: nat, upto: nat)
    requires room >= Total(words) && upto >= |done| + |NonEmpty(words)|
    ensures ParseUpto(Parsed(done, Emitted(words, first), room), upto).words == done + NonEmpty(words)
    ensures room > Total(words) ==> ParseUpto(Parsed(done, Emitted(words, first), room), upto).rest == ""
    decreases |words|
  {
    if words == [] {
      assert done + [] == done;
    } else if words[0] == "" {
      assert One(words[0], first) + Emitted(words[1..], false) == Emitted(words[1..], false);
      assert NonEmpty(words) == NonEmpty(words[1..]);
      ParseEmitted(done, words[1..], false, room, upto);
    } else {
      var w, tail := words[0], Emitted(words[1..], false);
      EmittedHead(words[1..]);
      EmittedFront(words, first);
      WordOfQuoted(w, tail, room);
      ParseOne(done, Emitted(words, first), room, upto, Quoted(w) + tail, w);
      AppendOne(done, w, NonEmpty(words[1..]));
      if room >= |w| + 2 {
        ParseEmitted(done + [w], words[1..], false, room - |w| - 1, upto);
      } else {
        NothingLeft(words[1..]);
      }
    }
  }

  lemma AppendOne(done: seq<string>, w: string, rest: seq<string>)
    ensures done + ([w] + rest) == done + [w] + rest
  {
  }

  lemma {:induction false} NothingLeft(words: seq<string>)
    requires Total(words) == 0
    ensures NonEmpty(words) == []
  {
    if words != [] {
      NothingLeft(words[1..]);
    }
  }

  lemma EscapedSnoc(w: string, i: nat)
    requires i < |w|
    ensures Escaped(w[..i + 1]) == Escaped(w[..i]) + EscapedChar(w[i])
    ensures |Escaped(w)| >= |Escaped(w[..i])| + |EscapedChar(w[i])|
  {
    assert w[..i + 1] == w[..i] + [w[i]] && w == w[..i + 1] + w[i + 1..];
    EscapedSplit(w[..i], [w[i]]);
    EscapedSplit(w[..i + 1], w[i + 1..]);
    assert [w[i]][1..] == "" && EscapedChar(w[i]) + "" == EscapedChar(w[i]);
  }

  lemma {:induction false} EmittedSnoc(words: seq<string>, w: string, first: bool)
    ensures Emitted(words + [w], first) == Emitted(words, first) + One(w, first && words == [])
    decreases |words|
  {
    if words == [] {
      assert [w][1..] == [] && One(w, first) + "" == One(w, first) && [] + [w] == [w];
    } else {
      EmittedSnoc(words[1..], w, false);
      assert (words + [w])[1..] == words[1..] + [w];
      Associative(One(words[0], first), Emitted(words[1..], false), One(w, false));
    }
  }

  // ---------------------------------------------------------------- the input buffer

  /** A line of input that the alias engine writes. */
  class InputNode {
    const input: array<char>
    var length: nat

    // the line so far
    ghost var text: string

    constructor ()
      ensures Valid() && text == ""
    {
      input := new char[INPUT_BUFFER_SZ](i => NUL);
      length, text := 0, "";
    }

    ghost predicate Valid()
      reads this, input
    {
      input.Length == INPUT_BUFFER_SZ && |text| == length < INPUT_BUFFER_SZ && input[..length] == text
    }

    /** INPUT_SPACE_LEFT */
    function SpaceLeft(wanted: int): int
      reads this`length
    {
      INPUT_BUFFER_SZ - wanted - length
    }

    /** INPUT_ADD: there is always room left for the NUL. */
    method Add(c: char)
      requires Valid()
      modifies this`length, this`text, input
      ensures Valid()
      ensures text == if old(length) < INPUT_BUFFER_SZ - 1 then old(text) + [c] else old(text)
    {
      if SpaceLeft(1) > 0 {
        input[length] := c;
        length := length + 1;
        text := text + [c];
      }
    }

    /** Taking back what was added for a parameter that does not fit. */
    method TakeBack(extraChars: nat, ghost before: string)
      requires Valid() && before <= text && |text| == |before| + extraChars
      modifies this`length, this`text
      ensures Valid() && text == before
    {
      length := length - extraChars;
      text := before;
      assert input[..length] == input[..|before| + extraChars][..length];
    }

    /** The body of the loop over a parameter's characters. */
    method AddEscaped(c: char, len: nat) returns (ok: bool)
      requires Valid() && len > 0
      modifies this`length, this`text, input
      ensures Valid()
      ensures ok ==> text == old(text) + EscapedChar(c)
      ensures !ok ==> text == old(text) && |text| + |EscapedChar(c)| + len >= INPUT_BUFFER_SZ
    {
      if c == '"' {
        ok := SpaceLeft(len + 5) > 0;
        if ok {
          Add('"');
          Add('\'');
          Add(c);
          Add('\'');
          Add('"');
        }
      } else {
        ok := SpaceLeft(len + 1) > 0;
        if ok {
          Add(c);
        }
      }
    }

    /** One parameter: it is added whole, or not at all. */
    method AddParameter(parameterStr: string, first: bool) returns (ok: bool)
      requires Valid() && parameterStr != ""
      modifies this`length, this`text, input
      ensures Valid()
      ensures ok ==> text == old(text) + One(parameterStr, first)
      ensures !ok ==> text == old(text) && NoRoom(text, parameterStr, first)
    {
      ghost var before, lead := text, if first then ['"'] else [' ', '"'];
      OneOf(parameterStr, first, lead);
      if SpaceLeft(|parameterStr| + 3) <= 0 {
        return false;
      }
      var extraChars := AddLead(first);
      var i := 0;
      while i < |parameterStr|
        invariant Valid() && i <= |parameterStr|
        invariant text == before + (lead + Escaped(parameterStr[..i]))
        invariant extraChars == |lead| + |Escaped(parameterStr[..i])|
      {
        EscapedSnoc(parameterStr, i);
        Associative(before, lead + Escaped(parameterStr[..i]), EscapedChar(parameterStr[i]));
        Associative(lead, Escaped(parameterStr[..i]), EscapedChar(parameterStr[i]));
        ok := AddEscaped(parameterStr[i], |parameterStr|);
        if !ok {
          TakeBack(extraChars, before);
          return false;
        }
        extraChars := extraChars + |EscapedChar(parameterStr[i])|;
        i := i + 1;
      }
      assert parameterStr[..i] == parameterStr;
      if SpaceLeft(|parameterStr| + 1) <= 0 {
        TakeBack(extraChars, before);
        return false;
      }
      Associative(before, lead + Escaped(parameterStr), ['"']);
      Add('"');
      ok := true;
    }

    method AddLead(first: bool) returns (extraChars: nat)
      requires Valid() && length + 3 < INPUT_BUFFER_SZ
      modifies this`length, this`text, input
      ensures Valid() && text == old(text) + (if first then ['"'] else [' ', '"']) + Escaped("")
      ensures extraChars == if first then 1 else 2
    {
      extraChars := 0;
      if !first {
        Add(' ');
        extraChars := extraChars + 1;
      }
      Add('"');
      extraChars := extraChars + 1;
    }

    /** The parameter of index `tmp`, unless it is empty. */
    method AddNext(parameters: ParameterHolder, tmp: nat, first: bool) returns (ok: bool)
      requires Valid() && parameters.Valid() && 1 <= tmp <= parameters.lastParam && input != parameters.buffer
      modifies this`length, this`text, input
      ensures Valid()
      ensures ok ==> text == old(text) + One(parameters.words[tmp - 1], first)
      ensures !ok ==> text == old(text) && NoRoom(text, parameters.words[tmp - 1], first)
    {
      var parameterStr := parameters.Text(tmp);
      ok := true;
      if parameterStr != "" {
        ok := AddParameter(parameterStr, first);
      }
    }

    /** The `%@` loop: the parameters from `start` on, quoted, as far as they fit. */
    method AddParameters(parameters: ParameterHolder, start: nat, ghost from: seq<string>)
      returns (ok: bool, ghost done: nat)
      requires Valid() && parameters.Valid() && start >= 1 && input != parameters.buffer
      requires from == From(parameters.words, start)
      modifies this`length, this`text, input
      ensures Valid() && done <= |from| && text == old(text) + Emitted(from[..done], true)
      ensures ok ==> done == |from|
      ensures !ok ==> done < |from| && NoRoom(text, from[done], done == 0)
    {
      var tmp := start;
      done, ok := 0, true;
      NoneEmitted(text, from);
      while tmp <= parameters.lastParam
        invariant Valid() && ok && tmp == start + done && done <= |from|
        invariant text == old(text) + Emitted(from[..done], true)
      {
        EmittedMore(old(text), from, done);
        ok := AddNext(parameters, tmp, tmp <= start);
        if !ok {
          return;
        }
        tmp := tmp + 1;
        done := done + 1;
      }
    }
  }

  lemma NoneEmitted(before: string, words: seq<string>)
    ensures before == before + Emitted(words[..0], true)
  {
  }

  lemma EmittedMore(before: string, words: seq<string>, n: nat)
    requires n < |words|
    ensures before + Emitted(words[..n + 1], true) == before + Emitted(words[..n], true) + One(words[n], n == 0)
  {
    EmittedSnoc(words[..n], words[n], true);
    assert words[..n] + [words[n]] == words[..n + 1] && (words[..n] == [] <==> n == 0);
    Associative(before, Emitted(words[..n], true), One(words[n], n == 0));
  }

  /** The parameters from index `start` on, counted from 1. */
  function From(words: seq<string>, start: nat): seq<string>
    requires start >= 1
  {
    if start - 1 <= |words| then words[start - 1..] else []
  }

  /** Behind `text`, what is written for `w` would end within its own length of the buffer's end. */
  predicate NoRoom(text: string, w: string, first: bool) {
    w != "" && |text| + |One(w, first)| + |w| >= INPUT_BUFFER_SZ
  }

  lemma OneOf(w: string, first: bool, lead: string)
    requires w != "" && lead == if first then ['"'] else [' ', '"']
    ensures One(w, first) == lead + Escaped(w) + ['"']
  {
  }

  lemma {:induction false} NonEmptyFit(words: seq<string>)
    ensures |NonEmpty(words)| <= |words| && Total(words) <= |Layout(words)|
    decreases |words|
  {
    if words != [] {
      NonEmptyFit(words[1..]);
      LayoutAppend([words[0]], words[1..]);
      assert [words[0]] + words[1..] == words;
      LayoutSnoc([], words[0]);
      assert [] + [words[0]] == [words[0]];
    }
  }

  /** The parameters of one line, written back by `%@`, are the parameters of the new line: all
      of them from `start` on that are not empty, whatever spaces and quotes they hold. */
  lemma QuotingRoundTrip(words: seq<string>, start: nat, size: nat)
    requires start >= 1 && |words| <= NUMBER_MAX && |Layout(words)| <= size
    ensures ParseUpto(Parsed([], Emitted(From(words, start), true), size), NUMBER_MAX).words ==
      NonEmpty(From(words, start))
  {
    var from := From(words, start);
    NonEmptyFit(from);
    LayoutAppend(words[..|words| - |from|], from);
    assert words[..|words| - |from|] + from == words;
    ParseEmitted([], from, true, size, NUMBER_MAX);
    assert [] + NonEmpty(from) == NonEmpty(from);
  }

  /** Without `-n` the loop starts at index 0, at the slot in front of the array. With 32-bit
      pointers the length field of that slot is the number of parameters: without parameters
      nothing is written for it, and otherwise whatever text its pointer leads to. */
  function FromSlot(text: string, words: seq<string>): string {
    if words == [] then "" else Quoted(text) + Emitted(words, false)
  }

  /** Then there is one parameter more, and the round trip is right exactly without parameters. */
  lemma QuotingFromZero(text: string, words: seq<string>, size: nat)
    requires |words| < NUMBER_MAX && |Layout([text] + words)| <= size
    ensures ParseUpto(Parsed([], FromSlot(text, words), size), NUMBER_MAX).words ==
      if words == [] then [] else [text] + NonEmpty(words)
    ensures ParseUpto(Parsed([], FromSlot(text, words), size), NUMBER_MAX).words == NonEmpty(words) <==> words == []
  {
    if words != [] {
      var tail, room := Emitted(words, false), size - |text| - 1;
      SlotFits(text, words, size);
      EmittedHead(words);
      WordOfQuoted(text, tail, size);
      var t := Quoted(text) + tail;
      assert t[0] == '"' && SkipSpaces(t) == t;
      ParseOne([], t, size, NUMBER_MAX, t, text);
      ParseEmitted([text], words, false, room, NUMBER_MAX);
      assert [] + [text] == [text];
      assert |[text] + NonEmpty(words)| != |NonEmpty(words)|;
    }
  }

  lemma SlotFits(text: string, words: seq<string>, size: nat)
    requires words != [] && |Layout([text] + words)| <= size
    ensures size >= |text| + 2 && Total(words) <= size - |text| - 1 && |NonEmpty(words)| <= |words|
  {
    NonEmptyFit(words);
    LayoutAppend([text], words);
    LayoutSnoc([], text);
    assert [] + [text] == [text];
    LayoutAppend([words[0]], words[1..]);
    assert [words[0]] + words[1..] == words;
    LayoutSnoc([], words[0]);
    assert [] + [words[0]] == [words[0]];
  }
}
