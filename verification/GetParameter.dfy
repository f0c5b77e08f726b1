/** The quoting parameter parser: words of a line are copied, one behind the other, into a
    buffer of fixed size, as many at a time as the caller asks for.
 */
module GetParameter {

  const NUMBER_MAX := 64
  const NUL: char := 0 as char

  // ---------------------------------------------------------------- what parsing means

  /** `*str += strspn(*str, " ")` */
  function SkipSpaces(t: string): (r: string)
    ensures r == "" || r[0] != ' '
    ensures |r| <= |t|
  {
    if t != "" && t[0] == ' ' then SkipSpaces(t[1..]) else t
  }

  /** `strcspn`: how many characters come before the first of the stop characters. */
  function Span(t: string, stops: set<char>): (n: nat)
    ensures n <= |t|
    ensures n < |t| ==> t[n] in stops
    ensures forall i :: 0 <= i < n ==> t[i] !in stops
  {
    if t == "" || t[0] in stops then 0 else 1 + Span(t[1..], stops)
  }

  const WORD_STOPS := {' ', '\'', '"'}

  /** PARSE_TO_NEXT_TOKENS: the length copied, leaving room for the NUL. */
  function Copied(t: string, stops: set<char>, room: nat): (n: nat)
    requires room > 1
    ensures n <= |t| && n < room
  {
    var n := Span(t, stops);
    if n >= room then room - 1 else n
  }

  /** One piece of a word and what is left of the line: up to the closing quote, which is
      skipped, or up to a space or a quote. A piece that fills the buffer is cut, and then the
      character skipped behind a quoted piece is any character. */
  function Piece(t: string, room: nat): (r: (string, string))
    requires t != "" && t[0] != ' ' && room > 1
    ensures |r.0| < room && |r.1| < |t| && |r.0| <= |t|
  {
    if t[0] == '\'' || t[0] == '"' then
      var inside := t[1..];
      var n := Copied(inside, {t[0]}, room);
      (inside[..n], if n < |inside| then inside[n + 1..] else "")
    else
      var n := Copied(t, WORD_STOPS, room);
      (t[..n], t[n..])
  }

  /** The text of one word, and what is left of the line. Quotes of either kind hold anything
      but themselves, and several pieces without a space between them are one word. */
  function Word(t: string, room: nat): (r: (string, string))
    ensures |r.1| <= |t|
    ensures room >= 1 ==> |r.0| < room
    ensures t != "" && t[0] != ' ' && room > 1 ==> |r.1| < |t|
    decreases |t|
  {
    if t == "" || t[0] == ' ' || room <= 1 then ("", t)
    else
      var (piece, rest) := Piece(t, room);
      Prepend(piece, Word(rest, room - |piece|))
  }

  /** The words so far, the text left, and the room left in the buffer. */
  datatype Parsed = Parsed(words: seq<string>, rest: string, room: nat)

  /** Parse on until there are `upto` words, or the text or the buffer is used up. */
  function ParseUpto(p: Parsed, upto: nat): (r: Parsed)
    ensures |r.words| >= |p.words| && r.words[..|p.words|] == p.words
    ensures |r.words| <= upto || r.words == p.words
    ensures r.room <= p.room
    decreases upto - |p.words|
  {
    var t := SkipSpaces(p.rest);
    if |p.words| >= upto || t == "" || p.room < 1 then p.(rest := t)
    else
      var (w, r) := Word(t, p.room);
      ParseUpto(Parsed(p.words + [w], r, p.room - |w| - 1), upto)
  }

  lemma SkipTwice(t: string)
    ensures SkipSpaces(SkipSpaces(t)) == SkipSpaces(t)
  {
  }

  /** Parsing in stages is parsing at once. */
  lemma {:induction false} Stages(p: Parsed, m: nat, n: nat)
    requires m <= n
    ensures ParseUpto(ParseUpto(p, m), n) == ParseUpto(p, n)
    decreases m - |p.words|
  {
    var t := SkipSpaces(p.rest);
    SkipTwice(p.rest);
    if |p.words| < m && t != "" && p.room >= 1 {
      var (w, r) := Word(t, p.room);
      Stages(Parsed(p.words + [w], r, p.room - |w| - 1), m, n);
    }
  }

  /** Any non-decreasing sequence of requests leaves what the largest alone leaves. */
  function ParseAll(p: Parsed, uptos: seq<nat>): Parsed
    decreases |uptos|
  {
    if uptos == [] then p else ParseAll(ParseUpto(p, uptos[0]), uptos[1..])
  }

  predicate NonDecreasing(uptos: seq<nat>) {
    |uptos| <= 1 || (uptos[0] <= uptos[1] && NonDecreasing(uptos[1..]))
  }

  lemma {:induction false} ManyStages(p: Parsed, uptos: seq<nat>)
    requires uptos != [] && NonDecreasing(uptos)
    ensures ParseAll(p, uptos) == ParseUpto(p, uptos[|uptos| - 1])
    ensures uptos[0] <= uptos[|uptos| - 1]
    decreases |uptos|
  {
    if |uptos| > 1 {
      ManyStages(ParseUpto(p, uptos[0]), uptos[1..]);
      Stages(p, uptos[0], uptos[|uptos| - 1]);
    }
  }

  // ---------------------------------------------------------------- the buffer

  /** The words one behind the other, each with its NUL. */
  function Layout(words: seq<string>): string {
    if words == [] then "" else Layout(words[..|words| - 1]) + words[|words| - 1] + [NUL]
  }

  lemma LayoutSnoc(words: seq<string>, w: string)
    ensures Layout(words + [w]) == Layout(words) + w + [NUL]
  {
    assert (words + [w])[..|words|] == words;
  }

  lemma ConcatLast(a: string, b: string, w: string)
    ensures a + b + w + [NUL] == a + (b + w + [NUL])
  {
  }

  lemma {:induction false} LayoutAppend(a: seq<string>, b: seq<string>)
    ensures Layout(a + b) == Layout(a) + Layout(b)
    decreases |b|
  {
    if b == [] {
      assert a + b == a;
    } else {
      var front, w := b[..|b| - 1], b[|b| - 1];
      LayoutAppend(a, front);
      LayoutSnoc(a + front, w);
      ConcatLast(Layout(a), Layout(front), w);
      assert a + b == (a + front) + [w];
    }
  }

  lemma LayoutShift(gone: seq<string>, first: seq<string>, behind: seq<string>)
    ensures |Layout(gone + first)| == |Layout(gone)| + |Layout(first)|
    ensures Layout(gone + first) + Layout(behind) == Layout(gone) + Layout(first + behind)
  {
    LayoutAppend(gone, first);
    LayoutAppend(first, behind);
    Associative(Layout(gone), Layout(first), Layout(behind));
  }

  /** `struct get_parameter_internal`; the pointer is an index into the buffer. */
  datatype Slot = Slot(str: nat, length: nat)

  /** Slot k points at the k-th of the words laid out from `base` on. */
  predicate Fits(params: seq<Slot>, base: nat, words: seq<string>) {
    words == [] ||
    (var k := |words| - 1;
     && k < |params|
     && params[k] == Slot(base + |Layout(words[..k])|, |words[k]|)
     && Fits(params, base, words[..k]))
  }

  lemma {:induction false} FitsAt(params: seq<Slot>, base: nat, words: seq<string>, k: nat)
    requires Fits(params, base, words) && k < |words|
    ensures k < |params| && params[k] == Slot(base + |Layout(words[..k])|, |words[k]|)
    ensures |Layout(words[..k])| + |words[k]| < |Layout(words)|
    ensures Layout(words)[|Layout(words[..k])|..|Layout(words[..k])| + |words[k]|] == words[k]
    ensures Layout(words)[|Layout(words[..k])| + |words[k]|] == NUL
    decreases |words|
  {
    var front := words[..|words| - 1];
    if k < |words| - 1 {
      FitsAt(params, base, front, k);
      assert front[..k] == words[..k];
    }
  }

  lemma {:induction false} FitsUpdate(params: seq<Slot>, base: nat, words: seq<string>, i: nat, slot: Slot)
    requires Fits(params, base, words) && |words| <= i < |params|
    ensures Fits(params[i := slot], base, words)
    decreases |words|
  {
    if words != [] {
      FitsUpdate(params, base, words[..|words| - 1], i, slot);
    }
  }

  lemma {:induction false} FitsIfEach(params: seq<Slot>, base: nat, words: seq<string>)
    requires |words| <= |params|
    requires forall i :: 0 <= i < |words| ==> params[i] == Slot(base + |Layout(words[..i])|, |words[i]|)
    ensures Fits(params, base, words)
    decreases |words|
  {
    if words != [] {
      var front := words[..|words| - 1];
      forall i | 0 <= i < |front|
        ensures params[i] == Slot(base + |Layout(front[..i])|, |front[i]|)
      {
        assert front[..i] == words[..i];
      }
      FitsIfEach(params, base, front);
    }
  }

  /** The slots from `from` on are empty: the length of the next word counts up from 0. */
  predicate Zeroed(params: seq<Slot>, from: nat)
    decreases |params| - from
  {
    from >= |params| || (params[from].length == 0 && Zeroed(params, from + 1))
  }

  lemma {:induction false} ZeroedIfEach(params: seq<Slot>, from: nat)
    requires forall i :: from <= i < |params| ==> params[i].length == 0
    ensures Zeroed(params, from)
    decreases |params| - from
  {
    if from < |params| {
      ZeroedIfEach(params, from + 1);
    }
  }

  lemma {:induction false} ZeroedEach(params: seq<Slot>, from: nat, i: nat)
    requires Zeroed(params, from) && from <= i < |params|
    ensures params[i].length == 0
    decreases |params| - from
  {
    if from < i {
      ZeroedEach(params, from + 1, i);
    }
  }

  lemma {:induction false} ZeroedUpdate(params: seq<Slot>, from: nat, i: nat, slot: Slot)
    requires Zeroed(params, from) && i < from && i < |params|
    ensures Zeroed(params[i := slot], from)
    decreases |params| - from
  {
    if from < |params| {
      ZeroedUpdate(params, from + 1, i, slot);
    }
  }

  /** Moving the slots down leaves those of the words behind the first. */
  lemma {:induction false} FitsDrop(params: seq<Slot>, base: nat, first: seq<string>, behind: seq<string>,
                                    moved: seq<Slot>)
    requires Fits(params, base, first + behind) && |behind| <= |moved|
    requires |first + behind| <= |params| && forall i :: 0 <= i < |behind| ==> moved[i] == params[i + |first|]
    ensures Fits(moved, base + |Layout(first)|, behind)
    decreases |behind|
  {
    if behind != [] {
      var front := behind[..|behind| - 1];
      assert (first + behind)[..|first + behind| - 1] == first + front;
      FitsDrop(params, base, first, front, moved);
      LayoutAppend(first, front);
    }
  }

  lemma FitsOneMore(params: seq<Slot>, base: nat, words: seq<string>, w: string)
    requires Fits(params, base, words) && |words| < |params|
    ensures Fits(params[|words| := Slot(base + |Layout(words)|, |w|)], base, words + [w])
  {
    FitsUpdate(params, base, words, |words|, Slot(base + |Layout(words)|, |w|));
    assert (words + [w])[..|words|] == words;
  }

  function Prepend(w: string, r: (string, string)): (string, string) {
    (w + r.0, r.1)
  }

  lemma WordStep(t: string, room: nat, piece: string, rest: string)
    requires t != "" && t[0] != ' ' && room > 1 && (piece, rest) == Piece(t, room)
    ensures Word(t, room) == Prepend(piece, Word(rest, room - |piece|))
  {
  }

  lemma PieceCopied(t: string, room: nat, piece: string, rest: string, w: string, whole: (string, string), left: nat)
    requires t != "" && t[0] != ' ' && room > 1 && (piece, rest) == Piece(t, room) && left == room - |piece|
    requires whole == Prepend(w, Word(t, room))
    ensures whole == Prepend(w + piece, Word(rest, left))
  {
    WordStep(t, room, piece, rest);
    PrependTwice(w, piece, Word(rest, left));
  }

  lemma WordEnd(t: string, room: nat, w: string, whole: (string, string))
    requires t == "" || t[0] == ' ' || room <= 1
    requires whole == Prepend(w, Word(t, room))
    ensures whole == (w, t)
  {
    assert w + "" == w;
  }

  lemma PrependEmpty(r: (string, string))
    ensures Prepend("", r) == r
  {
    assert "" + r.0 == r.0;
  }

  lemma Associative(a: string, b: string, c: string)
    ensures a + b + c == a + (b + c)
  {
  }

  lemma PrependTwice(w: string, piece: string, r: (string, string))
    ensures Prepend(w, Prepend(piece, r)) == Prepend(w + piece, r)
  {
    assert w + (piece + r.0) == (w + piece) + r.0;
  }

  lemma SlotText(all: string, front: string, shown: string, at: nat, w: string)
    requires |front + shown| <= |all| && all[..|front + shown|] == front + shown
    requires at + |w| < |shown| && shown[at..at + |w|] == w && shown[at + |w|] == NUL
    ensures all[|front| + at..|front| + at + |w|] == w && all[|front| + at + |w|] == NUL
  {
    assert all[|front|..|front| + |shown|] == all[..|front + shown|][|front|..] == shown;
    assert all[|front| + at..|front| + at + |w|] == all[|front|..|front| + |shown|][at..at + |w|];
    assert all[|front| + at + |w|] == all[|front|..|front| + |shown|][at + |w|];
  }

  class ParameterHolder {
    var lastParam: nat
    var params: seq<Slot>
    const buffer: array<char>
    var bufferUsed: nat

    // the used part of the buffer; the words shifted out, and those still shown
    ghost var copied: string
    ghost var gone: seq<string>
    ghost var words: seq<string>

    /** `get_parameter_init` of a holder with room for `size` characters. */
    constructor (size: nat)
      requires size > 0
      ensures Valid() && words == [] && Room() == size
    {
      buffer := new char[size](i => NUL);
      params := seq(NUMBER_MAX, i => Slot(0, 0));
      ZeroedIfEach(seq(NUMBER_MAX, i => Slot(0, 0)), 0);
      lastParam, bufferUsed := 0, 0;
      copied, gone, words := "", [], [];
    }

    ghost function Room(): int
      reads this
    {
      buffer.Length - bufferUsed
    }

    ghost predicate ValidBuffer()
      reads this, buffer
    {
      |copied| == bufferUsed <= buffer.Length && buffer[..bufferUsed] == copied
    }

    ghost predicate ValidSlots()
      reads this
    {
      && lastParam == |words| <= |params| == NUMBER_MAX
      && Zeroed(params, lastParam)
      && Fits(params, |Layout(gone)|, words)
    }

    ghost predicate Valid()
      reads this, buffer
    {
      && ValidBuffer() && ValidSlots()
      && copied == Layout(gone) + Layout(words)
      && (bufferUsed < buffer.Length ==> buffer[bufferUsed] == NUL)
    }

    /** What a parameter's pointer and length give: its text, with a NUL behind it. */
    lemma ParameterText(k: nat)
      requires Valid() && 1 <= k <= lastParam
      ensures var p := params[k - 1];
        && p.str + p.length < buffer.Length
        && buffer[..][p.str..p.str + p.length] == words[k - 1]
        && buffer[..][p.str + p.length] == NUL
    {
      FitsAt(params, |Layout(gone)|, words, k - 1);
      assert buffer[..bufferUsed] == buffer[..][..bufferUsed];
      SlotText(buffer[..], Layout(gone), Layout(words), |Layout(words[..k - 1])|, words[k - 1]);
    }

    /** GET_PARAMETER_STR and GET_PARAMETER_LENGTH: the text of a parameter. */
    method Text(k: nat) returns (str: string)
      requires Valid() && 1 <= k <= lastParam
      ensures str == words[k - 1]
    {
      ParameterText(k);
      var p := params[k - 1];
      str := buffer[..][p.str..p.str + p.length];
    }

    /** `memcpy` to the end of what has been used. */
    method Append(text: string)
      requires ValidBuffer() && bufferUsed + |text| <= buffer.Length
      modifies this`bufferUsed, this`copied, buffer
      ensures ValidBuffer() && copied == old(copied) + text
    {
      var i := 0;
      while i < |text|
        invariant i <= |text| && bufferUsed == old(bufferUsed) && copied == old(copied)
        invariant buffer[..bufferUsed + i] == copied + text[..i]
      {
        buffer[bufferUsed + i] := text[i];
        i := i + 1;
      }
      bufferUsed := bufferUsed + |text|;
      copied := copied + text;
      assert text[..i] == text;
    }

    /** The switch in the inner loop of `get_parameter_parse`: one piece is copied. */
    method CopyPiece(str: string) returns (rest: string, ghost piece: string)
      requires ValidBuffer() && str != "" && str[0] != ' ' && buffer.Length - bufferUsed > 1
      modifies this`bufferUsed, this`copied, buffer
      ensures (piece, rest) == Piece(str, buffer.Length - old(bufferUsed))
      ensures ValidBuffer() && copied == old(copied) + piece
    {
      if str[0] == '\'' || str[0] == '"' {
        var inside := str[1..];
        var n := Copied(inside, {str[0]}, buffer.Length - bufferUsed);
        piece := inside[..n];
        Append(inside[..n]);
        rest := if n < |inside| then inside[n + 1..] else "";
      } else {
        var n := Copied(str, WORD_STOPS, buffer.Length - bufferUsed);
        piece := str[..n];
        Append(str[..n]);
        rest := str[n..];
      }
    }

    /** The inner loop of `get_parameter_parse`: one word is copied, piece by piece. */
    method CopyWord(str: string, ghost whole: (string, string)) returns (rest: string, ghost w: string)
      requires ValidBuffer() && bufferUsed < buffer.Length && whole == Word(str, Room())
      modifies this`bufferUsed, this`copied, buffer
      ensures w == whole.0 && rest == whole.1
      ensures ValidBuffer() && copied == old(copied) + w && bufferUsed < buffer.Length
    {
      rest, w := str, "";
      PrependEmpty(whole);
      while rest != "" && rest[0] != ' ' && buffer.Length - bufferUsed > 1
        invariant ValidBuffer() && copied == old(copied) + w && bufferUsed < buffer.Length
        invariant whole == Prepend(w, Word(rest, Room()))
        decreases |rest|
      {
        ghost var room, piece, t := Room(), "", rest;
        rest, piece := CopyPiece(rest);
        Associative(old(copied), w, piece);
        PieceCopied(t, room, piece, rest, w, whole, Room());
        w := w + piece;
      }
      WordEnd(rest, Room(), w, whole);
    }

    /** `get_parameter_parse`: exactly the words the reference parser gives, in a buffer that
        holds them one behind the other. */
    method Parse(str: string, uptoParam: nat) returns (ok: bool, rest: string)
      requires Valid()
      modifies this, buffer
      ensures Valid() && gone == old(gone)
      ensures uptoParam > NUMBER_MAX || uptoParam < 1 ==> !ok && rest == str && words == old(words)
      ensures 1 <= uptoParam <= NUMBER_MAX ==>
        Parsed(words, rest, Room()) == ParseUpto(Parsed(old(words), str, old(Room())), uptoParam)
        && ok == (|words| >= uptoParam)
    {
      if uptoParam > NUMBER_MAX || uptoParam < 1 {
        return false, str;
      }
      ghost var whole := ParseUpto(Parsed(words, str, Room()), uptoParam);
      rest, ok := str, true;
      while lastParam < uptoParam && ok
        invariant Valid() && gone == old(gone)
        invariant ParseUpto(Parsed(words, rest, Room()), uptoParam) == whole
        invariant !ok ==> whole == Parsed(words, rest, Room()) && lastParam < uptoParam
        decreases uptoParam - lastParam, ok
      {
        SkipTwice(rest);
        rest := SkipSpaces(rest);
        if rest == "" || buffer.Length - bufferUsed < 1 {
          ok := false;
        } else {
          rest := ParseWord(rest, Word(rest, Room()));
        }
      }
      if ok {
        rest := SkipSpaces(rest);
      }
    }

    /** One parameter: its slot, its text and its NUL. */
    method ParseWord(str: string, ghost whole: (string, string)) returns (rest: string)
      requires Valid() && lastParam < NUMBER_MAX && bufferUsed < buffer.Length && whole == Word(str, Room())
      modifies this, buffer
      ensures Valid() && gone == old(gone)
      ensures words == old(words) + [whole.0] && rest == whole.1 && Room() == old(Room()) - |whole.0| - 1
    {
      assert buffer[bufferUsed] == NUL;
      var start := bufferUsed;
      ghost var w;
      rest, w := CopyWord(str, whole);
      Associative(Layout(gone), Layout(words), w);
      Associative(Layout(gone), Layout(words) + w, [NUL]);
      AddSlot(start, w);
      EndWord();
    }

    method AddSlot(start: nat, ghost w: string)
      requires ValidSlots() && lastParam < NUMBER_MAX && start == |Layout(gone)| + |Layout(words)|
      requires bufferUsed == start + |w|
      modifies this`lastParam, this`params, this`words
      ensures ValidSlots() && words == old(words) + [w] && Layout(words) == Layout(old(words)) + w + [NUL]
    {
      LayoutSnoc(words, w);
      FitsOneMore(params, |Layout(gone)|, words, w);
      ZeroedUpdate(params, lastParam + 1, lastParam, Slot(start, |w|));
      lastParam := lastParam + 1;
      params := params[lastParam - 1 := Slot(start, bufferUsed - start)];
      words := words + [w];
    }

    /** `get_parameter_shift`: exactly the first parameters are dropped; the buffer stays. */
    method Shift(shiftNum: nat)
      requires Valid() && shiftNum > 0
      modifies this`lastParam, this`params, this`words, this`gone
      ensures Valid() && Room() == old(Room())
      ensures var k := if shiftNum > |old(words)| then |old(words)| else shiftNum;
        words == old(words)[k..] && gone == old(gone) + old(words)[..k]
    {
      var shift := if shiftNum > lastParam then lastParam else shiftNum;
      LayoutShift(gone, words[..shift], words[shift..]);
      assert words == words[..shift] + words[shift..];
      Drop(shift, words[..shift], words[shift..]);
    }

    method Drop(shift: nat, ghost first: seq<string>, ghost behind: seq<string>)
      requires ValidSlots() && words == first + behind && shift == |first|
      requires |Layout(gone + first)| == |Layout(gone)| + |Layout(first)|
      modifies this`lastParam, this`params, this`words, this`gone
      ensures ValidSlots() && words == behind && gone == old(gone) + first
    {
      assert lastParam - shift == |behind|;
      ghost var params0 := params;
      params := Shifted(params, lastParam - shift, shift);
      lastParam := lastParam - shift;
      ghost var base := |Layout(gone)|;
      FitsDrop(params0, base, first, behind, params);
      gone, words := gone + first, behind;
      assert |Layout(gone)| == base + |Layout(first)|;
    }

    /** The NUL behind a word, and one more if there is room. */
    method EndWord()
      requires ValidBuffer() && bufferUsed < buffer.Length
      modifies this`bufferUsed, this`copied, buffer
      ensures ValidBuffer() && copied == old(copied) + [NUL]
      ensures bufferUsed < buffer.Length ==> buffer[bufferUsed] == NUL
    {
      buffer[bufferUsed] := NUL;
      bufferUsed := bufferUsed + 1;
      copied := copied + [NUL];
      if bufferUsed < buffer.Length {
        buffer[bufferUsed] := NUL;
      }
    }
  }

  /** The two loops of `get_parameter_shift`. */
  method Shifted(params0: seq<Slot>, last: nat, shift: nat) returns (params: seq<Slot>)
    requires last + shift <= |params0| && Zeroed(params0, last + shift)
    ensures |params| == |params0|
    ensures forall i :: 0 <= i < last ==> params[i] == params0[i + shift]
    ensures Zeroed(params, last)
  {
    params := params0;
    var count := 0;
    while count < last
      invariant 0 <= count <= last && |params| == |params0|
      invariant forall i :: 0 <= i < count ==> params[i] == params0[i + shift]
      invariant forall i :: count <= i < |params0| ==> params[i] == params0[i]
    {
      params := params[count := params[count + shift]];
      count := count + 1;
    }
    count := 0;
    while count < shift
      invariant 0 <= count <= shift && |params| == |params0|
      invariant forall i :: 0 <= i < last ==> params[i] == params0[i + shift]
      invariant forall i :: last <= i < last + count ==> params[i].length == 0
      invariant forall i :: last + count <= i < |params0| && last + shift <= i ==> params[i] == params0[i]
    {
      params := params[last + count := params[last + count].(length := 0)];
      count := count + 1;
    }
    forall i | last + shift <= i < |params0|
      ensures params[i].length == 0
    {
      ZeroedEach(params0, last + shift, i);
    }
    ZeroedIfEach(params, last);
  }
}
