/** How a line is written, and the words that are parsed from it. */
module ParameterText {
  import opened GetParameter

  // ---------------------------------------------------------------- one word

  /** A part of a word: characters as they are, characters in quotes of either kind, or a quote
      that is never closed. */
  datatype Part = Bare(text: string) | InQuotes(quote: char, text: string) | Open(quote: char, text: string)

  function Written(p: Part): string {
    match p
    case Bare(text) => text
    case InQuotes(quote, text) => [quote] + (text + [quote])
    case Open(quote, text) => [quote] + text
  }

  predicate Proper(p: Part) {
    match p
    case Bare(text) => text != "" && forall i :: 0 <= i < |text| ==> text[i] != ' ' && text[i] != '\'' && text[i] != '"'
    case _ => (p.quote == '\'' || p.quote == '"') && forall i :: 0 <= i < |p.text| ==> p.text[i] != p.quote
  }

  /** The parts of a word, from first to last. */
  datatype Parts = End | Then(part: Part, more: Parts)

  /** Two bare parts side by side would be one, and nothing follows an open quote. */
  predicate IsWord(ps: Parts) {
    match ps
    case End => true
    case Then(p, more) =>
      Proper(p) && IsWord(more) && (more.Then? ==> !p.Open? && !(p.Bare? && more.part.Bare?))
  }

  /** What is behind a part: anything behind a quoted one, nothing behind an open one, and no more
      of the same behind a bare one. */
  predicate MayFollow(p: Part, behind: string) {
    (p.Open? ==> behind == "") && (p.Bare? ==> behind == "" || behind[0] in WORD_STOPS)
  }

  function WordText(ps: Parts): string {
    match ps
    case End => ""
    case Then(p, more) => Written(p) + WordText(more)
  }

  function Content(ps: Parts): string {
    match ps
    case End => ""
    case Then(p, more) => p.text + Content(more)
  }

  predicate EndsOpen(ps: Parts) {
    ps.Then? && if ps.more.End? then ps.part.Open? else EndsOpen(ps.more)
  }

  lemma {:induction false} SpanIs(t: string, stops: set<char>, n: nat)
    requires n <= |t| && (n < |t| ==> t[n] in stops) && forall i :: 0 <= i < n ==> t[i] !in stops
    ensures Span(t, stops) == n
  {
    if n > 0 {
      SpanIs(t[1..], stops, n - 1);
    }
  }

  lemma FirstPiece(t: string, room: nat, piece: string, rest: string, whole: (string, string))
    returns (r: (string, string))
    requires t != "" && t[0] != ' ' && room > 1 && whole == Word(t, room)
    requires Piece(t, room).0 == piece && Piece(t, room).1 == rest
    ensures r == Word(rest, room - |piece|) && whole == Prepend(piece, r)
  {
    r := Word(rest, room - |piece|);
  }

  /** One quoted piece, its closing quote, and what is behind it. */
  lemma QuotedPiece(q: char, piece: string, rest: string, room: nat, t: string, whole: (string, string))
    returns (r: (string, string))
    requires whole == Word(t, room)
    requires (q == '"' || q == '\'') && t == [q] + (piece + [q] + rest)
    requires |piece| < room && room > 1 && forall i :: 0 <= i < |piece| ==> piece[i] != q
    ensures r == Word(rest, room - |piece|) && whole == Prepend(piece, r)
  {
    var inside := piece + [q] + rest;
    ConcatPiece(q, piece, rest);
    SpanIs(inside, {q}, |piece|);
    assert Copied(inside, {q}, room) == |piece|;
    r := FirstPiece(t, room, piece, rest, whole);
  }

  lemma ConcatPiece(q: char, piece: string, rest: string)
    ensures var inside := piece + [q] + rest;
      && inside[|piece|] == q && inside[..|piece|] == piece && inside[|piece| + 1..] == rest
      && (forall i :: 0 <= i < |piece| ==> inside[i] == piece[i])
      && ([q] + inside)[0] == q && ([q] + inside)[1..] == inside
  {
  }

  /** A piece without quotes, up to a space, a quote or the end. */
  lemma BarePiece(piece: string, rest: string, room: nat, t: string, whole: (string, string))
    returns (r: (string, string))
    requires whole == Word(t, room)
    requires Proper(Bare(piece)) && t == piece + rest && |piece| < room && room > 1
    requires rest == "" || rest[0] in WORD_STOPS
    ensures r == Word(rest, room - |piece|) && whole == Prepend(piece, r)
  {
    ConcatBare(piece, rest);
    SpanIs(t, WORD_STOPS, |piece|);
    assert Copied(t, WORD_STOPS, room) == |piece|;
    r := FirstPiece(t, room, piece, rest, whole);
  }

  lemma ConcatBare(piece: string, rest: string)
    ensures (piece + rest)[..|piece|] == piece && (piece + rest)[|piece|..] == rest
    ensures forall i :: 0 <= i < |piece| ==> (piece + rest)[i] == piece[i]
    ensures rest != "" ==> (piece + rest)[|piece|] == rest[0]
  {
  }

  /** A quote that is not closed holds all the rest of the line. */
  lemma OpenPiece(q: char, piece: string, room: nat, t: string, whole: (string, string))
    returns (r: (string, string))
    requires whole == Word(t, room)
    requires (q == '"' || q == '\'') && t == [q] + piece && |piece| < room && room > 1
    requires forall i :: 0 <= i < |piece| ==> piece[i] != q
    ensures r == Word("", room - |piece|) && whole == Prepend(piece, r)
  {
    assert t[1..] == piece && piece[..|piece|] == piece;
    SpanIs(piece, {q}, |piece|);
    assert Copied(piece, {q}, room) == |piece|;
    r := FirstPiece(t, room, piece, "", whole);
  }

  lemma ConcatQuoted(q: char, text: string, behind: string)
    ensures [q] + (text + [q]) + behind == [q] + (text + [q] + behind)
  {
  }

  /** The first part in front of what is read behind it. */
  lemma PartRead(p: Part, behind: string, room: nat, t: string, whole: (string, string)) returns (r: (string, string))
    requires Proper(p) && |p.text| < room && room > 1 && t == Written(p) + behind && whole == Word(t, room)
    requires MayFollow(p, behind)
    ensures r == Word(behind, room - |p.text|) && whole == Prepend(p.text, r)
  {
    match p
    case Bare(text) => r := BarePiece(text, behind, room, t, whole);
    case InQuotes(quote, text) =>
      ConcatQuoted(quote, text, behind);
      r := QuotedPiece(quote, text, behind, room, t, whole);
    case Open(quote, text) =>
      assert t == [quote] + text;
      r := OpenPiece(quote, text, room, t, whole);
  }

  lemma Behind(p: Part, more: Parts, tail: string)
    requires IsWord(Then(p, more)) && (tail == "" || tail[0] == ' ') && (EndsOpen(Then(p, more)) ==> tail == "")
    ensures MayFollow(p, WordText(more) + tail)
  {
    if more.Then? {
      assert Proper(more.part);
    }
  }

  type Reader = (string, nat) -> (string, string)

  /** A reader that stops at a space or the end, and takes one part after the other. */
  ghost predicate PartByPart(word: Reader) {
    && (forall tail: string, room: nat {:trigger word(tail, room)} ::
          tail == "" || tail[0] == ' ' || room <= 1 ==> word(tail, room) == ("", tail))
    && (forall p: Part, behind: string, room: nat {:trigger word(Written(p) + behind, room)} ::
          Proper(p) && |p.text| < room && room > 1 && MayFollow(p, behind) ==>
            word(Written(p) + behind, room) == Prepend(p.text, word(behind, room - |p.text|)))
  }

  /** The word loop is such a reader. */
  lemma WordIsPartByPart() returns (word: Reader)
    ensures PartByPart(word)
    ensures forall t: string, room: nat {:trigger word(t, room)} :: word(t, room) == Word(t, room)
  {
    word := (t: string, room: nat) => Word(t, room);
    forall tail: string, room: nat | tail == "" || tail[0] == ' ' || room <= 1
      ensures Word(tail, room) == ("", tail)
    {
    }
    forall p: Part, behind: string, room: nat | Proper(p) && |p.text| < room && room > 1 && MayFollow(p, behind)
      ensures Word(Written(p) + behind, room) == Prepend(p.text, Word(behind, room - |p.text|))
    {
      PartThen(p, behind, room);
    }
  }

  lemma PartThen(p: Part, behind: string, room: nat)
    requires Proper(p) && |p.text| < room && room > 1 && MayFollow(p, behind)
    ensures Word(Written(p) + behind, room) == Prepend(p.text, Word(behind, room - |p.text|))
  {
    var t := Written(p) + behind;
    var r := PartRead(p, behind, room, t, Word(t, room));
  }

  lemma {:induction false} ReadParts(word: Reader, ps: Parts, tail: string, room: nat, t: string)
    requires PartByPart(word)
    requires IsWord(ps) && (tail == "" || tail[0] == ' ') && (EndsOpen(ps) ==> tail == "")
    requires room >= |Content(ps)| + 1 && t == WordText(ps) + tail
    ensures word(t, room).0 == Content(ps)
    ensures room >= |Content(ps)| + 2 ==> word(t, room).1 == tail
    decreases ps
  {
    match ps
    case End => assert t == tail;
    case Then(p, more) =>
      if room > 1 {
        var behind := WordText(more) + tail;
        FirstPart(p, more, tail, t, behind);
        ReadParts(word, more, tail, room - |p.text|, behind);
      }
  }

  /** Parts side by side are parsed as one word, of what they contain one behind the other; with
      room to spare behind its NUL, up to the text behind them. */
  lemma WordOfParts(ps: Parts, tail: string, room: nat)
    requires IsWord(ps) && (tail == "" || tail[0] == ' ') && (EndsOpen(ps) ==> tail == "")
    requires room >= |Content(ps)| + 1
    ensures Word(WordText(ps) + tail, room).0 == Content(ps)
    ensures room >= |Content(ps)| + 2 ==> Word(WordText(ps) + tail, room).1 == tail
  {
    var word := WordIsPartByPart();
    ReadParts(word, ps, tail, room, WordText(ps) + tail);
  }

  lemma FirstPart(p: Part, more: Parts, tail: string, t: string, behind: string)
    requires IsWord(Then(p, more)) && (tail == "" || tail[0] == ' ') && (EndsOpen(Then(p, more)) ==> tail == "")
    requires t == WordText(Then(p, more)) + tail && behind == WordText(more) + tail
    ensures Proper(p) && t == Written(p) + behind && MayFollow(p, behind)
  {
    Behind(p, more, tail);
    Associative(Written(p), WordText(more), tail);
  }

  /** A plain word is that word. */
  lemma PlainWord(w: string, tail: string, room: nat)
    requires Proper(Bare(w)) && (tail == "" || tail[0] == ' ') && |w| < room
    ensures Word(w + tail, room) == (w, tail)
  {
    var r := BarePiece(w, tail, room, w + tail, Word(w + tail, room));
    assert w + "" == w;
  }

  // ---------------------------------------------------------------- a whole line

  function Spaces(n: nat): string {
    seq(n, i => ' ')
  }

  lemma {:induction false} SpacesSkipped(n: nat, t: string)
    requires t == "" || t[0] != ' '
    ensures SkipSpaces(Spaces(n) + t) == t
  {
    if n == 0 {
      assert Spaces(n) + t == t;
    } else {
      assert (Spaces(n) + t)[1..] == Spaces(n - 1) + t;
      SpacesSkipped(n - 1, t);
    }
  }

  /** A word, and the spaces in front of it. */
  datatype Entry = Entry(gap: nat, parts: Parts)

  /** Words are apart; a quote may be left open at the end of the line only. */
  predicate IsLine(es: seq<Entry>, trailing: nat) {
    es == [] ||
    (&& es[0].parts.Then? && IsWord(es[0].parts)
     && (|es| > 1 ==> es[1].gap > 0 && !EndsOpen(es[0].parts))
     && (EndsOpen(es[0].parts) ==> trailing == 0)
     && IsLine(es[1..], trailing))
  }

  function LineText(es: seq<Entry>, trailing: nat): string {
    if es == [] then Spaces(trailing) else Spaces(es[0].gap) + (WordText(es[0].parts) + LineText(es[1..], trailing))
  }

  function Contents(es: seq<Entry>): seq<string> {
    if es == [] then [] else [Content(es[0].parts)] + Contents(es[1..])
  }

  /** What the words take up in the buffer, each with its NUL. */
  function Size(es: seq<Entry>): nat {
    if es == [] then 0 else |Content(es[0].parts)| + 1 + Size(es[1..])
  }

  lemma StartsWord(ps: Parts, tail: string)
    requires ps.Then? && IsWord(ps)
    ensures WordText(ps) + tail != "" && (WordText(ps) + tail)[0] != ' '
  {
    assert Proper(ps.part);
  }

  lemma TailOfLine(es: seq<Entry>, trailing: nat)
    requires IsLine(es, trailing) && es != []
    ensures var tail := LineText(es[1..], trailing);
      (tail == "" || tail[0] == ' ') && (EndsOpen(es[0].parts) ==> tail == "")
  {
  }

  /** Parsing ends with the words so far and those that are asked for, at the next one. */
  ghost predicate Takes(r: Parsed, words: seq<string>, es: seq<Entry>, trailing: nat, upto: nat)
    decreases |es|
  {
    if es == [] || |words| >= upto then r.words == words && r.rest == SkipSpaces(LineText(es, trailing))
    else Takes(r, words + [Content(es[0].parts)], es[1..], trailing, upto)
  }

  lemma {:induction false} TakenIs(r: Parsed, words: seq<string>, es: seq<Entry>, trailing: nat, upto: nat)
    requires |words| <= upto && Takes(r, words, es, trailing, upto)
    ensures var n := if |words| + |es| < upto then |es| else upto - |words|;
      && |Contents(es)| == |es| && r.words == words + Contents(es)[..n]
      && r.rest == SkipSpaces(LineText(es[n..], trailing))
    decreases |es|
  {
    LengthOf(es);
    if es == [] || |words| == upto {
      assert words + [] == words && es[0..] == es;
    } else {
      var n := if |words| + |es| < upto then |es| else upto - |words|;
      TakenIs(r, words + [Content(es[0].parts)], es[1..], trailing, upto);
      OneWordMore(words, Content(es[0].parts), Contents(es[1..]), n);
      assert es[n..] == es[1..][n - 1..];
    }
  }

  lemma {:induction false} LineTaken(words: seq<string>, es: seq<Entry>, trailing: nat, room: nat, upto: nat,
                                     t: string, r: Parsed)
    requires IsLine(es, trailing) && Size(es) < room && |words| <= upto
    requires t == LineText(es, trailing) && r == ParseUpto(Parsed(words, t, room), upto)
    ensures Takes(r, words, es, trailing, upto)
    decreases |es|
  {
    if es == [] || |words| == upto {
      EmptyLine(trailing);
      NothingTaken(words, t, room, upto, r);
    } else {
      var w, tail := Content(es[0].parts), LineText(es[1..], trailing);
      LineFirst(words, es, trailing, tail, room, upto, w, t, r);
      LineTaken(words + [w], es[1..], trailing, room - |w| - 1, upto, tail, r);
    }
  }

  lemma NothingTaken(words: seq<string>, t: string, room: nat, upto: nat, r: Parsed)
    requires SkipSpaces(t) == "" || |words| >= upto
    requires r == ParseUpto(Parsed(words, t, room), upto)
    ensures r == Parsed(words, SkipSpaces(t), room)
  {
  }

  lemma EmptyLine(trailing: nat)
    ensures SkipSpaces(LineText([], trailing)) == ""
  {
    assert Spaces(trailing) + "" == Spaces(trailing);
    SpacesSkipped(trailing, "");
  }

  lemma LineFirst(words: seq<string>, es: seq<Entry>, trailing: nat, tail: string, room: nat, upto: nat, w: string,
                  t: string, r: Parsed)
    requires es != [] && IsLine(es, trailing) && Size(es) < room && |words| < upto
    requires tail == LineText(es[1..], trailing) && t == LineText(es, trailing) && w == Content(es[0].parts)
    requires r == ParseUpto(Parsed(words, t, room), upto)
    ensures r == ParseUpto(Parsed(words + [w], tail, room - |w| - 1), upto)
    ensures IsLine(es[1..], trailing) && Size(es[1..]) < room - |w| - 1
  {
    TailOfLine(es, trailing);
    FirstOfLine(words, es[0], tail, room, upto, w, t, r);
  }

  /** The first word of a line, if it is asked for. */
  lemma FirstOfLine(words: seq<string>, e: Entry, tail: string, room: nat, upto: nat, w: string, t: string, r: Parsed)
    requires e.parts.Then? && IsWord(e.parts) && (tail == "" || tail[0] == ' ') && (EndsOpen(e.parts) ==> tail == "")
    requires w == Content(e.parts) && |w| + 1 < room && |words| < upto
    requires t == Spaces(e.gap) + (WordText(e.parts) + tail)
    requires r == ParseUpto(Parsed(words, t, room), upto)
    ensures r == ParseUpto(Parsed(words + [w], tail, room - |w| - 1), upto)
  {
    StartsWord(e.parts, tail);
    SpacesSkipped(e.gap, WordText(e.parts) + tail);
    WordOfParts(e.parts, tail, room);
    OneParsed(words, t, WordText(e.parts) + tail, room, upto, w, tail, r);
  }

  lemma OneParsed(words: seq<string>, t: string, u: string, room: nat, upto: nat, w: string, tail: string, r: Parsed)
    requires |words| < upto && room >= 1 && u == SkipSpaces(t) && u != "" && Word(u, room) == (w, tail) && |w| < room
    requires r == ParseUpto(Parsed(words, t, room), upto)
    ensures r == ParseUpto(Parsed(words + [w], tail, room - |w| - 1), upto)
  {
  }

  lemma ParseOne(done: seq<string>, text: string, room: nat, upto: nat, t: string, w: string)
    requires |done| < upto && room >= 1 && t == SkipSpaces(text) && t != "" && Word(t, room).0 == w
    ensures ParseUpto(Parsed(done, text, room), upto) ==
      ParseUpto(Parsed(done + [w], Word(t, room).1, room - |w| - 1), upto)
  {
  }

  /** A line is parsed into the words it is written of, up to the number asked for, and what is
      left begins with the next word. */
  lemma LineParsed(words: seq<string>, es: seq<Entry>, trailing: nat, room: nat, upto: nat)
    requires IsLine(es, trailing) && Size(es) < room && |words| <= upto
    ensures var r := ParseUpto(Parsed(words, LineText(es, trailing), room), upto);
      var n := if |words| + |es| < upto then |es| else upto - |words|;
      && |Contents(es)| == |es| && r.words == words + Contents(es)[..n]
      && r.rest == SkipSpaces(LineText(es[n..], trailing))
  {
    var r := ParseUpto(Parsed(words, LineText(es, trailing), room), upto);
    LineTaken(words, es, trailing, room, upto, LineText(es, trailing), r);
    TakenIs(r, words, es, trailing, upto);
  }

  lemma {:induction false} LengthOf(es: seq<Entry>)
    ensures |Contents(es)| == |es|
  {
    if es != [] {
      LengthOf(es[1..]);
    }
  }

  lemma OneWordMore(words: seq<string>, w: string, rest: seq<string>, n: nat)
    requires 0 < n <= |rest| + 1
    ensures words + [w] + rest[..n - 1] == words + ([w] + rest)[..n]
  {
  }

  // ---------------------------------------------------------------- every line is one of these

  /** The first part of a word. */
  lemma PartSplit(t: string) returns (p: Part, behind: string)
    requires t != "" && t[0] != ' '
    ensures t == Written(p) + behind && Proper(p) && |behind| < |t| && (p.Open? ==> behind == "")
    ensures p.Bare? <==> t[0] !in WORD_STOPS
    ensures p.Bare? ==> behind == "" || behind[0] in WORD_STOPS
  {
    if t[0] == '\'' || t[0] == '"' {
      p, behind := QuoteSplit(t[0], t[1..]);
      assert t == [t[0]] + t[1..];
      assert p.InQuotes? ==> [t[0]] + (p.text + [t[0]] + behind) == Written(p) + behind;
    } else {
      var n := Span(t, WORD_STOPS);
      p, behind := Bare(t[..n]), t[n..];
    }
  }

  lemma QuoteSplit(quote: char, inside: string) returns (p: Part, behind: string)
    requires quote == '\'' || quote == '"'
    ensures Proper(p) && |behind| <= |inside|
    ensures || (p.Open? && p == Open(quote, inside) && behind == "")
            || (p.InQuotes? && p.quote == quote && inside == p.text + [quote] + behind)
  {
    var n := Span(inside, {quote});
    if n == |inside| {
      p, behind := Open(quote, inside), "";
    } else {
      p, behind := InQuotes(quote, inside[..n]), inside[n + 1..];
    }
  }

  /** The parts of the word at the beginning of a text, and what is behind it. */
  lemma {:induction false} WordSplit(t: string) returns (ps: Parts, tail: string)
    ensures t == WordText(ps) + tail && IsWord(ps) && (tail == "" || tail[0] == ' ')
    ensures EndsOpen(ps) ==> tail == ""
    ensures ps.End? <==> t == "" || t[0] == ' '
    ensures ps.Then? && ps.part.Bare? ==> t[0] !in WORD_STOPS
    decreases |t|
  {
    if t == "" || t[0] == ' ' {
      ps, tail := End, t;
      assert t == "" + t;
    } else {
      var p, behind := PartSplit(t);
      ps, tail := WordSplit(behind);
      Associative(Written(p), WordText(ps), tail);
      ps := Then(p, ps);
    }
  }

  lemma {:induction false} SpacesSplit(t: string) returns (n: nat, rest: string)
    ensures t == Spaces(n) + rest && (rest == "" || rest[0] != ' ') && (t != "" && t[0] == ' ' ==> n > 0)
    decreases |t|
  {
    n, rest := 0, t;
    if t != "" && t[0] == ' ' {
      n, rest := SpacesSplit(t[1..]);
      assert t == [' '] + (Spaces(n) + rest) == Spaces(n + 1) + rest;
      n := n + 1;
    } else {
      assert t == Spaces(0) + t;
    }
  }

  /** Every text is a line of words, whatever quotes it holds. */
  lemma {:induction false} LineSplit(t: string) returns (es: seq<Entry>, trailing: nat)
    ensures t == LineText(es, trailing) && IsLine(es, trailing)
    ensures es != [] && t != "" && t[0] == ' ' ==> es[0].gap > 0
    decreases |t|
  {
    es := [];
    var rest;
    trailing, rest := SpacesSplit(t);
    if rest == "" {
      assert t == Spaces(trailing);
    } else {
      var gap := trailing;
      var ps, tail := WordSplit(rest);
      es, trailing := LineSplit(tail);
      es := [Entry(gap, ps)] + es;
      assert es[1..] != [] && tail != "" ==> tail[0] == ' ';
    }
  }

  // ---------------------------------------------------------------- words that are too long

  lemma NoRoomLeft(t: string, whole: (string, string))
    requires whole == Word(t, 1)
    ensures whole.0 == ""
  {
  }

  /** A first piece that fills the buffer. */
  lemma FullPiece(t: string, room: nat, piece: string, whole: (string, string))
    requires t != "" && t[0] != ' ' && room > 1 && whole == Word(t, room)
    requires Piece(t, room).0 == piece && |piece| == room - 1
    ensures whole.0 == piece
  {
    var rest := Piece(t, room).1;
    var r := FirstPiece(t, room, piece, rest, whole);
    NoRoomLeft(rest, r);
    assert piece + "" == piece;
  }

  lemma BareCut(text: string, behind: string, room: nat, t: string, whole: (string, string))
    requires Proper(Bare(text)) && t == text + behind && |text| >= room > 1 && whole == Word(t, room)
    requires behind == "" || behind[0] in WORD_STOPS
    ensures whole.0 == text[..room - 1]
  {
    ConcatBare(text, behind);
    SpanIs(t, WORD_STOPS, |text|);
    assert Copied(t, WORD_STOPS, room) == room - 1;
    assert t[..room - 1] == text[..room - 1];
    FullPiece(t, room, text[..room - 1], whole);
  }

  lemma QuotedCut(q: char, text: string, inside: string, room: nat, t: string, whole: (string, string))
    requires (q == '\'' || q == '"') && t == [q] + inside && text <= inside && |text| >= room > 1
    requires whole == Word(t, room)
    requires (forall i :: 0 <= i < |text| ==> text[i] != q) && (|text| < |inside| ==> inside[|text|] == q)
    ensures whole.0 == text[..room - 1]
  {
    assert t[1..] == inside;
    SpanIs(inside, {q}, |text|);
    assert Copied(inside, {q}, room) == room - 1;
    assert inside[..room - 1] == text[..room - 1];
    FullPiece(t, room, text[..room - 1], whole);
  }

  lemma PartCut(p: Part, behind: string, room: nat, t: string, whole: (string, string))
    requires Proper(p) && |p.text| >= room > 1 && MayFollow(p, behind)
    requires t == Written(p) + behind && whole == Word(t, room)
    ensures whole.0 == p.text[..room - 1]
  {
    match p
    case Bare(text) => BareCut(text, behind, room, t, whole);
    case InQuotes(quote, text) =>
      var inside := text + [quote] + behind;
      ConcatQuoted(quote, text, behind);
      QuotedCut(quote, text, inside, room, t, whole);
    case Open(quote, text) =>
      assert t == [quote] + text;
      QuotedCut(quote, text, text, room, t, whole);
  }

  /** A reader that cuts a part for which there is no room. */
  ghost predicate CutsParts(word: Reader) {
    forall p: Part, behind: string, room: nat {:trigger word(Written(p) + behind, room)} ::
      Proper(p) && |p.text| >= room > 1 && MayFollow(p, behind) ==>
        word(Written(p) + behind, room).0 == p.text[..room - 1]
  }

  lemma WordCutsParts(word: Reader)
    requires forall t: string, room: nat {:trigger word(t, room)} :: word(t, room) == Word(t, room)
    ensures CutsParts(word)
  {
    forall p: Part, behind: string, room: nat | Proper(p) && |p.text| >= room > 1 && MayFollow(p, behind)
      ensures word(Written(p) + behind, room).0 == p.text[..room - 1]
    {
      var t := Written(p) + behind;
      PartCut(p, behind, room, t, word(t, room));
    }
  }

  lemma CutBehind(a: string, b: string, n: nat)
    requires n <= |a| + |b|
    ensures n <= |a| ==> (a + b)[..n] == a[..n]
    ensures n >= |a| ==> (a + b)[..n] == a + b[..n - |a|]
  {
  }

  lemma {:induction false} ReadCut(word: Reader, ps: Parts, tail: string, room: nat, t: string)
    requires PartByPart(word) && CutsParts(word)
    requires IsWord(ps) && (tail == "" || tail[0] == ' ') && (EndsOpen(ps) ==> tail == "")
    requires 1 <= room <= |Content(ps)| && t == WordText(ps) + tail
    ensures word(t, room).0 == Content(ps)[..room - 1]
    decreases ps
  {
    match ps
    case Then(p, more) =>
      if room > 1 {
        var behind := WordText(more) + tail;
        FirstPart(p, more, tail, t, behind);
        CutBehind(p.text, Content(more), room - 1);
        if |p.text| < room {
          ReadCut(word, more, tail, room - |p.text|, behind);
        }
      }
  }

  /** Of a word that does not fit, the buffer takes as much as it can beside a NUL. */
  lemma WordTooLong(ps: Parts, tail: string, room: nat)
    requires IsWord(ps) && (tail == "" || tail[0] == ' ') && (EndsOpen(ps) ==> tail == "")
    requires 1 <= room <= |Content(ps)|
    ensures Word(WordText(ps) + tail, room).0 == Content(ps)[..room - 1]
  {
    var word := WordIsPartByPart();
    WordCutsParts(word);
    ReadCut(word, ps, tail, room, WordText(ps) + tail);
  }
}
