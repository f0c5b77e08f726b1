/** The colours and wands a player's terminal shows, and the small stack on which they are saved. */
module Colour {

  const PLAYER_S_OUTPUT_TYPE_SZ := 4
  const OUTPUT_COLOUR_SZ := 23

  // ---------------------------------------------------------------- attributes

  type Shade = n: nat | n <= 8

  /** An output type: its two colours, 0 for none, and its wands; each has its own bits. */
  datatype Attributes = Attributes(fore: Shade, back: Shade, bold: bool, flashing: bool, underline: bool,
                                   inverse: bool, dim: bool)

  const NOTHING := Attributes(0, 0, false, false, false, false, false)

  datatype Wand = Bold | Flashing | Underline | Inverse | Dim

  /** The `type` of `colour_write`. */
  datatype Change =
    | Save | Restore | Clear | Reset | EverythingOff
    | Foreground(shade: Shade) | Background(shade: Shade) | On(wand: Wand) | Off(wand: Wand)

  /** A colour is set by a shade from 1 to 8; FOREGROUND_OFF and BACKGROUND_OFF are shade 0. */
  function Changed(a: Attributes, c: Change): Attributes {
    match c
    case Foreground(shade) => a.(fore := shade)
    case Background(shade) => a.(back := shade)
    case On(wand) => WithWand(a, wand, true)
    case Off(wand) => WithWand(a, wand, false)
    case EverythingOff => NOTHING
    case _ => a
  }

  function WithWand(a: Attributes, wand: Wand, on: bool): Attributes {
    match wand
    case Bold => a.(bold := on)
    case Flashing => a.(flashing := on)
    case Underline => a.(underline := on)
    case Inverse => a.(inverse := on)
    case Dim => a.(dim := on)
  }

  predicate HasWand(a: Attributes, wand: Wand) {
    match wand
    case Bold => a.bold
    case Flashing => a.flashing
    case Underline => a.underline
    case Inverse => a.inverse
    case Dim => a.dim
  }

  function Bit(b: bool, value: nat): nat {
    if b then value else 0
  }

  function Bits(colours: nat, b: bool, f: bool, u: bool, i: bool, d: bool): nat {
    colours + Bit(b, 0x100) + Bit(f, 0x200) + Bit(u, 0x400) + Bit(i, 0x800) + Bit(d, 0x1000)
  }

  lemma BitsInjective(m: nat, b: bool, f: bool, u: bool, i: bool, d: bool,
                      n: nat, b': bool, f': bool, u': bool, i': bool, d': bool)
    requires m < 0x100 && n < 0x100 && Bits(m, b, f, u, i, d) == Bits(n, b', f', u', i', d')
    ensures m == n && b == b' && f == f' && u == u' && i == i' && d == d'
  {
  }

  /** The word in which the attributes are kept. */
  function Word(a: Attributes): nat {
    Bits(a.fore + 16 * a.back, a.bold, a.flashing, a.underline, a.inverse, a.dim)
  }

  /** The word says it all: comparing words is comparing attributes. */
  lemma WordInjective(a: Attributes, b: Attributes)
    requires Word(a) == Word(b)
    ensures a == b
  {
    BitsInjective(a.fore + 16 * a.back, a.bold, a.flashing, a.underline, a.inverse, a.dim,
                  b.fore + 16 * b.back, b.bold, b.flashing, b.underline, b.inverse, b.dim);
  }

  // ---------------------------------------------------------------- what each change does to the word

  /** Whether a bit of a word is on. */
  predicate IsOn(word: int, bit: int)
    requires bit > 0
  {
    word / bit % 2 == 1
  }

  /** The bits of the wands, above four bits of a foreground and four of a background. */
  function WandBit(wand: Wand): (bit: int)
    ensures bit > 0
  {
    match wand
    case Bold => 0x100
    case Flashing => 0x200
    case Underline => 0x400
    case Inverse => 0x800
    case Dim => 0x1000
  }

  /** The word after a change: a colour replaces the four bits of its kind, a wand its own bit. */
  function WordAfter(word: int, c: Change): int {
    match c
    case Foreground(shade) => word - word % 16 + shade
    case Background(shade) => word - word / 16 % 16 * 16 + 16 * shade
    case On(wand) => if IsOn(word, WandBit(wand)) then word else word + WandBit(wand)
    case Off(wand) => if IsOn(word, WandBit(wand)) then word - WandBit(wand) else word
    case EverythingOff => 0
    case _ => word
  }

  /** Half of a word without its lowest bits is what is above them. */
  lemma Above(word: nat, bit: nat, high: nat, on: nat, low: nat)
    requires bit == 0x100 || bit == 0x200 || bit == 0x400 || bit == 0x800 || bit == 0x1000
    requires word == (2 * high + on) * bit + low && low < bit && on <= 1
    ensures IsOn(word, bit) <==> on == 1
  {
    Quotient(word, bit, 2 * high + on, low);
  }

  lemma Quotient(word: nat, bit: nat, high: nat, low: nat)
    requires bit == 0x100 || bit == 0x200 || bit == 0x400 || bit == 0x800 || bit == 0x1000
    requires word == high * bit + low && low < bit
    ensures word / bit == high
  {
  }

  lemma WordSum(a: Attributes)
    ensures Word(a) == a.fore + 16 * a.back + 0x100 * Bit(a.bold, 1) + 0x200 * Bit(a.flashing, 1)
      + 0x400 * Bit(a.underline, 1) + 0x800 * Bit(a.inverse, 1) + 0x1000 * Bit(a.dim, 1)
  {
  }

  /** Each wand has its bit in the word. */
  lemma WandInWord(a: Attributes, wand: Wand)
    ensures IsOn(Word(a), WandBit(wand)) <==> HasWand(a, wand)
  {
    WordSum(a);
    BitInSum(Word(a), a.fore + 16 * a.back, Bit(a.bold, 1), Bit(a.flashing, 1), Bit(a.underline, 1), Bit(a.inverse, 1),
             Bit(a.dim, 1), wand);
  }

  lemma BitInSum(word: nat, low: nat, b: nat, f: nat, u: nat, i: nat, d: nat, wand: Wand)
    requires low < 0x100 && b <= 1 && f <= 1 && u <= 1 && i <= 1 && d <= 1
    requires word == low + 0x100 * b + 0x200 * f + 0x400 * u + 0x800 * i + 0x1000 * d
    ensures IsOn(word, WandBit(wand)) <==>
      1 == match wand
        case Bold => b
        case Flashing => f
        case Underline => u
        case Inverse => i
        case Dim => d
  {
    match wand
    case Bold => Above(word, 0x100, f + 2 * u + 4 * i + 8 * d, b, low);
    case Flashing => Above(word, 0x200, u + 2 * i + 4 * d, f, low + 0x100 * b);
    case Underline => Above(word, 0x400, i + 2 * d, u, low + 0x100 * b + 0x200 * f);
    case Inverse => Above(word, 0x800, d, i, low + 0x100 * b + 0x200 * f + 0x400 * u);
    case Dim => Above(word, 0x1000, 0, d, low + 0x100 * b + 0x200 * f + 0x400 * u + 0x800 * i);
  }

  lemma ColoursBelow(word: nat, high: nat, back: nat, fore: nat)
    requires word == 16 * (16 * high + back) + fore && back < 16 && fore < 16
    ensures word % 16 == fore && word / 16 % 16 == back
  {
    assert word / 16 == 16 * high + back;
  }

  /** The colours have four bits each. */
  lemma ColoursInWord(a: Attributes)
    ensures Word(a) % 16 == a.fore && Word(a) / 16 % 16 == a.back
  {
    WordSum(a);
    var b, f, u, i, d := Bit(a.bold, 1), Bit(a.flashing, 1), Bit(a.underline, 1), Bit(a.inverse, 1), Bit(a.dim, 1);
    ColoursBelow(Word(a), b + 2 * f + 4 * u + 8 * i + 16 * d, a.back, a.fore);
  }

  lemma WandChanges(a: Attributes, wand: Wand, on: bool)
    ensures Word(WithWand(a, wand, on)) ==
      Word(a) - (if HasWand(a, wand) then WandBit(wand) else 0) + (if on then WandBit(wand) else 0)
  {
  }

  /** Every change, on the word. */
  lemma ChangedWord(a: Attributes, c: Change)
    ensures Word(Changed(a, c)) == WordAfter(Word(a), c)
  {
    match c {
      case Foreground(_) => ColoursInWord(a);
      case Background(_) => ColoursInWord(a);
      case On(wand) =>
        WandInWord(a, wand);
        WandChanges(a, wand, true);
      case Off(wand) =>
        WandInWord(a, wand);
        WandChanges(a, wand, false);
      case _ =>
    }
  }

  // ---------------------------------------------------------------- what each change means

  datatype Stack = Stack(ptr: nat, levels: seq<Attributes>) {
    predicate Valid() {
      ptr < PLAYER_S_OUTPUT_TYPE_SZ == |levels|
    }

    function Top(): Attributes
      requires Valid()
    {
      levels[ptr]
    }
  }

  /** The levels up to `n` are emptied. */
  function Emptied(levels: seq<Attributes>, n: nat): (r: seq<Attributes>)
    ensures |r| == |levels|
    ensures forall i :: 0 <= i < |levels| ==> r[i] == if i <= n then NOTHING else levels[i]
  {
    seq(|levels|, i requires 0 <= i < |levels| => if i <= n then NOTHING else levels[i])
  }

  function After(s: Stack, c: Change): (r: Stack)
    requires s.Valid()
    ensures r.Valid()
  {
    match c
    case Save =>
      var ptr := if s.ptr == PLAYER_S_OUTPUT_TYPE_SZ - 1 then s.ptr else s.ptr + 1;
      Stack(ptr, s.levels[ptr := NOTHING])
    case Restore => Stack(if s.ptr == 0 then 0 else s.ptr - 1, s.levels[s.ptr := NOTHING])
    case Clear => Stack(0, Emptied(s.levels, s.ptr))
    case _ => s.(levels := s.levels[s.ptr := Changed(s.Top(), c)])
  }

  /** What is shown after a change: the word with its own bits changed; nothing on a level that is
      new or cleared; and what was saved, once it is restored. */
  predicate Shows(s: Stack, c: Change, now: Attributes)
    requires s.Valid()
  {
    match c
    case Save => now == NOTHING
    case Clear => now == NOTHING
    case Restore => s.ptr > 0 ==> now == s.levels[s.ptr - 1]
    case _ => Word(now) == WordAfter(Word(s.Top()), c)
  }

  lemma AfterShows(s: Stack, c: Change, now: Attributes)
    requires s.Valid() && now == After(s, c).Top()
    ensures Shows(s, c, now)
  {
    if Plain(c) {
      TopChanged(s, c);
      ChangedWord(s.Top(), c);
    }
  }

  lemma TopChanged(s: Stack, c: Change)
    requires s.Valid() && Plain(c)
    ensures After(s, c).Top() == Changed(s.Top(), c)
  {
  }

  /** `colour_load` sets one of the player's own colours, or does nothing. */
  function Loaded(s: Stack, output: seq<Attributes>, colour: nat): (r: Stack)
    requires s.Valid() && |output| == OUTPUT_COLOUR_SZ
    ensures r.Valid()
  {
    if IsColour(colour) then s.(levels := s.levels[s.ptr := output[colour]]) else s
  }

  /** The colours in use: 5 and 6 are old, 8 is not set by any case. */
  predicate IsColour(colour: nat) {
    colour < OUTPUT_COLOUR_SZ && colour != 5 && colour != 6 && colour != 8
  }

  // ---------------------------------------------------------------- the player's terminal

  class Player {
    var typePtr: nat
    const outputType: array<Attributes>
    const output: seq<Attributes>

    // what an ideal terminal shows
    var terminal: Attributes

    constructor (output: seq<Attributes>)
      requires |output| == OUTPUT_COLOUR_SZ
      ensures Valid() && terminal == Contents().Top() == NOTHING
    {
      this.output := output;
      outputType := new Attributes[PLAYER_S_OUTPUT_TYPE_SZ](i => NOTHING);
      typePtr, terminal := 0, NOTHING;
    }

    ghost predicate Valid()
      reads this, outputType
    {
      |output| == OUTPUT_COLOUR_SZ && Contents().Valid()
    }

    ghost function Contents(): Stack
      reads this, outputType
    {
      Stack(typePtr, outputType[..])
    }

    method SetNormal()
      modifies this`terminal
      ensures terminal == NOTHING
    {
      terminal := NOTHING;
    }

    method SetForegroundColour(n: nat)
      requires n < 8
      modifies this`terminal
      ensures terminal == old(terminal).(fore := n + 1)
    {
      terminal := terminal.(fore := n + 1);
    }

    method SetBackgroundColour(n: nat)
      requires n < 8
      modifies this`terminal
      ensures terminal == old(terminal).(back := n + 1)
    {
      terminal := terminal.(back := n + 1);
    }

    method SetWand(wand: Wand)
      modifies this`terminal
      ensures terminal == WithWand(old(terminal), wand, true)
    {
      terminal := WithWand(terminal, wand, true);
    }

    /** The end of `colour_write`: everything that is to stay on is switched on. */
    method SwitchOn()
      requires Valid() && (terminal == NOTHING || terminal == Contents().Top())
      modifies this`terminal
      ensures terminal == Contents().Top()
    {
      var a := outputType[typePtr];
      if a != NOTHING {
        SwitchColours(a);
        SwitchWands(a);
      }
    }

    method SwitchColours(a: Attributes)
      modifies this`terminal
      ensures terminal == old(terminal).(
        fore := if a.fore == 0 then old(terminal).fore else a.fore,
        back := if a.back == 0 then old(terminal).back else a.back)
    {
      if a.fore != 0 {
        SetForegroundColour(a.fore - 1);
      }
      if a.back != 0 {
        SetBackgroundColour(a.back - 1);
      }
    }

    method SwitchWands(a: Attributes)
      modifies this`terminal
      ensures terminal == Attributes(old(terminal).fore, old(terminal).back,
        old(terminal).bold || a.bold, old(terminal).flashing || a.flashing,
        old(terminal).underline || a.underline, old(terminal).inverse || a.inverse, old(terminal).dim || a.dim)
    {
      if a.bold {
        SetWand(Bold);
      }
      if a.dim {
        SetWand(Dim);
      }
      if a.flashing {
        SetWand(Flashing);
      }
      if a.underline {
        SetWand(Underline);
      }
      if a.inverse {
        SetWand(Inverse);
      }
    }

    /** SAVE_OUTPUT_TYPE, RESTORE_OUTPUT_TYPE and CLEAR_OUTPUT. */
    method MovePointer(c: Change)
      requires Valid() && terminal == Contents().Top() && (c.Save? || c.Restore? || c.Clear?)
      modifies this`typePtr, this`terminal, outputType
      ensures Valid() && Contents() == After(old(Contents()), c) && terminal == NOTHING
    {
      if outputType[typePtr] != NOTHING {
        SetNormal();
      }
      match c
      case Save =>
        if typePtr != PLAYER_S_OUTPUT_TYPE_SZ - 1 {
          typePtr := typePtr + 1;
        }
        outputType[typePtr] := NOTHING;
      case Restore =>
        outputType[typePtr] := NOTHING;
        if typePtr != 0 {
          typePtr := typePtr - 1;
        }
      case Clear =>
        ghost var before, ptr := outputType[..], typePtr;
        typePtr := typePtr + 1;
        while typePtr > 0
          invariant typePtr <= ptr + 1 && terminal == NOTHING
          invariant forall i :: 0 <= i < outputType.Length ==>
            outputType[i] == if typePtr <= i <= ptr then NOTHING else before[i]
        {
          typePtr := typePtr - 1;
          outputType[typePtr] := NOTHING;
        }
        assert outputType[..] == Emptied(before, ptr);
    }

    /** FOREGROUND_ONE to FOREGROUND_OFF; whether what is to stay on must be switched on again. */
    method ChangeForeground(shade: Shade) returns (again: bool)
      requires Valid() && terminal == Contents().Top()
      modifies this`terminal, outputType
      ensures Valid() && Contents() == After(old(Contents()), Foreground(shade))
      ensures if again then terminal == NOTHING else terminal == Contents().Top()
    {
      var now := outputType[typePtr];
      again := false;
      if now.fore != shade {
        outputType[typePtr] := now.(fore := shade);
        if shade != 0 {
          SetForegroundColour(shade - 1);
        } else {
          SetNormal();
          again := true;
        }
      } else {
        assert now.(fore := shade) == now;
      }
    }

    method ChangeBackground(shade: Shade) returns (again: bool)
      requires Valid() && terminal == Contents().Top()
      modifies this`terminal, outputType
      ensures Valid() && Contents() == After(old(Contents()), Background(shade))
      ensures if again then terminal == NOTHING else terminal == Contents().Top()
    {
      var now := outputType[typePtr];
      again := false;
      if now.back != shade {
        outputType[typePtr] := now.(back := shade);
        if shade != 0 {
          SetBackgroundColour(shade - 1);
        } else {
          SetNormal();
          again := true;
        }
      } else {
        assert now.(back := shade) == now;
      }
    }

    /** BOLD_ON and the others. */
    method WandOn(wand: Wand)
      requires Valid() && terminal == Contents().Top()
      modifies this`terminal, outputType
      ensures Valid() && Contents() == After(old(Contents()), On(wand)) && terminal == Contents().Top()
    {
      var now := outputType[typePtr];
      if !HasWand(now, wand) {
        outputType[typePtr] := WithWand(now, wand, true);
        SetWand(wand);
      }
    }

    method WandOff(wand: Wand) returns (again: bool)
      requires Valid() && terminal == Contents().Top()
      modifies this`terminal, outputType
      ensures Valid() && Contents() == After(old(Contents()), Off(wand))
      ensures if again then terminal == NOTHING else terminal == Contents().Top()
    {
      var now := outputType[typePtr];
      again := HasWand(now, wand);
      if again {
        SetNormal();
        outputType[typePtr] := WithWand(now, wand, false);
      }
    }

    method AllOff()
      requires Valid() && terminal == Contents().Top()
      modifies this`terminal, outputType
      ensures Valid() && Contents() == After(old(Contents()), EverythingOff) && terminal == NOTHING
    {
      if outputType[typePtr] != NOTHING {
        outputType[typePtr] := NOTHING;
        SetNormal();
      }
    }

    /** `colour_write`: whatever was on before, the terminal shows the output type, changed as the
        bits of the change say. */
    method ColourWrite(c: Change)
      requires Valid() && terminal == Contents().Top()
      modifies this`typePtr, this`terminal, outputType
      ensures Valid() && Contents() == After(old(Contents()), c)
      ensures terminal == Contents().Top() && Shows(old(Contents()), c, terminal)
    {
      ghost var s := Contents();
      Switch(c);
      AfterShows(s, c, terminal);
    }

    /** The switch of `colour_write`, and what it leaves to be switched on. */
    method Switch(c: Change)
      requires Valid() && terminal == Contents().Top()
      modifies this`typePtr, this`terminal, outputType
      ensures Valid() && Contents() == After(old(Contents()), c)
      ensures terminal == Contents().Top()
    {
      var again := true;
      match c {
        case Save => MovePointer(c);
        case Restore => MovePointer(c);
        case Clear => MovePointer(c);
        case Foreground(shade) => again := ChangeForeground(shade);
        case Background(shade) => again := ChangeBackground(shade);
        case On(wand) =>
          WandOn(wand);
          again := false;
        case Off(wand) => again := WandOff(wand);
        case EverythingOff => AllOff();
        case Reset => SetNormal();
      }
      if again {
        SwitchOn();
      }
    }

    /** `colour_load` */
    method ColourLoad(colour: nat)
      requires Valid() && terminal == Contents().Top()
      modifies this`terminal, outputType
      ensures Valid() && Contents() == Loaded(old(Contents()), output, colour)
      ensures terminal == Contents().Top()
      ensures terminal == if colour < 23 && colour !in {5, 6, 8} then output[colour] else old(terminal)
    {
      if !IsColour(colour) {
        return;
      }
      var tmp := outputType[typePtr];
      outputType[typePtr] := output[colour];
      if tmp != outputType[typePtr] {
        SetNormal();
        SwitchOn();
      }
    }

    /** Any output at all: the terminal shows the output type after every step of it. */
    method WriteOut(items: seq<Item>)
      requires Valid() && terminal == Contents().Top()
      modifies this`typePtr, this`terminal, outputType
      ensures Valid() && Contents() == Run(old(Contents()), output, items)
      ensures terminal == Contents().Top()
      ensures Nested(items) && old(typePtr) + Depth(items) < PLAYER_S_OUTPUT_TYPE_SZ ==>
        Word(terminal) == WordRun(Word(old(terminal)), output, items)
      decreases items
    {
      if Nested(items) && typePtr + Depth(items) < PLAYER_S_OUTPUT_TYPE_SZ {
        RunWord(Contents(), output, items);
      }
      if items == [] {
        return;
      }
      match items[0] {
        case Write(c) => ColourWrite(c);
        case Load(colour) => ColourLoad(colour);
        case Nest(inner) =>
          ColourWrite(Save);
          WriteOut(inner);
          ColourWrite(Restore);
      }
      WriteOut(items[1..]);
    }
  }

  // ---------------------------------------------------------------- saved and restored

  /** Output as it is nested: changes, colours of the player's own, and parts of it in between a
      save and a restore. */
  datatype Item = Write(change: Change) | Load(colour: nat) | Nest(items: seq<Item>)

  predicate Plain(c: Change) {
    !c.Save? && !c.Restore? && !c.Clear?
  }

  /** No part clears everything, or saves and restores on its own account. */
  predicate Nested(items: seq<Item>) {
    items == [] ||
    ((match items[0]
      case Write(c) => Plain(c)
      case Load(_) => true
      case Nest(inner) => Nested(inner))
     && Nested(items[1..]))
  }

  function Max(m: nat, n: nat): nat {
    if m < n then n else m
  }

  function Depth(items: seq<Item>): nat {
    if items == [] then 0
    else Max(if items[0].Nest? then 1 + Depth(items[0].items) else 0, Depth(items[1..]))
  }

  /** Writing out a part. */
  function Run(s: Stack, output: seq<Attributes>, items: seq<Item>): (r: Stack)
    requires s.Valid() && |output| == OUTPUT_COLOUR_SZ
    ensures r.Valid()
    decreases items
  {
    if items == [] then s
    else
      var t := match items[0]
        case Write(c) => After(s, c)
        case Load(colour) => Loaded(s, output, colour)
        case Nest(inner) => After(Run(After(s, Save), output, inner), Restore);
      Run(t, output, items[1..])
  }

  /** As far as there is room on the stack, the level is kept and nothing below it is touched. */
  lemma {:induction false} RunKeeps(s: Stack, output: seq<Attributes>, items: seq<Item>)
    requires s.Valid() && |output| == OUTPUT_COLOUR_SZ && Nested(items)
    requires s.ptr + Depth(items) < PLAYER_S_OUTPUT_TYPE_SZ
    ensures Run(s, output, items).ptr == s.ptr
    ensures forall i :: 0 <= i < s.ptr ==> Run(s, output, items).levels[i] == s.levels[i]
    decreases items
  {
    if items != [] {
      match items[0]
      case Write(c) =>
        RunKeeps(After(s, c), output, items[1..]);
      case Load(colour) =>
        RunKeeps(Loaded(s, output, colour), output, items[1..]);
      case Nest(inner) =>
        RunKeeps(After(s, Save), output, inner);
        RunKeeps(After(Run(After(s, Save), output, inner), Restore), output, items[1..]);
    }
  }

  /** The word of the level that is shown, after a part: the last colour of each kind that is written
      or loaded, the wands that are on, and nothing of what is saved and restored. */
  function WordRun(word: int, output: seq<Attributes>, items: seq<Item>): int
    requires |output| == OUTPUT_COLOUR_SZ
    decreases |items|
  {
    if items == [] then word
    else
      var w := match items[0]
        case Write(c) => WordAfter(word, c)
        case Load(colour) => if colour < 23 && colour !in {5, 6, 8} then Word(output[colour]) else word
        case Nest(_) => word;
      WordRun(w, output, items[1..])
  }

  lemma {:induction false} RunWord(s: Stack, output: seq<Attributes>, items: seq<Item>)
    requires s.Valid() && |output| == OUTPUT_COLOUR_SZ && Nested(items)
    requires s.ptr + Depth(items) < PLAYER_S_OUTPUT_TYPE_SZ
    ensures Word(Run(s, output, items).Top()) == WordRun(Word(s.Top()), output, items)
    decreases |items|
  {
    if items != [] {
      match items[0]
      case Write(c) =>
        ChangedWord(s.Top(), c);
        RunWord(After(s, c), output, items[1..]);
      case Load(colour) =>
        RunWord(Loaded(s, output, colour), output, items[1..]);
      case Nest(inner) =>
        RunKeeps(After(s, Save), output, inner);
        RunWord(After(Run(After(s, Save), output, inner), Restore), output, items[1..]);
    }
  }

  function Min(m: int, n: int): int {
    if m < n then m else n
  }

  /** Where the pointer ends in any case: saves beyond the last level are lost, their restores not. */
  lemma {:induction false} RunPointer(s: Stack, output: seq<Attributes>, items: seq<Item>)
    requires s.Valid() && |output| == OUTPUT_COLOUR_SZ && Nested(items)
    ensures Run(s, output, items).ptr ==
      Min(s.ptr, if Depth(items) < PLAYER_S_OUTPUT_TYPE_SZ then PLAYER_S_OUTPUT_TYPE_SZ - 1 - Depth(items) else 0)
    decreases items
  {
    if items != [] {
      match items[0]
      case Write(c) =>
        RunPointer(After(s, c), output, items[1..]);
      case Load(colour) =>
        RunPointer(Loaded(s, output, colour), output, items[1..]);
      case Nest(inner) =>
        RunPointer(After(s, Save), output, inner);
        RunPointer(After(Run(After(s, Save), output, inner), Restore), output, items[1..]);
    }
  }

  /** The same pointer, and the same attributes on its level and below. */
  predicate Restored(s: Stack, r: Stack)
    requires s.Valid() && r.Valid()
  {
    r.ptr == s.ptr && forall i :: 0 <= i <= s.ptr ==> r.levels[i] == s.levels[i]
  }

  /** A save and its restore bring everything back exactly if there is room for what is between,
      or if there is nothing to bring back. */
  lemma SaveRestores(s: Stack, output: seq<Attributes>, inner: seq<Item>, r: Stack)
    requires s.Valid() && |output| == OUTPUT_COLOUR_SZ && Nested(inner)
    requires r == After(Run(After(s, Save), output, inner), Restore)
    ensures Restored(s, r) <==>
      s.ptr + 1 + Depth(inner) < PLAYER_S_OUTPUT_TYPE_SZ || (s.ptr == 0 && s.Top() == NOTHING)
  {
    RunPointer(After(s, Save), output, inner);
    if s.ptr + 1 + Depth(inner) < PLAYER_S_OUTPUT_TYPE_SZ {
      RunKeeps(After(s, Save), output, inner);
    }
  }

  /** On the last level a save has nowhere to go, and its restore leaves the level. */
  lemma SaveAtTheTop(s: Stack, output: seq<Attributes>)
    requires s.Valid() && |output| == OUTPUT_COLOUR_SZ && s.ptr == PLAYER_S_OUTPUT_TYPE_SZ - 1 && s.Top() != NOTHING
    ensures !Restored(s, Run(s, output, [Nest([])]))
  {
    var r := After(Run(After(s, Save), output, []), Restore);
    assert [Nest([])][1..] == [];
    assert Run(s, output, [Nest([])]) == r;
    SaveRestores(s, output, [], r);
  }
}
