/** The move command itself: bitboards in the fields of a game, and the loops over them. */
module DraughtsGame {
  import opened Options
  import opened DraughtsBoard
  import opened DraughtsRules
  import opened DraughtsTheorems
  import opened DraughtsCapture

  // ---------------------------------------------------------------- the text of a command

  function Lower(c: char): char {
    if 'A' <= c <= 'Z' then c - 'A' + 'a' else c
  }

  /** `strcasecmp(s, t) == 0` */
  predicate SameText(s: string, t: string) {
    |s| == |t| && forall i :: 0 <= i < |s| ==> Lower(s[i]) == Lower(t[i])
  }

  /** `check_position_describer` of a parameter that is not empty: a column letter, which has to
      be a small one where characters are ASCII, and a row digit; rows count from the top. */
  function Describes(pos: string): Option<(int, int)> {
    if |pos| == 2 && 'a' <= pos[0] <= 'h' && '1' <= pos[1] <= '8' then
      Some((pos[0] as int - 'a' as int + 1, 9 - (pos[1] as int - '0' as int)))
    else None
  }

  /** The dark square a parameter names. */
  function SquareNamed(pos: string): (square: Option<int>)
    ensures square.Some? ==> OnBoard(square.value)
  {
    match Describes(pos)
    case None => None
    case Some((col, row)) =>
      PositionOfSquare(col, row);
      if BoardPosition(col, row) == 0 then None else Some(BoardPosition(col, row))
  }

  /** The square a parameter names to go to, given the parameter before it. */
  function TargetNamed(before: string, pos: string): Option<int> {
    if SameText(before, pos) then None else SquareNamed(pos)
  }

  function TargetsNamed(params: seq<string>): (targets: seq<Option<int>>)
    requires params != []
    ensures |targets| == |params| - 1
    ensures TargetsOnBoard(targets)
  {
    seq(|params| - 1, i requires 0 <= i < |params| - 1 => TargetNamed(params[i], params[i + 1]))
  }

  ghost function PlayCommand(g: Game, params: seq<string>): Turn
    requires params != []
  {
    var from := SquareNamed(params[0]);
    if from == None then Start(g, 0).(stopped := true) else Play(g, from.value, TargetsNamed(params))
  }

  /** An assertion fails in one of the rounds for the parameters behind the first: it comes to an
      empty one, or to a hop that fails. The server stops there; for the account of the game the
      command ends, as if the parameter had been refused. */
  ghost predicate RoundsFail(t: Turn, white: bool, params: seq<string>)
    decreases |params|
  {
    |params| > 1 && !t.stopped &&
    var target := TargetNamed(params[0], params[1]);
    || params[1] == ""
    || (target.Some? && Fails(t.board, white, t.from, target.value))
    || RoundsFail(Next(t, white, target, |params| > 2), white, params[1..])
  }

  /** An assertion fails while the command is carried out. */
  ghost predicate CommandFails(g: Game, params: seq<string>)
    requires params != []
  {
    var from := SquareNamed(params[0]);
    || params[0] == ""
    || (from.Some? && from.value in View(g, g.whiteToMove).own
        && RoundsFail(Start(g, from.value), g.whiteToMove, params))
  }

  /** `check_position_describer` and the number of the square; not ok when the assertion on the
      empty parameter fails. */
  method NameSquare(pos: string) returns (ok: bool, square: Option<int>)
    ensures ok <==> pos != ""
    ensures square == SquareNamed(pos)
  {
    ok, square := pos != "", SquareNamed(pos);
  }

  function NameOf(position: int): (name: string)
    requires OnBoard(position)
    ensures SquareNamed(name) == Some(position)
  {
    SquareOfPosition(position);
    [(96 + ColOf(position)) as char, (57 - RowOf(position)) as char]
  }

  function NamesOf(from: int, targets: seq<Option<int>>): (names: seq<string>)
    requires OnBoard(from) && Proper(from, targets)
    ensures |names| == |targets| + 1 && SquareNamed(names[0]) == Some(from)
    decreases |targets|
  {
    [NameOf(from)] + if targets == [] then [] else NamesOf(targets[0].value, targets[1..])
  }

  /** Two texts that name different squares are different texts. */
  lemma OtherSquare(s: string, t: string)
    requires SquareNamed(s).Some? && SquareNamed(t).Some? && SquareNamed(s) != SquareNamed(t)
    ensures TargetNamed(s, t) == SquareNamed(t)
  {
  }

  lemma {:induction false} NamesName(from: int, targets: seq<Option<int>>, i: nat)
    requires OnBoard(from) && Proper(from, targets) && i < |targets|
    ensures var names := NamesOf(from, targets); TargetNamed(names[i], names[i + 1]) == targets[i]
    decreases |targets|
  {
    var rest := NamesOf(targets[0].value, targets[1..]);
    assert NamesOf(from, targets) == [NameOf(from)] + rest;
    if i == 0 {
      OtherSquare(NameOf(from), rest[0]);
    } else {
      NamesName(targets[0].value, targets[1..], i - 1);
    }
  }

  lemma NamesNameAll(from: int, targets: seq<Option<int>>)
    requires OnBoard(from) && Proper(from, targets)
    ensures TargetsNamed(NamesOf(from, targets)) == targets
  {
    forall i | 0 <= i < |targets|
      ensures TargetsNamed(NamesOf(from, targets))[i] == targets[i]
    {
      NamesName(from, targets, i);
    }
  }

  /** The player to move is reported trapped exactly when no text he could type as a move is
      carried out. */
  lemma TrappedMeansNoCommand(g: Game)
    requires Valid(View(g, g.whiteToMove))
    ensures Trapped(View(g, g.whiteToMove), g.whiteToMove) <==>
      forall params: seq<string> :: params != [] ==> PlayCommand(g, params).commits == 0
  {
    TrappedIff(g);
    if Trapped(View(g, g.whiteToMove), g.whiteToMove) {
      forall params: seq<string> | params != []
        ensures PlayCommand(g, params).commits == 0
      {
        assert TargetsOnBoard(TargetsNamed(params));
      }
    } else {
      var from, targets := StuckOrNot(g);
      NamesNameAll(from, targets);
      assert PlayCommand(g, NamesOf(from, targets)).commits == 1;
    }
  }

  /** What is typed is a move by the rules. */
  ghost predicate LegalText(g: Game, params: seq<string>)
    requires params != []
  {
    var from, white := SquareNamed(params[0]), g.whiteToMove;
    && from.Some? && from.value in View(g, white).own
    && Legal(View(g, white), white, from.value, TargetsNamed(params), 1, 0)
  }

  /** A text changes the game exactly if it is a move by the rules. */
  lemma CommandIsLegal(g: Game, params: seq<string>)
    requires Valid(View(g, g.whiteToMove)) && params != []
    ensures PlayCommand(g, params).game != g <==> LegalText(g, params)
    ensures PlayCommand(g, params).commits > 0 <==> LegalText(g, params)
  {
    var from := SquareNamed(params[0]);
    if from.Some? && from.value in View(g, g.whiteToMove).own {
      LegalCommand(g, from.value, TargetsNamed(params));
    }
  }

  /** While anything can be taken, a text that does not begin with a jump changes nothing. */
  lemma ForcedCaptureTyped(g: Game, params: seq<string>)
    requires Valid(View(g, g.whiteToMove)) && CanTake(View(g, g.whiteToMove), g.whiteToMove) && |params| > 1
    requires SquareNamed(params[0]).Some? && SquareNamed(params[1]).Some?
    requires !IsJump(SquareNamed(params[0]).value, SquareNamed(params[1]).value)
    ensures PlayCommand(g, params).game == g && !LegalText(g, params)
  {
    ForcedCapture(g, SquareNamed(params[0]).value, TargetsNamed(params));
    CommandIsLegal(g, params);
  }

  /** What is reported of a move that nothing is typed behind: the game goes on exactly if the
      other player can type a move, and he has no pieces exactly if that is reported. */
  lemma VerdictTells(g: Game, params: seq<string>)
    requires Valid(View(g, g.whiteToMove)) && params != [] && Harmless(g.whiteToMove, TargetsNamed(params))
    requires LegalText(g, params)
    ensures var t := PlayCommand(g, params);
      && (Verdict(t, g.whiteToMove) == Moved <==>
            exists answer: seq<string> :: answer != [] && LegalText(t.game, answer))
      && (Verdict(t, g.whiteToMove) == EnemyHasNoPieces <==> View(t.game, !g.whiteToMove).own == {})
      && (Verdict(t, g.whiteToMove) == NotMoved <==> t.game == g)
  {
    var white, t, from := g.whiteToMove, PlayCommand(g, params), SquareNamed(params[0]).value;
    CommandIsLegal(g, params);
    CommandKeeps(g, from, TargetsNamed(params));
    HarmlessEnds(Start(g, from), white, TargetsNamed(params));
    RunShows(Start(g, from), white, TargetsNamed(params));
    TrappedMeansNoCommand(t.game);
    forall answer: seq<string> | answer != []
      ensures PlayCommand(t.game, answer).commits > 0 <==> LegalText(t.game, answer)
    {
      CommandIsLegal(t.game, answer);
    }
    var b := View(t.game, !white);
    assert b == Position(t.board.enemy, t.board.own, t.board.enemyKings, t.board.kings);
    assert b.own == {} ==> Trapped(b, !white);
  }

  // ---------------------------------------------------------------- assertions that fail

  /** The first parameter that names where to go decides, if it leads to an assertion. */
  lemma FailsAtOnce(g: Game, params: seq<string>, from: int, to: int)
    requires |params| == 2 && SquareNamed(params[0]) == Some(from) && TargetNamed(params[0], params[1]) == Some(to)
    requires from in View(g, g.whiteToMove).own && Fails(View(g, g.whiteToMove), g.whiteToMove, from, to)
    ensures CommandFails(g, params)
  {
  }

  /** An empty parameter in front, or behind the square of a piece. */
  lemma EmptyParameterFails(g: Game, from: int)
    requires OnBoard(from) && from in View(g, g.whiteToMove).own
    ensures CommandFails(g, [""]) && CommandFails(g, [NameOf(from), ""])
  {
    assert [NameOf(from), ""][1] == "";
  }

  /** In the first move of a game black may type "a1 h4", over the hole 9, and white "h8 a5",
      over the hole 27. */
  lemma FirstMovesFail()
    ensures CommandFails(StartGame(false), ["a1", "h4"]) && CommandFails(StartGame(true), ["h8", "a5"])
  {
    assert Midpoint(4, 14) == 9 && Midpoint(32, 22) == 27;
    FailsAtOnce(StartGame(false), ["a1", "h4"], 4, 14);
    FailsAtOnce(StartGame(true), ["h8", "a5"], 32, 22);
  }

  /** Behind a crowning the square that the piece came from may be typed: a hop to itself. */
  lemma ComingBackFails()
    ensures CommandFails(Game({1}, {30}, {}, {}, 0, 0, false), ["c7", "d8", "c7"])
  {
    var g, params := Game({1}, {30}, {}, {}, 0, 0, false), ["c7", "d8", "c7"];
    var t := Start(g, 30);
    assert TargetNamed(params[0], params[1]) == Some(34) && TargetNamed(params[1], params[2]) == Some(30);
    assert !CanTake(t.board, false);
    var next := Next(t, false, Some(34), true);
    assert next.board == Position({34}, {1}, {34}, {}) && next.from == 30;
    assert Fails(next.board, false, 30, 30);
    assert params[1..] == ["d8", "c7"];
    assert RoundsFail(next, false, params[1..]);
  }

  /** A test on the command as it is typed: no empty parameter, at most four squares to go to, none
      but the last on the crowning row, and no two neighbours a jump over a hole. */
  predicate Safe(white: bool, params: seq<string>) {
    && |params| <= 5
    && (forall i :: 0 <= i < |params| ==> params[i] != "")
    && (forall i :: 0 < i < |params| - 1 && SquareNamed(params[i]).Some? ==>
          !Crowns(white, SquareNamed(params[i]).value))
    && (forall i {:trigger params[i]} :: 0 <= i < |params| - 1 ==>
          !OverHole(SquareNamed(params[i]), SquareNamed(params[i + 1])))
  }

  predicate OverHole(from: Option<int>, to: Option<int>) {
    from.Some? && to.Some? && IsJump(from.value, to.value) && !OnBoard(Midpoint(from.value, to.value))
  }

  lemma {:induction false} SafeRounds(t: Turn, g: Game, params: seq<string>)
    requires Sound(t, g) && t.commits == 0 && !t.stopped && params != []
    requires SquareNamed(params[0]) == Some(t.from) && t.hops + |params| <= 6
    requires Safe(g.whiteToMove, params)
    ensures !RoundsFail(t, g.whiteToMove, params)
    decreases |params|
  {
    if |params| > 1 {
      var white, target, rest := g.whiteToMove, TargetNamed(params[0], params[1]), params[1..];
      var next := Next(t, white, target, |params| > 2);
      NextKeepsSound(t, g, target, |params| > 2, next);
      assert !OverHole(SquareNamed(params[0]), SquareNamed(params[1]));
      if |params| > 2 && !next.stopped {
        SafeRest(white, params);
        assert target == Some(next.from) && next.commits == 0;
        SafeRounds(next, g, rest);
      }
    }
  }

  lemma SafeRest(white: bool, params: seq<string>)
    requires Safe(white, params) && |params| > 1
    ensures Safe(white, params[1..])
  {
    var rest := params[1..];
    forall i | 0 <= i < |rest|
      ensures rest[i] != "" && rest[i] == params[i + 1]
      ensures i + 1 < |rest| ==> !OverHole(SquareNamed(rest[i]), SquareNamed(rest[i + 1]))
    {
      assert i + 1 < |rest| ==> rest[i + 1] == params[i + 2];
    }
  }

  /** No assertion fails on a command that passes the test. */
  lemma SafeCommand(g: Game, params: seq<string>)
    requires Valid(View(g, g.whiteToMove)) && params != [] && Safe(g.whiteToMove, params)
    ensures !CommandFails(g, params)
  {
    var from := SquareNamed(params[0]);
    if from.Some? && from.value in View(g, g.whiteToMove).own {
      SafeRounds(Start(g, from.value), g, params);
    }
  }

  // ---------------------------------------------------------------- reading bitboards

  function BoardOf(pieces: Flags, enemyPieces: Flags, kings: Flags, enemyKings: Flags): Position {
    Position(Squares(pieces), Squares(enemyPieces), Squares(kings), Squares(enemyKings))
  }

  /** `piece_at_position`; not ok when its assertion fails, exactly on the holes. */
  method PieceAtPosition(pieces: Flags, position: int) returns (ok: bool, there: bool, bit: Bit)
    requires 1 <= position <= 35
    ensures ok <==> OnBoard(position)
    ensures ok ==> there == (position in Squares(pieces)) && bit == LocationBit(position)
  {
    var b := LocationBit(position);
    if b == position {
      return false, false, 0;
    }
    SquaresHold(pieces, position);
    return true, b in pieces, b;
  }

  /** `valid_distances`, branch by branch; not ok when its assertion fails. */
  method ValidDistances(boardFrom: int, boardTo: int, kings: Flags, bitOfFrom: Bit, white: bool)
    returns (ok: bool, valid: bool, taking: bool, boardTaken: int)
    ensures ok <==> boardFrom != boardTo
    ensures ok ==> (valid <==> (IsStep(boardFrom, boardTo) || IsJump(boardFrom, boardTo))
                               && (bitOfFrom in kings || (boardTo < boardFrom) == white))
    ensures ok && valid ==> taking == IsJump(boardFrom, boardTo)
    ensures ok && valid && taking ==> boardTaken == Midpoint(boardFrom, boardTo)
  {
    ok, valid, taking, boardTaken := boardTo - boardFrom != 0, false, false, 0;
    if !ok {
      return;
    }
    var size := boardTo - boardFrom;
    var forward := true;
    if white {
      if size > 0 && bitOfFrom !in kings {
        return;
      }
    } else {
      if size < 0 && bitOfFrom !in kings {
        return;
      }
    }
    if size < 0 && !white {
      forward := false;
    }
    if size > 0 && white {
      forward := false;
    }
    size := if size < 0 then -size else size;
    if size % 5 != 0 {
      if size % 4 != 0 {
        return;
      }
      if size > 4 {
        if size > 8 {
          return;
        }
        taking := true;
        boardTaken := if forward == white then boardFrom - 4 else boardFrom + 4;
      }
      valid := true;
      return;
    }
    if size > 5 {
      if size > 10 {
        return;
      }
      taking := true;
      boardTaken := if forward == white then boardFrom - 5 else boardFrom + 5;
    }
    valid := true;
  }

  /** The four directions one by one. */
  lemma TakeFromCases(b: Position, white: bool, p: int)
    ensures CanTakeFrom(b, white, p) <==>
      JumpOpen(b, p, Ahead(white, 5)) || JumpOpen(b, p, Ahead(white, 4))
      || (p in b.kings && (JumpOpen(b, p, -Ahead(white, 5)) || JumpOpen(b, p, -Ahead(white, 4))))
  {
    assert Direction(white, p in b.kings, Ahead(white, 5)) && Direction(white, p in b.kings, Ahead(white, 4));
    assert p in b.kings ==> Direction(white, true, -Ahead(white, 5)) && Direction(white, true, -Ahead(white, 4));
  }

  lemma StepFromCases(b: Position, white: bool, p: int)
    ensures CanStepFrom(b, white, p) <==>
      StepOpen(b, p, Ahead(white, 5)) || StepOpen(b, p, Ahead(white, 4))
      || (p in b.kings && (StepOpen(b, p, -Ahead(white, 5)) || StepOpen(b, p, -Ahead(white, 4))))
  {
    assert Direction(white, p in b.kings, Ahead(white, 5)) && Direction(white, p in b.kings, Ahead(white, 4));
    assert p in b.kings ==> Direction(white, true, -Ahead(white, 5)) && Direction(white, true, -Ahead(white, 4));
  }

  /** The single move of `trapped_pieces`: a free square d away. */
  method FreeAt(pieces: Flags, enemyPieces: Flags, position: int, d: int) returns (free: bool)
    ensures free == (OnBoard(position + d) && position + d !in Squares(pieces) && position + d !in Squares(enemyPieces))
  {
    free := false;
    if OnBoard(position + d) {
      var ok, mine, _ := PieceAtPosition(pieces, position + d);
      var ok', theirs, _ := PieceAtPosition(enemyPieces, position + d);
      free := !mine && !theirs;
    }
  }

  /** The capture test of `can_i_take_from`: the square to jump to comes first. */
  method JumpFrom(pieces: Flags, enemyPieces: Flags, position: int, d: int) returns (take: bool)
    ensures take == JumpOpen(BoardOf(pieces, enemyPieces, {}, {}), position, d)
  {
    var temp := position + d;
    take := false;
    var free := FreeAt(pieces, enemyPieces, temp, d);
    if free && OnBoard(temp) {
      var ok, enemy, _ := PieceAtPosition(enemyPieces, temp);
      take := enemy;
    }
  }

  /** The capture test of `can_i_take`: both squares, then the enemy, then what is behind it. */
  method JumpAnywhere(pieces: Flags, enemyPieces: Flags, position: int, d: int) returns (take: bool)
    ensures take == JumpOpen(BoardOf(pieces, enemyPieces, {}, {}), position, d)
  {
    take := false;
    if OnBoard(position + d) {
      if OnBoard(position + 2 * d) {
        var ok, enemy, _ := PieceAtPosition(enemyPieces, position + d);
        if enemy {
          var ok', mine, _ := PieceAtPosition(pieces, position + 2 * d);
          var ok'', theirs, _ := PieceAtPosition(enemyPieces, position + 2 * d);
          take := !mine && !theirs;
        }
      }
    }
  }

  /** The capture test of `trapped_pieces`: all three squares in one condition. */
  method JumpLeft(pieces: Flags, enemyPieces: Flags, position: int, d: int) returns (take: bool)
    ensures take == JumpOpen(BoardOf(pieces, enemyPieces, {}, {}), position, d)
  {
    take := false;
    if OnBoard(position + d) && OnBoard(position + d + d) {
      var ok, enemy, _ := PieceAtPosition(enemyPieces, position + d);
      var ok', mine, _ := PieceAtPosition(pieces, position + d + d);
      var ok'', theirs, _ := PieceAtPosition(enemyPieces, position + d + d);
      take := enemy && !mine && !theirs;
    }
  }

  /** `can_i_take_from` */
  method CanITakeFrom(boardFrom: int, bitFrom: Bit, pieces: Flags, enemyPieces: Flags, kings: Flags,
                      ghost enemyKings: Flags, white: bool)
    returns (can: bool)
    requires OnBoard(boardFrom) && bitFrom == LocationBit(boardFrom)
    ensures can == CanTakeFrom(BoardOf(pieces, enemyPieces, kings, enemyKings), white, boardFrom)
  {
    var forwardFive, forwardFour := 5, 4;
    if white {
      forwardFive, forwardFour := -5, -4;
    }
    SquaresHold(kings, boardFrom);
    TakeFromCases(BoardOf(pieces, enemyPieces, kings, enemyKings), white, boardFrom);
    can := JumpFrom(pieces, enemyPieces, boardFrom, forwardFive);
    if !can {
      can := JumpFrom(pieces, enemyPieces, boardFrom, forwardFour);
    }
    if !can && bitFrom in kings {
      can := JumpFrom(pieces, enemyPieces, boardFrom, -forwardFive);
      if !can {
        can := JumpFrom(pieces, enemyPieces, boardFrom, -forwardFour);
      }
    }
  }

  /** What `can_i_take` looks at for each of the pieces. */
  method CanItTake(position: int, bit: Bit, pieces: Flags, enemyPieces: Flags, kings: Flags,
                   ghost enemyKings: Flags, white: bool)
    returns (can: bool)
    requires OnBoard(position) && bit == LocationBit(position)
    ensures can == CanTakeFrom(BoardOf(pieces, enemyPieces, kings, enemyKings), white, position)
  {
    var forwardFive, forwardFour, backwardFive, backwardFour := 5, 4, -5, -4;
    if white {
      forwardFive, forwardFour, backwardFive, backwardFour := -5, -4, 5, 4;
    }
    SquaresHold(kings, position);
    TakeFromCases(BoardOf(pieces, enemyPieces, kings, enemyKings), white, position);
    var five := JumpAnywhere(pieces, enemyPieces, position, forwardFive);
    if five {
      return true;
    }
    var four := JumpAnywhere(pieces, enemyPieces, position, forwardFour);
    if four {
      return true;
    }
    if bit in kings {
      var back := JumpAnywhere(pieces, enemyPieces, position, backwardFive);
      if back {
        return true;
      }
    }
    if bit in kings {
      var back := JumpAnywhere(pieces, enemyPieces, position, backwardFour);
      if back {
        return true;
      }
    }
    return false;
  }

  /** The single moves of one piece, as `trapped_pieces` looks for them. */
  method CanItStep(position: int, bit: Bit, pieces: Flags, enemyPieces: Flags, kings: Flags,
                   ghost enemyKings: Flags, white: bool)
    returns (can: bool)
    requires OnBoard(position) && bit == LocationBit(position)
    ensures can == CanStepFrom(BoardOf(pieces, enemyPieces, kings, enemyKings), white, position)
  {
    var forwardFive, forwardFour := 5, 4;
    if white {
      forwardFive, forwardFour := -5, -4;
    }
    SquaresHold(kings, position);
    StepFromCases(BoardOf(pieces, enemyPieces, kings, enemyKings), white, position);
    can := FreeAt(pieces, enemyPieces, position, forwardFive);
    if !can {
      can := FreeAt(pieces, enemyPieces, position, forwardFour);
    }
    if !can && bit in kings {
      can := FreeAt(pieces, enemyPieces, position, -forwardFive);
      if !can {
        can := FreeAt(pieces, enemyPieces, position, -forwardFour);
      }
    }
  }

  /** Its captures, as `trapped_pieces` looks for them. */
  method CanItJump(position: int, bit: Bit, pieces: Flags, enemyPieces: Flags, kings: Flags,
                   ghost enemyKings: Flags, white: bool)
    returns (can: bool)
    requires OnBoard(position) && bit == LocationBit(position)
    ensures can == CanTakeFrom(BoardOf(pieces, enemyPieces, kings, enemyKings), white, position)
  {
    var forwardFive, forwardFour := 5, 4;
    if white {
      forwardFive, forwardFour := -5, -4;
    }
    SquaresHold(kings, position);
    TakeFromCases(BoardOf(pieces, enemyPieces, kings, enemyKings), white, position);
    can := JumpLeft(pieces, enemyPieces, position, forwardFive);
    if !can {
      can := JumpLeft(pieces, enemyPieces, position, forwardFour);
    }
    if !can && bit in kings {
      can := JumpLeft(pieces, enemyPieces, position, -forwardFive);
      if !can {
        can := JumpLeft(pieces, enemyPieces, position, -forwardFour);
      }
    }
  }

  /** The squares the nested loops over rows and columns have passed. */
  predicate Passed(position: int, row: int, col: int) {
    OnBoard(position) && (RowOf(position) < row || (RowOf(position) == row && ColOf(position) < col))
  }

  lemma PassedOne(row: int, col: int, position: int)
    requires 1 <= row <= 8 && 1 <= col <= 8
    ensures Passed(position, row, col + 1) <==>
      Passed(position, row, col) || (OnBoard(position) && position == BoardPosition(col, row))
  {
    PositionOfSquare(col, row);
    if OnBoard(position) {
      SquareOfPosition(position);
    }
  }

  lemma PassedRow(row: int, position: int)
    requires 1 <= row <= 8
    ensures Passed(position, row + 1, 1) <==> Passed(position, row, 9)
  {
    if OnBoard(position) {
      SquareOfPosition(position);
    }
  }

  /** `can_i_take` */
  method CanITake(pieces: Flags, enemyPieces: Flags, kings: Flags, enemyKings: Flags, white: bool) returns (can: bool)
    ensures can == CanTake(BoardOf(pieces, enemyPieces, kings, enemyKings), white)
  {
    ghost var b := BoardOf(pieces, enemyPieces, kings, enemyKings);
    var row := 1;
    while row < 9
      invariant 1 <= row <= 9
      invariant forall p :: p in b.own && Passed(p, row, 1) ==> !CanTakeFrom(b, white, p)
    {
      var col := 1;
      while col < 9
        invariant 1 <= col <= 9
        invariant forall p :: p in b.own && Passed(p, row, col) ==> !CanTakeFrom(b, white, p)
      {
        PositionOfSquare(col, row);
        var position := BoardPosition(col, row);
        if position != 0 {
          var ok, there, bit := PieceAtPosition(pieces, position);
          if there {
            can := CanItTake(position, bit, pieces, enemyPieces, kings, enemyKings, white);
            if can {
              return;
            }
          }
        }
        forall p {
          PassedOne(row, col, p);
        }
        col := col + 1;
      }
      forall p {
        PassedRow(row, p);
      }
      row := row + 1;
    }
    can := false;
    forall p | p in b.own
      ensures !CanTakeFrom(b, white, p)
    {
      SquaresHold(pieces, p);
      SquareOfPosition(p);
      assert Passed(p, 9, 1);
    }
  }

  /** `trapped_pieces` */
  method TrappedPieces(enemyPieces: Flags, pieces: Flags, kings: Flags, enemyKings: Flags, whiteJustMoved: bool)
    returns (trapped: bool)
    ensures trapped == Trapped(BoardOf(pieces, enemyPieces, kings, enemyKings), !whiteJustMoved)
  {
    var white := !whiteJustMoved;
    ghost var b := BoardOf(pieces, enemyPieces, kings, enemyKings);
    var row := 1;
    while row < 9
      invariant 1 <= row <= 9
      invariant forall p :: p in b.own && Passed(p, row, 1) ==> !CanStepFrom(b, white, p) && !CanTakeFrom(b, white, p)
    {
      var col := 1;
      while col < 9
        invariant 1 <= col <= 9
        invariant forall p :: p in b.own && Passed(p, row, col) ==>
          !CanStepFrom(b, white, p) && !CanTakeFrom(b, white, p)
      {
        PositionOfSquare(col, row);
        var position := BoardPosition(col, row);
        if position != 0 {
          var ok, there, bit := PieceAtPosition(pieces, position);
          if there {
            var step := CanItStep(position, bit, pieces, enemyPieces, kings, enemyKings, white);
            if step {
              return false;
            }
            var take := CanItJump(position, bit, pieces, enemyPieces, kings, enemyKings, white);
            if take {
              return false;
            }
          }
        }
        forall p {
          PassedOne(row, col, p);
        }
        col := col + 1;
      }
      forall p {
        PassedRow(row, p);
      }
      row := row + 1;
    }
    trapped := true;
    forall p | p in b.own
      ensures !CanStepFrom(b, white, p) && !CanTakeFrom(b, white, p)
    {
      SquaresHold(pieces, p);
      SquareOfPosition(p);
      assert Passed(p, 9, 1);
    }
  }

  // ---------------------------------------------------------------- changing bitboards

  /** `setup_new_state`; the shift by `bit_taken` is a hole's only if the caller let a jump over
      a hole through. */
  method SetupNewState(pieces0: Flags, enemyPieces0: Flags, kings0: Flags, enemyKings0: Flags,
                       taking: bool, boardFrom: int, boardTo: int, boardTaken: int, white: bool)
    returns (pieces: Flags, enemyPieces: Flags, kings: Flags, enemyKings: Flags, crowned: bool)
    requires OnBoard(boardFrom) && OnBoard(boardTo) && taking == IsJump(boardFrom, boardTo)
    requires taking ==> boardTaken == Midpoint(boardFrom, boardTo) && OnBoard(boardTaken)
    ensures BoardOf(pieces, enemyPieces, kings, enemyKings) ==
      AfterHop(BoardOf(pieces0, enemyPieces0, kings0, enemyKings0), white, boardFrom, boardTo)
    ensures crowned == Crowns(white, boardTo)
  {
    var bitFrom: Bit, bitTo: Bit := LocationBit(boardFrom), LocationBit(boardTo);
    SquareOfBit(boardFrom);
    SquareOfBit(boardTo);
    pieces := MoveBit(pieces0, boardFrom, boardTo);
    kings := kings0;
    SquaresHold(kings0, boardFrom);
    if bitFrom in kings {
      kings := MoveBit(kings, boardFrom, boardTo);
    }
    enemyPieces, enemyKings := enemyPieces0, enemyKings0;
    if taking {
      var bitTaken: Bit := LocationBit(boardTaken);
      SquareOfBit(boardTaken);
      SquaresOfDifference(enemyPieces, {bitTaken});
      SquaresOfDifference(enemyKings, {bitTaken});
      enemyPieces := enemyPieces - {bitTaken};
      if bitTaken in enemyKings {
        enemyKings := enemyKings - {bitTaken};
      }
    }
    crowned := if white then bitTo == 0 || bitTo == 1 || bitTo == 2 || bitTo == 3
               else bitTo == 31 || bitTo == 30 || bitTo == 29 || bitTo == 28;
    if crowned {
      SquaresOfUnion(kings, {bitTo});
      kings := kings + {bitTo};
    }
  }

  method MoveBit(pieces: Flags, boardFrom: int, boardTo: int) returns (moved: Flags)
    requires OnBoard(boardFrom) && OnBoard(boardTo)
    ensures Squares(moved) == Shift(Squares(pieces), boardFrom, boardTo)
  {
    var bitFrom: Bit, bitTo: Bit := LocationBit(boardFrom), LocationBit(boardTo);
    SquareOfBit(boardFrom);
    SquareOfBit(boardTo);
    SquaresOfDifference(pieces, {bitFrom});
    SquaresOfUnion(pieces - {bitFrom}, {bitTo});
    moved := pieces - {bitFrom} + {bitTo};
  }

  /** The tests of one round of the loop, in the order of the code: what `Accepts` says, and
      not ok when an assertion fails. */
  method HopAllowed(pieces: Flags, enemyPieces: Flags, kings: Flags, enemyKings: Flags, white: bool,
                    boardFrom: int, boardTo: int, numberOfHops: nat, piecesTaken: nat)
    returns (ok: bool, allowed: bool, taking: bool, boardTaken: int)
    requires OnBoard(boardFrom) && OnBoard(boardTo)
    ensures ok <==> !Fails(BoardOf(pieces, enemyPieces, kings, enemyKings), white, boardFrom, boardTo)
    ensures allowed ==
      Accepts(BoardOf(pieces, enemyPieces, kings, enemyKings), white, boardFrom, boardTo, numberOfHops, piecesTaken)
    ensures allowed ==> taking == IsJump(boardFrom, boardTo)
    ensures allowed && taking ==> boardTaken == Midpoint(boardFrom, boardTo) && OnBoard(boardTaken)
  {
    allowed, taking, boardTaken := false, false, 0;
    var occupied, bitTo;
    ok, occupied, bitTo := PieceAtPosition(pieces, boardTo);
    if occupied {
      return;
    }
    ok, occupied, bitTo := PieceAtPosition(enemyPieces, boardTo);
    if occupied {
      return;
    }
    var valid;
    SquaresHold(kings, boardFrom);
    ok, valid, taking, boardTaken := ValidDistances(boardFrom, boardTo, kings, LocationBit(boardFrom), white);
    if !ok || !valid {
      return;
    }
    if taking {
      ok, allowed, bitTo := PieceAtPosition(enemyPieces, boardTaken);
      allowed := ok && allowed;
    } else if numberOfHops > 1 {
    } else if piecesTaken > 0 {
      var can := CanITakeFrom(boardTo, bitTo, pieces, enemyPieces, kings, enemyKings, white);
      allowed := !can;
    } else {
      var can := CanITake(pieces, enemyPieces, kings, enemyKings, white);
      allowed := !can;
    }
  }

  datatype Result = NotYourTurn | AssertionFailed | NotMoved | EnemyHasNoPieces | EnemyTrapped | Moved

  /** How a command is reported: on the boards in the local variables. */
  ghost function Verdict(t: Turn, white: bool): Result {
    if t.commits == 0 then NotMoved
    else if t.board.enemy == {} then EnemyHasNoPieces
    else if Trapped(Position(t.board.enemy, t.board.own, t.board.enemyKings, t.board.kings), !white) then EnemyTrapped
    else Moved
  }

  /** The local variables of `user_move_draughts` that one round hands to the next; `bit_from`
      is always the bit of `board_from`. */
  datatype Locals = Locals(pieces: Flags, enemyPieces: Flags, kings: Flags, enemyKings: Flags,
                           boardFrom: int, numberOfHops: nat, piecesTaken: nat) {
    ghost predicate Stands(t: Turn) {
      && OnBoard(boardFrom) && t.from == boardFrom && t.hops == numberOfHops && t.taken == piecesTaken
      && t.board == BoardOf(pieces, enemyPieces, kings, enemyKings)
    }
  }

  class Draughts {
    var whiteLocations: Flags
    var blackLocations: Flags
    var whiteKings: Flags
    var blackKings: Flags
    var whiteMoves: int
    var blackMoves: int
    var whiteToMove: bool

    ghost function State(): Game
      reads this
    {
      Game(Squares(whiteLocations), Squares(blackLocations), Squares(whiteKings), Squares(blackKings),
           whiteMoves, blackMoves, whiteToMove)
    }

    /** A new game, its pieces placed by `setup_start_pieces`. */
    constructor (whiteToMove: bool)
      ensures State() == StartGame(whiteToMove)
    {
      whiteKings, blackKings := {}, {};
      whiteMoves, blackMoves := 0, 0;
      this.whiteToMove := whiteToMove;
      var white: Flags, black: Flags := {}, {};
      var i := 31;
      while i > 19
        invariant 19 <= i <= 31
        invariant forall b: Bit :: b in white <==> i < b
      {
        white := white + {i};
        i := i - 1;
      }
      i := 0;
      while i < 12
        invariant 0 <= i <= 12
        invariant forall b: Bit :: b in black <==> b < i
      {
        black := black + {i};
        i := i + 1;
      }
      whiteLocations, blackLocations := white, black;
      forall p
        ensures p in Squares(white) <==> p in StartGame(whiteToMove).white
        ensures p in Squares(black) <==> p in StartGame(whiteToMove).black
      {
        SquaresHold(white, p);
        SquaresHold(black, p);
      }
    }

    method MakeFinalState(white: bool, pieces: Flags, enemyPieces: Flags, kings: Flags, enemyKings: Flags,
                          numberOfHops: nat)
      modifies this
      ensures State() ==
        Commit(old(State()), white, BoardOf(pieces, enemyPieces, kings, enemyKings), numberOfHops)
    {
      if white {
        whiteLocations, blackLocations := pieces, enemyPieces;
        whiteKings, blackKings := kings, enemyKings;
        whiteMoves := whiteMoves + numberOfHops;
        whiteToMove := false;
      } else {
        whiteLocations, blackLocations := enemyPieces, pieces;
        whiteKings, blackKings := enemyKings, kings;
        blackMoves := blackMoves + numberOfHops;
        whiteToMove := true;
      }
    }

    /** One round of the loop of `user_move_draughts`, for a parameter that names a square. */
    method Round(l: Locals, white: bool, boardTo: int, last: bool, ghost t: Turn)
      returns (l': Locals, ok: bool, go: bool, final: bool)
      requires OnBoard(boardTo) && l.Stands(t) && !t.stopped && State() == t.game
      modifies this
      ensures var next := Next(t, white, Some(boardTo), !last);
        && l'.Stands(next) && State() == next.game
        && ok == !Fails(t.board, white, t.from, boardTo) && go == !next.stopped && (!ok ==> !go)
        && next.commits == t.commits + if final then 1 else 0
    {
      l', go, final := l, false, false;
      var allowed, taking, boardTaken;
      ok, allowed, taking, boardTaken := HopAllowed(l.pieces, l.enemyPieces, l.kings, l.enemyKings, white,
                                                    l.boardFrom, boardTo, l.numberOfHops, l.piecesTaken);
      if !allowed {
        return;
      }
      var pieces, enemyPieces, kings, enemyKings, crowned :=
        SetupNewState(l.pieces, l.enemyPieces, l.kings, l.enemyKings, taking, l.boardFrom, boardTo, boardTaken, white);
      var piecesTaken := if taking then l.piecesTaken + 1 else l.piecesTaken;
      l' := l.(pieces := pieces, enemyPieces := enemyPieces, kings := kings, enemyKings := enemyKings,
               piecesTaken := piecesTaken);
      ghost var b := AfterHop(t.board, white, t.from, boardTo);
      assert BoardOf(pieces, enemyPieces, kings, enemyKings) == b;
      assert Next(t, white, Some(boardTo), !last) == Settle(t, white, boardTo, b, piecesTaken, !last);
      go := true;
      if !last && l.numberOfHops < 4 && !crowned {
        l' := l'.(boardFrom := boardTo, numberOfHops := l.numberOfHops + 1);
        return;
      }
      if piecesTaken > 0 && l.numberOfHops < 4 && !crowned {
        var can := CanITakeFrom(boardTo, LocationBit(boardTo), pieces, enemyPieces, kings, enemyKings, white);
        if can {
          go := false;
          return;
        }
      }
      final := true;
      MakeFinalState(white, pieces, enemyPieces, kings, enemyKings, l.numberOfHops);
    }

    /** One round of the loop, from the parameter before and the parameter itself. */
    method Parameter(l: Locals, white: bool, before: string, pos: string, last: bool, ghost t: Turn)
      returns (l': Locals, ok: bool, go: bool, final: bool)
      requires l.Stands(t) && !t.stopped && State() == t.game
      modifies this
      ensures var target := TargetNamed(before, pos);
        var next := Next(t, white, target, !last);
        && l'.Stands(next) && State() == next.game
        && (ok <==> pos != "" && (target.Some? ==> !Fails(t.board, white, t.from, target.value)))
        && go == !next.stopped && (!ok ==> !go)
        && next.commits == t.commits + if final then 1 else 0
    {
      var target;
      ok, target := NameSquare(pos);
      if SameText(before, pos) || target == None {
        return l, ok, false, false;
      }
      l', ok, go, final := Round(l, white, target.value, last, t);
    }

    /** The loop of `user_move_draughts`: every round is a step of the reference run. */
    method Rounds(l0: Locals, white: bool, params: seq<string>, ghost t0: Turn)
      returns (l: Locals, ok: bool, successfulMove: bool, ghost t: Turn)
      requires params != [] && l0.Stands(t0) && !t0.stopped && t0.commits == 0 && State() == t0.game
      modifies this
      ensures t == Run(t0, white, TargetsNamed(params)) && l.Stands(t) && State() == t.game
      ensures successfulMove == (t.commits > 0) && (ok <==> !RoundsFail(t0, white, params))
    {
      l, ok, successfulMove, t := l0, true, false, t0;
      ghost var targets := TargetsNamed(params);
      ghost var end := Run(t0, white, targets);
      var count, go := 1, true;
      while count < |params| && go
        invariant 1 <= count <= |params| && go == !t.stopped
        invariant l.Stands(t) && State() == t.game && successfulMove == (t.commits > 0)
        invariant Run(t, white, targets[count - 1..]) == end
        invariant RoundsFail(t0, white, params) <==> !ok || (go && RoundsFail(t, white, params[count - 1..]))
        invariant ok || !go
        decreases |params| - count
      {
        assert targets[count - 1..][1..] == targets[count..] && params[count - 1..][1..] == params[count..];
        count := count + 1;
        var final;
        l, ok, go, final := Parameter(l, white, params[count - 2], params[count - 1], count == |params|, t);
        successfulMove := successfulMove || final;
        t := Next(t, white, targets[count - 2], count < |params|);
      }
      assert t == end;
    }

    /** `user_move_draughts`, from the player's bitboards to the verdict on the enemy's. A
        message that the format was wrong does not end the command, so one parameter is
        read even when there should be two. The game changes exactly if what is typed is a move
        by the rules. */
    method UserMove(white: bool, params: seq<string>) returns (result: Result)
      requires params != []
      modifies this
      ensures white != old(whiteToMove) ==> result == NotYourTurn && State() == old(State())
      ensures white == old(whiteToMove) ==>
        var t := PlayCommand(old(State()), params);
        && State() == t.game
        && result == if CommandFails(old(State()), params) then AssertionFailed else Verdict(t, white)
      ensures white == old(whiteToMove) && Valid(View(old(State()), white)) ==>
        (State() != old(State()) <==> LegalText(old(State()), params))
    {
      if whiteToMove != white {
        return NotYourTurn;
      }
      ghost var g := State();
      if Valid(View(g, white)) {
        CommandIsLegal(g, params);
      }
      var l := if white then Locals(whiteLocations, blackLocations, whiteKings, blackKings, 0, 1, 0)
               else Locals(blackLocations, whiteLocations, blackKings, whiteKings, 0, 1, 0);
      var ok, from := NameSquare(params[0]);
      if !ok {
        return AssertionFailed;
      }
      if from == None {
        return NotMoved;
      }
      var there, bitFrom;
      ok, there, bitFrom := PieceAtPosition(l.pieces, from.value);
      if !there {
        return NotMoved;
      }
      l := l.(boardFrom := from.value);
      var successfulMove;
      ghost var t;
      l, ok, successfulMove, t := Rounds(l, white, params, Start(g, from.value));
      if !ok {
        return AssertionFailed;
      }
      result := Outcome(white, successfulMove, l, t);
    }

    method Outcome(white: bool, successfulMove: bool, l: Locals, ghost t: Turn) returns (result: Result)
      requires l.Stands(t) && successfulMove == (t.commits > 0)
      ensures result == Verdict(t, white)
    {
      if !successfulMove {
        return NotMoved;
      }
      SquaresEmpty(l.enemyPieces);
      if l.enemyPieces == {} {
        return EnemyHasNoPieces;
      }
      var trapped := TrappedPieces(l.pieces, l.enemyPieces, l.enemyKings, l.kings, white);
      return if trapped then EnemyTrapped else Moved;
    }
  }
}
