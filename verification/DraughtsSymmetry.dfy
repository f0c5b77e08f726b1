/** Turning the board by half a turn and swapping the colours changes nothing. */
module DraughtsSymmetry {
  import opened Options
  import opened DraughtsBoard
  import opened DraughtsRules

  function TurnSet(s: set<int>): (r: set<int>)
    ensures forall p :: p in r <==> 36 - p in s
  {
    set p | p in s :: 36 - p
  }

  function TurnBoard(b: Position): Position {
    Position(TurnSet(b.own), TurnSet(b.enemy), TurnSet(b.kings), TurnSet(b.enemyKings))
  }

  function TurnGame(g: Game): Game {
    Game(TurnSet(g.black), TurnSet(g.white), TurnSet(g.blackKings), TurnSet(g.whiteKings),
         g.blackMoves, g.whiteMoves, !g.whiteToMove)
  }

  function TurnTarget(target: Option<int>): Option<int> {
    if target == None then None else Some(36 - target.value)
  }

  function TurnTargets(targets: seq<Option<int>>): (r: seq<Option<int>>)
    ensures |r| == |targets|
  {
    if targets == [] then [] else [TurnTarget(targets[0])] + TurnTargets(targets[1..])
  }

  ghost function TurnTurn(t: Turn): Turn {
    t.(game := TurnGame(t.game), board := TurnBoard(t.board), from := 36 - t.from)
  }

  lemma TurnedStep(b: Position, white: bool, p: int, d: int)
    ensures OnBoard(36 - p) <==> OnBoard(p)
    ensures Direction(!white, 36 - p in TurnBoard(b).kings, -d) <==> Direction(white, p in b.kings, d)
    ensures StepOpen(TurnBoard(b), 36 - p, -d) <==> StepOpen(b, p, d)
    ensures JumpOpen(TurnBoard(b), 36 - p, -d) <==> JumpOpen(b, p, d)
  {
  }

  lemma TurnedFrom(b: Position, white: bool, p: int)
    ensures CanTakeFrom(TurnBoard(b), !white, 36 - p) <==> CanTakeFrom(b, white, p)
    ensures CanStepFrom(TurnBoard(b), !white, 36 - p) <==> CanStepFrom(b, white, p)
  {
    forall d
      ensures Direction(!white, 36 - p in TurnBoard(b).kings, -d) <==> Direction(white, p in b.kings, d)
      ensures StepOpen(TurnBoard(b), 36 - p, -d) <==> StepOpen(b, p, d)
      ensures JumpOpen(TurnBoard(b), 36 - p, -d) <==> JumpOpen(b, p, d)
    {
      TurnedStep(b, white, p, d);
    }
    if CanTakeFrom(TurnBoard(b), !white, 36 - p) {
      var e :| Direction(!white, 36 - p in TurnBoard(b).kings, e) && JumpOpen(TurnBoard(b), 36 - p, e);
      TurnedStep(b, white, p, -e);
    }
    if CanStepFrom(TurnBoard(b), !white, 36 - p) {
      var e :| Direction(!white, 36 - p in TurnBoard(b).kings, e) && StepOpen(TurnBoard(b), 36 - p, e);
      TurnedStep(b, white, p, -e);
    }
  }

  /** Forced capture and being trapped do not depend on the side of the board. */
  lemma TurnedRules(b: Position, white: bool)
    ensures CanTake(TurnBoard(b), !white) <==> CanTake(b, white)
    ensures Trapped(TurnBoard(b), !white) <==> Trapped(b, white)
  {
    forall p
      ensures CanTakeFrom(TurnBoard(b), !white, 36 - p) <==> CanTakeFrom(b, white, p)
      ensures CanStepFrom(TurnBoard(b), !white, 36 - p) <==> CanStepFrom(b, white, p)
    {
      TurnedFrom(b, white, p);
    }
    if CanTake(TurnBoard(b), !white) {
      var q :| q in TurnBoard(b).own && CanTakeFrom(TurnBoard(b), !white, q);
      TurnedFrom(b, white, 36 - q);
    }
    if CanTake(b, white) {
      var p :| p in b.own && CanTakeFrom(b, white, p);
      assert 36 - p in TurnBoard(b).own;
    }
    if !Trapped(TurnBoard(b), !white) {
      var q :| q in TurnBoard(b).own && (CanStepFrom(TurnBoard(b), !white, q) || CanTakeFrom(TurnBoard(b), !white, q));
      TurnedFrom(b, white, 36 - q);
    }
    if !Trapped(b, white) {
      var p :| p in b.own && (CanStepFrom(b, white, p) || CanTakeFrom(b, white, p));
      assert 36 - p in TurnBoard(b).own;
    }
  }

  lemma TurnedAccepts(b: Position, white: bool, from: int, to: int, hops: nat, taken: nat)
    ensures Accepts(TurnBoard(b), !white, 36 - from, 36 - to, hops, taken) <==> Accepts(b, white, from, to, hops, taken)
  {
    TurnedRules(b, white);
    TurnedFrom(b, white, to);
    if IsJump(from, to) {
      assert Midpoint(36 - from, 36 - to) == 36 - Midpoint(from, to);
    }
  }

  lemma TurnedHop(b: Position, white: bool, from: int, to: int)
    requires OnBoard(to)
    ensures AfterHop(TurnBoard(b), !white, 36 - from, 36 - to) == TurnBoard(AfterHop(b, white, from, to))
  {
    var x, y := AfterHop(TurnBoard(b), !white, 36 - from, 36 - to), TurnBoard(AfterHop(b, white, from, to));
    if IsJump(from, to) {
      assert Midpoint(36 - from, 36 - to) == 36 - Midpoint(from, to);
    }
    assert Crowns(!white, 36 - to) <==> Crowns(white, to);
    assert x.own == y.own;
    assert x.enemy == y.enemy;
    assert x.kings == y.kings;
    assert x.enemyKings == y.enemyKings;
  }

  lemma TurnedSettle(t: Turn, white: bool, to: int, b: Position, taken: nat, more: bool)
    requires OnBoard(to)
    ensures Settle(TurnTurn(t), !white, 36 - to, TurnBoard(b), taken, more) ==
      TurnTurn(Settle(t, white, to, b, taken, more))
  {
    TurnedFrom(b, white, to);
    assert TurnGame(Commit(t.game, white, b, t.hops)) == Commit(TurnGame(t.game), !white, TurnBoard(b), t.hops);
  }

  lemma AcceptedNext(t: Turn, white: bool, to: int, more: bool, b: Position)
    requires Accepts(t.board, white, t.from, to, t.hops, t.taken) && b == AfterHop(t.board, white, t.from, to)
    ensures Next(t, white, Some(to), more) ==
      Settle(t, white, to, b, if IsJump(t.from, to) then t.taken + 1 else t.taken, more)
  {
  }

  lemma TurnedNext(t: Turn, white: bool, target: Option<int>, more: bool)
    requires target.Some? ==> OnBoard(target.value)
    ensures Next(TurnTurn(t), !white, TurnTarget(target), more) == TurnTurn(Next(t, white, target, more))
  {
    if target.Some? && Accepts(t.board, white, t.from, target.value, t.hops, t.taken) {
      TurnedAccepted(t, white, target.value, more);
    } else {
      TurnedRefused(t, white, target, more);
    }
  }

  lemma TurnedRefused(t: Turn, white: bool, target: Option<int>, more: bool)
    requires target.Some? ==> OnBoard(target.value)
    requires target.Some? ==> !Accepts(t.board, white, t.from, target.value, t.hops, t.taken)
    ensures Next(TurnTurn(t), !white, TurnTarget(target), more) == TurnTurn(Next(t, white, target, more))
  {
    assert Next(t, white, target, more) == t.(stopped := true);
    if target.Some? {
      TurnedAccepts(t.board, white, t.from, target.value, t.hops, t.taken);
    }
  }

  lemma TurnedAccepted(t: Turn, white: bool, to: int, more: bool)
    requires OnBoard(to) && Accepts(t.board, white, t.from, to, t.hops, t.taken)
    ensures Next(TurnTurn(t), !white, Some(36 - to), more) == TurnTurn(Next(t, white, Some(to), more))
  {
    var b := AfterHop(t.board, white, t.from, to);
    TurnedAccepts(t.board, white, t.from, to, t.hops, t.taken);
    TurnedHop(t.board, white, t.from, to);
    AcceptedNext(t, white, to, more, b);
    AcceptedNext(TurnTurn(t), !white, 36 - to, more, TurnBoard(b));
    TurnedSettle(t, white, to, b, if IsJump(t.from, to) then t.taken + 1 else t.taken, more);
  }

  /** Whole commands commute with turning the board. */
  lemma {:induction false} TurnedRun(t: Turn, white: bool, targets: seq<Option<int>>)
    requires forall i :: 0 <= i < |targets| ==> targets[i] == None || OnBoard(targets[i].value)
    ensures Run(TurnTurn(t), !white, TurnTargets(targets)) == TurnTurn(Run(t, white, targets))
    decreases |targets|
  {
    if targets != [] && !t.stopped {
      TurnedNext(t, white, targets[0], |targets| > 1);
      TurnedRun(Next(t, white, targets[0], |targets| > 1), white, targets[1..]);
    }
  }

  lemma TurnedPlay(g: Game, from: int, targets: seq<Option<int>>)
    requires forall i :: 0 <= i < |targets| ==> targets[i] == None || OnBoard(targets[i].value)
    ensures Play(TurnGame(g), 36 - from, TurnTargets(targets)) == TurnTurn(Play(g, from, targets))
  {
    assert View(TurnGame(g), !g.whiteToMove) == TurnBoard(View(g, g.whiteToMove));
    assert Start(TurnGame(g), 36 - from) == TurnTurn(Start(g, from));
    TurnedRun(Start(g, from), g.whiteToMove, targets);
  }
}
