/** What holds of whole commands and whole games of draughts. */
module DraughtsTheorems {
  import opened Options
  import opened DraughtsBoard
  import opened DraughtsRules

  // ---------------------------------------------------------------- one command

  predicate TargetsOnBoard(targets: seq<Option<int>>) {
    forall i :: 0 <= i < |targets| ==> targets[i] == None || OnBoard(targets[i].value)
  }

  /** The piece invariant on both sides, and the accounts between two positions of a game:
      the turn passes exactly when something was committed, the enemy loses what was taken. */
  lemma CommandKeeps(g: Game, from: int, targets: seq<Option<int>>)
    requires Valid(View(g, g.whiteToMove)) && TargetsOnBoard(targets)
    ensures var t := Play(g, from, targets);
      && Valid(View(t.game, true)) && Valid(View(t.game, false))
      && t.game.whiteToMove == (if t.commits > 0 then !g.whiteToMove else g.whiteToMove)
      && (t.commits == 0 ==> t.game == g)
      && |View(t.game, g.whiteToMove).enemy| + t.takenThen == |View(g, g.whiteToMove).enemy|
  {
    if from in View(g, g.whiteToMove).own {
      RunKeepsSound(Start(g, from), g, targets);
    }
  }

  /** The guards of `make_final_state`: the hop is accepted, and it is the last parameter, the
      fourth hop or a crowning; and no capture is left to be made with it. */
  ghost predicate MadeFinal(t: Turn, white: bool, target: Option<int>, more: bool) {
    && target.Some? && Accepts(t.board, white, t.from, target.value, t.hops, t.taken)
    && var taking, goesOn := IsJump(t.from, target.value), t.hops < 4 && !Crowns(white, target.value);
      && !(more && goesOn)
      && !((t.taken > 0 || taking) && goesOn
           && CanTakeFrom(AfterHop(t.board, white, t.from, target.value), white, target.value))
  }

  /** One of the hops is made final. */
  ghost predicate SomeFinal(t: Turn, white: bool, targets: seq<Option<int>>)
    decreases |targets|
  {
    targets != [] && !t.stopped &&
    (MadeFinal(t, white, targets[0], |targets| > 1)
     || SomeFinal(Next(t, white, targets[0], |targets| > 1), white, targets[1..]))
  }

  /** Behind the first hop that is made final the loop goes on, from the square that hop came
      from, and makes another one final. */
  ghost predicate FinalBehind(t: Turn, white: bool, targets: seq<Option<int>>)
    decreases |targets|
  {
    targets != [] && !t.stopped &&
    var next := Next(t, white, targets[0], |targets| > 1);
    if MadeFinal(t, white, targets[0], |targets| > 1) then SomeFinal(next, white, targets[1..])
    else FinalBehind(next, white, targets[1..])
  }

  lemma NextCommits(t: Turn, white: bool, target: Option<int>, more: bool)
    ensures Next(t, white, target, more).commits == t.commits + if MadeFinal(t, white, target, more) then 1 else 0
  {
  }

  lemma {:induction false} SomeFinalIff(t: Turn, white: bool, targets: seq<Option<int>>)
    ensures Run(t, white, targets).commits >= t.commits
    ensures Run(t, white, targets).commits > t.commits <==> SomeFinal(t, white, targets)
    decreases |targets|
  {
    if targets != [] && !t.stopped {
      NextCommits(t, white, targets[0], |targets| > 1);
      SomeFinalIff(Next(t, white, targets[0], |targets| > 1), white, targets[1..]);
    }
  }

  lemma {:induction false} FinalBehindIff(t: Turn, white: bool, targets: seq<Option<int>>)
    ensures Run(t, white, targets).commits >= t.commits + 2 <==> FinalBehind(t, white, targets)
    decreases |targets|
  {
    if targets != [] && !t.stopped {
      var next := Next(t, white, targets[0], |targets| > 1);
      NextCommits(t, white, targets[0], |targets| > 1);
      SomeFinalIff(next, white, targets[1..]);
      FinalBehindIff(next, white, targets[1..]);
    }
  }

  /** A command leaves the mover as many pieces as before, unless another hop is made final
      behind the first; then he has more. */
  lemma MoverKeepsPiecesIff(g: Game, from: int, targets: seq<Option<int>>)
    requires Valid(View(g, g.whiteToMove)) && TargetsOnBoard(targets) && from in View(g, g.whiteToMove).own
    ensures |View(Play(g, from, targets).game, g.whiteToMove).own| == |View(g, g.whiteToMove).own|
      <==> !FinalBehind(Start(g, from), g.whiteToMove, targets)
    ensures |View(Play(g, from, targets).game, g.whiteToMove).own| >= |View(g, g.whiteToMove).own|
  {
    RunKeepsSound(Start(g, from), g, targets);
    FinalBehindIff(Start(g, from), g.whiteToMove, targets);
  }

  /** Black's only man steps from c7 to d8 and is crowned; the extra parameter b8 then
      makes a second piece. */
  lemma ExtraParameterMakesAPiece()
    ensures var g := Game({1}, {30}, {}, {}, 0, 0, false);
      var t := Play(g, 30, [Some(34), Some(35)]);
      Valid(View(g, false)) && t.commits == 2 && t.game.black == {34, 35}
  {
    var g := Game({1}, {30}, {}, {}, 0, 0, false);
    var t0 := Start(g, 30);
    var targets := [Some(34), Some(35)];
    assert targets[1..] == [Some(35)] && targets[1..][1..] == [];
    assert !CanTake(t0.board, false);
    var t1 := Next(t0, false, Some(34), true);
    assert t1.board == Position({34}, {1}, {34}, {});
    assert !CanTake(t1.board, false);
    var t2 := Next(t1, false, Some(35), false);
    assert t2.board.own == {34, 35};
    assert Run(t1, false, [Some(35)]) == Run(t2, false, []);
  }

  /** In particular, a command whose first final hop is its last parameter is harmless. */
  ghost predicate EndsWithCommit(t: Turn, white: bool, targets: seq<Option<int>>)
    decreases |targets|
  {
    targets == [] || t.stopped ||
    if MadeFinal(t, white, targets[0], |targets| > 1) then |targets| == 1
    else EndsWithCommit(Next(t, white, targets[0], |targets| > 1), white, targets[1..])
  }

  lemma {:induction false} EndsWithCommitOnce(t: Turn, white: bool, targets: seq<Option<int>>)
    requires EndsWithCommit(t, white, targets)
    ensures !FinalBehind(t, white, targets)
    decreases |targets|
  {
    if targets != [] && !t.stopped && !MadeFinal(t, white, targets[0], |targets| > 1) {
      EndsWithCommitOnce(Next(t, white, targets[0], |targets| > 1), white, targets[1..]);
    }
  }

  /** A test on the command as it is typed: at most four targets, of which none but the last lies
      on the row where the mover's pieces are crowned. */
  predicate Harmless(white: bool, targets: seq<Option<int>>) {
    |targets| <= 4 && forall i :: 0 <= i < |targets| - 1 && targets[i].Some? ==> !Crowns(white, targets[i].value)
  }

  lemma {:induction false} HarmlessEnds(t: Turn, white: bool, targets: seq<Option<int>>)
    requires t.hops + |targets| <= 5
    requires forall i :: 0 <= i < |targets| - 1 && targets[i].Some? ==> !Crowns(white, targets[i].value)
    ensures EndsWithCommit(t, white, targets)
    decreases |targets|
  {
    if targets != [] && !t.stopped && !MadeFinal(t, white, targets[0], |targets| > 1) {
      var next := Next(t, white, targets[0], |targets| > 1);
      if |targets| > 1 && !next.stopped {
        HarmlessEnds(next, white, targets[1..]);
      }
    }
  }

  lemma HarmlessKeepsPieces(g: Game, from: int, targets: seq<Option<int>>)
    requires Harmless(g.whiteToMove, targets)
    ensures !FinalBehind(Start(g, from), g.whiteToMove, targets)
  {
    HarmlessEnds(Start(g, from), g.whiteToMove, targets);
    EndsWithCommitOnce(Start(g, from), g.whiteToMove, targets);
  }

  // ---------------------------------------------------------------- whole games

  datatype Command = Command(from: int, targets: seq<Option<int>>)

  /** `setup_start_pieces`: white on bits 31..20, black on bits 0..11; black moves first is
      up to the caller. */
  function StartGame(whiteToMove: bool): Game {
    Game(set p | 1 <= p <= 35 && OnBoard(p) && p >= 23, set p | 1 <= p <= 35 && OnBoard(p) && p <= 13,
         {}, {}, 0, 0, whiteToMove)
  }

  ghost function PlayAll(g: Game, commands: seq<Command>): Game
    decreases |commands|
  {
    if commands == [] then g else PlayAll(Play(g, commands[0].from, commands[0].targets).game, commands[1..])
  }

  /** How many commands of a game were carried out. */
  ghost function CarriedOut(g: Game, commands: seq<Command>): nat
    decreases |commands|
  {
    if commands == [] then 0
    else
      var t := Play(g, commands[0].from, commands[0].targets);
      (if t.commits > 0 then 1 else 0) + CarriedOut(t.game, commands[1..])
  }

  ghost function TakenInAll(g: Game, commands: seq<Command>): nat
    decreases |commands|
  {
    if commands == [] then 0
    else
      var t := Play(g, commands[0].from, commands[0].targets);
      t.takenThen + TakenInAll(t.game, commands[1..])
  }

  ghost predicate Typed(commands: seq<Command>) {
    forall i :: 0 <= i < |commands| ==> TargetsOnBoard(commands[i].targets)
  }

  /** No command makes a second hop final. */
  ghost predicate Clean(g: Game, commands: seq<Command>)
    decreases |commands|
  {
    commands == [] ||
    var c := commands[0];
    && !(c.from in View(g, g.whiteToMove).own && FinalBehind(Start(g, c.from), g.whiteToMove, c.targets))
    && Clean(Play(g, c.from, c.targets).game, commands[1..])
  }

  /** Along every sequence of commands: white and black stay apart, kings are pieces of their
      side, and the turn alternates with the commands carried out. */
  lemma {:induction false} GameKeeps(g: Game, commands: seq<Command>)
    requires Valid(View(g, g.whiteToMove)) && Typed(commands)
    ensures Valid(View(PlayAll(g, commands), true)) && Valid(View(PlayAll(g, commands), false))
    ensures PlayAll(g, commands).whiteToMove == (g.whiteToMove == (CarriedOut(g, commands) % 2 == 0))
    decreases |commands|
  {
    if commands != [] {
      CommandKeeps(g, commands[0].from, commands[0].targets);
      GameKeeps(Play(g, commands[0].from, commands[0].targets).game, commands[1..]);
    }
  }

  /** Pieces on the board and pieces taken: conserved over a game exactly if it is clean;
      otherwise there are more of them in the end. */
  lemma {:induction false} PiecesConserved(g: Game, commands: seq<Command>)
    requires Valid(View(g, g.whiteToMove)) && Typed(commands)
    ensures var h := PlayAll(g, commands);
      && |h.white| + |h.black| + TakenInAll(g, commands) >= |g.white| + |g.black|
      && (|h.white| + |h.black| + TakenInAll(g, commands) == |g.white| + |g.black| <==> Clean(g, commands))
    decreases |commands|
  {
    if commands != [] {
      var c := commands[0];
      CommandKeeps(g, c.from, c.targets);
      if c.from in View(g, g.whiteToMove).own {
        MoverKeepsPiecesIff(g, c.from, c.targets);
      }
      PiecesConserved(Play(g, c.from, c.targets).game, commands[1..]);
    }
  }

  function Span(low: int, high: int): (r: set<int>)
    requires low <= high
    ensures |r| == high - low && forall p :: p in r <==> low <= p < high
    decreases high - low
  {
    if low == high then {} else Span(low, high - 1) + {high - 1}
  }

  lemma CountSide(side: set<int>, low: int, high: int, low': int, high': int)
    requires low <= high <= low' <= high'
    requires forall p :: p in side <==> low <= p < high || low' <= p < high'
    ensures |side| == high - low + high' - low'
  {
    assert side == Span(low, high) + Span(low', high');
    assert Span(low, high) !! Span(low', high');
  }

  /** Twelve pieces a side, on the board and apart. */
  lemma StartIsValid(whiteToMove: bool)
    ensures Valid(View(StartGame(whiteToMove), whiteToMove))
    ensures |StartGame(whiteToMove).white| == 12 && |StartGame(whiteToMove).black| == 12
  {
    CountSide(StartGame(whiteToMove).black, 1, 9, 10, 14);
    CountSide(StartGame(whiteToMove).white, 23, 27, 28, 36);
  }

  /** From the start position on, the pieces left and the pieces taken are twenty-four exactly
      in a clean game. */
  lemma GamesFromTheStart(whiteToMove: bool, commands: seq<Command>)
    requires Typed(commands)
    ensures var h := PlayAll(StartGame(whiteToMove), commands);
      && Valid(View(h, true)) && Valid(View(h, false))
      && (|h.white| + |h.black| + TakenInAll(StartGame(whiteToMove), commands) == 24 <==>
            Clean(StartGame(whiteToMove), commands))
  {
    StartIsValid(whiteToMove);
    GameKeeps(StartGame(whiteToMove), commands);
    PiecesConserved(StartGame(whiteToMove), commands);
  }

  // ---------------------------------------------------------------- trapped means stuck

  /** A capture can always be carried through: a chain of at most four jumps that ends in a
      crowning, in the fourth hop, or where nothing more can be taken. */
  lemma {:induction false} Chain(t: Turn, white: bool) returns (targets: seq<Option<int>>)
    requires Valid(t.board) && t.from in t.board.own && 1 <= t.hops <= 4 && !t.stopped
    requires CanTakeFrom(t.board, white, t.from)
    ensures 1 <= |targets| <= 5 - t.hops
    ensures Proper(t.from, targets)
    ensures Run(t, white, targets).commits == t.commits + 1
    decreases 5 - t.hops
  {
    var d :| Direction(white, t.from in t.board.kings, d) && JumpOpen(t.board, t.from, d);
    var to := t.from + 2 * d;
    assert Accepts(t.board, white, t.from, to, t.hops, t.taken);
    HopKeepsValid(t.board, white, t.from, to, t.hops, t.taken);
    var b := AfterHop(t.board, white, t.from, to);
    if t.hops < 4 && !Crowns(white, to) && CanTakeFrom(b, white, to) {
      var next := Next(t, white, Some(to), true);
      var rest := Chain(next, white);
      targets := [Some(to)] + rest;
      assert targets[1..] == rest;
    } else {
      targets := [Some(to)];
      assert targets[1..] == [];
    }
  }

  /** Targets on the board, each different from the square before it. */
  predicate Proper(from: int, targets: seq<Option<int>>)
    decreases |targets|
  {
    targets == [] || (targets[0].Some? && OnBoard(targets[0].value) && targets[0].value != from
                      && Proper(targets[0].value, targets[1..]))
  }

  lemma StuckOrNot(g: Game) returns (from: int, targets: seq<Option<int>>)
    requires Valid(View(g, g.whiteToMove)) && !Trapped(View(g, g.whiteToMove), g.whiteToMove)
    ensures OnBoard(from) && Proper(from, targets) && 1 <= |targets| <= 4
    ensures Play(g, from, targets).commits == 1
  {
    var white, b := g.whiteToMove, View(g, g.whiteToMove);
    if CanTake(b, white) {
      from :| from in b.own && CanTakeFrom(b, white, from);
      targets := Chain(Start(g, from), white);
    } else {
      from :| from in b.own && CanStepFrom(b, white, from);
      var d :| Direction(white, from in b.kings, d) && StepOpen(b, from, d);
      targets := [Some(from + d)];
      assert Accepts(b, white, from, from + d, 1, 0) && !IsJump(from, from + d);
      var next := Next(Start(g, from), white, Some(from + d), false);
      assert next.commits == 1 && targets[1..] == [];
      assert Run(next, white, []) == next;
    }
  }

  lemma FirstHopIsOpen(b: Position, white: bool, from: int, to: int)
    requires from in b.own && OnBoard(to) && Accepts(b, white, from, to, 1, 0)
    ensures CanStepFrom(b, white, from) || CanTakeFrom(b, white, from)
  {
    if IsJump(from, to) {
      var d := Midpoint(from, to) - from;
      assert Direction(white, from in b.kings, d) && JumpOpen(b, from, d);
    } else {
      assert Direction(white, from in b.kings, to - from) && StepOpen(b, from, to - from);
    }
  }

  /** `trapped_pieces` reports a player trapped exactly when no command of his, however
      typed, is carried out. */
  lemma TrappedIff(g: Game)
    requires Valid(View(g, g.whiteToMove))
    ensures Trapped(View(g, g.whiteToMove), g.whiteToMove) <==>
      forall from, targets: seq<Option<int>> :: TargetsOnBoard(targets) ==> Play(g, from, targets).commits == 0
  {
    var white, b := g.whiteToMove, View(g, g.whiteToMove);
    if Trapped(b, white) {
      forall from, targets: seq<Option<int>> | TargetsOnBoard(targets)
        ensures Play(g, from, targets).commits == 0
      {
        var t := Start(g, from);
        if from in b.own && targets != [] && targets[0].Some? && Accepts(b, white, from, targets[0].value, 1, 0) {
          FirstHopIsOpen(b, white, from, targets[0].value);
        }
        if from in b.own && targets != [] {
          var next := Next(t, white, targets[0], |targets| > 1);
          assert next == t.(stopped := true);
          assert Run(next, white, targets[1..]) == next;
        }
      }
    } else {
      var from, targets := StuckOrNot(g);
      ProperOnBoard(from, targets);
    }
  }

  lemma {:induction false} ProperOnBoard(from: int, targets: seq<Option<int>>)
    requires Proper(from, targets)
    ensures TargetsOnBoard(targets)
    decreases |targets|
  {
    if targets != [] {
      ProperOnBoard(targets[0].value, targets[1..]);
      assert targets == [targets[0]] + targets[1..];
    }
  }
}
