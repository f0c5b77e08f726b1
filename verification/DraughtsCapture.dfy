/** What the move command carries out, told by open steps and open captures alone: capturing is
    forced, with any piece at first and then with the piece that moves.
 */
module DraughtsCapture {
  import opened Options
  import opened DraughtsBoard
  import opened DraughtsRules
  import opened DraughtsTheorems
  import opened DraughtsKings

  // ---------------------------------------------------------------- one hop

  ghost predicate Steps(b: Position, white: bool, from: int, to: int) {
    exists d :: Direction(white, from in b.kings, d) && StepOpen(b, from, d) && to == from + d
  }

  ghost predicate Jumps(b: Position, white: bool, from: int, to: int) {
    exists d :: Direction(white, from in b.kings, d) && JumpOpen(b, from, d) && to == from + 2 * d
  }

  /** A step is for the first hop only, and only while there is nothing to take: with any piece
      if none has been taken yet, otherwise from where the step leads. */
  ghost predicate MayStep(b: Position, white: bool, from: int, to: int, hops: nat, taken: nat) {
    && Steps(b, white, from, to) && hops <= 1
    && (taken == 0 ==> !CanTake(b, white))
    && (taken > 0 ==> !CanTakeFrom(b, white, to))
  }

  lemma StepsIff(b: Position, white: bool, from: int, to: int)
    requires OnBoard(from) && OnBoard(to)
    ensures Steps(b, white, from, to) <==> IsStep(from, to) && Reaches(b, white, from, to) && Empty(b, to)
  {
    if IsStep(from, to) && Reaches(b, white, from, to) && Empty(b, to) {
      assert Direction(white, from in b.kings, to - from) && StepOpen(b, from, to - from);
    }
  }

  lemma JumpsIff(b: Position, white: bool, from: int, to: int)
    requires OnBoard(from) && OnBoard(to)
    ensures Jumps(b, white, from, to) <==>
      && IsJump(from, to) && Reaches(b, white, from, to) && Empty(b, to)
      && OnBoard(Midpoint(from, to)) && Midpoint(from, to) in b.enemy
  {
    if IsJump(from, to) && Reaches(b, white, from, to) && Empty(b, to) && OnBoard(Midpoint(from, to))
       && Midpoint(from, to) in b.enemy {
      var d := Midpoint(from, to) - from;
      assert Direction(white, from in b.kings, d) && JumpOpen(b, from, d);
    }
  }

  /** The tests of a round let through exactly the open captures, and the steps that may be made. */
  lemma AcceptsIff(b: Position, white: bool, from: int, to: int, hops: nat, taken: nat)
    requires OnBoard(from) && OnBoard(to)
    ensures Accepts(b, white, from, to, hops, taken) <==>
      Jumps(b, white, from, to) || MayStep(b, white, from, to, hops, taken)
    ensures Jumps(b, white, from, to) ==> IsJump(from, to)
    ensures Steps(b, white, from, to) ==> !IsJump(from, to)
  {
    StepsIff(b, white, from, to);
    JumpsIff(b, white, from, to);
  }

  // ---------------------------------------------------------------- a whole command

  /** The move ends with its fourth hop, with a crowning, or where nothing more is typed. */
  predicate Ends(white: bool, to: int, hops: nat, last: bool) {
    last || hops >= 4 || Crowns(white, to)
  }

  /** The rules: a step while nothing can be taken, or a capture; then captures only, as long as
      squares are typed; and a piece that has taken another does not stop where it can take one
      more, unless it was crowned or has made four hops. */
  ghost predicate Legal(b: Position, white: bool, from: int, targets: seq<Option<int>>, hops: nat, taken: nat)
    decreases |targets|
  {
    && targets != [] && targets[0].Some?
    && var to := targets[0].value;
      && (Jumps(b, white, from, to) || MayStep(b, white, from, to, hops, taken))
      && var after, takenNow := AfterHop(b, white, from, to), if Jumps(b, white, from, to) then taken + 1 else taken;
        if Ends(white, to, hops, |targets| == 1) then
          hops >= 4 || Crowns(white, to) || takenNow == 0 || !CanTakeFrom(after, white, to)
        else Legal(after, white, to, targets[1..], hops + 1, takenNow)
  }

  /** How many of the squares typed are gone to before the move ends. */
  function Hops(white: bool, targets: seq<Option<int>>, hops: nat): nat
    decreases |targets|
  {
    if targets == [] || targets[0] == None then 0
    else if Ends(white, targets[0].value, hops, |targets| == 1) then 1
    else 1 + Hops(white, targets[1..], hops + 1)
  }

  /** The squares in the middle of the jumps that are typed, until the move ends. */
  function JumpedOver(white: bool, from: int, targets: seq<Option<int>>, hops: nat): set<int>
    decreases |targets|
  {
    if targets == [] || targets[0] == None then {}
    else
      var to := targets[0].value;
      (if IsJump(from, to) then {(from + to) / 2} else {})
      + (if Ends(white, to, hops, |targets| == 1) then {} else JumpedOver(white, to, targets[1..], hops + 1))
  }

  function MovesOf(g: Game, white: bool): int {
    if white then g.whiteMoves else g.blackMoves
  }

  /** The round of a piece that has not come to rest, by the rules. */
  lemma NextLegal(t: Turn, white: bool, target: Option<int>, last: bool, next: Turn)
    requires Valid(t.board) && OnBoard(t.from) && target.Some? && OnBoard(target.value) && !t.stopped
    requires next == Next(t, white, target, !last)
    requires Jumps(t.board, white, t.from, target.value)
             || MayStep(t.board, white, t.from, target.value, t.hops, t.taken)
    ensures var to := target.value;
      var after := AfterHop(t.board, white, t.from, to);
      var taken := if Jumps(t.board, white, t.from, to) then t.taken + 1 else t.taken;
      && Valid(after) && to in after.own
      && after.enemy == t.board.enemy - (if IsJump(t.from, to) then {(t.from + to) / 2} else {})
      && if !Ends(white, to, t.hops, last) then
        next == t.(board := after, from := to, hops := t.hops + 1, taken := taken)
      else if t.hops >= 4 || Crowns(white, to) || taken == 0 || !CanTakeFrom(after, white, to) then
        next == t.(board := after, taken := taken, game := Commit(t.game, white, after, t.hops),
                   commits := t.commits + 1, takenThen := taken)
      else next.stopped && next.commits == t.commits && next.game == t.game
  {
    AcceptsIff(t.board, white, t.from, target.value, t.hops, t.taken);
    HopKeepsValid(t.board, white, t.from, target.value, t.hops, t.taken);
  }

  /** The squares typed are carried out exactly if they are a move by the rules. */
  lemma {:induction false} RunLegal(t: Turn, white: bool, targets: seq<Option<int>>)
    requires Valid(t.board) && OnBoard(t.from) && TargetsOnBoard(targets) && !t.stopped
    requires t.commits == 0 && t.hops >= 1
    ensures Run(t, white, targets).commits > 0 <==> Legal(t.board, white, t.from, targets, t.hops, t.taken)
    decreases |targets|
  {
    if targets != [] {
      var next := Next(t, white, targets[0], |targets| > 1);
      if targets[0].Some? {
        AcceptsIff(t.board, white, t.from, targets[0].value, t.hops, t.taken);
      }
      if targets[0].Some? && Accepts(t.board, white, t.from, targets[0].value, t.hops, t.taken) {
        NextLegal(t, white, targets[0], |targets| == 1, next);
        if next.commits == 0 && !next.stopped {
          RunLegal(next, white, targets[1..]);
        } else {
          SomeFinalIff(next, white, targets[1..]);
        }
      }
    }
  }

  /** While nothing is made final behind it, the first final hop counts the hops and passes the turn. */
  lemma {:induction false} RunCounts(t: Turn, white: bool, targets: seq<Option<int>>)
    requires Valid(t.board) && OnBoard(t.from) && TargetsOnBoard(targets) && !t.stopped
    requires t.commits == 0 && t.hops >= 1
    requires Legal(t.board, white, t.from, targets, t.hops, t.taken) && !FinalBehind(t, white, targets)
    ensures var h := Run(t, white, targets).game;
      && MovesOf(h, white) == MovesOf(t.game, white) + t.hops - 1 + Hops(white, targets, t.hops)
      && MovesOf(h, !white) == MovesOf(t.game, !white) && h.whiteToMove == !white
    decreases |targets|
  {
    var next := Next(t, white, targets[0], |targets| > 1);
    NextLegal(t, white, targets[0], |targets| == 1, next);
    NextCommits(t, white, targets[0], |targets| > 1);
    if next.commits == 0 {
      RunCounts(next, white, targets[1..]);
    } else {
      NoFinalNoChange(next, white, targets[1..]);
    }
  }

  lemma MinusBoth(a: set<int>, x: set<int>, y: set<int>)
    ensures a - x - y == a - (x + y)
  {
  }

  /** The enemy loses the pieces in the middle of the jumps. */
  lemma {:induction false} RunTakes(t: Turn, white: bool, targets: seq<Option<int>>)
    requires Valid(t.board) && OnBoard(t.from) && TargetsOnBoard(targets) && !t.stopped
    requires t.commits == 0 && t.hops >= 1
    requires Legal(t.board, white, t.from, targets, t.hops, t.taken) && !FinalBehind(t, white, targets)
    ensures View(Run(t, white, targets).game, white).enemy ==
      t.board.enemy - JumpedOver(white, t.from, targets, t.hops)
    decreases |targets|
  {
    var next := Next(t, white, targets[0], |targets| > 1);
    NextLegal(t, white, targets[0], |targets| == 1, next);
    NextCommits(t, white, targets[0], |targets| > 1);
    if next.commits == 0 {
      RunTakes(next, white, targets[1..]);
      var to := targets[0].value;
      MinusBoth(t.board.enemy, if IsJump(t.from, to) then {(t.from + to) / 2} else {},
                JumpedOver(white, to, targets[1..], t.hops + 1));
    } else {
      NoFinalNoChange(next, white, targets[1..]);
      assert View(next.game, white) == next.board;
    }
  }

  /** If the first final hop is the last, the local boards are the game's. */
  lemma {:induction false} RunShows(t: Turn, white: bool, targets: seq<Option<int>>)
    requires EndsWithCommit(t, white, targets) && t.commits == 0 && Run(t, white, targets).commits > 0
    ensures var r := Run(t, white, targets);
      r.board == View(r.game, white) && r.game.whiteToMove == !white
    decreases |targets|
  {
    var next := Next(t, white, targets[0], |targets| > 1);
    NextCommits(t, white, targets[0], |targets| > 1);
    if MadeFinal(t, white, targets[0], |targets| > 1) {
      assert Run(next, white, targets[1..]) == next;
    } else {
      RunShows(next, white, targets[1..]);
    }
  }

  /** A command changes the game exactly if it is a move by the rules; then the hops made are
      added to the mover's moves, and the enemy loses the pieces jumped over. */
  lemma LegalCommand(g: Game, from: int, targets: seq<Option<int>>)
    requires Valid(View(g, g.whiteToMove)) && TargetsOnBoard(targets) && from in View(g, g.whiteToMove).own
    ensures var white, h := g.whiteToMove, Play(g, from, targets).game;
      var legal := Legal(View(g, white), white, from, targets, 1, 0);
      && (Play(g, from, targets).commits > 0 <==> legal)
      && (h != g <==> legal)
      && (legal && !FinalBehind(Start(g, from), white, targets) ==>
            && MovesOf(h, white) == MovesOf(g, white) + Hops(white, targets, 1)
            && MovesOf(h, !white) == MovesOf(g, !white)
            && View(h, white).enemy == View(g, white).enemy - JumpedOver(white, from, targets, 1))
  {
    CommandKeeps(g, from, targets);
    RunLegal(Start(g, from), g.whiteToMove, targets);
    if Legal(View(g, g.whiteToMove), g.whiteToMove, from, targets, 1, 0)
       && !FinalBehind(Start(g, from), g.whiteToMove, targets) {
      RunCounts(Start(g, from), g.whiteToMove, targets);
      RunTakes(Start(g, from), g.whiteToMove, targets);
    }
  }

  /** While anything can be taken, a command that does not begin with a jump changes nothing. */
  lemma ForcedCapture(g: Game, from: int, targets: seq<Option<int>>)
    requires Valid(View(g, g.whiteToMove)) && TargetsOnBoard(targets) && CanTake(View(g, g.whiteToMove), g.whiteToMove)
    requires targets == [] || targets[0] == None || !IsJump(from, targets[0].value)
    ensures Play(g, from, targets).commits == 0 && Play(g, from, targets).game == g
  {
    if from in View(g, g.whiteToMove).own {
      LegalCommand(g, from, targets);
      if targets != [] && targets[0].Some? {
        AcceptsIff(View(g, g.whiteToMove), g.whiteToMove, from, targets[0].value, 1, 0);
      }
    }
  }

  /** While nothing can be taken, every open step goes through. */
  lemma OpenStep(g: Game, from: int, to: int)
    requires Valid(View(g, g.whiteToMove)) && !CanTake(View(g, g.whiteToMove), g.whiteToMove)
    requires from in View(g, g.whiteToMove).own && Steps(View(g, g.whiteToMove), g.whiteToMove, from, to)
    ensures var h := View(Play(g, from, [Some(to)]).game, g.whiteToMove);
      to in h.own && from !in h.own && |h.own| == |View(g, g.whiteToMove).own|
  {
    var white, b := g.whiteToMove, View(g, g.whiteToMove);
    AcceptsIff(b, white, from, to, 1, 0);
    assert !Jumps(b, white, from, to);
    assert Legal(b, white, from, [Some(to)], 1, 0);
    var t := Start(g, from);
    var next := Next(t, white, Some(to), false);
    NextLegal(t, white, Some(to), true, next);
    HopCounts(b, white, from, to, 1, 0);
    assert [Some(to)][1..] == [] && Run(next, white, []) == next;
    assert View(next.game, white) == next.board;
  }

  /** Behind a capture that crowned, the loop goes on from the square it came from: there a step
      is refused if something can be taken from where it leads, and otherwise made. */
  lemma StepBehindCapture(t: Turn, white: bool, to: int, more: bool)
    requires OnBoard(t.from) && OnBoard(to) && !t.stopped && t.hops == 1 && t.taken > 0
    requires Steps(t.board, white, t.from, to)
    ensures CanTakeFrom(t.board, white, to) ==> Next(t, white, Some(to), more) == t.(stopped := true)
    ensures !CanTakeFrom(t.board, white, to) ==> to in Next(t, white, Some(to), more).board.own
  {
    AcceptsIff(t.board, white, t.from, to, t.hops, t.taken);
  }

  // ---------------------------------------------------------------- the crowning row

  /** A piece is crowned exactly on the row where every direction ahead leads off the board. */
  lemma CrownsAtTheEnd(white: bool, to: int)
    requires OnBoard(to)
    ensures Crowns(white, to) <==> RowOf(to) == if white then 8 else 1
    ensures Crowns(white, to) <==> !OnBoard(to + Ahead(white, 4)) && !OnBoard(to + Ahead(white, 5))
  {
  }
}
