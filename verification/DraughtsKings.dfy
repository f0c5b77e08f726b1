/** What becomes of each piece, and that kings stay kings, over whole commands and games. */
module DraughtsKings {
  import opened Options
  import opened DraughtsBoard
  import opened DraughtsRules
  import opened DraughtsTheorems

  // ---------------------------------------------------------------- one command

  /** Where the moving piece is when a hop is first made final. */
  ghost function Rest(t: Turn, white: bool, targets: seq<Option<int>>): Option<int>
    decreases |targets|
  {
    if targets == [] || t.stopped then None
    else if MadeFinal(t, white, targets[0], |targets| > 1) then targets[0]
    else Rest(Next(t, white, targets[0], |targets| > 1), white, targets[1..])
  }

  /** The mover's pieces, and his kings, once the piece has gone from one square to the other. */
  function OwnThen(was: Position, from: int, to: int): set<int> {
    was.own - {from} + {to}
  }

  function KingsThen(was: Position, white: bool, from: int, to: int): set<int> {
    was.kings - {from} + if from in was.kings || Crowns(white, to) then {to} else {}
  }

  /** While the piece is moving, the others are where they were. */
  ghost predicate Moving(t: Turn, was: Position, from: int) {
    && t.board.own == OwnThen(was, from, t.from) && t.from !in was.own - {from}
    && t.board.kings == was.kings - {from} + (if from in was.kings then {t.from} else {})
  }

  /** Once it has come to rest they all stay, whatever the loop does from the square behind. */
  ghost predicate Rested(b: Position, was: Position, white: bool, from: int, to: int) {
    OwnThen(was, from, to) <= b.own && KingsThen(was, white, from, to) <= b.kings
  }

  lemma HopMoves(t: Turn, was: Position, white: bool, from: int, to: int)
    requires Valid(was) && from in was.own && Moving(t, was, from) && Empty(t.board, to)
    ensures var b := AfterHop(t.board, white, t.from, to);
      && b.own == OwnThen(was, from, to) && to !in was.own - {from}
      && b.kings == KingsThen(was, white, from, to) && to != t.from
  {
  }

  lemma HopBehind(b: Position, was: Position, white: bool, from: int, rest: int, at: int, to: int)
    requires Rested(b, was, white, from, rest) && b.kings <= b.own
    requires at !in OwnThen(was, from, rest) && Empty(b, to) && Valid(was)
    ensures Rested(AfterHop(b, white, at, to), was, white, from, rest) && to !in OwnThen(was, from, rest)
    ensures AfterHop(b, white, at, to).kings <= AfterHop(b, white, at, to).own
  {
    assert KingsThen(was, white, from, rest) <= OwnThen(was, from, rest);
  }

  lemma NextBehind(t: Turn, was: Position, white: bool, from: int, rest: int, target: Option<int>, more: bool,
                   next: Turn)
    requires Valid(was) && t.from !in OwnThen(was, from, rest) && t.board.kings <= t.board.own
    requires Rested(t.board, was, white, from, rest) && Rested(View(t.game, white), was, white, from, rest)
    requires next == Next(t, white, target, more)
    ensures next.from !in OwnThen(was, from, rest) && next.board.kings <= next.board.own
    ensures Rested(next.board, was, white, from, rest) && Rested(View(next.game, white), was, white, from, rest)
  {
    if target.Some? && Accepts(t.board, white, t.from, target.value, t.hops, t.taken) {
      var b := AfterHop(t.board, white, t.from, target.value);
      HopBehind(t.board, was, white, from, rest, t.from, target.value);
      assert View(Commit(t.game, white, b, t.hops), white) == b;
    } else {
      assert next == t.(stopped := true);
    }
  }

  lemma {:induction false} RunBehind(t: Turn, was: Position, white: bool, from: int, rest: int,
                                     targets: seq<Option<int>>)
    requires Valid(was) && t.from !in OwnThen(was, from, rest) && t.board.kings <= t.board.own
    requires Rested(t.board, was, white, from, rest) && Rested(View(t.game, white), was, white, from, rest)
    ensures Rested(View(Run(t, white, targets).game, white), was, white, from, rest)
    decreases |targets|
  {
    if targets != [] && !t.stopped {
      var next := Next(t, white, targets[0], |targets| > 1);
      NextBehind(t, was, white, from, rest, targets[0], |targets| > 1, next);
      RunBehind(next, was, white, from, rest, targets[1..]);
    }
  }

  /** Without a further final hop the game is left as it is. */
  lemma {:induction false} NoFinalNoChange(t: Turn, white: bool, targets: seq<Option<int>>)
    requires !SomeFinal(t, white, targets)
    ensures Run(t, white, targets).game == t.game
    decreases |targets|
  {
    if targets != [] && !t.stopped {
      NoFinalNoChange(Next(t, white, targets[0], |targets| > 1), white, targets[1..]);
    }
  }

  /** A round of a moving piece: it goes on, comes to rest, or is refused. */
  lemma NextMoves(t: Turn, was: Position, white: bool, from: int, target: Option<int>, more: bool, next: Turn)
    requires Valid(was) && from in was.own && Moving(t, was, from) && next == Next(t, white, target, more)
    ensures MadeFinal(t, white, target, more) ==>
      && var b, h := next.board, View(next.game, white);
      && h == b && next.from == t.from && t.from !in OwnThen(was, from, target.value)
      && b.own == OwnThen(was, from, target.value) && b.kings == KingsThen(was, white, from, target.value)
    ensures !MadeFinal(t, white, target, more) ==> next.game == t.game && (next.stopped || Moving(next, was, from))
  {
    if target.Some? && Accepts(t.board, white, t.from, target.value, t.hops, t.taken) {
      HopMoves(t, was, white, from, target.value);
      var b := AfterHop(t.board, white, t.from, target.value);
      assert View(Commit(t.game, white, b, t.hops), white) == b;
    }
  }

  /** What a command that began in game g has made of the mover's side. */
  ghost predicate Moved(g: Game, white: bool, was: Position, from: int, rest: Option<int>, clean: bool, h: Game) {
    if rest == None then h == g
    else
      && Rested(View(h, white), was, white, from, rest.value)
      && (clean ==> && View(h, white).own == OwnThen(was, from, rest.value)
                    && View(h, white).kings == KingsThen(was, white, from, rest.value))
  }

  lemma BehindFinal(t: Turn, g: Game, was: Position, white: bool, from: int, rest: int, targets: seq<Option<int>>)
    requires Valid(was) && t.from !in OwnThen(was, from, rest) && View(t.game, white) == t.board
    requires t.board.own == OwnThen(was, from, rest) && t.board.kings == KingsThen(was, white, from, rest)
    ensures Moved(g, white, was, from, Some(rest), !SomeFinal(t, white, targets), Run(t, white, targets).game)
  {
    assert t.board.kings <= t.board.own;
    RunBehind(t, was, white, from, rest, targets);
    if !SomeFinal(t, white, targets) {
      NoFinalNoChange(t, white, targets);
    }
  }

  lemma {:induction false} RunMoves(t: Turn, was: Position, white: bool, from: int, targets: seq<Option<int>>)
    requires Valid(was) && from in was.own && Moving(t, was, from)
    ensures Moved(t.game, white, was, from, Rest(t, white, targets), !FinalBehind(t, white, targets),
                  Run(t, white, targets).game)
    decreases |targets|
  {
    if targets != [] && !t.stopped {
      var next := Next(t, white, targets[0], |targets| > 1);
      NextMoves(t, was, white, from, targets[0], |targets| > 1, next);
      if MadeFinal(t, white, targets[0], |targets| > 1) {
        BehindFinal(next, t.game, was, white, from, targets[0].value, targets[1..]);
      } else if !next.stopped {
        RunMoves(next, was, white, from, targets[1..]);
      }
    }
  }

  /** The mover's side after a command. The piece that moves comes to rest on a square of its own,
      a king if it was one or is crowned there, and no other piece or king is touched; if no
      second hop is made final, that is all that has changed. A command with no final hop
      changes nothing. */
  lemma CommandMoves(g: Game, from: int, targets: seq<Option<int>>)
    requires Valid(View(g, g.whiteToMove)) && from in View(g, g.whiteToMove).own
    ensures var white, was, rest := g.whiteToMove, View(g, g.whiteToMove), Rest(Start(g, from), g.whiteToMove, targets);
      && Moved(g, white, was, from, rest, !FinalBehind(Start(g, from), white, targets), Play(g, from, targets).game)
      && (rest.Some? ==> rest.value !in was.own - {from})
  {
    var was := View(g, g.whiteToMove);
    assert Moving(Start(g, from), was, from);
    RunMoves(Start(g, from), was, g.whiteToMove, from, targets);
    RestIsFree(Start(g, from), was, g.whiteToMove, from, targets);
  }

  lemma {:induction false} RestIsFree(t: Turn, was: Position, white: bool, from: int, targets: seq<Option<int>>)
    requires Valid(was) && from in was.own && Moving(t, was, from)
    ensures Rest(t, white, targets).Some? ==> Rest(t, white, targets).value !in was.own - {from}
    decreases |targets|
  {
    if targets != [] && !t.stopped {
      var next := Next(t, white, targets[0], |targets| > 1);
      NextMoves(t, was, white, from, targets[0], |targets| > 1, next);
      if MadeFinal(t, white, targets[0], |targets| > 1) {
        HopMoves(t, was, white, from, targets[0].value);
      } else if !next.stopped {
        RestIsFree(next, was, white, from, targets[1..]);
      }
    }
  }

  // ---------------------------------------------------------------- the enemy

  /** Of the enemy's kings only those taken are gone. */
  ghost predicate EnemyKept(was: Position, b: Position) {
    b.enemy <= was.enemy && b.enemyKings == was.enemyKings * b.enemy
  }

  lemma {:induction false} RunKeepsEnemy(t: Turn, was: Position, white: bool, targets: seq<Option<int>>)
    requires EnemyKept(was, t.board) && EnemyKept(was, View(t.game, white))
    ensures EnemyKept(was, View(Run(t, white, targets).game, white))
    decreases |targets|
  {
    if targets != [] && !t.stopped {
      var next := Next(t, white, targets[0], |targets| > 1);
      NextKeepsEnemy(t, was, white, targets[0], |targets| > 1, next);
      RunKeepsEnemy(next, was, white, targets[1..]);
    }
  }

  lemma NextKeepsEnemy(t: Turn, was: Position, white: bool, target: Option<int>, more: bool, next: Turn)
    requires EnemyKept(was, t.board) && EnemyKept(was, View(t.game, white)) && next == Next(t, white, target, more)
    ensures EnemyKept(was, next.board) && EnemyKept(was, View(next.game, white))
  {
    if target.Some? && Accepts(t.board, white, t.from, target.value, t.hops, t.taken) {
      var b := AfterHop(t.board, white, t.from, target.value);
      assert EnemyKept(was, b);
      assert View(Commit(t.game, white, b, t.hops), white) == b;
    } else {
      assert next == t.(stopped := true);
    }
  }

  lemma CommandKeepsEnemy(g: Game, from: int, targets: seq<Option<int>>)
    requires Valid(View(g, g.whiteToMove))
    ensures EnemyKept(View(g, g.whiteToMove), View(Play(g, from, targets).game, g.whiteToMove))
  {
    var was := View(g, g.whiteToMove);
    assert was.enemyKings * was.enemy == was.enemyKings;
    if from in was.own {
      RunKeepsEnemy(Start(g, from), was, g.whiteToMove, targets);
    }
  }

  // ---------------------------------------------------------------- each piece, over whole games

  /** Where the piece that stands on a square is after a command; None if it has been taken. */
  ghost function Track(g: Game, c: Command, square: int): Option<int> {
    var was, rest := View(g, g.whiteToMove), Rest(Start(g, c.from), g.whiteToMove, c.targets);
    if square in was.own then
      if square == c.from && rest.Some? then rest else Some(square)
    else if square in View(Play(g, c.from, c.targets).game, g.whiteToMove).enemy then Some(square)
    else None
  }

  ghost function TrackAll(g: Game, commands: seq<Command>, square: int): Option<int>
    decreases |commands|
  {
    if commands == [] then Some(square)
    else
      var now := Track(g, commands[0], square);
      if now == None then None
      else TrackAll(Play(g, commands[0].from, commands[0].targets).game, commands[1..], now.value)
  }

  /** A piece that is not taken keeps its colour, and a king its crown. */
  lemma TrackKeeps(g: Game, c: Command, square: int, white: bool)
    requires Valid(View(g, g.whiteToMove))
    requires square in View(g, white).own && Track(g, c, square).Some?
    ensures var h, now := View(Play(g, c.from, c.targets).game, white), Track(g, c, square).value;
      now in h.own && (square in View(g, white).kings ==> now in h.kings)
  {
    if white == g.whiteToMove {
      if c.from in View(g, white).own {
        CommandMoves(g, c.from, c.targets);
      } else {
        assert Play(g, c.from, c.targets).game == g;
        StartsNowhere(g, c);
      }
    } else {
      CommandKeepsEnemy(g, c.from, c.targets);
      assert View(g, white).own == View(g, g.whiteToMove).enemy;
    }
  }

  lemma StartsNowhere(g: Game, c: Command)
    requires c.from !in View(g, g.whiteToMove).own
    ensures forall square :: square in View(g, g.whiteToMove).own ==> Track(g, c, square) == Some(square)
  {
  }

  /** Over every sequence of commands, however typed, no king reverts to a man. */
  lemma {:induction false} KingsForever(g: Game, commands: seq<Command>, square: int, white: bool)
    requires Valid(View(g, g.whiteToMove)) && Typed(commands)
    requires square in View(g, white).own && TrackAll(g, commands, square).Some?
    ensures var h, end := View(PlayAll(g, commands), white), TrackAll(g, commands, square).value;
      end in h.own && (square in View(g, white).kings ==> end in h.kings)
    decreases |commands|
  {
    if commands != [] {
      var c := commands[0];
      TrackKeeps(g, c, square, white);
      CommandKeeps(g, c.from, c.targets);
      KingsForever(Play(g, c.from, c.targets).game, commands[1..], Track(g, c, square).value, white);
    }
  }
}
