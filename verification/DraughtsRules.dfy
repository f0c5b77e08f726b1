/** The rules of the game as the move command enforces them, on sets of positions. */
module DraughtsRules {
  import opened Options
  import opened DraughtsBoard

  /** The board as the player to move sees it. */
  datatype Position = Position(own: set<int>, enemy: set<int>, kings: set<int>, enemyKings: set<int>)

  /** The piece invariant. */
  ghost predicate Valid(b: Position) {
    && (forall p :: p in b.own || p in b.enemy ==> OnBoard(p))
    && b.own !! b.enemy
    && b.kings <= b.own && b.enemyKings <= b.enemy
  }

  predicate Empty(b: Position, q: int) {
    q !in b.own && q !in b.enemy
  }

  /** White moves towards smaller positions; only a king moves both ways. */
  function Ahead(white: bool, d: int): int {
    if white then -d else d
  }

  predicate StepOpen(b: Position, p: int, d: int) {
    OnBoard(p + d) && Empty(b, p + d)
  }

  predicate JumpOpen(b: Position, p: int, d: int) {
    OnBoard(p + d) && OnBoard(p + 2 * d) && p + d in b.enemy && Empty(b, p + 2 * d)
  }

  /** The directions a piece may take. */
  predicate Direction(white: bool, king: bool, d: int) {
    d == Ahead(white, 5) || d == Ahead(white, 4) || (king && (d == -Ahead(white, 5) || d == -Ahead(white, 4)))
  }

  ghost predicate CanTakeFrom(b: Position, white: bool, p: int) {
    exists d :: Direction(white, p in b.kings, d) && JumpOpen(b, p, d)
  }

  ghost predicate CanStepFrom(b: Position, white: bool, p: int) {
    exists d :: Direction(white, p in b.kings, d) && StepOpen(b, p, d)
  }

  ghost predicate CanTake(b: Position, white: bool) {
    exists p :: p in b.own && CanTakeFrom(b, white, p)
  }

  ghost predicate Trapped(b: Position, white: bool) {
    forall p :: p in b.own ==> !CanStepFrom(b, white, p) && !CanTakeFrom(b, white, p)
  }

  // ---------------------------------------------------------------- one hop

  predicate Crowns(white: bool, to: int) {
    if white then to <= 4 else to >= 32
  }

  predicate IsJump(from: int, to: int) {
    to - from == 8 || to - from == 10 || from - to == 8 || from - to == 10
  }

  predicate IsStep(from: int, to: int) {
    to - from == 4 || to - from == 5 || from - to == 4 || from - to == 5
  }

  /** The position jumped over. */
  function Midpoint(from: int, to: int): int {
    from + (to - from) / 2
  }

  /** `valid_distances`: the geometry of a hop, without looking at the squares. */
  predicate Reaches(b: Position, white: bool, from: int, to: int) {
    && (IsStep(from, to) || IsJump(from, to))
    && (from in b.kings || (to < from) == white)
  }

  /** Whether an assertion fails while the loop of `user_move_draughts` looks at a hop to a free
      square: it leads to the square it starts from, or it is a jump over a hole. */
  ghost predicate Fails(b: Position, white: bool, from: int, to: int) {
    Empty(b, to) && (to == from || (Reaches(b, white, from, to) && IsJump(from, to) && !OnBoard(Midpoint(from, to))))
  }

  /** Whether the loop of `user_move_draughts` lets a hop through. */
  ghost predicate Accepts(b: Position, white: bool, from: int, to: int, hops: nat, taken: nat) {
    && Empty(b, to)
    && Reaches(b, white, from, to)
    && if IsJump(from, to) then OnBoard(Midpoint(from, to)) && Midpoint(from, to) in b.enemy
       else hops <= 1 && (if taken > 0 then !CanTakeFrom(b, white, to) else !CanTake(b, white))
  }

  lemma FailsIsNotAccepted(b: Position, white: bool, from: int, to: int, hops: nat, taken: nat)
    requires Fails(b, white, from, to)
    ensures !Accepts(b, white, from, to, hops, taken)
  {
  }

  function Shift(s: set<int>, from: int, to: int): set<int> {
    s - {from} + {to}
  }

  /** `setup_new_state` */
  function AfterHop(b: Position, white: bool, from: int, to: int): Position {
    var moved := if from in b.kings then Shift(b.kings, from, to) else b.kings;
    var gone := if IsJump(from, to) then {Midpoint(from, to)} else {};
    Position(
      Shift(b.own, from, to), b.enemy - gone,
      if Crowns(white, to) then moved + {to} else moved, b.enemyKings - gone)
  }

  // ---------------------------------------------------------------- a whole command

  datatype Game = Game(white: set<int>, black: set<int>, whiteKings: set<int>, blackKings: set<int>,
                       whiteMoves: int, blackMoves: int, whiteToMove: bool)

  function View(g: Game, white: bool): Position {
    if white then Position(g.white, g.black, g.whiteKings, g.blackKings)
    else Position(g.black, g.white, g.blackKings, g.whiteKings)
  }

  /** `make_final_state` */
  function Commit(g: Game, white: bool, b: Position, hops: nat): Game {
    if white then Game(b.own, b.enemy, b.kings, b.enemyKings, g.whiteMoves + hops, g.blackMoves, false)
    else Game(b.enemy, b.own, b.enemyKings, b.kings, g.whiteMoves, g.blackMoves + hops, true)
  }

  /** The local variables of `user_move_draughts`, with the game they will be copied to.
      `commits` counts how often the state was made final, and `takenThen` is the number of
      pieces that had been taken when it last was. */
  datatype Turn = Turn(game: Game, board: Position, from: int, hops: nat, taken: nat,
                       commits: nat, takenThen: nat, stopped: bool)

  /** One round of the loop: the square named by the next parameter (None if it names no
      square to go to), and whether more parameters follow. Once the state has been made
      final the loop goes on from the square that hop came from. */
  ghost function Next(t: Turn, white: bool, target: Option<int>, more: bool): Turn {
    if target == None || !Accepts(t.board, white, t.from, target.value, t.hops, t.taken) then t.(stopped := true)
    else Settle(t, white, target.value, AfterHop(t.board, white, t.from, target.value),
                if IsJump(t.from, target.value) then t.taken + 1 else t.taken, more)
  }

  /** The end of a round whose hop has led to board b. */
  ghost function Settle(t: Turn, white: bool, to: int, b: Position, taken: nat, more: bool): Turn {
    var goesOn := t.hops < 4 && !Crowns(white, to);
    if more && goesOn then t.(board := b, from := to, hops := t.hops + 1, taken := taken)
    else if taken > 0 && goesOn && CanTakeFrom(b, white, to) then t.(board := b, taken := taken, stopped := true)
    else t.(board := b, taken := taken, game := Commit(t.game, white, b, t.hops),
            commits := t.commits + 1, takenThen := taken)
  }

  ghost function Run(t: Turn, white: bool, targets: seq<Option<int>>): Turn
    decreases |targets|
  {
    if targets == [] || t.stopped then t
    else Run(Next(t, white, targets[0], |targets| > 1), white, targets[1..])
  }

  ghost function Start(g: Game, from: int): Turn {
    Turn(g, View(g, g.whiteToMove), from, 1, 0, 0, 0, false)
  }

  /** A command typed by the player to move: the square it starts from, and the targets. */
  ghost function Play(g: Game, from: int, targets: seq<Option<int>>): Turn {
    if from !in View(g, g.whiteToMove).own then Start(g, from).(stopped := true)
    else Run(Start(g, from), g.whiteToMove, targets)
  }

  // ---------------------------------------------------------------- what every hop keeps

  lemma HopKeepsValid(b: Position, white: bool, from: int, to: int, hops: nat, taken: nat)
    requires Valid(b) && OnBoard(to) && Accepts(b, white, from, to, hops, taken)
    ensures Valid(AfterHop(b, white, from, to))
  {
  }

  /** The mover's pieces are as many as before, unless the hop starts from an empty square;
      the enemy loses exactly the piece jumped over. */
  lemma HopCounts(b: Position, white: bool, from: int, to: int, hops: nat, taken: nat)
    requires Valid(b) && Accepts(b, white, from, to, hops, taken)
    ensures |AfterHop(b, white, from, to).own| == |b.own| + if from in b.own then 0 else 1
    ensures |AfterHop(b, white, from, to).enemy| == |b.enemy| - if IsJump(from, to) then 1 else 0
  {
    if from in b.own {
      assert |b.own - {from}| == |b.own| - 1;
    } else {
      assert b.own - {from} == b.own;
    }
    assert to !in b.own - {from};
  }

  /** A king stays a king wherever it goes; so does an enemy king that is not taken. */
  lemma KingsStayKings(b: Position, white: bool, from: int, to: int, p: int)
    requires Valid(b) && Empty(b, to)
    ensures p in b.kings ==> (if p == from then to else p) in AfterHop(b, white, from, to).kings
    ensures p in b.enemyKings && p in AfterHop(b, white, from, to).enemy ==>
      p in AfterHop(b, white, from, to).enemyKings
  {
  }

  /** What holds between any two rounds of the loop, for a command that began in game g. */
  ghost predicate Sound(t: Turn, g: Game) {
    var white := g.whiteToMove;
    var own, enemy := |View(g, white).own|, |View(g, white).enemy|;
    && Valid(t.board) && Valid(View(t.game, white)) && OnBoard(t.from)
    && (if t.commits == 0 then t.game == g else t.game.whiteToMove == !white)
    // pieces taken are conserved
    && |t.board.enemy| + t.taken == enemy
    && |View(t.game, white).enemy| + t.takenThen == enemy
    // the mover's pieces
    && (t.commits == 0 && !t.stopped ==> t.from in t.board.own && |t.board.own| == own)
    && (t.commits == 1 ==> |View(t.game, white).own| == own)
    && (t.commits >= 1 ==> |t.board.own| >= own && (t.from !in t.board.own || |t.board.own| > own))
    && (t.commits >= 2 ==> |View(t.game, white).own| > own)
  }

  lemma SettleKeepsSound(t: Turn, g: Game, to: int, b: Position, taken: nat, more: bool)
    requires Sound(t, g) && !t.stopped && OnBoard(to) && to != t.from
    requires Valid(b) && to in b.own && t.from !in b.own
    requires |b.own| == |t.board.own| + if t.from in t.board.own then 0 else 1
    requires |b.enemy| + taken == |t.board.enemy| + t.taken
    ensures Sound(Settle(t, g.whiteToMove, to, b, taken, more), g)
  {
    assert View(Commit(t.game, g.whiteToMove, b, t.hops), g.whiteToMove) == b;
  }

  /** A round that is not refused settles on a board that is sound after the hop. */
  lemma NextSettles(t: Turn, g: Game, target: Option<int>, more: bool) returns (b: Position, taken: nat)
    requires Sound(t, g) && target.Some? && OnBoard(target.value)
    requires Accepts(t.board, g.whiteToMove, t.from, target.value, t.hops, t.taken)
    ensures Next(t, g.whiteToMove, target, more) == Settle(t, g.whiteToMove, target.value, b, taken, more)
    ensures Valid(b) && target.value in b.own && t.from !in b.own && target.value != t.from
    ensures |b.own| == |t.board.own| + if t.from in t.board.own then 0 else 1
    ensures |b.enemy| + taken == |t.board.enemy| + t.taken
  {
    var white, to := g.whiteToMove, target.value;
    HopKeepsValid(t.board, white, t.from, to, t.hops, t.taken);
    HopCounts(t.board, white, t.from, to, t.hops, t.taken);
    b := AfterHop(t.board, white, t.from, to);
    taken := if IsJump(t.from, to) then t.taken + 1 else t.taken;
  }

  lemma NextKeepsSound(t: Turn, g: Game, target: Option<int>, more: bool, next: Turn)
    requires Sound(t, g) && !t.stopped && (target.Some? ==> OnBoard(target.value))
    requires next == Next(t, g.whiteToMove, target, more)
    ensures Sound(next, g)
  {
    if target.Some? && Accepts(t.board, g.whiteToMove, t.from, target.value, t.hops, t.taken) {
      var b, taken := NextSettles(t, g, target, more);
      SettleKeepsSound(t, g, target.value, b, taken, more);
      assert next == Settle(t, g.whiteToMove, target.value, b, taken, more);
    } else {
      assert next == t.(stopped := true);
    }
  }

  lemma {:induction false} RunKeepsSound(t: Turn, g: Game, targets: seq<Option<int>>)
    requires Sound(t, g)
    requires forall i :: 0 <= i < |targets| ==> targets[i] == None || OnBoard(targets[i].value)
    ensures Sound(Run(t, g.whiteToMove, targets), g)
    decreases |targets|
  {
    if targets != [] && !t.stopped {
      var next := Next(t, g.whiteToMove, targets[0], |targets| > 1);
      NextKeepsSound(t, g, targets[0], |targets| > 1, next);
      RunKeepsSound(next, g, targets[1..]);
    }
  }
}
