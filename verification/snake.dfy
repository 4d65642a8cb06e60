/**
  The game-state logic of the `Game` class: the state set up by the
  constructor, one animation tick (`animate`), the game-over check
  (`check_game_over`), the key handler (`get_input`) and apple placement
  (`place_apple`). Widgets, drawing, timers and process exit are not modelled;
  a finished game is the terminal `Over` state.
 */
module Snake {
  import opened Geometry
  import opened Wrappers
  import opened Settings
  import opened Random

  /**
    Everything a tick reads and writes: the body cells with the head first,
    the current direction, the apple cell and the score counter.
   */
  datatype Game = Game(snake: seq<Pos>, direction: Pos, apple: Pos, score: nat)

  /** A game that still ticks, or one the game-over check has ended (its final board kept). */
  datatype State = Running(game: Game) | Over(game: Game)

  /** What drives the game: a timer tick (with the draws `randint` would make) or a key press. */
  datatype Event = Tick(drawX: nat, drawY: nat) | Key(code: int)

  /** The key codes the handler reacts to, and the table entry each one asks for. */
  function KeyHeading(code: int): Option<Heading> {
    match code
    case 37 => Some(Left)
    case 38 => Some(Up)
    case 39 => Some(Right)
    case 40 => Some(Down)
    case _ => None
  }

  /** `place_apple`: a column in [0, FIELDS[0]-1] and a row in [0, FIELDS[1]-1], chosen by the draws. */
  function PlaceApple(c: Config, drawX: nat, drawY: nat): (p: Pos)
    requires c.HasCells()
    ensures c.InField(p)
  {
    Pos(Randint(0, c.fields.x - 1, drawX), Randint(0, c.fields.y - 1, drawY))
  }

  /**
    Any cell of the grid can receive the apple, including cells the snake
    occupies: placement does not look at the body.
   */
  lemma PlaceAppleCoversField(c: Config, p: Pos)
    requires c.HasCells() && c.InField(p)
    ensures exists drawX: nat, drawY: nat :: PlaceApple(c, drawX, drawY) == p
  {
    RandintCoversRange(0, c.fields.x - 1, p.x);
    RandintCoversRange(0, c.fields.y - 1, p.y);
    assert PlaceApple(c, p.x, p.y) == p;
  }

  /**
    The state the constructor sets up before its own first call of `animate`:
    a three-cell snake left of `START_POS`, heading right, score 0. A real
    game therefore always begins with a `Tick` event.
   */
  function Initial(c: Config, drawX: nat, drawY: nat): (st: State)
    requires c.HasCells()
    ensures st.Running? && st.game.score == 0 && st.game.direction == c.right
    ensures |st.game.snake| == 3 && st.game.snake[0] == c.startPos
    ensures forall i :: 0 <= i < |st.game.snake| ==> st.game.snake[i] == Pos(c.startPos.x - i, c.startPos.y)
    ensures c.InField(st.game.apple)
  {
    var start := c.startPos;
    var body := [start, Pos(start.x - 1, start.y), Pos(start.x - 2, start.y)];
    Running(Game(body, c.right, PlaceApple(c, drawX, drawY), 0))
  }

  /**
    `check_game_over`: the head has left the half-open limit box, or it lies
    on another cell of the body.
   */
  function GameOver(c: Config, snake: seq<Pos>): (over: bool)
    requires |snake| > 0
    ensures over <==> !c.WithinLimits(snake[0]) || exists i :: 1 <= i < |snake| && snake[i] == snake[0]
  {
    var head := snake[0];
    || head.x >= c.rightLimit
    || head.x < c.leftLimit
    || head.y < c.topLimit
    || head.y >= c.bottomLimit
    || head in snake[1..]
  }

  /**
    `animate`, one tick: push the new head, then either eat the apple (grow,
    re-place the apple, score one) or drop the tail, and only then run the
    game-over check.
   */
  function Step(c: Config, g: Game, drawX: nat, drawY: nat): (r: State)
    requires c.HasCells()
    requires |g.snake| > 0
    ensures |r.game.snake| > 0 && r.game.snake[0] == Add(g.snake[0], g.direction)
    ensures r.game.direction == g.direction
    ensures Add(g.snake[0], g.direction) == g.apple ==>
      && |r.game.snake| == |g.snake| + 1
      && r.game.snake[1..] == g.snake
      && r.game.score == g.score + 1
      && c.InField(r.game.apple)
    ensures Add(g.snake[0], g.direction) != g.apple ==>
      && |r.game.snake| == |g.snake|
      && r.game.snake[1..] == g.snake[..|g.snake| - 1]
      && r.game.score == g.score
      && r.game.apple == g.apple
    ensures r.Over? <==> GameOver(c, r.game.snake)
  {
    var head := Add(g.snake[0], g.direction);
    var body := [head] + g.snake;
    var moved :=
      if head == g.apple then
        Game(body, g.direction, PlaceApple(c, drawX, drawY), g.score + 1)
      else
        Game(body[..|body| - 1], g.direction, g.apple, g.score);
    if GameOver(c, moved.snake) then Over(moved) else Running(moved)
  }

  /**
    `get_input`: a key asks for one table entry, which is taken unless the
    current direction is that entry's named opposite; other keys do nothing.
   */
  function SetDirection(c: Config, current: Pos, code: int): (r: Pos)
    ensures KeyHeading(code).None? ==> r == current
    ensures KeyHeading(code).Some? ==>
      var h := KeyHeading(code).value;
      r == if current == c.Vector(Opposite(h)) then current else c.Vector(h)
  {
    if code == 37 then (if current != c.right then c.left else current)
    else if code == 38 then (if current != c.down then c.up else current)
    else if code == 39 then (if current != c.left then c.right else current)
    else if code == 40 then (if current != c.up then c.down else current)
    else current
  }

  /**
    The no-reversal rule in terms of vectors: a recognised key is refused
    exactly when the entry it asks for is the reverse of the current
    direction, and is otherwise taken.
   */
  lemma SetDirectionRefusesOnlyReverse(c: Config, current: Pos, code: int)
    requires c.WellFormed()
    requires KeyHeading(code).Some?
    ensures var want := c.Vector(KeyHeading(code).value);
      && (want == Neg(current) ==> SetDirection(c, current, code) == current)
      && (want != Neg(current) ==> SetDirection(c, current, code) == want)
  {
    var h := KeyHeading(code).value;
    OppositeIsReverse(c, h);
    NegSymmetric(current, c.Vector(h));
  }

  /**
    A direction taken from the table stays in the table, and no key press
    turns it into its own reverse.
   */
  lemma SetDirectionStaysInTable(c: Config, current: Pos, code: int)
    requires c.WellFormed()
    requires current in c.Directions()
    ensures SetDirection(c, current, code) in c.Directions()
    ensures SetDirection(c, current, code) != Neg(current)
  {
    var r := SetDirection(c, current, code);
    DirectionsAreTheUnitVectors(c, current);
    UnitDiffersFromReverse(current);
    if KeyHeading(code).Some? {
      var h := KeyHeading(code).value;
      SetDirectionRefusesOnlyReverse(c, current, code);
      if c.Vector(h) == Neg(current) {
        assert r == current;
      } else {
        assert r == c.Vector(h);
        VectorInTable(c, h);
      }
    } else {
      assert r == current;
    }
  }

  /** One event on a state: an ended game ignores everything. */
  function Apply(c: Config, st: State, e: Event): (r: State)
    requires c.HasCells()
    requires |st.game.snake| > 0
    ensures |r.game.snake| >= |st.game.snake|
    ensures r.game.score >= st.game.score
    ensures |r.game.snake| - r.game.score == |st.game.snake| - st.game.score
    ensures st.Over? ==> r == st
  {
    match st
    case Over(_) => st
    case Running(g) =>
      match e
      case Key(code) => Running(g.(direction := SetDirection(c, g.direction, code)))
      case Tick(drawX, drawY) => Step(c, g, drawX, drawY)
  }

  /**
    A sequence of events, in order. The body never shrinks, the score never
    falls, length and score grow together, and an ended game stays as it is.
   */
  function Run(c: Config, st: State, events: seq<Event>): (r: State)
    requires c.HasCells()
    requires |st.game.snake| > 0
    ensures |r.game.snake| >= |st.game.snake|
    ensures r.game.score >= st.game.score
    ensures |r.game.snake| - r.game.score == |st.game.snake| - st.game.score
    ensures st.Over? ==> r == st
    decreases |events|
  {
    if |events| == 0 then st else Run(c, Apply(c, st, events[0]), events[1..])
  }
}
