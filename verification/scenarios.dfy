/**
  Worked games on a 10 x 10 grid whose limits are the grid edges, with the
  usual screen orientation (rows grow downwards).
 */
module Scenarios {
  import opened Geometry
  import opened Settings
  import opened Snake

  const Demo := Config(Pos(10, 10), Pos(5, 5), Pos(-1, 0), Pos(1, 0), Pos(0, -1), Pos(0, 1), 0, 10, 0, 10)

  lemma DemoIsWellFormed()
    ensures Demo.WellFormed() && Demo.LimitsMatchField()
  {
  }

  /** From the start, one tick with the apple elsewhere shifts the snake one cell right. */
  lemma FirstTickShifts()
    ensures Initial(Demo, 0, 0).game.apple == Pos(0, 0)
    ensures Run(Demo, Initial(Demo, 0, 0), [Tick(0, 0)])
         == Running(Game([Pos(6, 5), Pos(5, 5), Pos(4, 5)], Pos(1, 0), Pos(0, 0), 0))
  {
  }

  /** Eating grows the snake by its old tail, scores one and re-places the apple from the draws. */
  lemma EatingGrows()
    ensures Step(Demo, Game([Pos(5, 5), Pos(4, 5), Pos(3, 5)], Pos(1, 0), Pos(6, 5), 0), 3, 7)
         == Running(Game([Pos(6, 5), Pos(5, 5), Pos(4, 5), Pos(3, 5)], Pos(1, 0), Pos(3, 7), 1))
  {
  }

  /** A head at the last column moving right reaches column 10 and ends the game. */
  lemma RightWallEndsGame()
    ensures Step(Demo, Game([Pos(9, 5), Pos(8, 5), Pos(7, 5)], Pos(1, 0), Pos(0, 0), 0), 0, 0).Over?
  {
  }

  /** A head turned back onto its own neck ends the game. */
  lemma SelfCollisionEndsGame()
    ensures Step(Demo, Game([Pos(5, 5), Pos(4, 5), Pos(3, 5), Pos(2, 5)], Pos(-1, 0), Pos(0, 0), 0), 0, 0).Over?
  {
    var r := Step(Demo, Game([Pos(5, 5), Pos(4, 5), Pos(3, 5), Pos(2, 5)], Pos(-1, 0), Pos(0, 0), 0), 0, 0);
    assert r.game.snake[2] == r.game.snake[0];
  }

  /**
    The no-reversal rule compares a key with the current direction, not with
    the direction of the last move: heading right, the left key alone is
    refused, but up followed by left before the next tick turns the snake
    onto its neck.
   */
  lemma QuickTurnReverses()
    ensures SetDirection(Demo, Pos(1, 0), 37) == Pos(1, 0)
    ensures Run(Demo, Running(Game([Pos(5, 5), Pos(4, 5), Pos(3, 5)], Pos(1, 0), Pos(0, 0), 0)),
                [Key(38), Key(37), Tick(0, 0)]).Over?
  {
    var body := [Pos(5, 5), Pos(4, 5), Pos(3, 5)];
    var st := Running(Game(body, Pos(1, 0), Pos(0, 0), 0));
    var up := Apply(Demo, st, Key(38));
    assert up == Running(Game(body, Pos(0, -1), Pos(0, 0), 0));
    var left := Apply(Demo, up, Key(37));
    assert left == Running(Game(body, Pos(-1, 0), Pos(0, 0), 0));
    var r := Apply(Demo, left, Tick(0, 0));
    assert r.game.snake[2] == r.game.snake[0];
    assert Run(Demo, st, [Key(38), Key(37), Tick(0, 0)]) == Run(Demo, up, [Key(37), Tick(0, 0)]);
    assert Run(Demo, up, [Key(37), Tick(0, 0)]) == Run(Demo, left, [Tick(0, 0)]);
  }
}
