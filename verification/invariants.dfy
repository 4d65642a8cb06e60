/**
  Facts that hold of every game the constructor and the event handlers can
  produce: the body is a connected chain of grid cells, its length is the
  initial three plus the score, the direction is a table entry, the apple is
  on the grid, and a running game never has two body parts on one cell.
 */
module Invariants {
  import opened Geometry
  import opened Settings
  import opened Snake

  /** No cell occurs twice in the body. */
  predicate NoDuplicates(s: seq<Pos>) {
    forall i, j :: 0 <= i < j < |s| ==> s[i] != s[j]
  }

  /** Consecutive body cells share an edge. */
  predicate Connected(s: seq<Pos>) {
    forall i :: 0 <= i < |s| - 1 ==> IsUnit(Sub(s[i], s[i + 1]))
  }

  /** What every reachable board satisfies, running or ended. */
  predicate Consistent(c: Config, g: Game) {
    && |g.snake| == g.score + 3
    && g.direction in c.Directions()
    && c.InField(g.apple)
    && Connected(g.snake)
  }

  /** The invariant of reachable states. */
  predicate Inv(c: Config, st: State) {
    && Consistent(c, st.game)
    && (st.Running? ==> NoDuplicates(st.game.snake))
  }

  /** Putting a new head on a body keeps the body free of repeats when the head is new. */
  lemma PushKeepsNoDuplicates(h: Pos, t: seq<Pos>)
    requires NoDuplicates(t)
    requires h !in t
    ensures NoDuplicates([h] + t)
  {
    var s := [h] + t;
    forall i, j | 0 <= i < j < |s|
      ensures s[i] != s[j]
    {
      if i == 0 {
        assert s[j] == t[j - 1];
      } else {
        assert s[i] == t[i - 1] && s[j] == t[j - 1];
      }
    }
  }

  /** Putting a new head next to the old one keeps the body connected. */
  lemma PushKeepsConnected(h: Pos, t: seq<Pos>)
    requires Connected(t)
    requires |t| > 0 && IsUnit(Sub(h, t[0]))
    ensures Connected([h] + t)
  {
    var s := [h] + t;
    forall i | 0 <= i < |s| - 1
      ensures IsUnit(Sub(s[i], s[i + 1]))
    {
      if i > 0 {
        assert s[i] == t[i - 1] && s[i + 1] == t[i];
      }
    }
  }

  /** The constructor's state satisfies the invariant. */
  lemma InitialSatisfiesInv(c: Config, drawX: nat, drawY: nat)
    requires c.WellFormed()
    ensures Inv(c, Initial(c, drawX, drawY))
  {
    var g := Initial(c, drawX, drawY).game;
    var s := c.startPos;
    assert g.snake == [s, Pos(s.x - 1, s.y), Pos(s.x - 2, s.y)];
    assert Sub(g.snake[0], g.snake[1]) == Pos(1, 0);
    assert Sub(g.snake[1], g.snake[2]) == Pos(1, 0);
  }

  /** A tick keeps the invariant: the moved body is connected, and if the game goes on it has no repeats. */
  lemma StepKeepsInv(c: Config, g: Game, drawX: nat, drawY: nat)
    requires c.WellFormed()
    requires Inv(c, Running(g))
    ensures Inv(c, Step(c, g, drawX, drawY))
  {
    var r := Step(c, g, drawX, drawY);
    var h := Add(g.snake[0], g.direction);
    var rest := r.game.snake[1..];
    assert r.game.snake == [h] + rest;
    DirectionsAreTheUnitVectors(c, g.direction);
    SubAdd(g.snake[0], g.direction);
    assert Connected(rest) by {
      forall i | 0 <= i < |rest| - 1
        ensures IsUnit(Sub(rest[i], rest[i + 1]))
      {
        assert rest[i] == g.snake[i] && rest[i + 1] == g.snake[i + 1];
      }
    }
    assert rest[0] == g.snake[0];
    PushKeepsConnected(h, rest);
    if r.Running? {
      assert NoDuplicates(rest) by {
        forall i, j | 0 <= i < j < |rest|
          ensures rest[i] != rest[j]
        {
          assert rest[i] == g.snake[i] && rest[j] == g.snake[j];
        }
      }
      assert h !in rest;
      PushKeepsNoDuplicates(h, rest);
    }
  }

  /** A key press keeps the invariant. */
  lemma KeyKeepsInv(c: Config, g: Game, code: int)
    requires c.WellFormed()
    requires Inv(c, Running(g))
    ensures Inv(c, Running(g.(direction := SetDirection(c, g.direction, code))))
  {
    SetDirectionStaysInTable(c, g.direction, code);
  }

  /** Any single event keeps the invariant. */
  lemma ApplyKeepsInv(c: Config, st: State, e: Event)
    requires c.WellFormed()
    requires Inv(c, st)
    ensures Inv(c, Apply(c, st, e))
  {
    if st.Running? {
      match e
      case Key(code) => KeyKeepsInv(c, st.game, code);
      case Tick(drawX, drawY) => StepKeepsInv(c, st.game, drawX, drawY);
    }
  }

  /** Every state reachable by events from an invariant state satisfies the invariant. */
  lemma {:induction false} RunKeepsInv(c: Config, st: State, events: seq<Event>)
    requires c.WellFormed()
    requires Inv(c, st)
    ensures Inv(c, Run(c, st, events))
    decreases |events|
  {
    if |events| > 0 {
      ApplyKeepsInv(c, st, events[0]);
      RunKeepsInv(c, Apply(c, st, events[0]), events[1..]);
    }
  }

  /** Hence in every game the constructor starts, whatever the events: */
  lemma ReachableStatesAreConsistent(c: Config, drawX: nat, drawY: nat, events: seq<Event>)
    requires c.WellFormed()
    ensures var st := Run(c, Initial(c, drawX, drawY), events);
      && |st.game.snake| == st.game.score + 3
      && st.game.direction in c.Directions()
      && c.InField(st.game.apple)
      && Connected(st.game.snake)
      && (st.Running? ==> NoDuplicates(st.game.snake))
  {
    InitialSatisfiesInv(c, drawX, drawY);
    RunKeepsInv(c, Initial(c, drawX, drawY), events);
  }

  /** Running the events of `a` and then those of `b` is running `a + b`. */
  lemma {:induction false} RunConcat(c: Config, st: State, a: seq<Event>, b: seq<Event>)
    requires c.HasCells()
    requires |st.game.snake| > 0
    ensures Run(c, st, a + b) == Run(c, Run(c, st, a), b)
    decreases |a|
  {
    if |a| == 0 {
      assert a + b == b;
    } else {
      assert (a + b)[0] == a[0];
      assert (a + b)[1..] == a[1..] + b;
      RunConcat(c, Apply(c, st, a[0]), a[1..], b);
    }
  }

  /** A game still running after `a + b` was running after `a`: an ended game never resumes. */
  lemma RunningHadNotEnded(c: Config, st: State, a: seq<Event>, b: seq<Event>)
    requires c.HasCells()
    requires |st.game.snake| > 0
    requires Run(c, st, a + b).Running?
    ensures Run(c, st, a).Running?
  {
    RunConcat(c, st, a, b);
  }

  /**
    The tail is dropped before the game-over check: on a tick that does not
    eat, a head moving onto the cell the tail is leaving does not collide.
   */
  lemma MoveIntoVacatedTail(c: Config, g: Game, drawX: nat, drawY: nat)
    requires c.HasCells()
    requires |g.snake| > 0 && NoDuplicates(g.snake)
    requires Add(g.snake[0], g.direction) == g.snake[|g.snake| - 1]
    requires Add(g.snake[0], g.direction) != g.apple
    requires c.WithinLimits(Add(g.snake[0], g.direction))
    ensures Step(c, g, drawX, drawY).Running?
  {
    var r := Step(c, g, drawX, drawY);
    forall i | 1 <= i < |r.game.snake|
      ensures r.game.snake[i] != r.game.snake[0]
    {
      assert r.game.snake[i] == g.snake[i - 1];
    }
  }

  /**
    On a tick that eats, nothing is dropped: a head moving onto the tail's
    cell (where an apple may have been placed) collides with it.
   */
  lemma EatIntoTailCollides(c: Config, g: Game, drawX: nat, drawY: nat)
    requires c.HasCells()
    requires |g.snake| > 0
    requires Add(g.snake[0], g.direction) == g.snake[|g.snake| - 1]
    requires Add(g.snake[0], g.direction) == g.apple
    ensures Step(c, g, drawX, drawY).Over?
  {
    var r := Step(c, g, drawX, drawY);
    assert r.game.snake[|g.snake|] == g.snake[|g.snake| - 1];
  }
}
