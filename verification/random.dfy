/**
  The game's one use of randomness, `randint(lo, hi)`: an integer drawn from
  the closed range [lo, hi]. The outcome is modelled by an arbitrary natural
  `draw`, which makes every call deterministic in its arguments while keeping
  exactly the set of outcomes the real call can produce.
 */
module Random {

  function Randint(lo: int, hi: int, draw: nat): (r: int)
    requires lo <= hi
    ensures lo <= r <= hi
  {
    lo + draw % (hi - lo + 1)
  }

  /** Every value of the range is the outcome of some draw. */
  lemma RandintCoversRange(lo: int, hi: int, v: int)
    requires lo <= v <= hi
    ensures Randint(lo, hi, v - lo) == v
  {
  }
}
