/** The home page's swipe deck (pages/Home.tsx): the index of the profile on
    show and the like/dislike indicator. */
module Home {
  import opened Wrappers

  datatype Direction = Like | Dislike

  /** The index after a swipe on profile `i` of `n`: the next one, or back
      to the first after the last. */
  function NextIndex(i: nat, n: nat): (r: nat)
    ensures n > 0 && i < n ==> r == (i + 1) % n
    ensures r < n || r == 0
  {
    if i < n - 1 then i + 1 else 0
  }

  /** The index after `k` swipes from the start, each one seen through. */
  function AfterSwipes(n: nat, k: nat): nat {
    if k == 0 then 0 else NextIndex(AfterSwipes(n, k - 1), n)
  }

  /** During the first round each swipe moves one profile on. */
  lemma {:induction false} SwipesFirstRound(n: nat, k: nat)
    requires k < n
    ensures AfterSwipes(n, k) == k
  {
    if k > 0 {
      SwipesFirstRound(n, k - 1);
    }
  }

  /** Swiping goes round the deck: after the last profile the deck starts
      over, so `n` more swipes come back to the same profile. */
  lemma {:induction false} SwipesPeriodic(n: nat, k: nat)
    requires n > 0
    ensures AfterSwipes(n, k + n) == AfterSwipes(n, k)
  {
    if k == 0 {
      SwipesFirstRound(n, n - 1);
    } else {
      SwipesPeriodic(n, k - 1);
      assert AfterSwipes(n, k + n) == NextIndex(AfterSwipes(n, k - 1 + n), n);
    }
  }

  class SwipeDeck {
    const size: nat
    var current: nat
    var direction: Option<Direction>

    /** The index names a profile whenever there is one. */
    ghost predicate Valid()
      reads this
    {
      if size == 0 then current == 0 else current < size
    }

    /** The deck starts on the first profile with no indicator shown. */
    constructor (size: nat)
      ensures Valid() && this.size == size && current == 0 && direction == None
    {
      this.size := size;
      current := 0;
      direction := None;
    }

    /** `handleSwipe`: shows the indicator and returns the index the delayed
        advance will start from (the value the timer's closure captures). */
    method Swipe(dir: Direction) returns (captured: nat)
      requires Valid()
      modifies this
      ensures Valid() && direction == Some(dir) && current == old(current) && captured == current
    {
      direction := Some(dir);
      captured := current;
    }

    /** The timer set by a swipe: hides the indicator and moves on from the
        captured index. */
    method TimerFired(captured: nat)
      requires Valid()
      modifies this
      ensures Valid() && direction == None && current == NextIndex(captured, size)
    {
      direction := None;
      current := NextIndex(captured, size);
    }
  }
}
