/** The reaction buttons of a post (src/components/PostCard.tsx): "Support"
    and "I relate" each toggle a local flag and move a local counter with it.
    The toasts and the time label are not modelled. */
module PostCard {

  /** One reaction: how many times it is counted on this card and whether
      the reader has given it. */
  datatype Tally = Tally(count: int, given: bool)

  /** One press of a reaction button: withdraw a given reaction, give one
      not yet given. */
  function Toggle(t: Tally): (r: Tally)
    ensures r.given == !t.given
    ensures r.count == t.count + (if t.given then -1 else 1)
  {
    if t.given then Tally(t.count - 1, false) else Tally(t.count + 1, true)
  }

  /** A card's counters start at zero with nothing given; from there the
      count is 1 exactly when the reaction is given. */
  predicate Consistent(t: Tally) {
    t.count == (if t.given then 1 else 0)
  }

  /** Pressing twice undoes the first press. */
  lemma ToggleTwice(t: Tally)
    ensures Toggle(Toggle(t)) == t
  {
  }

  /** Pressing keeps a consistent tally consistent, so the count stays 0 or
      1 forever. */
  lemma ToggleKeepsConsistent(t: Tally)
    requires Consistent(t)
    ensures Consistent(Toggle(t))
    ensures 0 <= Toggle(t).count <= 1
  {
  }

  /** The byline: anonymous posts hide their author. */
  function AuthorName(isAnonymous: bool): (r: string)
    ensures r == "Anonymous User" <==> isAnonymous
    ensures r == "Community Member" <==> !isAnonymous
  {
    if isAnonymous then "Anonymous User" else "Community Member"
  }

  class Card {
    var supportCount: int
    var hasSupported: bool
    var relateCount: int
    var hasRelated: bool

    ghost predicate Valid()
      reads this
    {
      Consistent(Tally(supportCount, hasSupported)) && Consistent(Tally(relateCount, hasRelated))
    }

    constructor()
      ensures Valid()
      ensures supportCount == 0 && !hasSupported && relateCount == 0 && !hasRelated
    {
      supportCount, hasSupported := 0, false;
      relateCount, hasRelated := 0, false;
    }

    /** `handleSupport`: toggles the support tally and leaves the relate
        tally alone. */
    method HandleSupport()
      requires Valid()
      modifies this
      ensures Valid()
      ensures Tally(supportCount, hasSupported) == Toggle(old(Tally(supportCount, hasSupported)))
      ensures relateCount == old(relateCount) && hasRelated == old(hasRelated)
    {
      ToggleKeepsConsistent(Tally(supportCount, hasSupported));
      if hasSupported {
        supportCount := supportCount - 1;
        hasSupported := false;
      } else {
        supportCount := supportCount + 1;
        hasSupported := true;
      }
    }

    /** `handleRelate`: toggles the relate tally and leaves the support
        tally alone. */
    method HandleRelate()
      requires Valid()
      modifies this
      ensures Valid()
      ensures Tally(relateCount, hasRelated) == Toggle(old(Tally(relateCount, hasRelated)))
      ensures supportCount == old(supportCount) && hasSupported == old(hasSupported)
    {
      ToggleKeepsConsistent(Tally(relateCount, hasRelated));
      if hasRelated {
        relateCount := relateCount - 1;
        hasRelated := false;
      } else {
        relateCount := relateCount + 1;
        hasRelated := true;
      }
    }
  }
}
