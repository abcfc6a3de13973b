/**
 * The two refresh policies of the certificate cache, in the int64-nanosecond
 * arithmetic of Go's time package.  An instant is an unbounded number of
 * nanoseconds; a difference of instants saturates, a product wraps, and a
 * quotient truncates toward zero.
 */
module RefreshPolicy {
  import opened Int64

  /** The validity window of a leaf certificate (section 4.1.2.5 of RFC 5280). */
  datatype Leaf = Leaf(notBefore: int, notAfter: int)

  type Policy = (Leaf, int) -> bool

  const FIVE_MINUTES: int := 300_000_000_000

  /** time.Time.Sub: the difference, clamped to the int64 range. */
  function Sub(t: int, u: int): int {
    if t - u < -TWO_63 then -TWO_63 else if t - u > TWO_63 - 1 then TWO_63 - 1 else t - u
  }

  /** Go's integer division by three. */
  function Third(x: int): int {
    if x >= 0 then x / 3 else -((-x) / 3)
  }

  /** Default policy: refresh when less than five minutes remain. */
  predicate ExpiryMargin(leaf: Leaf, now: int) {
    Sub(leaf.notAfter, now) < FIVE_MINUTES
  }

  /** The clamping never matters to the default policy: it is exact for every leaf and instant. */
  lemma ExpiryMarginIsExact(leaf: Leaf, now: int)
    ensures ExpiryMargin(leaf, now) <==> leaf.notAfter - now < 300_000_000_000
  {
  }

  /** Vault policy: refresh when two thirds of the lifetime have elapsed. */
  predicate TwoThirdsElapsed(leaf: Leaf, now: int) {
    Sub(now, leaf.notBefore) > Third(Wrap(Sub(leaf.notAfter, leaf.notBefore) * 2))
  }

  /** A policy that, once it demands a refresh of a leaf, keeps demanding it. */
  ghost predicate Monotone(due: Policy) {
    forall leaf: Leaf, t: int, u: int :: t <= u && due(leaf, t) ==> due(leaf, u)
  }

  /** Both policies stay due once due, for every leaf, even where the arithmetic clamps or wraps. */
  lemma PoliciesAreMonotone()
    ensures Monotone(ExpiryMargin)
    ensures Monotone(TwoThirdsElapsed)
  {
    assert forall leaf: Leaf, t: int, u: int :: t <= u && ExpiryMargin(leaf, t) ==> ExpiryMargin(leaf, u);
  }

  /** The inequality that the vault policy is meant to decide, in exact arithmetic. */
  predicate PastTwoThirds(leaf: Leaf, now: int) {
    3 * (now - leaf.notBefore) > 2 * (leaf.notAfter - leaf.notBefore)
  }

  /** The leaves for which the int64 test never differs from the exact inequality. */
  predicate ExactLifetime(leaf: Leaf) {
    var lifetime := leaf.notAfter - leaf.notBefore;
    0 <= lifetime < TWO_62 || (-TWO_62 <= lifetime < 0 && lifetime % 3 == 0)
  }

  lemma WrapOfDouble(l: int)
    requires -TWO_63 <= l < TWO_63
    ensures Wrap(2 * l) == if l >= TWO_62 then 2 * l - TWO_64 else if l < -TWO_62 then 2 * l + TWO_64 else 2 * l
  {
  }

  lemma ExactWhenFits(leaf: Leaf, now: int)
    requires ExactLifetime(leaf)
    ensures TwoThirdsElapsed(leaf, now) <==> PastTwoThirds(leaf, now)
  {
    WrapOfDouble(leaf.notAfter - leaf.notBefore);
  }

  /** An instant at which the test and the inequality differ, for every other leaf. */
  function Disagreement(leaf: Leaf): int {
    var lifetime := leaf.notAfter - leaf.notBefore;
    if lifetime >= TWO_62 then leaf.notBefore + 1
    else if lifetime < -TWO_62 then leaf.notBefore
    else leaf.notBefore + Third(2 * lifetime)
  }

  lemma InexactOtherwise(leaf: Leaf)
    requires !ExactLifetime(leaf)
    ensures TwoThirdsElapsed(leaf, Disagreement(leaf)) != PastTwoThirds(leaf, Disagreement(leaf))
  {
    WrapOfDouble(Sub(leaf.notAfter, leaf.notBefore));
  }

  /** The int64 test decides the exact inequality at every instant, exactly for these leaves. */
  lemma VaultTestIsExactIff(leaf: Leaf)
    ensures (forall now :: TwoThirdsElapsed(leaf, now) <==> PastTwoThirds(leaf, now)) <==> ExactLifetime(leaf)
  {
    if ExactLifetime(leaf) {
      forall now ensures TwoThirdsElapsed(leaf, now) <==> PastTwoThirds(leaf, now) {
        ExactWhenFits(leaf, now);
      }
    } else {
      InexactOtherwise(leaf);
    }
  }

  /** A leaf that is not due has at least a third of its lifetime left, so it has not expired. */
  lemma NotDueLeavesAThird(leaf: Leaf, now: int)
    requires 0 <= leaf.notAfter - leaf.notBefore < TWO_62
    requires !TwoThirdsElapsed(leaf, now)
    ensures 3 * (leaf.notAfter - now) >= leaf.notAfter - leaf.notBefore
    ensures now <= leaf.notAfter
  {
    ExactWhenFits(leaf, now);
  }
}
