/**
 * From a discount ceiling to an offer: the raw floor `principal * (1 - d)`
 * and the two ways the code rounds it to a multiple of 100: `math.ceil`
 * (never below the floor) and Python's `round` (nearest, ties to even).
 */
module Offer {

  /** A discount fraction in [0, 1] of a non-negative principal is at most the principal. */
  lemma DiscountWithinPrincipal(principal: real, discount: real)
    ensures 0.0 <= discount <= 1.0 && 0.0 <= principal ==> 0.0 <= principal * discount <= principal
  {
    if 0.0 <= discount <= 1.0 && 0.0 <= principal {
      assert principal * (1.0 - discount) == principal - principal * discount;
      assert 0.0 <= principal * (1.0 - discount);
    }
  }

  /** `principal - principal * discount`, in exact arithmetic: between 0 and the principal for a discount in [0, 1]. */
  function RawOffer(principal: real, discount: real): (floor: real)
    ensures 0.0 <= discount <= 1.0 && 0.0 <= principal ==> 0.0 <= floor <= principal
    ensures discount == 0.0 ==> floor == principal
  {
    var maxDiscountAmount := principal * discount;
    DiscountWithinPrincipal(principal, discount);
    principal - maxDiscountAmount
  }

  /** `math.ceil`: the least integer not below `x`. */
  function Ceil(x: real): (c: int)
    ensures x <= c as real < x + 1.0
  {
    if x.Floor as real == x then x.Floor else x.Floor + 1
  }

  /** Python's one-argument `round`: the nearest integer, and the even one of two equally near. */
  function RoundHalfEven(x: real): (n: int)
    ensures x - 0.5 <= n as real <= x + 0.5
    ensures (n as real == x - 0.5 || n as real == x + 0.5) ==> n % 2 == 0
  {
    var f := x.Floor;
    var frac := x - f as real;
    if frac < 0.5 then f
    else if frac > 0.5 then f + 1
    else if f % 2 == 0 then f
    else f + 1
  }

  /** `math.ceil(x / 100) * 100`: the least multiple of 100 not below `x`. */
  function CeilTo100(x: real): (r: int)
    ensures r % 100 == 0
    ensures x <= r as real < x + 100.0
  {
    Ceil(x / 100.0) * 100
  }

  /** `round(x / 100) * 100`: a multiple of 100 within 50 of `x`, the even hundred on a tie. */
  function RoundTo100(x: real): (r: int)
    ensures r % 100 == 0
    ensures x - 50.0 <= r as real <= x + 50.0
    ensures (r as real == x - 50.0 || r as real == x + 50.0) ==> (r / 100) % 2 == 0
  {
    RoundHalfEven(x / 100.0) * 100
  }

  /** The ceiling contract pins the result down: no other multiple of 100 meets it. */
  lemma CeilTo100Unique(x: real, m: int)
    requires m % 100 == 0 && x <= m as real < x + 100.0
    ensures m == CeilTo100(x)
  {
    var r := CeilTo100(x);
    var a, b := m / 100, r / 100;
    assert m == a * 100 && r == b * 100;
  }

  /** The nearest-even contract pins the result down too. */
  lemma RoundTo100Unique(x: real, m: int)
    requires m % 100 == 0 && x - 50.0 <= m as real <= x + 50.0
    requires (m as real == x - 50.0 || m as real == x + 50.0) ==> (m / 100) % 2 == 0
    ensures m == RoundTo100(x)
  {
    var r := RoundTo100(x);
    var a, b := m / 100, r / 100;
    assert m == a * 100 && r == b * 100;
  }

  /** An amount that is already a multiple of 100 passes through either rounding unchanged. */
  lemma ExactHundredsUnchanged(m: int)
    requires m % 100 == 0
    ensures CeilTo100(m as real) == m
    ensures RoundTo100(m as real) == m
  {
    CeilTo100Unique(m as real, m);
    RoundTo100Unique(m as real, m);
  }

  /** Rounding an offer again changes nothing. */
  lemma RoundingIdempotent(x: real)
    ensures CeilTo100(CeilTo100(x) as real) == CeilTo100(x)
    ensures RoundTo100(RoundTo100(x) as real) == RoundTo100(x)
  {
    ExactHundredsUnchanged(CeilTo100(x));
    ExactHundredsUnchanged(RoundTo100(x));
  }

  /** Rounding up never gives less than rounding to nearest. */
  lemma CeilNotBelowRound(x: real)
    ensures RoundTo100(x) <= CeilTo100(x)
  {
    var r, c := RoundTo100(x), CeilTo100(x);
    assert r == (r / 100) * 100 && c == (c / 100) * 100;
  }

  /**
   * Rounding to nearest can fall below the floor it rounds: 45,020 less 10%
   * is a floor of 40,518, which rounds to 40,500, while the ceiling gives 40,600.
   */
  lemma NearestCanUndercutFloor()
    ensures RawOffer(45020.0, 0.10) == 40518.0
    ensures RoundTo100(40518.0) == 40500 < 40518
    ensures CeilTo100(40518.0) == 40600
  {
    RoundTo100Unique(40518.0, 40500);
    CeilTo100Unique(40518.0, 40600);
  }

  /** A tie goes to the even hundred, which may be the lower one: 40,450 becomes 40,400. */
  lemma TieGoesToEvenHundred()
    ensures RoundTo100(40450.0) == 40400
    ensures RoundTo100(40550.0) == 40600
  {
    RoundTo100Unique(40450.0, 40400);
    RoundTo100Unique(40550.0, 40600);
  }
}
