/** utils/normalize.py: decimal conversion that never raises, and the unit
    price `price / qty` used by the comparison. */
module Normalize {
  import opened Wrappers
  import opened Numbers
  import opened Json

  /** `Decimal(str(x))`, or None where that raises. `str` of None, of a bool
      or of a container is not decimal text, so those give None. */
  function SafeDecimal(x: Json): (r: Option<real>)
    ensures x.JNum? ==> r == Some(x.n)
    ensures x.JStr? ==> r == ParseDecimal(x.s)
    ensures x.JNull? || x.JBool? || x.JArr? || x.JObj? ==> r.None?
  {
    match x
    case JNum(n) => Some(n)
    case JStr(s) => ParseDecimal(s)
    case _ => None
  }

  /** `compute_unit_price(price, qty)`. */
  function ComputeUnitPrice(price: Json, qty: Json): (r: Option<real>)
    ensures r.Some? <==>
              && SafeDecimal(price).Some? && SafeDecimal(price).value != 0.0
              && SafeDecimal(qty).Some? && SafeDecimal(qty).value != 0.0
    ensures r.Some? ==> r.value * SafeDecimal(qty).value == SafeDecimal(price).value
  {
    Quotient(SafeDecimal(price), SafeDecimal(qty))
  }

  /** `p / q` when both converted and neither is zero. */
  function Quotient(p: Option<real>, q: Option<real>): (r: Option<real>)
    ensures r.Some? <==> p.Some? && p.value != 0.0 && q.Some? && q.value != 0.0
    ensures r.Some? ==> r.value * q.value == p.value
  {
    if p.None? || q.None? || p.value == 0.0 || q.value == 0.0 then None
    else
      QuotientTimes(p.value, q.value);
      Some(p.value / q.value)
  }

  /** Dividing and multiplying back by a non-zero divisor is the identity. */
  lemma QuotientTimes(p: real, q: real)
    requires q != 0.0
    ensures (p / q) * q == p
  {
  }

  /** A positive price over a positive quantity is a positive unit price. */
  lemma UnitPricePositive(p: real, q: real)
    requires p > 0.0 && q > 0.0
    ensures ComputeUnitPrice(JNum(p), JNum(q)) == Some(p / q)
    ensures p / q > 0.0
  {
  }

  /** A negative quantity is not rejected: the unit price comes out negative. */
  lemma UnitPriceNegativeQty(p: real, q: real)
    requires p > 0.0 && q < 0.0
    ensures ComputeUnitPrice(JNum(p), JNum(q)) == Some(p / q)
    ensures p / q < 0.0
  {
  }

  /** A missing quantity, a zero quantity and a zero price give no unit price. */
  lemma UnitPriceAbsent(p: real)
    ensures ComputeUnitPrice(JNum(p), JNull) == None
    ensures ComputeUnitPrice(JNum(p), JNum(0.0)) == None
    ensures ComputeUnitPrice(JNum(0.0), JNum(p)) == None
  {
  }
}
