/** app.py `deals`: the `unit_price` the `/deals` endpoint attaches to each
    merged record, computed with `float` rather than with
    utils/normalize.py's `compute_unit_price`. */
module DealsListing {
  import opened Wrappers
  import opened Json
  import opened Normalize

  /** `float(price) / float(qty)` when `qty and price and float(qty) > 0`,
      and None otherwise or when a `float` call raises. */
  function ListedUnitPrice(price: Json, qty: Json): (r: Option<real>)
    ensures r.Some? <==>
              && Truthy(qty) && Truthy(price)
              && FloatOf(qty).Some? && FloatOf(qty).value > 0.0
              && FloatOf(price).Some?
    ensures r.Some? ==> r.value == FloatOf(price).value / FloatOf(qty).value
  {
    if !Truthy(qty) || !Truthy(price) then None
    else
      var q := FloatOf(qty);
      var p := FloatOf(price);
      if q.None? || q.value <= 0.0 || p.None? then None
      else Some(p.value / q.value)
  }

  /** Where both endpoints give a unit price, they give the same one. */
  lemma ListedAgreesWithCompare(price: Json, qty: Json)
    requires ListedUnitPrice(price, qty).Some? && ComputeUnitPrice(price, qty).Some?
    ensures ListedUnitPrice(price, qty) == ComputeUnitPrice(price, qty)
  {
    assert !price.JBool? && !qty.JBool?;
    assert FloatOf(qty) == SafeDecimal(qty) && FloatOf(price) == SafeDecimal(price);
  }

  /** For numeric fields with a non-zero price and a positive quantity the
      two endpoints agree. */
  lemma ListedMatchesCompareOnNumbers(p: real, q: real)
    requires p != 0.0 && q > 0.0
    ensures ListedUnitPrice(JNum(p), JNum(q)) == Some(p / q)
    ensures ComputeUnitPrice(JNum(p), JNum(q)) == Some(p / q)
  {
  }

  /** They differ on a negative quantity, which `/compare` divides by and
      `/deals` rejects, and on a `true` quantity, which `float` reads as 1
      and `Decimal(str(True))` rejects. */
  lemma ListedDiffersFromCompare(p: real, q: real)
    requires p != 0.0 && q < 0.0
    ensures ListedUnitPrice(JNum(p), JNum(q)) == None
    ensures ComputeUnitPrice(JNum(p), JNum(q)) == Some(p / q)
    ensures ListedUnitPrice(JNum(p), JBool(true)) == Some(p)
    ensures ComputeUnitPrice(JNum(p), JBool(true)) == None
  {
  }
}
