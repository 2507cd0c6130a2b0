/** app.py `compare`: the `/compare?items=a,b,c` endpoint. Each wanted term
    picks, among the sample deals whose lower-cased item contains it, the
    one with the smallest `(unit_price or 9e9, price)`; the picks are
    totalled and grouped per store. */
module Compare {
  import opened Wrappers
  import opened Text
  import opened Seqs
  import opened Json
  import opened Normalize
  import opened Deals

  /** The 400 response `{"error": "missing items param"}`. */
  datatype CompareError = MissingItems

  /** A term as it appears in the wanted list: non-empty, no comma, no
      whitespace at either end, no upper-case ASCII letter. */
  predicate IsWantedTerm(t: string) {
    && t != [] && ',' !in t
    && !IsSpace(t[0]) && !IsSpace(t[|t| - 1])
    && forall i | 0 <= i < |t| :: !IsAsciiUpper(t[i])
  }

  /** `x.strip().lower()` when `x.strip()` is non-empty. */
  function WantedTerm(part: string): (r: Option<string>)
    ensures r.None? <==> Strip(part) == []
    ensures r.Some? ==> r.value == Lower(Strip(part)) && |r.value| == |Strip(part)|
  {
    var t := Strip(part);
    if t == [] then None else Some(Lower(t))
  }

  lemma StripKeepsOut(s: string, c: char)
    requires c !in s
    ensures c !in Strip(s)
  {
    var l := StripLeft(s);
    assert l == s[|s| - |l|..];
    assert c !in l;
    assert StripRight(l) == l[..|StripRight(l)|];
  }

  lemma LowerKeepsShape(t: string)
    requires t != [] && !IsSpace(t[0]) && !IsSpace(t[|t| - 1]) && ',' !in t
    ensures IsWantedTerm(Lower(t))
  {
    var r := Lower(t);
    assert forall i | 0 <= i < |r| :: r[i] != ',' by {
      forall i | 0 <= i < |r| ensures r[i] != ',' {
        assert t[i] in t;
      }
    }
  }

  /** A term taken from a comma-free part is a wanted term. */
  lemma WantedTermShape(part: string)
    requires ',' !in part && Strip(part) != []
    ensures IsWantedTerm(WantedTerm(part).value)
  {
    StripKeepsOut(part, ',');
    LowerKeepsShape(Strip(part));
  }

  /** `[x.strip().lower() for x in items_q.split(",") if x.strip()]`. */
  function Wanted(q: string): (r: seq<string>)
    ensures forall k | 0 <= k < |r| :: IsWantedTerm(r[k])
  {
    var parts := Split(q, ',');
    var r := Somes(parts, WantedTerm);
    SomesFrom(parts, WantedTerm);
    assert forall k | 0 <= k < |r| :: IsWantedTerm(r[k]) by {
      forall k | 0 <= k < |r|
        ensures IsWantedTerm(r[k])
      {
        var j :| 0 <= j < |parts| && WantedTerm(parts[j]) == Some(r[k]);
        WantedTermShape(parts[j]);
      }
    }
    r
  }

  /** A part of the query that a wanted term comes from. */
  predicate NonBlankPart(p: string) {
    Strip(p) != []
  }

  /** The `k`-th wanted term is the `k`-th non-blank part of the query,
      stripped and lower-cased. */
  lemma WantedFollowsParts(q: string)
    ensures |Wanted(q)| == |Filter(Split(q, ','), NonBlankPart)|
    ensures forall k | 0 <= k < |Wanted(q)| ::
              Wanted(q)[k] == Lower(Strip(Filter(Split(q, ','), NonBlankPart)[k]))
  {
    SomesIsFilter(Split(q, ','), WantedTerm, NonBlankPart);
  }

  /** Joining wanted terms with commas and parsing the query gives the
      terms back. */
  lemma WantedOfJoin(terms: seq<string>)
    requires |terms| >= 1
    requires forall k | 0 <= k < |terms| :: IsWantedTerm(terms[k])
    ensures Wanted(Join(terms, ',')) == terms
  {
    SplitJoin(terms, ',');
    forall k | 0 <= k < |terms|
      ensures WantedTerm(terms[k]) == Some(terms[k])
    {
      StripOfStripped(terms[k]);
      LowerOfLower(terms[k]);
    }
    SomesOfFixed(terms, WantedTerm);
  }

  /** The `unit_qty` value as `d.get("unit_qty")` returns it. */
  function QtyJson(q: Option<real>): Json {
    match q case Some(n) => JNum(n) case None => JNull
  }

  /** The `unit_price` attached to every sample deal before the picking. */
  function UnitPrice(d: Deal): Option<real> {
    ComputeUnitPrice(JNum(d.price), QtyJson(d.unitQty))
  }

  /** `9e9`, the sort key of a deal without a unit price. */
  const NoUnitPrice: real := 9000000000.0

  datatype SortKey = SortKey(unit: real, price: real)

  function KeyFor(d: Deal): SortKey {
    SortKey(match UnitPrice(d) case Some(u) => u case None => NoUnitPrice, d.price)
  }

  /** Python's tuple order on `(unit, price)`. */
  predicate Less(a: SortKey, b: SortKey) {
    a.unit < b.unit || (a.unit == b.unit && a.price < b.price)
  }

  /** `w in d["item"].lower()`. */
  predicate MatchesTerm(w: string, d: Deal) {
    Contains(Lower(d.item), w)
  }

  function Matcher(w: string): Deal -> bool {
    d => MatchesTerm(w, d)
  }

  /** `[d for d in deals if w in d["item"].lower()]`. */
  function Candidates(w: string, deals: seq<Deal>): (cs: seq<Deal>)
    ensures forall d | d in cs :: d in deals && MatchesTerm(w, d)
    ensures forall d | d in deals && MatchesTerm(w, d) :: d in cs
    ensures IsSubseq(cs, deals)
  {
    FilterIsSubseq(deals, Matcher(w));
    Filter(deals, Matcher(w))
  }

  /** What `sorted(cs, key=...)[0]` returns for a stable sort: an element
      no element is strictly below, and strictly below every earlier one. */
  predicate IsStableMin(cs: seq<Deal>, i: nat) {
    && i < |cs|
    && (forall j | 0 <= j < |cs| :: !Less(KeyFor(cs[j]), KeyFor(cs[i])))
    && (forall j | 0 <= j < i :: Less(KeyFor(cs[i]), KeyFor(cs[j])))
  }

  /** At most one position is the stable minimum. */
  lemma StableMinUnique(cs: seq<Deal>, i: nat, j: nat)
    requires IsStableMin(cs, i) && IsStableMin(cs, j)
    ensures i == j
  {
    if i < j {
      NoStrictlyLower(cs, i, j);
      assert false;
    } else if j < i {
      NoStrictlyLower(cs, j, i);
      assert false;
    }
  }

  /** A later stable minimum would be strictly below an earlier one. */
  lemma NoStrictlyLower(cs: seq<Deal>, a: nat, b: nat)
    requires a < b && IsStableMin(cs, b)
    ensures Less(KeyFor(cs[b]), KeyFor(cs[a]))
  {
  }

  /** The position of the first element with the smallest key. */
  function BestIndex(cs: seq<Deal>): (i: nat)
    requires cs != []
    ensures IsStableMin(cs, i)
  {
    if |cs| == 1 then 0
    else
      var b := 1 + BestIndex(cs[1..]);
      assert forall j | 1 <= j < |cs| :: cs[j] == cs[1..][j - 1];
      if Less(KeyFor(cs[b]), KeyFor(cs[0])) then b else 0
  }

  /** The pick for one wanted term, or None when no deal matches it. */
  function PickFor(w: string, deals: seq<Deal>): (r: Option<Deal>)
    ensures r.None? <==> forall d | d in deals :: !MatchesTerm(w, d)
    ensures r.Some? ==> exists i: nat | IsStableMin(Candidates(w, deals), i) :: r.value == Candidates(w, deals)[i]
  {
    var cs := Candidates(w, deals);
    if cs == [] then None
    else
      assert cs[0] in cs;
      Some(cs[BestIndex(cs)])
  }

  /** A pick is a sample deal matching its term. */
  lemma PickMatches(w: string, deals: seq<Deal>)
    requires PickFor(w, deals).Some?
    ensures PickFor(w, deals).value in deals && MatchesTerm(w, PickFor(w, deals).value)
  {
    var cs := Candidates(w, deals);
    var i: nat :| IsStableMin(cs, i) && PickFor(w, deals).value == cs[i];
    assert cs[i] in cs;
  }

  function Picker(deals: seq<Deal>): string -> Option<Deal> {
    w => PickFor(w, deals)
  }

  predicate HasCandidate(deals: seq<Deal>, w: string) {
    exists d | d in deals :: MatchesTerm(w, d)
  }

  function CandidateTest(deals: seq<Deal>): string -> bool {
    w => HasCandidate(deals, w)
  }

  /** The `picks` loop: one pick per wanted term that has a candidate. */
  function Picks(wanted: seq<string>, deals: seq<Deal>): seq<Deal> {
    Somes(wanted, Picker(deals))
  }

  /** The `k`-th pick was chosen for the `k`-th wanted term that has a
      candidate: it is a sample deal whose lower-cased item contains that
      term, and the term's stable minimum. Terms without a candidate add
      no pick. */
  /** `p` is the stable minimum among the candidates of `w`. */
  ghost predicate IsStablePick(w: string, deals: seq<Deal>, p: Deal) {
    exists i: nat | IsStableMin(Candidates(w, deals), i) :: p == Candidates(w, deals)[i]
  }

  lemma PicksFollowTerms(wanted: seq<string>, deals: seq<Deal>)
    ensures |Picks(wanted, deals)| == |Filter(wanted, CandidateTest(deals))|
    ensures forall k | 0 <= k < |Picks(wanted, deals)| ::
              var w := Filter(wanted, CandidateTest(deals))[k];
              var p := Picks(wanted, deals)[k];
              && p in deals && MatchesTerm(w, p)
              && IsStablePick(w, deals, p)
  {
    SomesIsFilter(wanted, Picker(deals), CandidateTest(deals));
    var ts := Filter(wanted, CandidateTest(deals));
    var ps := Picks(wanted, deals);
    forall k | 0 <= k < |ps|
      ensures ps[k] in deals && MatchesTerm(ts[k], ps[k])
    {
      assert PickFor(ts[k], deals) == Some(ps[k]);
      PickMatches(ts[k], deals);
    }
  }

  /** `sum([p["price"] for p in picks])`, added left to right; 0 for no picks. */
  function Total(ps: seq<Deal>): real {
    if ps == [] then 0.0 else Total(ps[..|ps| - 1]) + ps[|ps| - 1].price
  }

  /** One entry of `by_store`. */
  datatype StoreGroup = StoreGroup(storeId: string, items: seq<string>, subtotal: real)

  /** The position of the group for `s`, or `|gs|` when there is none. */
  function GroupIndex(gs: seq<StoreGroup>, s: string): (i: nat)
    ensures i <= |gs|
    ensures i < |gs| ==> gs[i].storeId == s
    ensures forall j | 0 <= j < i :: gs[j].storeId != s
  {
    if gs == [] then 0 else if gs[0].storeId == s then 0 else 1 + GroupIndex(gs[1..], s)
  }

  /** One pass of the `store_breakdown` loop: `setdefault`, then append the
      item and add the price. */
  function AddPick(gs: seq<StoreGroup>, p: Deal): seq<StoreGroup> {
    var i := GroupIndex(gs, p.storeId);
    if i == |gs| then gs + [StoreGroup(p.storeId, [p.item], 0.0 + p.price)]
    else gs[i := StoreGroup(p.storeId, gs[i].items + [p.item], gs[i].subtotal + p.price)]
  }

  /** `store_breakdown` after the loop over `ps`. */
  function ByStore(ps: seq<Deal>): seq<StoreGroup> {
    if ps == [] then [] else AddPick(ByStore(ps[..|ps| - 1]), ps[|ps| - 1])
  }

  /** Reference definition: the stores of `ps`, each once, in the order of
      their first pick. */
  function StoreOrder(ps: seq<Deal>): (o: seq<string>)
    ensures forall i, j | 0 <= i < j < |o| :: o[i] != o[j]
    ensures forall s :: s in o <==> exists k | 0 <= k < |ps| :: ps[k].storeId == s
  {
    if ps == [] then []
    else
      var init := ps[..|ps| - 1];
      var o := StoreOrder(init);
      assert forall k | 0 <= k < |init| :: init[k] == ps[k];
      if ps[|ps| - 1].storeId in o then o else o + [ps[|ps| - 1].storeId]
  }

  /** Reference definition: the items of the picks at store `s`, in pick order. */
  function ItemsAt(ps: seq<Deal>, s: string): seq<string> {
    if ps == [] then []
    else ItemsAt(ps[..|ps| - 1], s) + (if ps[|ps| - 1].storeId == s then [ps[|ps| - 1].item] else [])
  }

  /** Reference definition: the price sum of the picks at store `s`. */
  function SubtotalAt(ps: seq<Deal>, s: string): real {
    if ps == [] then 0.0
    else SubtotalAt(ps[..|ps| - 1], s) + (if ps[|ps| - 1].storeId == s then ps[|ps| - 1].price else 0.0)
  }

  function GroupOf(ps: seq<Deal>, s: string): StoreGroup {
    StoreGroup(s, ItemsAt(ps, s), SubtotalAt(ps, s))
  }

  lemma {:induction false} AbsentStore(ps: seq<Deal>, s: string)
    requires s !in StoreOrder(ps)
    ensures ItemsAt(ps, s) == [] && SubtotalAt(ps, s) == 0.0
  {
    if ps != [] {
      var init := ps[..|ps| - 1];
      assert forall k | 0 <= k < |init| :: init[k] == ps[k];
      AbsentStore(init, s);
    }
  }

  /** `by_store` has one entry per store that has a pick, in the order of
      the store's first pick; the entry lists exactly that store's picked
      items in pick order, and its subtotal is their price sum. */
  lemma {:induction false} ByStoreIsGrouping(ps: seq<Deal>)
    ensures |ByStore(ps)| == |StoreOrder(ps)|
    ensures forall k | 0 <= k < |ByStore(ps)| :: ByStore(ps)[k] == GroupOf(ps, StoreOrder(ps)[k])
  {
    if ps != [] {
      var init := ps[..|ps| - 1];
      var p := ps[|ps| - 1];
      ByStoreIsGrouping(init);
      var gs := ByStore(init);
      var o := StoreOrder(init);
      var i := GroupIndex(gs, p.storeId);
      if i == |gs| {
        AbsentStore(init, p.storeId);
        assert ItemsAt(init, p.storeId) + [p.item] == [p.item];
      } else {
        assert o[i] == p.storeId;
      }
    }
  }

  function SumSubtotals(gs: seq<StoreGroup>): real {
    if gs == [] then 0.0 else SumSubtotals(gs[..|gs| - 1]) + gs[|gs| - 1].subtotal
  }

  lemma {:induction false} SumSubtotalsUpdate(gs: seq<StoreGroup>, i: nat, g: StoreGroup)
    requires i < |gs|
    ensures SumSubtotals(gs[i := g]) == SumSubtotals(gs) - gs[i].subtotal + g.subtotal
  {
    var n := |gs| - 1;
    if i < n {
      assert gs[i := g][..n] == gs[..n][i := g];
      SumSubtotalsUpdate(gs[..n], i, g);
    } else {
      assert gs[i := g][..n] == gs[..n];
    }
  }

  lemma SumSubtotalsAppend(gs: seq<StoreGroup>, g: StoreGroup)
    ensures SumSubtotals(gs + [g]) == SumSubtotals(gs) + g.subtotal
  {
    assert (gs + [g])[..|gs|] == gs;
  }

  /** The subtotals of `by_store` add up to `estimated_total`. */
  lemma {:induction false} SubtotalsAddUp(ps: seq<Deal>)
    ensures SumSubtotals(ByStore(ps)) == Total(ps)
  {
    if ps != [] {
      var init := ps[..|ps| - 1];
      var p := ps[|ps| - 1];
      SubtotalsAddUp(init);
      var gs := ByStore(init);
      assert ByStore(ps) == AddPick(gs, p);
      assert Total(ps) == Total(init) + p.price;
      var i := GroupIndex(gs, p.storeId);
      if i == |gs| {
        var g := StoreGroup(p.storeId, [p.item], 0.0 + p.price);
        assert AddPick(gs, p) == gs + [g];
        SumSubtotalsAppend(gs, g);
      } else {
        var g := StoreGroup(p.storeId, gs[i].items + [p.item], gs[i].subtotal + p.price);
        assert AddPick(gs, p) == gs[i := g];
        SumSubtotalsUpdate(gs, i, g);
      }
    }
  }

  /** The JSON body of a successful response. */
  datatype CompareResponse = CompareResponse(
    requestedItems: seq<string>,
    picks: seq<Deal>,
    totalItemsFound: nat,
    estimatedTotal: real,
    byStore: seq<StoreGroup>)

  /** `compare()` on the `items` parameter (default "") and the sample deals. */
  function CompareItems(itemsQuery: string, deals: seq<Deal>): (r: Result<CompareResponse, CompareError>)
    ensures r.Failure? <==> itemsQuery == []
    ensures r.Success? ==> forall k | 0 <= k < |r.value.requestedItems| :: IsWantedTerm(r.value.requestedItems[k])
    ensures r.Success? ==> r.value.requestedItems == Wanted(itemsQuery)
  {
    if itemsQuery == [] then Failure(MissingItems)
    else
      var wanted := Wanted(itemsQuery);
      var picks := Picks(wanted, deals);
      Success(CompareResponse(wanted, picks, |picks|, Total(picks), ByStore(picks)))
  }

  /** What a successful response promises: the requested items are the
      wanted terms of the query; one pick per requested term that has a
      candidate, each containing its term and its term's stable minimum;
      the total is the sum of the picks' prices, 0 with no picks; the
      store subtotals add up to the total. */
  lemma CompareResponseFacts(itemsQuery: string, deals: seq<Deal>)
    requires itemsQuery != []
    ensures var r := CompareItems(itemsQuery, deals).value;
            var found := Filter(r.requestedItems, CandidateTest(deals));
            && r.totalItemsFound == |r.picks| == |found|
            && r.requestedItems == Wanted(itemsQuery)
            && (forall k | 0 <= k < |r.picks| :: r.picks[k] in deals && MatchesTerm(found[k], r.picks[k]))
            && r.picks == Picks(r.requestedItems, deals)
            && (forall k | 0 <= k < |r.picks| :: IsStablePick(found[k], deals, r.picks[k]))
            && r.estimatedTotal == Total(r.picks)
            && r.byStore == ByStore(r.picks)
            && (r.picks == [] ==> r.estimatedTotal == 0.0 && r.byStore == [])
            && SumSubtotals(r.byStore) == r.estimatedTotal
  {
    var r := CompareItems(itemsQuery, deals).value;
    PicksFollowTerms(r.requestedItems, deals);
    SubtotalsAddUp(r.picks);
  }
}
