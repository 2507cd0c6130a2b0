/** scrapers/freshmarket.py `_extract_deals_from_html`: selector tiers are
    scanned in order, a `seen` set of `(name.lower(), price)` keys is shared
    across tiers, and scanning stops after the first tier that produced
    anything. */
module FreshMarketTiers {
  import opened Wrappers
  import opened Text
  import opened Dom
  import opened PriceText
  import opened CardRules
  import opened Deals
  import Seqs

  const StoreId: string := "fresh-market-24503"
  const AdUrl: string := "https://www.thefreshmarket.com/features/weekly-features"
  const PromoText: string := "Weekly Features"

  /** `".c-card, .card, .grid__item"`, then `"li, article, div"`. */
  const Tiers: seq<seq<Simple>> := [
    [ByClass("c-card"), ByClass("card"), ByClass("grid__item")],
    [ByTag("li"), ByTag("article"), ByTag("div")]
  ]

  /** `"h1,h2,h3,h4,strong,.title,.card__title"`. */
  const NameSelectors: seq<Simple> :=
    [ByTag("h1"), ByTag("h2"), ByTag("h3"), ByTag("h4"), ByTag("strong"), ByClass("title"), ByClass("card__title")]

  /** A card that passed the price and name checks, before truncation. */
  datatype Candidate = Candidate(name: string, cents: nat, sizeText: string)

  /** The key is taken from the full, untruncated name. */
  function CandKey(c: Candidate): Key {
    Key(Lower(c.name), CentsToReal(c.cents))
  }

  /** The candidate a card yields, before the `seen` check. */
  function CardCandidate(card: Node): (r: Option<Candidate>)
    ensures r.Some? <==>
              && '$' in CardText(card)
              && ParsePrice(CardText(card)).Some? && ParsePrice(CardText(card)).value != 0
              && CardName(card, CardText(card), NameSelectors).Some?
    ensures r.Some? ==>
              && r.value.cents == ParsePrice(CardText(card)).value && r.value.cents > 0
              && r.value.name == CardName(card, CardText(card), NameSelectors).value
              && r.value.sizeText == SizeHint(CardText(card))
  {
    var text := CardText(card);
    if '$' !in text then None
    else
      match ParsePrice(text)
      case None => None
      case Some(c) =>
        if c == 0 then None
        else
          match CardName(card, text, NameSelectors)
          case None => None
          case Some(name) => Some(Candidate(name, c, SizeHint(text)))
  }

  predicate UniqueCandKeys(cs: seq<Candidate>) {
    forall i, j | 0 <= i < j < |cs| :: CandKey(cs[i]) != CandKey(cs[j])
  }

  function CandKeys(cs: seq<Candidate>): set<Key> {
    set i | 0 <= i < |cs| :: CandKey(cs[i])
  }

  /** The candidate of each card of a tier, in document order. */
  function CardCandidates(cards: seq<Node>): (cs: seq<Option<Candidate>>)
    ensures |cs| == |cards|
    ensures forall k | 0 <= k < |cards| :: cs[k] == CardCandidate(cards[k])
  {
    Seqs.Map(cards, CardCandidate)
  }

  /** One tier's loop over its cards' candidates: a candidate whose key is
      in `seen` is skipped, otherwise it is emitted and its key recorded. */
  function ScanCandidates(cs: seq<Option<Candidate>>, seen: set<Key>): (out: seq<Candidate>)
    ensures UniqueCandKeys(out)
    ensures forall k | 0 <= k < |out| :: CandKey(out[k]) !in seen
    ensures forall k | 0 <= k < |out| :: exists j | 0 <= j < |cs| :: cs[j] == Some(out[k])
  {
    if cs == [] then []
    else
      var keep := cs[0].Some? && CandKey(cs[0].value) !in seen;
      var rest := ScanCandidates(cs[1..], if keep then seen + {CandKey(cs[0].value)} else seen);
      assert forall k | 0 <= k < |rest| :: exists j | 1 <= j < |cs| :: cs[j] == Some(rest[k]) by {
        forall k | 0 <= k < |rest|
          ensures exists j | 1 <= j < |cs| :: cs[j] == Some(rest[k])
        {
          var j :| 0 <= j < |cs[1..]| && cs[1..][j] == Some(rest[k]);
          assert cs[1..][j] == cs[j + 1];
        }
      }
      if keep then
        var out := [cs[0].value] + rest;
        assert forall k | 1 <= k < |out| :: out[k] == rest[k - 1];
        out
      else rest
  }

  function ScanTier(cards: seq<Node>, seen: set<Key>): (out: seq<Candidate>)
    ensures UniqueCandKeys(out)
    ensures forall k | 0 <= k < |out| :: CandKey(out[k]) !in seen
    ensures forall k | 0 <= k < |out| :: exists j | 0 <= j < |cards| :: CardCandidate(cards[j]) == Some(out[k])
  {
    ScanCandidates(CardCandidates(cards), seen)
  }

  /** A tier's loop drops no candidate with a fresh key: an offered
      candidate whose key is not in `seen` has its key emitted, at `k`. */
  lemma {:induction false} ScanEmitsFreshKey(cs: seq<Option<Candidate>>, seen: set<Key>, j: nat) returns (k: nat)
    requires j < |cs| && cs[j].Some? && CandKey(cs[j].value) !in seen
    ensures k < |ScanCandidates(cs, seen)| && CandKey(ScanCandidates(cs, seen)[k]) == CandKey(cs[j].value)
    decreases j
  {
    var keep := cs[0].Some? && CandKey(cs[0].value) !in seen;
    var seen' := if keep then seen + {CandKey(cs[0].value)} else seen;
    var rest := ScanCandidates(cs[1..], seen');
    var out := ScanCandidates(cs, seen);
    var head := if keep then [cs[0].value] else [];
    ScanCons(cs, seen);
    if j == 0 || CandKey(cs[j].value) in seen' {
      k := 0;
      assert out[0] == cs[0].value;
    } else {
      assert cs[1..][j - 1] == cs[j];
      var k' := ScanEmitsFreshKey(cs[1..], seen', j - 1);
      k := k' + |head|;
      assert out[k] == rest[k'];
    }
  }

  /** One step of a tier's loop. */
  lemma ScanCons(cs: seq<Option<Candidate>>, seen: set<Key>)
    requires cs != []
    ensures var keep := cs[0].Some? && CandKey(cs[0].value) !in seen;
      ScanCandidates(cs, seen) ==
        (if keep then [cs[0].value] else []) + ScanCandidates(cs[1..], if keep then seen + {CandKey(cs[0].value)} else seen)
  {
  }

  /** The same for one tier's cards. */
  lemma TierEmitsFreshKey(cards: seq<Node>, seen: set<Key>, j: nat) returns (k: nat)
    requires j < |cards| && CardCandidate(cards[j]).Some? && CandKey(CardCandidate(cards[j]).value) !in seen
    ensures k < |ScanTier(cards, seen)| && CandKey(ScanTier(cards, seen)[k]) == CandKey(CardCandidate(cards[j]).value)
  {
    k := ScanEmitsFreshKey(CardCandidates(cards), seen, j);
  }

  /** The keys of the candidates offered; skipped cards offer none. */
  function OfferedKeys(cs: seq<Option<Candidate>>): set<Key> {
    if cs == [] then {} else (if cs[0].Some? then {CandKey(cs[0].value)} else {}) + OfferedKeys(cs[1..])
  }

  /** Reference definition of a tier's loop: in card order, each offered
      candidate whose key is neither in `seen` nor the key of an earlier
      offered candidate. */
  function FirstNew(cs: seq<Option<Candidate>>, seen: set<Key>): seq<Candidate>
    decreases |cs|
  {
    if cs == [] then []
    else
      var init, last := cs[..|cs| - 1], cs[|cs| - 1];
      FirstNew(init, seen) + (if last.Some? && CandKey(last.value) !in seen + OfferedKeys(init) then [last.value] else [])
  }

  /** A candidate offered after the others is emitted exactly when its key is
      neither in `seen` nor offered before. */
  lemma {:induction false} ScanSnoc(cs: seq<Option<Candidate>>, x: Option<Candidate>, seen: set<Key>)
    ensures ScanCandidates(cs + [x], seen) ==
              ScanCandidates(cs, seen) + (if x.Some? && CandKey(x.value) !in seen + OfferedKeys(cs) then [x.value] else [])
    decreases |cs|
  {
    if cs == [] {
      assert [] + [x] == [x];
      assert [x][1..] == [];
    } else {
      var c := cs[0];
      var keep := c.Some? && CandKey(c.value) !in seen;
      var seen' := if keep then seen + {CandKey(c.value)} else seen;
      assert (cs + [x])[0] == c;
      assert (cs + [x])[1..] == cs[1..] + [x];
      ScanSnoc(cs[1..], x, seen');
      assert seen' + OfferedKeys(cs[1..]) == seen + OfferedKeys(cs);
      var tail := if x.Some? && CandKey(x.value) !in seen + OfferedKeys(cs) then [x.value] else [];
      var rest := ScanCandidates(cs[1..], seen');
      assert ScanCandidates(cs + [x], seen) == (if keep then [c.value] else []) + (rest + tail);
      assert ScanCandidates(cs, seen) == (if keep then [c.value] else []) + rest;
    }
  }

  /** A tier's loop is the first-new reference. */
  lemma {:induction false} ScanIsFirstNew(cs: seq<Option<Candidate>>, seen: set<Key>)
    ensures ScanCandidates(cs, seen) == FirstNew(cs, seen)
    decreases |cs|
  {
    if cs != [] {
      var init := cs[..|cs| - 1];
      assert cs == init + [cs[|cs| - 1]];
      ScanSnoc(init, cs[|cs| - 1], seen);
      ScanIsFirstNew(init, seen);
    }
  }

  /** The output of a tier is the first-new reference over its cards' candidates. */
  lemma TierIsFirstNew(cards: seq<Node>, seen: set<Key>)
    ensures ScanTier(cards, seen) == FirstNew(CardCandidates(cards), seen)
  {
    ScanIsFirstNew(CardCandidates(cards), seen);
  }

  /** Appending a tier's output keeps the keys unique and recorded. */
  lemma AppendFound(items: seq<Candidate>, found: seq<Candidate>, seen: set<Key>)
    requires UniqueCandKeys(items) && CandKeys(items) <= seen
    requires UniqueCandKeys(found) && forall k | 0 <= k < |found| :: CandKey(found[k]) !in seen
    ensures UniqueCandKeys(items + found)
    ensures CandKeys(items + found) <= seen + CandKeys(found)
  {
    var items' := items + found;
    forall i, j | 0 <= i < j < |items'|
      ensures CandKey(items'[i]) != CandKey(items'[j])
    {
      if j >= |items| {
        assert items'[j] == found[j - |items|];
        if i < |items| {
          assert CandKey(items[i]) in CandKeys(items);
        } else {
          assert items'[i] == found[i - |items|];
        }
      }
    }
    forall k | k in CandKeys(items')
      ensures k in seen + CandKeys(found)
    {
      var i :| 0 <= i < |items'| && CandKey(items'[i]) == k;
      if i >= |items| {
        assert items'[i] == found[i - |items|];
      }
    }
  }

  /** The loop over the tiers, with the items and `seen` keys collected so far. */
  function RunTiers(doc: Document, tiers: seq<seq<Simple>>, items: seq<Candidate>, seen: set<Key>): (r: seq<Candidate>)
    requires UniqueCandKeys(items) && CandKeys(items) <= seen
    ensures UniqueCandKeys(r)
    ensures items <= r
  {
    if tiers == [] then items
    else
      var found := ScanTier(Select(AllNodes(doc), tiers[0]), seen);
      var items' := items + found;
      AppendFound(items, found, seen);
      if items' != [] then items'
      else RunTiers(doc, tiers[1..], items', seen + CandKeys(found))
  }

  function ToDeal(c: Candidate): Deal {
    Deal(StoreId, Take(c.name, MaxItemLength), Some(c.sizeText), CentsToReal(c.cents), None, None, PromoText, AdUrl)
  }

  function MapToDeals(cs: seq<Candidate>): (ds: seq<Deal>)
    ensures |ds| == |cs|
    ensures forall k | 0 <= k < |cs| :: ds[k] == ToDeal(cs[k])
  {
    if cs == [] then [] else [ToDeal(cs[0])] + MapToDeals(cs[1..])
  }

  /** The candidates `_extract_deals_from_html` turns into deals. */
  function TieredCandidates(doc: Document): (r: seq<Candidate>)
    ensures UniqueCandKeys(r)
  {
    RunTiers(doc, Tiers, [], {})
  }

  /** `_extract_deals_from_html(html)` on the parsed document. */
  function ExtractDeals(doc: Document): (r: seq<Deal>)
    ensures |r| == |TieredCandidates(doc)|
    ensures forall k | 0 <= k < |r| :: r[k] == ToDeal(TieredCandidates(doc)[k])
  {
    MapToDeals(TieredCandidates(doc))
  }

  function TierCards(doc: Document, t: nat): seq<Node>
    requires t < |Tiers|
  {
    Select(AllNodes(doc), Tiers[t])
  }

  /** A tier that yields something ends the loop with its output. */
  lemma RunTiersStops(doc: Document, tiers: seq<seq<Simple>>)
    requires tiers != []
    requires ScanTier(Select(AllNodes(doc), tiers[0]), {}) != []
    ensures RunTiers(doc, tiers, [], {}) == ScanTier(Select(AllNodes(doc), tiers[0]), {})
  {
    var found := ScanTier(Select(AllNodes(doc), tiers[0]), {});
    assert [] + found == found;
  }

  /** A tier that yields nothing passes on to the next with nothing recorded. */
  lemma RunTiersPasses(doc: Document, tiers: seq<seq<Simple>>)
    requires tiers != []
    requires ScanTier(Select(AllNodes(doc), tiers[0]), {}) == []
    ensures RunTiers(doc, tiers, [], {}) == RunTiers(doc, tiers[1..], [], {})
  {
    var found := ScanTier(Select(AllNodes(doc), tiers[0]), {});
    var none: set<Key> := {};
    EmptyKeys(found);
    assert [] + found == [];
    assert none + CandKeys(found) == none;
  }

  lemma EmptyKeys(found: seq<Candidate>)
    requires found == []
    ensures CandKeys(found) == {}
  {
  }

  /** The tiers are tried in order: the first tier's cards decide the result
      when they yield anything, and only otherwise is the second tier scanned. */
  lemma TierFallback(doc: Document)
    ensures ScanTier(TierCards(doc, 0), {}) != [] ==> TieredCandidates(doc) == ScanTier(TierCards(doc, 0), {})
    ensures ScanTier(TierCards(doc, 0), {}) == [] ==> TieredCandidates(doc) == ScanTier(TierCards(doc, 1), {})
  {
    var tiers := Tiers;
    if ScanTier(TierCards(doc, 0), {}) != [] {
      RunTiersStops(doc, tiers);
    } else {
      RunTiersPasses(doc, tiers);
      var rest := tiers[1..];
      assert rest == [Tiers[1]];
      if ScanTier(TierCards(doc, 1), {}) != [] {
        RunTiersStops(doc, rest);
      } else {
        RunTiersPasses(doc, rest);
        assert rest[1..] == [];
      }
    }
  }

  predicate WellFormed(d: Deal) {
    && d.price > 0.0
    && 3 <= |d.item| <= MaxItemLength
    && d.unitQty.None? && d.unit.None?
    && d.storeId == StoreId
  }

  /** What the price and name checks guarantee of a candidate. */
  predicate Acceptable(c: Candidate) {
    c.cents > 0 && |c.name| >= 3
  }

  lemma CardCandidateAcceptable(card: Node)
    ensures CardCandidate(card).Some? ==> Acceptable(CardCandidate(card).value)
  {
  }

  lemma CardCandidatesAcceptable(cards: seq<Node>)
    ensures forall j | 0 <= j < |CardCandidates(cards)| ::
              CardCandidates(cards)[j].Some? ==> Acceptable(CardCandidates(cards)[j].value)
  {
    forall j | 0 <= j < |cards|
      ensures CardCandidates(cards)[j].Some? ==> Acceptable(CardCandidates(cards)[j].value)
    {
      CardCandidateAcceptable(cards[j]);
    }
  }

  /** The scan emits only candidates it was offered. */
  lemma ScanKeepsAcceptable(cs: seq<Option<Candidate>>, seen: set<Key>)
    requires forall j | 0 <= j < |cs| :: cs[j].Some? ==> Acceptable(cs[j].value)
    ensures forall k | 0 <= k < |ScanCandidates(cs, seen)| :: Acceptable(ScanCandidates(cs, seen)[k])
  {
    var out := ScanCandidates(cs, seen);
    forall k | 0 <= k < |out|
      ensures Acceptable(out[k])
    {
      var j :| 0 <= j < |cs| && cs[j] == Some(out[k]);
    }
  }

  /** Acceptable candidates turn into well-formed deals. */
  lemma DealsOfCandidatesWellFormed(cs: seq<Candidate>)
    requires forall k | 0 <= k < |cs| :: Acceptable(cs[k])
    ensures forall k | 0 <= k < |MapToDeals(cs)| :: WellFormed(MapToDeals(cs)[k])
  {
  }

  /** Any one tier's output, scanned from an empty `seen`, is well formed. */
  lemma TierDealsWellFormed(cards: seq<Node>)
    ensures forall k | 0 <= k < |MapToDeals(ScanTier(cards, {}))| :: WellFormed(MapToDeals(ScanTier(cards, {}))[k])
  {
    CardCandidatesAcceptable(cards);
    ScanKeepsAcceptable(CardCandidates(cards), {});
    DealsOfCandidatesWellFormed(ScanTier(cards, {}));
  }

  /** Every emitted deal carries a positive price, a 3 to 120 character
      item, no unit quantity or unit, and the Fresh Market store id. */
  lemma ExtractedDealsWellFormed(doc: Document)
    ensures forall k | 0 <= k < |ExtractDeals(doc)| :: WellFormed(ExtractDeals(doc)[k])
  {
    TierFallback(doc);
    if ScanTier(TierCards(doc, 0), {}) != [] {
      TierDealsWellFormed(TierCards(doc, 0));
    } else {
      TierDealsWellFormed(TierCards(doc, 1));
    }
  }
}
