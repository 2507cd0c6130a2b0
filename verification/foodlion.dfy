/** scrapers/foodlion.py `_extract_deals_from_html`: every `article`, `div`
    and `li` element is a candidate card; a card becomes a deal when its
    text has a `$` and a non-zero price; the result is de-duplicated. */
module FoodLion {
  import opened Wrappers
  import opened Text
  import opened Seqs
  import opened Dom
  import opened PriceText
  import opened CardRules
  import opened Deals

  const StoreId: string := "food-lion-24503"
  const AdUrl: string := "https://www.foodlion.com/savings/weekly-ad/grid-view"
  const PromoText: string := "Weekly Ad"

  const CardSelectors: seq<Simple> := [ByTag("article"), ByTag("div"), ByTag("li")]
  const NameSelectors: seq<Simple> := [ByTag("h2"), ByTag("h3"), ByTag("h4"), ByTag("p"), ByTag("div")]

  /** The deal one card yields, or None when the card is skipped. */
  function CardDeal(card: Node): (r: Option<Deal>)
    ensures r.Some? <==>
              && '$' in CardText(card)
              && ParsePrice(CardText(card)).Some? && ParsePrice(CardText(card)).value != 0
              && CardName(card, CardText(card), NameSelectors).Some?
    ensures r.Some? ==>
              && r.value.price == CentsToReal(ParsePrice(CardText(card)).value)
              && r.value.price > 0.0
              && r.value.item == Take(CardName(card, CardText(card), NameSelectors).value, MaxItemLength)
              && 3 <= |r.value.item| <= MaxItemLength
              && r.value.sizeText == Some(SizeHint(CardText(card)))
              && r.value.unitQty.None? && r.value.unit.None?
              && r.value.storeId == StoreId
  {
    var text := CardText(card);
    if '$' !in text then None
    else
      match ParsePrice(text)
      case None => None
      case Some(c) =>
        if c == 0 then None
        else
          match CardName(card, text, NameSelectors)
          case None => None
          case Some(name) =>
            Some(Deal(StoreId, Take(name, MaxItemLength), Some(SizeHint(text)), CentsToReal(c),
                      None, None, PromoText, AdUrl))
  }

  /** A card is kept when its text has a `$`, a non-zero price, and a usable name. */
  predicate Qualifies(card: Node) {
    && '$' in CardText(card)
    && ParsePrice(CardText(card)).Some? && ParsePrice(CardText(card)).value != 0
    && CardName(card, CardText(card), NameSelectors).Some?
  }

  /** The deal list before de-duplication: one deal per qualifying card, in
      document order; the `k`-th deal is the one the `k`-th qualifying card
      becomes. */
  function Candidates(cards: seq<Node>): (ds: seq<Deal>)
    ensures forall k | 0 <= k < |ds| :: exists j | 0 <= j < |cards| :: CardDeal(cards[j]) == Some(ds[k])
    ensures |ds| == |Filter(cards, Qualifies)|
    ensures forall k | 0 <= k < |ds| :: CardDeal(Filter(cards, Qualifies)[k]) == Some(ds[k])
  {
    SomesFrom(cards, CardDeal);
    SomesIsFilter(cards, CardDeal, Qualifies);
    Somes(cards, CardDeal)
  }

  function Cards(doc: Document): seq<Node> {
    Select(AllNodes(doc), CardSelectors)
  }

  /** `_extract_deals_from_html(html)` on the parsed document. */
  function ExtractDeals(doc: Document): (r: seq<Deal>)
    ensures UniqueKeys(r)
    ensures IsSubseq(r, Candidates(Cards(doc)))
    ensures KeysOf(r) == KeysOf(Candidates(Cards(doc)))
  {
    Dedupe(Candidates(Cards(doc)))
  }

  /** A positive price, a 3 to 120 character item, no unit quantity or
      unit, and the Food Lion store id. */
  predicate WellFormed(d: Deal) {
    && d.price > 0.0
    && 3 <= |d.item| <= MaxItemLength
    && d.unitQty.None? && d.unit.None?
    && d.storeId == StoreId
  }

  lemma CardDealWellFormed(card: Node)
    ensures CardDeal(card).Some? ==> WellFormed(CardDeal(card).value)
  {
  }

  /** Every emitted deal is well formed. */
  lemma ExtractedDealsWellFormed(doc: Document)
    ensures forall k | 0 <= k < |ExtractDeals(doc)| :: WellFormed(ExtractDeals(doc)[k])
  {
    var cards := Cards(doc);
    forall j | 0 <= j < |cards|
      ensures CardDeal(cards[j]).Some? ==> WellFormed(CardDeal(cards[j]).value)
    {
      CardDealWellFormed(cards[j]);
    }
    SomesAll(cards, CardDeal, WellFormed);
    SubseqAll(ExtractDeals(doc), Candidates(cards), WellFormed);
  }

  /** The surviving deals are the first occurrence of each key among the candidates. */
  lemma ExtractKeepsFirstOccurrences(doc: Document)
    ensures ExtractDeals(doc) == FirstOccurrences(Candidates(Cards(doc)))
  {
    DedupeIsFirstOccurrences(Candidates(Cards(doc)));
  }
}
