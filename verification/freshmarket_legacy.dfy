/** freshmarket.py `_extract`: the older Fresh Market scraper. Every
    `article`, `div` and `li` element is a candidate card, the name comes
    only from an `h2`, `h3`, `h4` or `p` descendant (there is no fallback
    to the text before the `$`), no size hint is recorded and nothing is
    de-duplicated. */
module FreshMarketLegacy {
  import opened Wrappers
  import opened Text
  import opened Seqs
  import opened Dom
  import opened PriceText
  import opened CardRules
  import opened Deals
  import FoodLion

  const StoreId: string := "fresh-market-24503"
  const AdUrl: string := "https://www.thefreshmarket.com/features/weekly-features"
  const PromoText: string := "Weekly Ad"

  const CardSelectors: seq<Simple> := [ByTag("article"), ByTag("div"), ByTag("li")]
  const NameSelectors: seq<Simple> := [ByTag("h2"), ByTag("h3"), ByTag("h4"), ByTag("p")]

  /** A card is kept when its text has a `$`, a non-zero price, and a
      preferred descendant with a usable name. */
  predicate Qualifies(card: Node) {
    && '$' in CardText(card)
    && ParsePrice(CardText(card)).Some? && ParsePrice(CardText(card)).value != 0
    && NameByTags(card, NameSelectors).Some?
  }

  /** The record a card becomes, or None when the loop skips it; the
      record has no `size_text` key. */
  function CardDeal(card: Node): (r: Option<Deal>)
    ensures r.Some? <==> Qualifies(card)
    ensures r.Some? ==>
              && r.value.price == CentsToReal(ParsePrice(CardText(card)).value)
              && r.value.price > 0.0
              && r.value.item == Take(NameByTags(card, NameSelectors).value, MaxItemLength)
              && 3 <= |r.value.item| <= MaxItemLength
              && r.value.sizeText.None? && r.value.unitQty.None? && r.value.unit.None?
              && r.value.storeId == StoreId
  {
    var text := CardText(card);
    if '$' !in text then None
    else
      match ParsePrice(text)
      case None => None
      case Some(c) =>
        if c == 0 then None
        else
          match NameByTags(card, NameSelectors)
          case None => None
          case Some(name) =>
            Some(Deal(StoreId, Take(name, MaxItemLength), None, CentsToReal(c), None, None, PromoText, AdUrl))
  }

  function Cards(doc: Document): seq<Node> {
    Select(AllNodes(doc), CardSelectors)
  }

  /** `_extract(html)` on the parsed document. */
  function ExtractDeals(doc: Document): seq<Deal> {
    Somes(Cards(doc), CardDeal)
  }

  /** One record per qualifying card, in card order: the `k`-th record is
      the one the `k`-th qualifying card becomes. */
  lemma ExtractDealsFollowQualifyingCards(doc: Document)
    ensures |ExtractDeals(doc)| == |Filter(Cards(doc), Qualifies)|
    ensures forall k | 0 <= k < |ExtractDeals(doc)| ::
              CardDeal(Filter(Cards(doc), Qualifies)[k]) == Some(ExtractDeals(doc)[k])
  {
    SomesIsFilter(Cards(doc), CardDeal, Qualifies);
  }

  /** A positive price, a 3 to 120 character item, no size text, unit
      quantity or unit, and the Fresh Market store id. */
  predicate WellFormed(d: Deal) {
    && d.price > 0.0
    && 3 <= |d.item| <= MaxItemLength
    && d.sizeText.None? && d.unitQty.None? && d.unit.None?
    && d.storeId == StoreId
  }

  lemma CardDealWellFormed(card: Node)
    ensures CardDeal(card).Some? ==> WellFormed(CardDeal(card).value)
  {
  }

  /** Every emitted record is well formed. */
  lemma ExtractedDealsWellFormed(doc: Document)
    ensures forall k | 0 <= k < |ExtractDeals(doc)| :: WellFormed(ExtractDeals(doc)[k])
  {
    var cards := Cards(doc);
    forall j | 0 <= j < |cards|
      ensures CardDeal(cards[j]).Some? ==> WellFormed(CardDeal(cards[j]).value)
    {
      CardDealWellFormed(cards[j]);
    }
    SomesAll(cards, CardDeal, WellFormed);
  }

  /** The name search looks at a subset of the tags Food Lion's search
      looks at, so a name found here is also found there. */
  lemma NameFoundByFoodLion(card: Node)
    requires NameByTags(card, NameSelectors).Some?
    ensures NameByTags(card, FoodLion.NameSelectors).Some?
  {
    var mine := Select(Descendants(card), NameSelectors);
    var theirs := Select(Descendants(card), FoodLion.NameSelectors);
    var i :| 0 <= i < |mine| && HasNameText(mine[i]);
    forall n | Matches(n, NameSelectors)
      ensures Matches(n, FoodLion.NameSelectors)
    {
      NameTagIsFoodLionTag(n);
    }
    var j := SelectWeaken(Descendants(card), NameSelectors, FoodLion.NameSelectors, i);
    assert HasNameText(theirs[j]);
  }

  /** Each name selector here is also one of Food Lion's. */
  lemma NameTagIsFoodLionTag(n: Node)
    requires Matches(n, NameSelectors)
    ensures Matches(n, FoodLion.NameSelectors)
  {
    var k :| 0 <= k < |NameSelectors| && MatchesSimple(n, NameSelectors[k]);
    assert NameSelectors[k] == FoodLion.NameSelectors[k];
  }

  /** Every card this scraper keeps is also kept by the Food Lion card
      rules (before Food Lion's de-duplication), at the same price. */
  lemma QualifyingCardsKeptByFoodLion(card: Node)
    requires Qualifies(card)
    ensures FoodLion.CardDeal(card).Some?
    ensures FoodLion.CardDeal(card).value.price == CardDeal(card).value.price
  {
    NameFoundByFoodLion(card);
  }
}
