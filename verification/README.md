# grocery-compare, modelled in Dafny

grocery-compare is a small Flask service. It scrapes weekly grocery ads
(Food Lion, The Fresh Market) into deal records. It serves the merged
records on `/deals` and answers `/compare?items=a,b,c` with the cheapest
sample deal per wanted term. This project models the service's pure core
and proves what that core promises:

- **Prices from card text.** `_parse_price` has three identical copies:
  scrapers/foodlion.py, scrapers/freshmarket.py and freshmarket.py. It
  removes commas, then reads the first match of
  `\$?\s*([0-9]+(?:\.[0-9]{1,2})?)`. The model scans for the match by hand
  and works in integer cents. The scan is proved equal to a declarative
  description of the leftmost greedy match, and that match is unique.
- **The three HTML card extractors.**
  - Food Lion's `_extract_deals_from_html` keeps every card that has a `$`,
    a non-zero price and a usable name, then de-duplicates on
    `(item.lower(), price)`.
  - The tiered Fresh Market extractor shares one `seen` set across two
    selector tiers and stops after the first tier that yields anything.
  - The older `_extract` takes names from headings only and does not
    de-duplicate.
  - The card rules they share are the flattened card text, the name
    search, the fallback name before the `$`, and the size hint.
- **Strategies A, B and C of the Fresh Market route.**
  - `walk` feeds every JSON object with a truthy name and a non-None price
    to `add_item`. A walk is proved equal to that sequence of calls, made
    in order.
  - `add_item` has three outcomes: it rejects, appends a record, or raises.
    It raises when the size is truthy and not a string, because
    `(size_text or "").strip()` is evaluated outside the `try`.
  - A raise during strategy A (captured responses) escapes to the route's
    handler, which answers 500. The model returns `Failure(Aborted)`.
  - A raise during strategy B (embedded JSON) is swallowed by its `try`.
    The records appended before it are kept.
  - Strategy C, the card heuristics, runs only when A and B found nothing.
    The result is de-duplicated first-wins.
  - The code as written cannot save strategy A's records. `import re, json`
    inside strategy B's block makes `json` a local name of
    `run_and_save_both`. When A finds records, that block is skipped, and
    `json.dump` raises `UnboundLocalError`. See "Findings".
    `FreshMarketRoute.ScrapeFreshMarketAsWritten` models the code.
    `FreshMarketRoute.ScrapeFreshMarket` models the evident intent, and the
    route lemmas are stated about it.
- **`/compare`.**
  - The terms are parsed from the query.
  - Each term picks the stable minimum of `(unit_price or 9e9, price)`
    among the deals containing the term.
  - The total and the per-store grouping are computed, and the subtotals
    are proved to add up to the total.
  - `compute_unit_price` and `safe_decimal` from utils/normalize.py are
    modelled.
- **`/deals`.** The model covers the unit price attached to every merged
  record. Where both endpoints give a unit price, it equals the one
  `/compare` uses. Where they disagree, the inputs are exhibited.

Modelling choices:

- JSON values are a datatype with exact `real` numbers.
- The parsed HTML is a tree of elements (tag, classes, children) and text
  strings.
- Selectors are lists of tag and class names. The scrapers use nothing
  else.
- Python's `str()` of a non-string JSON value is a parameter `render`.
- The browser session, the captured responses and the decoded embedded
  blobs are parameters of `FreshMarketRoute.ScrapeFreshMarket`.

Facts about the code that shape the model:

- `_parse_price` reads only the first decimal number of the comma-free
  text. A multi-buy label such as `2 for $5` gives 2.
- The scrapers never set `unit_qty` or `unit`: both are always None.
- The Fresh Market card heuristics are the third and last strategy of the
  scrape route.
- Any strategy that yields at least one record wins; no minimum count
  applies.
- `add_item` raises on a truthy non-string size. It does not reject such
  a call quietly.

## Model

| member | source | states |
|---|---|---|
| Text.Lower | app.py:133 | lower-cases the ASCII letters position by position and keeps the length |
| Text.LowerOfLower | app.py:133 | lower-casing text without upper-case letters changes nothing |
| Text.Strip | app.py:307 | the result is a slice of the input with only whitespace outside it, has no whitespace at either end, and is empty exactly when the input is all whitespace |
| Text.StripOfStripped | app.py:307 | stripping text that already has non-whitespace ends changes nothing |
| Text.RemoveAll | scrapers/foodlion.py:17 | `replace(",", "")` leaves no comma, adds no character, and changes nothing when there is no comma |
| Text.RemoveAllCounts | scrapers/foodlion.py:17 | every character other than the comma is kept as often as it occurs, and no comma is left |
| Text.RemoveAllInOrder | scrapers/foodlion.py:17 | the kept characters stay in their order: the result is a subsequence of the input |
| Text.BeforeFirst | scrapers/foodlion.py:40 | `split("$", 1)[0]` is the prefix up to the first `$` and holds no `$` |
| Text.Take | scrapers/foodlion.py:52 | `[:120]` is a prefix of length min(len, 120) |
| Text.Split | app.py:133 | `split(",")` gives at least one part and no part holds the separator |
| Text.SplitJoin | app.py:133 | splitting a comma-join of comma-free parts gives the parts back |
| Text.Words | scrapers/foodlion.py:26 | `str.split()` gives non-empty words without whitespace, and no words exactly when the text is all whitespace |
| Text.WordsOfJoin | scrapers/foodlion.py:26 | splitting the space-join of non-empty, whitespace-free words gives the words back |
| Text.WordsSkipSpace | scrapers/foodlion.py:26 | a whitespace character in front of the text adds no word |
| Text.WordsAfterWord | scrapers/foodlion.py:26 | a word followed by any whitespace character is the first word, followed by the words of the rest |
| Text.WordsIsReference | scrapers/foodlion.py:26 | on every text, `str.split()` equals a character-by-character scan that ends a word at each whitespace character and skips empty runs |
| Text.CollapseIdempotent | scrapers/foodlion.py:26 | collapsing the whitespace of already collapsed text changes nothing |
| Numbers.ParseUnsigned | utils/normalize.py:5 | the unsigned decimal text read by `Decimal`/`float` is never negative |
| Numbers.ParseUnsignedDigits | utils/normalize.py:5 | a non-empty run of digits reads as its integer value; the empty text does not convert |
| Numbers.ParseUnsignedPoint | utils/normalize.py:5 | digits, a point and digits read as the whole part plus the fraction; a lone `.` does not convert |
| Numbers.ParseUnsignedShape | utils/normalize.py:5 | only those two shapes convert |
| Numbers.CentsTextRoundTrip | utils/normalize.py:5 | reading back an amount written with two decimals gives the amount exactly |
| Numbers.ParseDecimalOfNegated | utils/normalize.py:5 | a leading `-` negates the value of the text after it |
| PriceText.FindPrice | scrapers/foodlion.py:17 | there is no match exactly when the text has no ASCII digit; otherwise the scan returns a leftmost, greedy match of the pattern |
| PriceText.PriceMatchUnique | scrapers/foodlion.py:17 | at most one position satisfies the description of the leftmost greedy match |
| PriceText.ParsePrice | scrapers/foodlion.py:14-18 | None exactly when the comma-free text has no digit; otherwise the cents of a match of the pattern |
| PriceText.ParsePriceByMatch | scrapers/freshmarket.py:12-16 | any match satisfying the description determines the result |
| PriceText.CentsToReal | scrapers/foodlion.py:18 | the price is the cents divided by 100: non-negative, and zero exactly for zero cents |
| PriceText.LabelMatch | freshmarket.py:11-15 | a `$d.cc` label has a comma-free match whose cents are the label's amount |
| PriceText.ParsePriceOfLabel | freshmarket.py:11-15 | every `$d.cc` label parses back to its amount |
| PriceText.ParsePriceDollars | scrapers/foodlion.py:17-18 | `"$5.99"` is 599 cents |
| PriceText.ParsePriceThousands | scrapers/foodlion.py:17 | `"1,299"` is 1299.00: commas act as thousands separators |
| PriceText.ParsePriceTruncates | scrapers/foodlion.py:17 | `"5.999"` is 5.99: a third decimal is ignored, not rounded |
| PriceText.ParsePriceNoDigits | scrapers/foodlion.py:18 | `"free"` has no price |
| PriceText.ParsePriceEmpty | scrapers/foodlion.py:15-16 | the empty text has no price |
| Json.Get | app.py:328 | `obj.get(k)` is the value of the first member with key `k`, and None when no member has it |
| Json.FirstTruthy | app.py:328-329 | an `or` chain of gets is truthy exactly when some get is; then it is the first truthy one; otherwise it is the last get |
| Json.FloatOf | app.py:304 | `float` of a number is the number, of a bool is 1.0 or 0.0, of a string is its decimal reading; `float` of None, a list or a dict raises |
| Json.StrOf | app.py:331 | `str` of a string is the string |
| Normalize.SafeDecimal | utils/normalize.py:3-7 | a number converts to itself, a string as decimal text, and None, a bool or a container to None |
| Normalize.ComputeUnitPrice | utils/normalize.py:9-14 | there is a unit price exactly when both values convert and are non-zero; it times the quantity is the price |
| Normalize.UnitPricePositive | utils/normalize.py:9-14 | a positive price over a positive quantity is a positive unit price |
| Normalize.UnitPriceNegativeQty | utils/normalize.py:12 | a negative quantity is not rejected and gives a negative unit price |
| Normalize.UnitPriceAbsent | utils/normalize.py:12-13 | a missing quantity, a zero quantity or a zero price gives no unit price |
| DealsListing.ListedUnitPrice | app.py:114-123 | `/deals` gives a unit price exactly when qty and price are truthy, both convert and qty is positive; it is price over qty |
| DealsListing.ListedAgreesWithCompare | app.py:118-119 | where `/deals` and `/compare` both give a unit price, the two are equal |
| DealsListing.ListedMatchesCompareOnNumbers | app.py:137 | for a non-zero price and a positive quantity, both endpoints give price over quantity |
| DealsListing.ListedDiffersFromCompare | app.py:118 | the endpoints differ on a negative quantity and on a `true` quantity |
| Dom.Select | scrapers/freshmarket.py:36 | `select`/`find_all` returns only matching elements and no more nodes than it searched |
| Dom.SelectInOrder | scrapers/freshmarket.py:36 | the selected nodes keep document order: they are a subsequence of the searched nodes |
| Dom.SelectKeepsMatches | scrapers/freshmarket.py:36 | every matching node occurs in the result |
| Dom.SelectCounts | scrapers/freshmarket.py:36 | each matching node occurs in the result exactly as often as among the searched nodes, and no other node occurs |
| Dom.SelectWeaken | freshmarket.py:30 | a broader selector list keeps every node a narrower one selects |
| Dom.StrippedStrings | scrapers/foodlion.py:35 | every string `get_text(strip=True)` joins is non-empty |
| Dom.StrippedStringsAreFiltered | scrapers/foodlion.py:35 | the joined strings are exactly the non-empty results of stripping each text string, in document order |
| CardRules.NameByTags | scrapers/foodlion.py:34-38 | a name is found exactly when some matching descendant has a usable text; it is the first such text and is usable |
| CardRules.FallbackName | scrapers/foodlion.py:40 | the fallback name holds no `$` |
| CardRules.SizeHint | scrapers/foodlion.py:44-48 | the hint is empty exactly when no hint occurs as a word; otherwise it is the first hint in list order that does |
| Deals.DedupeFrom | scrapers/foodlion.py:64-71 | the output has unique keys, is a subsequence of the input, and has the input's keys minus those already seen |
| Deals.Dedupe | app.py:367-376 | unique keys, a subsequence of the input, and the same key set |
| Deals.DedupeIsFirstOccurrences | scrapers/foodlion.py:64-71 | the loop keeps exactly the first deal of every key, in input order |
| Deals.DedupeFromOfUnique | app.py:368-376 | a list without repeated keys passes through unchanged |
| Deals.DedupeIdempotent | app.py:367-376 | de-duplicating twice is de-duplicating once |
| Deals.KeysOfAppend | app.py:371 | the keys of a concatenation are the union of the keys |
| CardRules.CardName | scrapers/foodlion.py:33-42 | the first name-tag text when one is found, else the text before `$` when it has at least 3 characters, else none; Fresh Market's tiered extractor uses it with its own name selectors |
| FoodLion.CardDeal | scrapers/foodlion.py:25-62 | a card yields a deal exactly when its text has a `$`, a non-zero price and a name; the deal carries that price, the name cut to 120 characters, the size hint and the store id |
| FoodLion.Candidates | scrapers/foodlion.py:25-62 | one deal per qualifying card, in card order: the `k`-th deal is the deal of the `k`-th card with a `$`, a non-zero price and a name |
| FoodLion.ExtractDeals | scrapers/foodlion.py:20-71 | the result has unique keys, is a subsequence of the card deals, and has all their keys |
| FoodLion.CardDealWellFormed | scrapers/foodlion.py:30-31 | a card's deal has a positive price, a 3 to 120 character item, no unit fields and the Food Lion id |
| FoodLion.ExtractedDealsWellFormed | scrapers/foodlion.py:50-62 | every emitted deal is well formed |
| FoodLion.ExtractKeepsFirstOccurrences | scrapers/foodlion.py:64-71 | the emitted deals are the first occurrence of each key among the card deals |
| FreshMarketLegacy.CardDeal | freshmarket.py:21-49 | a card yields a record exactly when it has a `$`, a non-zero price and a heading name; the record has no size text |
| FreshMarketLegacy.ExtractDealsFollowQualifyingCards | freshmarket.py:17-50 | one record per qualifying card, in card order, with nothing de-duplicated |
| FreshMarketLegacy.CardDealWellFormed | freshmarket.py:26-49 | a card's record has a positive price, a 3 to 120 character item, no size or unit fields and the Fresh Market id |
| FreshMarketLegacy.ExtractedDealsWellFormed | freshmarket.py:38-49 | every emitted record is well formed |
| FreshMarketLegacy.NameTagIsFoodLionTag | freshmarket.py:30 | each name tag here is one of Food Lion's name tags |
| FreshMarketLegacy.NameFoundByFoodLion | freshmarket.py:30-34 | a name found here is also found by Food Lion's tag search |
| FreshMarketLegacy.QualifyingCardsKeptByFoodLion | freshmarket.py:21-36 | every card kept here is kept by the Food Lion card rules, at the same price |
| FreshMarketTiers.CardCandidate | scrapers/freshmarket.py:37-61 | a card yields a candidate exactly when it has a `$`, a non-zero price and a name; it carries that price, name and size hint |
| FreshMarketTiers.CardCandidates | scrapers/freshmarket.py:36 | one candidate slot per selected card, in order |
| FreshMarketTiers.ScanCandidates | scrapers/freshmarket.py:63-66 | the emitted candidates have unique keys, none already seen, each offered by some card |
| FreshMarketTiers.ScanTier | scrapers/freshmarket.py:36-80 | one tier's output has unique keys, none already seen, each from one of its cards |
| FreshMarketTiers.ScanEmitsFreshKey | scrapers/freshmarket.py:63-66 | an offered candidate whose key is not yet seen has its key emitted |
| FreshMarketTiers.TierEmitsFreshKey | scrapers/freshmarket.py:36-66 | a qualifying card whose key is not yet seen has its key in the tier's output |
| FreshMarketTiers.ScanIsFirstNew | scrapers/freshmarket.py:63-66 | the loop emits, in card order, exactly the offered candidates whose key is neither seen nor offered earlier |
| FreshMarketTiers.TierIsFirstNew | scrapers/freshmarket.py:36-66 | a tier's output is exactly its cards' first candidates of each unseen key, in card order |
| FreshMarketTiers.AppendFound | scrapers/freshmarket.py:33-66 | appending a tier's output keeps keys unique and recorded in `seen` |
| FreshMarketTiers.RunTiers | scrapers/freshmarket.py:35-83 | the items collected over the tiers keep unique keys and extend the earlier items |
| FreshMarketTiers.MapToDeals | scrapers/freshmarket.py:68-80 | one record per candidate, in order |
| FreshMarketTiers.TieredCandidates | scrapers/freshmarket.py:33-85 | the candidates the tiers collect have unique keys |
| FreshMarketTiers.ExtractDeals | scrapers/freshmarket.py:18-85 | one record per collected candidate, in order, each the record that candidate becomes |
| FreshMarketTiers.RunTiersStops | scrapers/freshmarket.py:82-83 | a tier that yields something ends the loop with its output |
| FreshMarketTiers.RunTiersPasses | scrapers/freshmarket.py:82-83 | a tier that yields nothing passes on to the next tier with nothing recorded |
| FreshMarketTiers.TierFallback | scrapers/freshmarket.py:35-83 | the first tier's output decides when non-empty, otherwise the second tier's |
| FreshMarketTiers.CardCandidateAcceptable | scrapers/freshmarket.py:41-55 | a candidate has a positive price and a name of at least 3 characters |
| FreshMarketTiers.CardCandidatesAcceptable | scrapers/freshmarket.py:36-55 | every candidate of a tier is acceptable |
| FreshMarketTiers.ScanKeepsAcceptable | scrapers/freshmarket.py:63-66 | the scan emits only acceptable candidates |
| FreshMarketTiers.DealsOfCandidatesWellFormed | scrapers/freshmarket.py:68-80 | acceptable candidates become records with a positive price, a 3 to 120 character item, no unit fields and the Fresh Market id |
| FreshMarketTiers.TierDealsWellFormed | scrapers/freshmarket.py:36-80 | every record of one tier is well formed |
| FreshMarketTiers.ExtractedDealsWellFormed | scrapers/freshmarket.py:18-85 | every emitted record is well formed |
| JsonWalk.ObjAttempt | app.py:325-331 | an object triggers `add_item` exactly when its name chain is truthy and its price chain is not None; the call's arguments are `str` of the name chain, the price chain and the size chain |
| JsonWalk.AddItem | app.py:302-321 | rejects when `float(price)` raises or the stripped name is shorter than 3; raises on a truthy non-string size; otherwise appends the record with the float price, the stripped name cut to 120 and the stripped size |
| JsonWalk.FeedAllCrashed | app.py:392-394 | once an exception unwinds, later calls change nothing |
| JsonWalk.FeedAllAppend | app.py:333-337 | feeding two call sequences one after the other is feeding their concatenation |
| JsonWalk.Outcomes | app.py:331 | each call's outcome is `add_item` of its arguments |
| JsonWalk.FeedAllOutcomesAppend | app.py:333-337 | the outcomes of concatenated calls are fed in order |
| JsonWalk.WalkIsFeedAll | app.py:324-337 | `walk` is exactly its `add_item` calls, each object before its members |
| JsonWalk.ListIsFeedAll | app.py:335-337 | walking a list is walking its elements in order |
| JsonWalk.MembersIsFeedAll | app.py:333-334 | walking an object's values is walking them in member order |
| JsonWalk.WalkAllIsFeedAll | app.py:339-340 | walking the roots is walking each root in order |
| JsonWalk.FeedAllCrashes | app.py:331 | a call sequence raises exactly when one of its calls raises |
| JsonWalk.FirstCrash | app.py:331 | the position of the first raising call, or the number of calls |
| JsonWalk.FeedAllUpToCrash | app.py:309 | the list gains the records of the accepted calls before the first raise, in order |
| JsonWalk.OutcomesWellFormed | app.py:309-321 | every appended record has a 3 to 120 character item starting with a non-space, a size text, no unit fields and the store id |
| JsonWalk.FeedAllWellFormed | app.py:309-321 | a walk keeps the earlier items and appends only well-formed records |
| JsonWalk.LoneObjectAttempts | app.py:325-334 | an object whose values trigger no call makes only its own call |
| JsonWalk.WalkAllEffect | app.py:339-340 | walking from an empty list raises exactly when a call raises, and keeps the well-formed records accepted before the first raise |
| JsonWalkExamples.ZeroValueOffered | app.py:329-331 | `{"name": "Apples", "value": 0}` triggers a call with price 0 and no size |
| JsonWalkExamples.ZeroPriceAdded | app.py:302-321 | `add_item("Apples", 0)` appends the record for "Apples" priced 0 with an empty size |
| JsonWalkExamples.ZeroValueKept | app.py:329-331 | the object above ends up as a record priced 0 |
| JsonWalkExamples.NumericSizeCrashes | app.py:312 | a numeric size raises in `add_item` |
| FreshMarketRoute.ScrapeFreshMarket | app.py:339-376 | with `json` bound at the save, the route fails exactly when a strategy A call raises; otherwise the saved list has unique keys |
| FreshMarketRoute.ScrapeFreshMarketAsWritten | app.py:339-397 | as written, the route answers 500 exactly when a strategy A call raises or strategy A finds a record |
| FreshMarketRoute.AsWrittenLosesCapturedRecords | app.py:343-381 | where strategy A finds records and nothing raises, the code answers 500, and the corrected route saves A's de-duplicated records |
| FreshMarketRoute.AsWrittenAgreesOtherwise | app.py:343-376 | when strategy A finds nothing, the code and the corrected route give the same answer |
| FreshMarketRoute.SingleCallHarvest | app.py:339-340 | a walk whose one `add_item` call appends a record harvests exactly that record and raises nothing |
| FreshMarketRoute.CapturedJsonWins | app.py:339-343 | when strategy A finds records, they alone decide the result |
| FreshMarketRoute.EmbeddedJsonWins | app.py:343-361 | when A finds nothing, strategy B's records before any swallowed raise decide the result |
| FreshMarketRoute.CardHeuristicsFallback | app.py:363-365 | the card heuristics run only when neither JSON source yields a record |
| FreshMarketRoute.ResultKeysFromWinner | app.py:367-376 | the result has exactly the winning strategy's keys and is a subsequence of its list |
| FreshMarketRoute.JsonRecordsWellFormed | app.py:309-321 | every record saved from JSON is well formed |
| FreshMarketRouteExamples.ApplesMembersQuiet | app.py:333-337 | the values `"Apples"` and `0` trigger no call |
| FreshMarketRouteExamples.ApplesAttempts | app.py:324-340 | one captured body `{"name": "Apples", "value": 0}` makes exactly one `add_item` call |
| FreshMarketRouteExamples.ApplesLostAsWritten | app.py:345 | on that body the code answers 500, and the corrected route saves the "Apples" record |
| Compare.WantedTerm | app.py:133 | a part gives a term exactly when it strips to something; the term is that text lower-cased |
| Compare.WantedTermShape | app.py:133 | a term from a comma-free part is non-empty, comma-free, stripped and lower case |
| Compare.Wanted | app.py:133 | every wanted term has that shape |
| Compare.WantedFollowsParts | app.py:133 | the `k`-th wanted term is the `k`-th part of the comma split that strips to something, stripped and lower-cased; there are as many terms as such parts |
| Compare.WantedOfJoin | app.py:133 | parsing the comma-join of wanted terms gives the terms back |
| Compare.Candidates | app.py:141 | the candidates are exactly the sample deals whose lower-cased item contains the term, in sample order |
| Compare.StableMinUnique | app.py:143-146 | at most one position is the stable minimum of the sort key |
| Compare.BestIndex | app.py:143-146 | the chosen position is the stable minimum: nothing is strictly below it, and it is strictly below every earlier candidate |
| Compare.PickFor | app.py:141-147 | no pick exactly when no deal matches; otherwise the stable minimum of the candidates |
| Compare.PickMatches | app.py:141-147 | a pick is a sample deal that contains its term |
| Compare.PicksFollowTerms | app.py:140-147 | one pick per term with a candidate, in term order, each its term's stable minimum |
| Compare.GroupIndex | app.py:152 | the position of the store's entry, or the number of entries when it has none |
| Compare.StoreOrder | app.py:150-154 | each store with a pick appears once |
| Compare.AbsentStore | app.py:152-154 | a store without a pick has no items and subtotal 0 |
| Compare.ByStoreIsGrouping | app.py:150-154 | one entry per store in first-pick order, listing that store's items in pick order, with their price sum |
| Compare.SumSubtotalsUpdate | app.py:154 | replacing one subtotal changes the sum by the difference |
| Compare.SumSubtotalsAppend | app.py:152 | a new entry adds its subtotal to the sum |
| Compare.SubtotalsAddUp | app.py:149-154 | the subtotals of `by_store` add up to the total |
| Compare.CompareItems | app.py:130-162 | a 400 exactly for an empty `items`; otherwise the requested items are the wanted terms of the query, each of the wanted-term shape |
| Compare.CompareResponseFacts | app.py:139-162 | the requested items are the query's wanted terms; one pick per requested term with a candidate, in term order, each a matching sample deal and its term's stable minimum; the count is the number of picks; the total is the sum of the picks' prices, 0 with no picks; `by_store` is the grouping of the picks and its subtotals add up to the total |
| CompareExamples.BreastMatchesChicken | app.py:141 | "chicken" occurs in "chicken breast" |
| CompareExamples.WholeMatchesChicken | app.py:141 | "chicken" occurs in "whole chicken" |
| CompareExamples.ChickenKeys | app.py:145 | the sort keys are (4.99, 4.99) and (8.99/4, 8.99) |
| CompareExamples.ChickenPicksWhole | app.py:141-147 | "chicken" picks Whole Chicken (8.99 for 4 lb) over Chicken Breast (4.99 for 1 lb) |
| CompareExamples.MissingParses | app.py:133 | `items=nonexistent-item` requests that one term |
| CompareExamples.TooLongToMatch | app.py:141 | a term longer than an item does not occur in it |
| CompareExamples.MissingUnmatched | app.py:141-142 | that term has no pick |
| CompareExamples.NoPicksForMissing | app.py:140-147 | the picks list stays empty |
| CompareExamples.MissingItemFindsNothing | app.py:149-162 | it succeeds with nothing found, total 0 and no store entry |
| CompareExamples.BlankSplit | app.py:133 | `" , "` splits into two blank parts |
| CompareExamples.BlankWanted | app.py:133 | blank parts request nothing |
| CompareExamples.BlankTermsRequestNothing | app.py:130-133 | `items=" , "` is not the 400: it succeeds with nothing requested |

## Findings

| source | as written | input that shows it | evidently intended | confidence | as-written member | corrected member |
|---|---|---|---|---|---|---|
| app.py:345 | `import re, json` inside strategy B's block binds `json` as a local name of the whole `run_and_save_both`. When strategy A finds records, the block is skipped, and `json.dump` at line 381 raises `UnboundLocalError` after line 380 truncated the output file. The handler at lines 394-397 answers 500. | one captured response body `{"name": "Apples", "value": 0}` | save strategy A's de-duplicated records and answer 200 | high (Python's scoping rule for names bound in a function body); not executed | FreshMarketRoute.ScrapeFreshMarketAsWritten | FreshMarketRoute.ScrapeFreshMarket |

## Left out

- Flask request handling, Playwright and the browser session are not modelled. The same goes for file reading and writing, the debug artefacts and the JSON dump. They are I/O. The captured responses, the decoded embedded JSON and the parsed page are parameters instead.
- The Chromium-not-found early return of both scrape routes is not modelled. It depends on the host, not on the data.
- The date fields (`start_date`, `end_date`, `fetched_at`) are not modelled. They come from the clock.
- The regular expressions that find embedded `ld+json`, `__NEXT_DATA__` and `__NUXT__` scripts are not modelled, and neither is `json.loads` of them. Both are parsing done by libraries. Strategy B receives their decoded results.
- Comments and script, style and template contents are not modelled. BeautifulSoup's `get_text` skips comment strings, and current versions also skip the text inside `script`, `style` and `template`. The given tree holds no such strings: every text node it holds counts as card text.
- HTML parsing by lxml/BeautifulSoup is not modelled. The document is given as a tree. Only tag and class selectors are modelled, which are all the scrapers use.
- Floating-point rounding is not modelled. Prices are exact reals. This covers `round(..., 2)` of the total, `round(..., 4)` of the listed unit price, and `float(p / q)` of a `Decimal` quotient.
- Unicode case mapping is not modelled: `lower()` and the `re.I` size-hint search are ASCII-only here. Python also lower-cases non-ASCII letters, and `re.I` lets `k` match the Kelvin sign.
- Unicode word characters for `\b` are not modelled. Word characters are the ASCII letters, digits and `_`.
- Numbers.ParseDecimal: does not accept exponents, `inf`, `nan` or `_` digit separators, which Python's `float` and `Decimal` also accept. Such text gives None here.
- Numbers.ParseDecimal: reads the ASCII digits `0`-`9` only. Python's `float` and `Decimal` also accept any other Unicode decimal digit, such as `٥` or `５`. Such text gives None here. The model's digit class is the one the price pattern `[0-9]` uses.
- Json.FloatOf: has the same restrictions for strings, for the same reasons. A JSON number converts to itself at any size. Python's `float()` of an integer beyond the double range raises `OverflowError`. `add_item` catches it and adds nothing, and `/deals` catches it and gives no unit price. The model accepts such a number, because prices are exact reals here.
- DealsListing.ListedUnitPrice: uses `Json.FloatOf`, so it gives a unit price for an out-of-range integer `price` or `unit_qty`. The code gives None there.
- JsonWalk.AddItem: uses `Json.FloatOf`, so it appends a record for an out-of-range integer price. The code adds nothing.
- Normalize.SafeDecimal: reads strings with `Numbers.ParseDecimal` and has its restrictions. A string of non-ASCII decimal digits gives None here, where `Decimal()` reads it.
- Json.StrOf: gives Python's formatting of non-string values (`str(123)`, `str(True)`) to the caller as `render`.
- Numbers.CentsTextRoundTrip: covers non-negative amounts only. A leading `-` is covered separately by `Numbers.ParseDecimalOfNegated`.
- Python's `RecursionError` on deeply nested JSON is not modelled. The walk is total.
- Duplicate keys in one JSON object are not modelled: `json.loads` keeps the last value, and `Json.Get` takes the first member with the key. Decoded objects from `json.loads` have distinct keys.
- The `/compare` sample file is assumed to give every deal a numeric `price` and a numeric-or-null `unit_qty`. The unit price attached to each sample deal is modelled as `Compare.UnitPrice` and is not stored on the record.
- The `/stores` endpoint, `load_json` and the Food Lion ZIP/store selection helpers are not modelled. They are I/O or browser automation outside the core.
