/** app.py `scrape_freshmarket`, after the browser session: strategy A
    walks the captured JSON responses, strategy B the JSON embedded in the
    page (only when A found nothing), strategy C the card heuristics of
    scrapers/freshmarket.py (only when A and B found nothing), and the
    result is de-duplicated on `(item.lower(), price)`. */
module FreshMarketRoute {
  import opened Wrappers
  import opened Seqs
  import opened Json
  import opened Dom
  import opened Deals
  import opened JsonWalk
  import FreshMarketTiers

  /** The route's 500 response: an exception escaped `run_and_save_both`. */
  datatype ScrapeError = Aborted

  const Empty: WalkState := WalkState([], false)

  /** The items a strategy A or B walk leaves: the records accepted before
      the first `add_item` call that raises. */
  function Harvest(roots: seq<Json>, render: Json -> string): seq<Deal> {
    var os := Outcomes(RootAttempts(roots, render));
    Somes(os[..FirstCrash(os)], AddedDeal)
  }

  /** Some `add_item` call of the walk raises. */
  predicate WalkRaises(roots: seq<Json>, render: Json -> string) {
    exists k | 0 <= k < |RootAttempts(roots, render)| :: AddItem(RootAttempts(roots, render)[k]).Crash?
  }

  /** The saved list, from the captured response bodies, the decoded
      embedded blobs and the parsed page; an exception in strategy A
      aborts the route, one in strategy B is swallowed by its `try`. This
      is the route with `json` bound at the save, as evidently intended. */
  function ScrapeFreshMarket(captured: seq<Json>, embedded: seq<Json>, doc: Document, render: Json -> string)
    : (r: Result<seq<Deal>, ScrapeError>)
    ensures r.Failure? <==> WalkRaises(captured, render)
    ensures r.Success? ==> UniqueKeys(r.value)
  {
    var a := WalkAll(captured, render, Empty);
    WalkAllEffect(captured, render);
    if a.crashed then Failure(Aborted)
    else
      var b := if a.items != [] then a.items else WalkAll(embedded, render, a).items;
      var c := if b != [] then b else FreshMarketTiers.ExtractDeals(doc);
      Success(Dedupe(c))
  }

  /** Roots whose walk makes one `add_item` call, which appends a record,
      harvest that record and raise nothing. */
  lemma SingleCallHarvest(roots: seq<Json>, render: Json -> string, a: Attempt, d: Deal)
    requires RootAttempts(roots, render) == [a]
    requires AddItem(a) == Added(d)
    ensures !WalkRaises(roots, render)
    ensures Harvest(roots, render) == [d]
  {
    var os := Outcomes([a]);
    assert os == [Added(d)];
    assert FirstCrash(os) == 1;
    assert os[..1] == os;
    assert os[1..] == [];
    assert Somes(os, AddedDeal) == [d] + Somes(os[1..], AddedDeal);
  }

  /** The route as the code stands. `import re, json` inside strategy B's
      block makes `json` a local name of the whole `run_and_save_both`, so
      when strategy A finds records and that block is skipped, `json.dump`
      raises UnboundLocalError and the route answers 500. */
  function ScrapeFreshMarketAsWritten(captured: seq<Json>, embedded: seq<Json>, doc: Document, render: Json -> string)
    : (r: Result<seq<Deal>, ScrapeError>)
    ensures r.Failure? <==> WalkRaises(captured, render) || Harvest(captured, render) != []
  {
    var a := WalkAll(captured, render, Empty);
    WalkAllEffect(captured, render);
    if a.crashed then Failure(Aborted)
    else if a.items != [] then Failure(Aborted)
    else
      var b := WalkAll(embedded, render, a).items;
      var c := if b != [] then b else FreshMarketTiers.ExtractDeals(doc);
      Success(Dedupe(c))
  }

  /** As written, the route loses strategy A's records: where the corrected
      route saves them, the code answers 500. */
  lemma AsWrittenLosesCapturedRecords(captured: seq<Json>, embedded: seq<Json>, doc: Document, render: Json -> string)
    requires !WalkRaises(captured, render)
    requires Harvest(captured, render) != []
    ensures ScrapeFreshMarketAsWritten(captured, embedded, doc, render) == Failure(Aborted)
    ensures ScrapeFreshMarket(captured, embedded, doc, render) == Success(Dedupe(Harvest(captured, render)))
  {
    CapturedJsonWins(captured, embedded, doc, render);
  }

  /** When strategy A finds nothing, the code and the corrected route agree. */
  lemma AsWrittenAgreesOtherwise(captured: seq<Json>, embedded: seq<Json>, doc: Document, render: Json -> string)
    requires Harvest(captured, render) == []
    ensures ScrapeFreshMarketAsWritten(captured, embedded, doc, render) == ScrapeFreshMarket(captured, embedded, doc, render)
  {
    WalkAllEffect(captured, render);
  }

  /** When strategy A finds something, its records decide the result,
      whatever the page holds. */
  lemma CapturedJsonWins(captured: seq<Json>, embedded: seq<Json>, doc: Document, render: Json -> string)
    requires !WalkRaises(captured, render)
    requires Harvest(captured, render) != []
    ensures ScrapeFreshMarket(captured, embedded, doc, render) == Success(Dedupe(Harvest(captured, render)))
  {
    WalkAllEffect(captured, render);
  }

  /** When strategy A finds nothing, strategy B's records (those accepted
      before any exception it swallows) decide the result, whatever the
      card heuristics would find. */
  lemma EmbeddedJsonWins(captured: seq<Json>, embedded: seq<Json>, doc: Document, render: Json -> string)
    requires !WalkRaises(captured, render)
    requires Harvest(captured, render) == []
    requires Harvest(embedded, render) != []
    ensures ScrapeFreshMarket(captured, embedded, doc, render) == Success(Dedupe(Harvest(embedded, render)))
  {
    WalkAllEffect(captured, render);
    WalkAllEffect(embedded, render);
  }

  /** Only when neither JSON source yields a record is the page's card
      heuristic used. */
  lemma CardHeuristicsFallback(captured: seq<Json>, embedded: seq<Json>, doc: Document, render: Json -> string)
    requires !WalkRaises(captured, render)
    requires Harvest(captured, render) == []
    requires Harvest(embedded, render) == []
    ensures ScrapeFreshMarket(captured, embedded, doc, render) == Success(Dedupe(FreshMarketTiers.ExtractDeals(doc)))
  {
    WalkAllEffect(captured, render);
    WalkAllEffect(embedded, render);
  }

  /** The result keeps exactly the keys of the strategy that produced it,
      each once, in the strategy's order. */
  lemma ResultKeysFromWinner(captured: seq<Json>, embedded: seq<Json>, doc: Document, render: Json -> string)
    requires !WalkRaises(captured, render)
    ensures var winner :=
              if Harvest(captured, render) != [] then Harvest(captured, render)
              else if Harvest(embedded, render) != [] then Harvest(embedded, render)
              else FreshMarketTiers.ExtractDeals(doc);
            var r := ScrapeFreshMarket(captured, embedded, doc, render);
            && r.Success?
            && KeysOf(r.value) == KeysOf(winner)
            && IsSubseq(r.value, winner)
  {
    WalkAllEffect(captured, render);
    WalkAllEffect(embedded, render);
  }

  /** Every record saved from JSON is well formed. */
  lemma JsonRecordsWellFormed(captured: seq<Json>, embedded: seq<Json>, doc: Document, render: Json -> string)
    requires !WalkRaises(captured, render)
    requires Harvest(captured, render) != [] || Harvest(embedded, render) != []
    ensures var r := ScrapeFreshMarket(captured, embedded, doc, render);
            r.Success? && forall d | d in r.value :: WellFormed(d)
  {
    WalkAllEffect(captured, render);
    WalkAllEffect(embedded, render);
    var winner := if Harvest(captured, render) != [] then Harvest(captured, render) else Harvest(embedded, render);
    var r := ScrapeFreshMarket(captured, embedded, doc, render);
    forall d | d in r.value
      ensures WellFormed(d)
    {
      SubseqMember(r.value, winner, d);
    }
  }
}
