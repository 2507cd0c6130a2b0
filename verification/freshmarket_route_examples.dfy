/** One captured response body, `{"name": "Apples", "value": 0}`, is enough
    for strategy A to find a record, and so for the route as written to
    answer 500 where the corrected route saves that record. */
module FreshMarketRouteExamples {
  import opened Wrappers
  import opened Json
  import opened Dom
  import opened Deals
  import opened JsonWalk
  import opened JsonWalkExamples
  import opened FreshMarketRoute

  const Body: Json := JObj(ZeroValue)
  const Apples: Attempt := Attempt("Apples", JNum(0.0), JNull)
  const ApplesDeal: Deal := AttemptDeal("Apples", 0.0, "")

  /** Its two values, a string and a number, trigger no call. */
  lemma ApplesMembersQuiet(render: Json -> string)
    ensures MemberAttempts(ZeroValue, render) == []
  {
    assert ZeroValue[1..][1..] == [];
    assert Attempts(JStr("Apples"), render) == [];
    assert Attempts(JNum(0.0), render) == [];
    assert MemberAttempts(ZeroValue[1..], render) == Attempts(JNum(0.0), render) + MemberAttempts([], render);
  }

  /** The body triggers exactly one `add_item` call. */
  lemma ApplesAttempts(render: Json -> string)
    ensures RootAttempts([Body], render) == [Apples]
  {
    ZeroValueOffered(render);
    ApplesMembersQuiet(render);
    LoneObjectAttempts(ZeroValue, render, Apples);
  }

  /** The route as written answers 500 on this body; the corrected route
      saves its record. */
  lemma ApplesLostAsWritten(embedded: seq<Json>, doc: Document, render: Json -> string)
    ensures ScrapeFreshMarketAsWritten([Body], embedded, doc, render) == Failure(Aborted)
    ensures ScrapeFreshMarket([Body], embedded, doc, render) == Success([ApplesDeal])
  {
    ApplesAttempts(render);
    ZeroPriceAdded();
    SingleCallHarvest([Body], render, Apples, ApplesDeal);
    AsWrittenLosesCapturedRecords([Body], embedded, doc, render);
    DedupeFromOfUnique([ApplesDeal], {});
  }
}
