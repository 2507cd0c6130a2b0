/** Two `add_item` cases from app.py's JSON walk: a `value` of 0 is still
    offered and kept at price 0, and a numeric size raises. */
module JsonWalkExamples {
  import opened Wrappers
  import opened Json
  import opened JsonWalk

  const ZeroValue: seq<Member> := [Member("name", JStr("Apples")), Member("value", JNum(0.0))]

  lemma ZeroValueName()
    ensures FirstTruthy(ZeroValue, NameKeys) == JStr("Apples")
  {
    assert Get(ZeroValue, "name") == JStr("Apples");
  }

  lemma ZeroValuePrice()
    ensures FirstTruthy(ZeroValue, PriceKeys) == JNum(0.0)
  {
    assert Get(ZeroValue, "value") == JNum(0.0);
    forall k | 0 <= k < |PriceKeys|
      ensures !Truthy(Get(ZeroValue, PriceKeys[k]))
    {
      assert PriceKeys[k] != "name";
    }
  }

  /** A key neither "name" nor "value" is absent from the object. */
  lemma ZeroValueLacks(key: string)
    requires key != "name" && key != "value"
    ensures Get(ZeroValue, key) == JNull
  {
    assert ZeroValue[1..][1..] == [];
  }

  lemma ZeroValueSize()
    ensures FirstTruthy(ZeroValue, SizeKeys) == JNull
  {
    assert "unit"[0] != "name"[0] && "size"[0] != "name"[0];
    ZeroValueLacks("unit");
    ZeroValueLacks("uom");
    ZeroValueLacks("size");
    assert forall k | 0 <= k < |SizeKeys| :: Get(ZeroValue, SizeKeys[k]) == JNull by {
      forall k | 0 <= k < |SizeKeys|
        ensures Get(ZeroValue, SizeKeys[k]) == JNull
      {
        assert k == 0 || k == 1 || k == 2;
      }
    }
  }

  lemma ZeroValueOffered(render: Json -> string)
    ensures ObjAttempt(ZeroValue, render) == Some(Attempt("Apples", JNum(0.0), JNull))
  {
    ZeroValueName();
    ZeroValuePrice();
    ZeroValueSize();
  }

  lemma ZeroPriceAdded()
    ensures AddItem(Attempt("Apples", JNum(0.0), JNull)).Added?
    ensures AddItem(Attempt("Apples", JNum(0.0), JNull)).deal.price == 0.0
    ensures AddItem(Attempt("Apples", JNum(0.0), JNull)) == Added(AttemptDeal("Apples", 0.0, ""))
  {
    var a := Attempt("Apples", JNum(0.0), JNull);
    Text.StripOfStripped(a.name);
    assert |Text.Strip(a.name)| == 6;
    assert FloatOf(a.price) == Some(0.0);
    assert !Truthy(a.size);
    assert AddItem(a) == Added(AttemptDeal(a.name, 0.0, ""));
  }

  /** The walk appends a record priced 0 for `{"name": "Apples", "value": 0}`. */
  lemma ZeroValueKept(render: Json -> string)
    ensures AddItem(ObjAttempt(ZeroValue, render).value).Added?
    ensures AddItem(ObjAttempt(ZeroValue, render).value).deal.price == 0.0
  {
    ZeroValueOffered(render);
    ZeroPriceAdded();
  }

  /** `{"name": "Apples", "price": 1.5, "size": 2}` raises in `add_item`. */
  lemma NumericSizeCrashes()
    ensures AddItem(Attempt("Apples", JNum(1.5), JNum(2.0))) == Crash
  {
    var a := Attempt("Apples", JNum(1.5), JNum(2.0));
    Text.StripOfStripped(a.name);
    assert |Text.Strip(a.name)| == 6;
    assert FloatOf(a.price) == Some(1.5);
    assert Truthy(a.size) && !a.size.JStr?;
  }
}
