/** app.py `scrape_freshmarket`, strategies A and B: `add_item` and the
    recursive `walk` over decoded JSON. Every object that has a truthy name
    (`name`, `title` or `headline`) and a price that is not None (`price`,
    `salePrice`, `sale_price`, `amount` or `value`) is offered to
    `add_item`, and the walk then descends into the object's values and
    into list elements, in order. */
module JsonWalk {
  import opened Wrappers
  import opened Text
  import opened Seqs
  import opened Json
  import opened CardRules
  import opened Deals

  const StoreId: string := "fresh-market-24503"
  const AdUrl: string := "https://www.thefreshmarket.com/features/weekly-features"
  const PromoText: string := "Weekly Features"

  const NameKeys: seq<string> := ["name", "title", "headline"]
  const PriceKeys: seq<string> := ["price", "salePrice", "sale_price", "amount", "value"]
  const SizeKeys: seq<string> := ["unit", "uom", "size"]

  /** The arguments of one `add_item(name, price, size_text)` call. */
  datatype Attempt = Attempt(name: string, price: Json, size: Json)

  /** The `add_item` call an object triggers, if any. The name chain must be
      truthy; the price chain only needs to be present, so a `value` of 0 or
      `""` still triggers a call when no earlier price key is truthy. */
  function ObjAttempt(ms: seq<Member>, render: Json -> string): (r: Option<Attempt>)
    ensures r.Some? <==>
              && (exists k | 0 <= k < |NameKeys| :: Truthy(Get(ms, NameKeys[k])))
              && ((exists k | 0 <= k < |PriceKeys| :: Truthy(Get(ms, PriceKeys[k]))) || Get(ms, "value") != JNull)
    ensures r.Some? ==>
              && Truthy(r.value.price) == (exists k | 0 <= k < |PriceKeys| :: Truthy(Get(ms, PriceKeys[k])))
              && (Get(ms, "name").JStr? && Truthy(Get(ms, "name")) ==> r.value.name == Get(ms, "name").s)
              && (Truthy(r.value.size) ==> exists k | 0 <= k < |SizeKeys| :: r.value.size == Get(ms, SizeKeys[k]))
    ensures r.Some? ==>
              r.value == Attempt(StrOf(FirstTruthy(ms, NameKeys), render), FirstTruthy(ms, PriceKeys), FirstTruthy(ms, SizeKeys))
  {
    var name := FirstTruthy(ms, NameKeys);
    var price := FirstTruthy(ms, PriceKeys);
    assert PriceKeys[|PriceKeys| - 1] == "value";
    assert NameKeys[0] == "name";
    if Truthy(name) && price != JNull then
      Some(Attempt(StrOf(name, render), price, FirstTruthy(ms, SizeKeys)))
    else None
  }

  /** What one `add_item` call does: nothing, append a record, or raise.
      The raise is `(size_text or "").strip()` on a truthy size that is not
      a string, which is outside the `try` that guards `float(price)`. */
  datatype Outcome = Rejected | Added(deal: Deal) | Crash

  /** The record `add_item` appends. */
  function AttemptDeal(name: string, price: real, size: string): Deal {
    Deal(StoreId, Take(Strip(name), MaxItemLength), Some(size), price, None, None, PromoText, AdUrl)
  }

  /** `add_item(name, price, size_text)`. */
  function AddItem(a: Attempt): (o: Outcome)
    ensures o.Rejected? <==> FloatOf(a.price).None? || |Strip(a.name)| < 3
    ensures o.Crash? <==> !o.Rejected? && Truthy(a.size) && !a.size.JStr?
    ensures o.Added? ==>
              && o.deal.price == FloatOf(a.price).value
              && o.deal.item == Take(Strip(a.name), MaxItemLength)
              && 3 <= |o.deal.item| <= MaxItemLength
              && !IsSpace(o.deal.item[0])
              && o.deal.sizeText == Some(if Truthy(a.size) then Strip(a.size.s) else "")
              && o.deal.unitQty.None? && o.deal.unit.None?
              && o.deal.storeId == StoreId
  {
    match FloatOf(a.price)
    case None => Rejected
    case Some(p) =>
      if a.name == [] || |Strip(a.name)| < 3 then Rejected
      else if !Truthy(a.size) then Added(AttemptDeal(a.name, p, ""))
      else if a.size.JStr? then Added(AttemptDeal(a.name, p, Strip(a.size.s)))
      else Crash
  }

  /** The shared `items` list, and whether an exception is unwinding. */
  datatype WalkState = WalkState(items: seq<Deal>, crashed: bool)

  /** The effect of one `add_item` call on the state; once an exception is
      unwinding, nothing more happens. */
  function Feed(st: WalkState, o: Outcome): WalkState {
    if st.crashed then st
    else
      match o
      case Rejected => st
      case Added(d) => WalkState(st.items + [d], false)
      case Crash => WalkState(st.items, true)
  }

  /** `walk(obj)`. */
  function Walk(j: Json, render: Json -> string, st: WalkState): WalkState
    decreases j, 1
  {
    if st.crashed then st
    else
      match j
      case JObj(ms) =>
        var st' := match ObjAttempt(ms, render) case Some(a) => Feed(st, AddItem(a)) case None => st;
        WalkMembers(ms, render, st')
      case JArr(xs) => WalkList(xs, render, st)
      case _ => st
  }

  /** `for i, v in enumerate(obj): walk(v)`. */
  function WalkList(xs: seq<Json>, render: Json -> string, st: WalkState): WalkState
    decreases xs, 0
  {
    if xs == [] then st else WalkList(xs[1..], render, Walk(xs[0], render, st))
  }

  /** `for k, v in obj.items(): walk(v)`. */
  function WalkMembers(ms: seq<Member>, render: Json -> string, st: WalkState): WalkState
    decreases ms, 0
  {
    if ms == [] then st else WalkMembers(ms[1..], render, Walk(ms[0].value, render, st))
  }

  /** `for root in roots: walk(root)`. */
  function WalkAll(roots: seq<Json>, render: Json -> string, st: WalkState): WalkState
    decreases roots
  {
    if roots == [] then st else WalkAll(roots[1..], render, Walk(roots[0], render, st))
  }

  /** Reference definition: every `add_item` call a walk makes when nothing
      raises, in the order it makes them (each object before its members). */
  function Attempts(j: Json, render: Json -> string): seq<Attempt>
    decreases j, 1
  {
    match j
    case JObj(ms) =>
      (match ObjAttempt(ms, render) case Some(a) => [a] case None => []) + MemberAttempts(ms, render)
    case JArr(xs) => ListAttempts(xs, render)
    case _ => []
  }

  function ListAttempts(xs: seq<Json>, render: Json -> string): seq<Attempt>
    decreases xs, 0
  {
    if xs == [] then [] else Attempts(xs[0], render) + ListAttempts(xs[1..], render)
  }

  function MemberAttempts(ms: seq<Member>, render: Json -> string): seq<Attempt>
    decreases ms, 0
  {
    if ms == [] then [] else Attempts(ms[0].value, render) + MemberAttempts(ms[1..], render)
  }

  function RootAttempts(roots: seq<Json>, render: Json -> string): seq<Attempt> {
    if roots == [] then [] else Attempts(roots[0], render) + RootAttempts(roots[1..], render)
  }

  /** A lone object whose values trigger nothing makes at most its own call. */
  lemma LoneObjectAttempts(ms: seq<Member>, render: Json -> string, a: Attempt)
    requires ObjAttempt(ms, render) == Some(a)
    requires MemberAttempts(ms, render) == []
    ensures RootAttempts([JObj(ms)], render) == [a]
  {
    assert Attempts(JObj(ms), render) == [a];
    assert [JObj(ms)][1..] == [];
  }

  /** The outcomes of a sequence of `add_item` calls, applied one after the other. */
  function FeedAll(st: WalkState, os: seq<Outcome>): WalkState
    decreases os
  {
    if os == [] then st else FeedAll(Feed(st, os[0]), os[1..])
  }

  lemma {:induction false} FeedAllCrashed(st: WalkState, os: seq<Outcome>)
    requires st.crashed
    ensures FeedAll(st, os) == st
    decreases os
  {
    if os != [] {
      FeedAllCrashed(Feed(st, os[0]), os[1..]);
    }
  }

  lemma {:induction false} FeedAllAppend(st: WalkState, a: seq<Outcome>, b: seq<Outcome>)
    ensures FeedAll(st, a + b) == FeedAll(FeedAll(st, a), b)
    decreases a
  {
    if a == [] {
      assert a + b == b;
    } else {
      assert (a + b)[0] == a[0];
      assert (a + b)[1..] == a[1..] + b;
      FeedAllAppend(Feed(st, a[0]), a[1..], b);
    }
  }

  /** Each call's outcome, for a sequence of calls. */
  function Outcomes(as_: seq<Attempt>): (os: seq<Outcome>)
    ensures |os| == |as_|
    ensures forall k | 0 <= k < |as_| :: os[k] == AddItem(as_[k])
  {
    Map(as_, AddItem)
  }

  /** Feeding a concatenation of calls is feeding one part and then the other. */
  lemma FeedAllOutcomesAppend(st: WalkState, a: seq<Attempt>, b: seq<Attempt>)
    ensures FeedAll(st, Outcomes(a + b)) == FeedAll(FeedAll(st, Outcomes(a)), Outcomes(b))
  {
    MapAppend(a, b, AddItem);
    FeedAllAppend(st, Outcomes(a), Outcomes(b));
  }

  /** A walk is exactly its `add_item` calls made in order; an exception
      stops everything after it. */
  lemma {:induction false} WalkIsFeedAll(j: Json, render: Json -> string, st: WalkState)
    ensures Walk(j, render, st) == FeedAll(st, Outcomes(Attempts(j, render)))
    decreases j, 1
  {
    if st.crashed {
      FeedAllCrashed(st, Outcomes(Attempts(j, render)));
    } else {
      match j
      case JObj(ms) =>
        var head := match ObjAttempt(ms, render) case Some(a) => [a] case None => [];
        var st' := match ObjAttempt(ms, render) case Some(a) => Feed(st, AddItem(a)) case None => st;
        assert FeedAll(st, Outcomes(head)) == st' by {
          if head != [] {
            assert Outcomes(head)[1..] == [];
          }
        }
        FeedAllOutcomesAppend(st, head, MemberAttempts(ms, render));
        MembersIsFeedAll(ms, render, st');
      case JArr(xs) =>
        ListIsFeedAll(xs, render, st);
      case _ =>
    }
  }

  lemma {:induction false} ListIsFeedAll(xs: seq<Json>, render: Json -> string, st: WalkState)
    ensures WalkList(xs, render, st) == FeedAll(st, Outcomes(ListAttempts(xs, render)))
    decreases xs, 0
  {
    if xs != [] {
      WalkIsFeedAll(xs[0], render, st);
      ListIsFeedAll(xs[1..], render, Walk(xs[0], render, st));
      FeedAllOutcomesAppend(st, Attempts(xs[0], render), ListAttempts(xs[1..], render));
    }
  }

  lemma {:induction false} MembersIsFeedAll(ms: seq<Member>, render: Json -> string, st: WalkState)
    ensures WalkMembers(ms, render, st) == FeedAll(st, Outcomes(MemberAttempts(ms, render)))
    decreases ms, 0
  {
    if ms != [] {
      WalkIsFeedAll(ms[0].value, render, st);
      MembersIsFeedAll(ms[1..], render, Walk(ms[0].value, render, st));
      FeedAllOutcomesAppend(st, Attempts(ms[0].value, render), MemberAttempts(ms[1..], render));
    }
  }

  lemma {:induction false} WalkAllIsFeedAll(roots: seq<Json>, render: Json -> string, st: WalkState)
    ensures WalkAll(roots, render, st) == FeedAll(st, Outcomes(RootAttempts(roots, render)))
    decreases roots
  {
    if roots != [] {
      WalkIsFeedAll(roots[0], render, st);
      WalkAllIsFeedAll(roots[1..], render, Walk(roots[0], render, st));
      FeedAllOutcomesAppend(st, Attempts(roots[0], render), RootAttempts(roots[1..], render));
    }
  }

  /** The record an outcome appends, if it appends one. */
  function AddedDeal(o: Outcome): Option<Deal> {
    if o.Added? then Some(o.deal) else None
  }

  predicate IsCrash(o: Outcome) {
    o.Crash?
  }

  /** A sequence of calls raises exactly when one of the calls raises. */
  lemma {:induction false} FeedAllCrashes(st: WalkState, os: seq<Outcome>)
    requires !st.crashed
    ensures FeedAll(st, os).crashed <==> exists k | 0 <= k < |os| :: os[k].Crash?
    decreases os
  {
    if os != [] {
      var st' := Feed(st, os[0]);
      if st'.crashed {
        FeedAllCrashed(st', os[1..]);
      } else {
        FeedAllCrashes(st', os[1..]);
        assert forall k | 1 <= k < |os| :: os[k] == os[1..][k - 1];
      }
    }
  }

  /** The position of the first call that raises, or the number of calls. */
  function FirstCrash(os: seq<Outcome>): (n: nat)
    ensures n <= |os|
    ensures forall k | 0 <= k < n :: !os[k].Crash?
    ensures n < |os| ==> os[n].Crash?
  {
    FirstWhere(os, IsCrash)
  }

  /** The new items are the records of the accepted calls made before the
      first call that raises, in order (all of them when none raises). */
  lemma {:induction false} FeedAllUpToCrash(st: WalkState, os: seq<Outcome>)
    requires !st.crashed
    ensures FeedAll(st, os).items == st.items + Somes(os[..FirstCrash(os)], AddedDeal)
    decreases os
  {
    if os == [] {
      assert os[..0] == [];
    } else {
      var st' := Feed(st, os[0]);
      if os[0].Crash? {
        assert os[..FirstCrash(os)] == [];
        FeedAllCrashed(st', os[1..]);
      } else {
        var n := FirstCrash(os[1..]);
        assert FirstCrash(os) == 1 + n;
        FeedAllUpToCrash(st', os[1..]);
        TakeCons(os, n);
        SomesAppend([os[0]], os[1..][..n], AddedDeal);
        assert st'.items == st.items + Somes([os[0]], AddedDeal);
      }
    }
  }

  /** The shape every record `add_item` appends has: a 3 to 120 character
      item that starts with a non-space, a size text, no unit quantity or
      unit, and the Fresh Market store id. */
  predicate WellFormed(d: Deal) {
    && 3 <= |d.item| <= MaxItemLength && !IsSpace(d.item[0])
    && d.sizeText.Some? && d.unitQty.None? && d.unit.None?
    && d.storeId == StoreId
  }

  predicate AddsWellFormed(o: Outcome) {
    o.Added? ==> WellFormed(o.deal)
  }

  lemma OutcomesWellFormed(as_: seq<Attempt>)
    ensures forall k | 0 <= k < |Outcomes(as_)| :: AddsWellFormed(Outcomes(as_)[k])
  {
  }

  /** Records appended by calls that each append a well-formed record are well formed. */
  lemma {:induction false} FeedAllWellFormed(st: WalkState, os: seq<Outcome>)
    requires forall k | 0 <= k < |os| :: AddsWellFormed(os[k])
    ensures st.items <= FeedAll(st, os).items
    ensures forall d | d in FeedAll(st, os).items[|st.items|..] :: WellFormed(d)
    decreases os
  {
    if os != [] {
      var st' := Feed(st, os[0]);
      assert st.items <= st'.items;
      assert forall d | d in st'.items[|st.items|..] :: WellFormed(d);
      assert forall k | 0 <= k < |os[1..]| :: AddsWellFormed(os[1..][k]) by {
        forall k | 0 <= k < |os[1..]| ensures AddsWellFormed(os[1..][k]) {
          assert os[1..][k] == os[k + 1];
        }
      }
      FeedAllWellFormed(st', os[1..]);
      var r := FeedAll(st, os).items;
      assert r[|st.items|..] == st'.items[|st.items|..] + r[|st'.items|..];
    }
  }

  /** Walking decoded roots from an empty list: it raises exactly when one
      of its `add_item` calls raises; the list holds the records of the
      accepted calls before the first raise, in walk order; every record is
      well formed. */
  lemma WalkAllEffect(roots: seq<Json>, render: Json -> string)
    ensures var os := Outcomes(RootAttempts(roots, render));
            var r := WalkAll(roots, render, WalkState([], false));
            && (r.crashed <==> exists k | 0 <= k < |os| :: os[k].Crash?)
            && r.items == Somes(os[..FirstCrash(os)], AddedDeal)
            && forall d | d in r.items :: WellFormed(d)
  {
    var st := WalkState([], false);
    var os := Outcomes(RootAttempts(roots, render));
    WalkAllIsFeedAll(roots, render, st);
    FeedAllCrashes(st, os);
    FeedAllUpToCrash(st, os);
    OutcomesWellFormed(RootAttempts(roots, render));
    FeedAllWellFormed(st, os);
    assert FeedAll(st, os).items[0..] == FeedAll(st, os).items;
  }
}
