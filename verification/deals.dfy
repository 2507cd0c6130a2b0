/** The deal record every scraper emits, and the stable first-wins
    de-duplication on `(item.lower(), price)` used by the Food Lion
    scraper (scrapers/foodlion.py) and by the Fresh Market route (app.py). */
module Deals {
  import opened Wrappers
  import opened Text
  import opened Seqs

  /** One advertised price. `sizeText` is None where the record has no
      `size_text` key at all; the dates and `fetched_at` are not modelled. */
  datatype Deal = Deal(
    storeId: string,
    item: string,
    sizeText: Option<string>,
    price: real,
    unitQty: Option<real>,
    unit: Option<string>,
    promoText: string,
    source: string)

  /** The de-duplication key `(item.lower(), price)`. */
  datatype Key = Key(name: string, price: real)

  function KeyOf(d: Deal): Key {
    Key(Lower(d.item), d.price)
  }

  function KeysOf(ds: seq<Deal>): set<Key>
  {
    if ds == [] then {} else {KeyOf(ds[0])} + KeysOf(ds[1..])
  }

  lemma KeysOfIndex(ds: seq<Deal>, i: nat)
    requires i < |ds|
    ensures KeyOf(ds[i]) in KeysOf(ds)
  {
    if i == 0 {
      KeysOfHead(ds);
    } else {
      KeysOfIndex(ds[1..], i - 1);
      KeysOfTail(ds, i);
    }
  }

  lemma KeysOfHead(ds: seq<Deal>)
    requires ds != []
    ensures KeyOf(ds[0]) in KeysOf(ds)
  {
  }

  lemma KeysOfTail(ds: seq<Deal>, i: nat)
    requires 0 < i < |ds| && KeyOf(ds[1..][i - 1]) in KeysOf(ds[1..])
    ensures KeyOf(ds[i]) in KeysOf(ds)
  {
    assert ds[1..][i - 1] == ds[i];
  }

  lemma KeysOfAppend(ds: seq<Deal>, es: seq<Deal>)
    ensures KeysOf(ds + es) == KeysOf(ds) + KeysOf(es)
  {
    if ds == [] {
      assert ds + es == es;
    } else {
      assert (ds + es)[1..] == ds[1..] + es;
      KeysOfAppend(ds[1..], es);
    }
  }

  /** No two deals share a key. */
  predicate UniqueKeys(ds: seq<Deal>) {
    forall i, j | 0 <= i < j < |ds| :: KeyOf(ds[i]) != KeyOf(ds[j])
  }

  /** The loop of the source, with `seen` the keys already emitted: a deal
      is kept exactly when its key has not been seen. */
  function DedupeFrom(ds: seq<Deal>, seen: set<Key>): (r: seq<Deal>)
    ensures UniqueKeys(r)
    ensures KeysOf(r) == KeysOf(ds) - seen
    ensures IsSubseq(r, ds)
  {
    if ds == [] then []
    else
      var k := KeyOf(ds[0]);
      if k in seen then
        var rest := DedupeFrom(ds[1..], seen);
        SubseqDropHead(rest, ds);
        rest
      else
        var rest := DedupeFrom(ds[1..], seen + {k});
        var r := [ds[0]] + rest;
        assert r[1..] == rest;
        assert forall j | 0 <= j < |rest| :: KeyOf(rest[j]) != k by {
          forall j | 0 <= j < |rest| {
            KeysOfIndex(rest, j);
          }
        }
        assert forall i, j | 0 <= i < j < |r| :: KeyOf(r[i]) != KeyOf(r[j]) by {
          forall i, j | 0 <= i < j < |r|
            ensures KeyOf(r[i]) != KeyOf(r[j])
          {
            if i > 0 {
              assert r[i] == rest[i - 1] && r[j] == rest[j - 1];
            } else {
              assert r[j] == rest[j - 1];
            }
          }
        }
        r
  }

  /** The de-duplication of the source: `seen` starts empty. */
  function Dedupe(ds: seq<Deal>): (r: seq<Deal>)
    ensures UniqueKeys(r)
    ensures KeysOf(r) == KeysOf(ds)
    ensures IsSubseq(r, ds)
  {
    DedupeFrom(ds, {})
  }

  /** Reference definition of first-wins: walking from the end, a deal
      survives when no earlier deal has its key. */
  function FirstOccurrences(ds: seq<Deal>): seq<Deal>
    decreases |ds|
  {
    if ds == [] then []
    else
      var init := ds[..|ds| - 1];
      var last := ds[|ds| - 1];
      FirstOccurrences(init) + (if KeyOf(last) in KeysOf(init) then [] else [last])
  }

  lemma {:induction false} DedupeFromSnoc(ds: seq<Deal>, x: Deal, seen: set<Key>)
    ensures DedupeFrom(ds + [x], seen)
            == DedupeFrom(ds, seen) + (if KeyOf(x) in seen + KeysOf(ds) then [] else [x])
    decreases |ds|
  {
    if ds == [] {
      assert ds + [x] == [x];
      assert [x][1..] == [];
    } else {
      assert (ds + [x])[0] == ds[0];
      assert (ds + [x])[1..] == ds[1..] + [x];
      var k := KeyOf(ds[0]);
      if k in seen {
        DedupeFromSnoc(ds[1..], x, seen);
      } else {
        DedupeFromSnoc(ds[1..], x, seen + {k});
      }
    }
  }

  /** The source's loop keeps exactly the first occurrence of every key, in input order. */
  lemma {:induction false} DedupeIsFirstOccurrences(ds: seq<Deal>)
    ensures Dedupe(ds) == FirstOccurrences(ds)
    decreases |ds|
  {
    if ds != [] {
      var init := ds[..|ds| - 1];
      var last := ds[|ds| - 1];
      assert ds == init + [last];
      DedupeFromSnoc(init, last, {});
      DedupeIsFirstOccurrences(init);
    }
  }

  /** A list without repeated keys passes through unchanged. */
  lemma {:induction false} DedupeFromOfUnique(ds: seq<Deal>, seen: set<Key>)
    requires UniqueKeys(ds)
    requires KeysOf(ds) !! seen
    ensures DedupeFrom(ds, seen) == ds
    decreases |ds|
  {
    if ds != [] {
      var k := KeyOf(ds[0]);
      assert KeysOf(ds) == {k} + KeysOf(ds[1..]);
      assert k !in KeysOf(ds[1..]) by {
        if k in KeysOf(ds[1..]) {
          var j := KeyIndex(ds[1..], k);
        }
      }
      DedupeFromOfUnique(ds[1..], seen + {k});
    }
  }

  /** Every key in `KeysOf(ds)` belongs to some deal of `ds`. */
  lemma KeyIndex(ds: seq<Deal>, k: Key) returns (i: nat)
    requires k in KeysOf(ds)
    ensures i < |ds| && KeyOf(ds[i]) == k
  {
    if KeyOf(ds[0]) == k {
      i := 0;
    } else {
      var j := KeyIndex(ds[1..], k);
      i := j + 1;
    }
  }

  /** Running the de-duplication twice is the same as running it once. */
  lemma DedupeIdempotent(ds: seq<Deal>)
    ensures Dedupe(Dedupe(ds)) == Dedupe(ds)
  {
    DedupeFromOfUnique(Dedupe(ds), {});
  }
}
