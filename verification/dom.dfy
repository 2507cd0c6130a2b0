/** The parsed HTML document as BeautifulSoup presents it: elements with a
    tag name, a class list and children, and text strings. Selector
    matching is reduced to tag names and class names, which is all the
    scrapers' selectors use. */
module Dom {
  import opened Text
  import opened Seqs

  datatype Node =
    | TextNode(s: string)
    | Element(tag: string, classes: seq<string>, children: seq<Node>)

  /** The BeautifulSoup object: the top-level nodes of the document. */
  datatype Document = Document(nodes: seq<Node>)

  /** All nodes strictly below `n`, in document order. */
  function Descendants(n: Node): seq<Node>
    decreases n
  {
    match n
    case TextNode(_) => []
    case Element(_, _, cs) => Forest(cs)
  }

  /** The nodes of a list of siblings and everything below them, in document order. */
  function Forest(cs: seq<Node>): seq<Node>
    decreases cs
  {
    if cs == [] then [] else [cs[0]] + Descendants(cs[0]) + Forest(cs[1..])
  }

  function AllNodes(doc: Document): seq<Node> {
    Forest(doc.nodes)
  }

  /** The text strings at or below `n`, in document order. */
  function Strings(n: Node): seq<string>
    decreases n
  {
    match n
    case TextNode(s) => [s]
    case Element(_, _, cs) => ForestStrings(cs)
  }

  function ForestStrings(cs: seq<Node>): seq<string>
    decreases cs
  {
    if cs == [] then [] else Strings(cs[0]) + ForestStrings(cs[1..])
  }

  /** Each string stripped, empty results dropped. */
  function StrippedStrings(ss: seq<string>): (r: seq<string>)
    ensures forall k | 0 <= k < |r| :: r[k] != []
  {
    if ss == [] then []
    else (if Strip(ss[0]) == [] then [] else [Strip(ss[0])]) + StrippedStrings(ss[1..])
  }

  predicate NonBlank(t: string) {
    t != []
  }

  /** The stripped strings are exactly the non-empty results of stripping
      each string, in their order. */
  lemma {:induction false} StrippedStringsAreFiltered(ss: seq<string>)
    ensures StrippedStrings(ss) == Filter(Map(ss, Strip), NonBlank)
    decreases |ss|
  {
    if ss != [] {
      var m := Map(ss, Strip);
      assert m[1..] == Map(ss[1..], Strip);
      FilterCons(m, NonBlank);
      StrippedStringsAreFiltered(ss[1..]);
    }
  }

  /** `node.get_text(" ", strip=True)`. */
  function GetText(n: Node): string {
    Join(StrippedStrings(Strings(n)), ' ')
  }

  /** One simple selector: a tag name (`h2`) or a class (`.card`). */
  datatype Simple = ByTag(name: string) | ByClass(name: string)

  predicate MatchesSimple(n: Node, s: Simple) {
    n.Element? &&
    match s
    case ByTag(t) => n.tag == t
    case ByClass(c) => c in n.classes
  }

  /** A selector list such as `"h1,h2,.title"`, or the tag list given to
      `find_all`: the element matches any one of them. */
  predicate Matches(n: Node, sels: seq<Simple>) {
    exists k | 0 <= k < |sels| :: MatchesSimple(n, sels[k])
  }

  /** The nodes of `ns` matching `sels`, in order; `select` and `find_all`
      return each matching element once, in document order. */
  function Select(ns: seq<Node>, sels: seq<Simple>): (r: seq<Node>)
    ensures forall k | 0 <= k < |r| :: r[k].Element? && Matches(r[k], sels)
    ensures |r| <= |ns|
  {
    if ns == [] then []
    else (if Matches(ns[0], sels) then [ns[0]] else []) + Select(ns[1..], sels)
  }

  /** `Select` keeps every matching node as often as it occurs, and no
      other node. */
  lemma {:induction false} SelectCounts(ns: seq<Node>, sels: seq<Simple>, x: Node)
    ensures multiset(Select(ns, sels))[x] == if Matches(x, sels) then multiset(ns)[x] else 0
    decreases |ns|
  {
    if ns != [] {
      var rest := Select(ns[1..], sels);
      SelectCounts(ns[1..], sels, x);
      assert ns == [ns[0]] + ns[1..];
      assert multiset(ns) == multiset{ns[0]} + multiset(ns[1..]);
      if Matches(ns[0], sels) {
        assert Select(ns, sels) == [ns[0]] + rest;
        assert multiset(Select(ns, sels)) == multiset{ns[0]} + multiset(rest);
      } else {
        assert Select(ns, sels) == rest;
      }
    }
  }

  /** `Select` drops no matching node. */
  lemma {:induction false} SelectKeepsMatches(ns: seq<Node>, sels: seq<Simple>, i: nat)
    requires i < |ns| && Matches(ns[i], sels)
    ensures ns[i] in Select(ns, sels)
  {
    if i > 0 {
      SelectKeepsMatches(ns[1..], sels, i - 1);
    }
  }

  /** Selecting with selectors that match more keeps every node selected before. */
  lemma {:induction false} SelectWeaken(ns: seq<Node>, a: seq<Simple>, b: seq<Simple>, i: nat) returns (j: nat)
    requires forall n | Matches(n, a) :: Matches(n, b)
    requires i < |Select(ns, a)|
    ensures j < |Select(ns, b)| && Select(ns, b)[j] == Select(ns, a)[i]
  {
    var ra, rb := Select(ns, a), Select(ns, b);
    var ta, tb := Select(ns[1..], a), Select(ns[1..], b);
    var ha := if Matches(ns[0], a) then [ns[0]] else [];
    var hb := if Matches(ns[0], b) then [ns[0]] else [];
    assert ra == ha + ta;
    assert rb == hb + tb;
    if i < |ha| {
      j := 0;
      assert ra[i] == ns[0] && rb[0] == ns[0];
    } else {
      var j' := SelectWeaken(ns[1..], a, b, i - |ha|);
      j := j' + |hb|;
      ShiftedIndex(ha, ta, i - |ha|);
      ShiftedIndex(hb, tb, j');
    }
  }

  /** `Select` keeps the document order of the nodes it returns. */
  lemma {:induction false} SelectInOrder(ns: seq<Node>, sels: seq<Simple>)
    ensures IsSubseq(Select(ns, sels), ns)
    decreases |ns|
  {
    if ns != [] {
      var rest := Select(ns[1..], sels);
      SelectInOrder(ns[1..], sels);
      if Matches(ns[0], sels) {
        assert Select(ns, sels) == [ns[0]] + rest;
        assert ([ns[0]] + rest)[1..] == rest;
      } else {
        assert Select(ns, sels) == rest;
        SubseqDropHead(rest, ns);
      }
    }
  }

  lemma ShiftedIndex(h: seq<Node>, t: seq<Node>, k: nat)
    requires k < |t|
    ensures (h + t)[|h| + k] == t[k]
  {
  }
}
