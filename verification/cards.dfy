/** The card heuristics shared by the three HTML scrapers
    (scrapers/foodlion.py, scrapers/freshmarket.py, freshmarket.py): the
    card's flattened text, the name taken from a preferred descendant or
    from the text before the first `$`, and the size hint. */
module CardRules {
  import opened Wrappers
  import opened Text
  import opened Seqs
  import opened Dom

  /** `" ".join(card.get_text(" ", strip=True).split())`. */
  function CardText(card: Node): string {
    Collapse(GetText(card))
  }

  /** A usable name: non-empty, no `$`, longer than two characters. */
  predicate IsNameText(t: string) {
    t != [] && '$' !in t && |t| > 2
  }

  predicate HasNameText(n: Node) {
    IsNameText(GetText(n))
  }

  /** The first descendant of `card` matching `sels` whose text is a usable
      name, searched in document order; None when there is none. */
  function NameByTags(card: Node, sels: seq<Simple>): (r: Option<string>)
    ensures r.Some? ==> IsNameText(r.value)
    ensures r.Some? <==> exists i | 0 <= i < |Select(Descendants(card), sels)| :: HasNameText(Select(Descendants(card), sels)[i])
    ensures r.Some? ==> exists i | 0 <= i < |Select(Descendants(card), sels)| ::
              && r.value == GetText(Select(Descendants(card), sels)[i])
              && forall j | 0 <= j < i :: !HasNameText(Select(Descendants(card), sels)[j])
  {
    var tags := Select(Descendants(card), sels);
    var i := FirstWhere(tags, HasNameText);
    if i == |tags| then None else Some(GetText(tags[i]))
  }

  /** `text.split("$", 1)[0].strip()`. */
  function FallbackName(text: string): (r: string)
    ensures '$' !in r
  {
    Strip(BeforeFirst(text, '$'))
  }

  /** The name a card is listed under: the first descendant matching `sels`
      with a usable text, else the text before the first `$` when that has
      at least three characters, else none (the card is skipped). */
  function CardName(card: Node, text: string, sels: seq<Simple>): (r: Option<string>)
    ensures r.Some? ==> |r.value| >= 3 && '$' !in r.value
    ensures NameByTags(card, sels).Some? ==> r == NameByTags(card, sels)
    ensures NameByTags(card, sels).None? ==>
              r == if |FallbackName(text)| >= 3 then Some(FallbackName(text)) else None
  {
    match NameByTags(card, sels)
    case Some(t) => Some(t)
    case None =>
      var f := FallbackName(text);
      if |f| < 3 then None else Some(f)
  }

  /** The size hints, tried in this order. */
  const SizeHints: seq<string> := ["per lb", "lb", "oz", "dozen", "each", "ea", "ct", "pk", "pack"]

  /** The characters `\b` treats as word characters. */
  predicate IsWordChar(c: char) {
    IsDigit(c) || IsAsciiLower(c) || IsAsciiUpper(c) || c == '_'
  }

  /** `hint` (lower case) occurs at `i` ignoring case, with a word boundary on each side. */
  predicate WordAt(text: string, hint: string, i: nat) {
    && i + |hint| <= |text|
    && Lower(text[i..i + |hint|]) == hint
    && (i == 0 || !IsWordChar(text[i - 1]))
    && (i + |hint| == |text| || !IsWordChar(text[i + |hint|]))
  }

  /** `re.search(rf"\b{hint}\b", text, re.I)` succeeds. */
  predicate HasWord(text: string, hint: string) {
    exists i | 0 <= i <= |text| - |hint| :: WordAt(text, hint, i)
  }

  /** The first hint occurring as a whole word, or "" when none does. */
  function SizeHint(text: string): (r: string)
    ensures r == [] <==> forall k | 0 <= k < |SizeHints| :: !HasWord(text, SizeHints[k])
    ensures r != [] ==> exists k | 0 <= k < |SizeHints| ::
              && r == SizeHints[k] && HasWord(text, r)
              && forall k' | 0 <= k' < k :: !HasWord(text, SizeHints[k'])
  {
    var k := FirstWhere(SizeHints, (h: string) => HasWord(text, h));
    if k == |SizeHints| then [] else SizeHints[k]
  }

  /** Items are cut to this many characters. */
  const MaxItemLength: nat := 120
}
