/** Character classes and the Python string operations the scrapers use:
    strip(), split(sep), str.split(), " ".join, lower(), `in`, replace and
    slicing to a maximum length. */
module Text {
  import Seqs

  /** Python's str.isspace(): the characters strip() and split() treat as whitespace. */
  predicate IsSpace(c: char) {
    || c == ' '
    || ('\U{9}' <= c <= '\U{D}')
    || ('\U{1C}' <= c <= '\U{1F}')
    || c == '\U{85}' || c == '\U{A0}' || c == '\U{1680}'
    || ('\U{2000}' <= c <= '\U{200A}')
    || c == '\U{2028}' || c == '\U{2029}' || c == '\U{202F}' || c == '\U{205F}' || c == '\U{3000}'
  }

  /** The regex class `[0-9]`: ASCII digits only. */
  predicate IsDigit(c: char) {
    '0' <= c <= '9'
  }

  function DigitValue(c: char): (d: nat)
    requires IsDigit(c)
    ensures d < 10
  {
    (c as int - '0' as int) as nat
  }

  function DigitChar(d: nat): (c: char)
    requires d < 10
    ensures IsDigit(c) && DigitValue(c) == d
  {
    ('0' as int + d) as char
  }

  predicate IsAsciiUpper(c: char) {
    'A' <= c <= 'Z'
  }

  predicate IsAsciiLower(c: char) {
    'a' <= c <= 'z'
  }

  function LowerChar(c: char): (r: char)
    ensures !IsAsciiUpper(r)
    ensures !IsAsciiUpper(c) ==> r == c
  {
    if IsAsciiUpper(c) then (c as int + 32) as char else c
  }

  /** lower(), on the ASCII letters. */
  function Lower(s: string): (r: string)
    ensures |r| == |s|
    ensures forall i | 0 <= i < |s| :: r[i] == LowerChar(s[i])
  {
    seq(|s|, i requires 0 <= i < |s| => LowerChar(s[i]))
  }

  lemma LowerOfLower(s: string)
    requires forall i | 0 <= i < |s| :: !IsAsciiUpper(s[i])
    ensures Lower(s) == s
  {
  }

  function StripLeft(s: string): (r: string)
    ensures |r| <= |s| && r == s[|s| - |r|..]
    ensures r == [] || !IsSpace(r[0])
    ensures forall i | 0 <= i < |s| - |r| :: IsSpace(s[i])
  {
    if s != [] && IsSpace(s[0]) then StripLeft(s[1..]) else s
  }

  function StripRight(s: string): (r: string)
    ensures |r| <= |s| && r == s[..|r|]
    ensures r == [] || !IsSpace(r[|r| - 1])
    ensures forall i | |r| <= i < |s| :: IsSpace(s[i])
  {
    if s != [] && IsSpace(s[|s| - 1]) then StripRight(s[..|s| - 1]) else s
  }

  lemma StripLeftBlank(s: string)
    ensures StripLeft(s) == [] <==> forall i | 0 <= i < |s| :: IsSpace(s[i])
  {
    var t := StripLeft(s);
    if t != [] {
      assert t[0] == s[|s| - |t|];
    }
  }

  /** strip(): whitespace removed from both ends. */
  function Strip(s: string): (r: string)
    ensures |r| <= |s|
    ensures r == [] || (!IsSpace(r[0]) && !IsSpace(r[|r| - 1]))
    ensures r == [] <==> forall i | 0 <= i < |s| :: IsSpace(s[i])
    ensures exists i, j :: SpaceFramed(s, r, i, j)
  {
    var t := StripLeft(s);
    var r := StripRight(t);
    StripSlice(s, t, r);
    r
  }

  /** `r` is `s[i..j]` and everything of `s` outside it is whitespace. */
  predicate SpaceFramed(s: string, r: string, i: int, j: int) {
    && 0 <= i <= j <= |s|
    && r == s[i..j]
    && (forall k | 0 <= k < i :: IsSpace(s[k]))
    && (forall k | j <= k < |s| :: IsSpace(s[k]))
  }

  /** The stripped text is the slice between the leading and the trailing whitespace. */
  lemma StripSlice(s: string, t: string, r: string)
    requires |t| <= |s| && t == s[|s| - |t|..]
    requires forall i | 0 <= i < |s| - |t| :: IsSpace(s[i])
    requires |r| <= |t| && r == t[..|r|]
    requires forall i | |r| <= i < |t| :: IsSpace(t[i])
    ensures SpaceFramed(s, r, |s| - |t|, |s| - |t| + |r|)
  {
    SuffixSlice(s, t, r);
    SpacesInSuffix(s, t, |r|);
  }

  lemma SuffixSlice(s: string, t: string, r: string)
    requires |t| <= |s| && t == s[|s| - |t|..]
    requires |r| <= |t| && r == t[..|r|]
    ensures r == s[|s| - |t|..|s| - |t| + |r|]
  {
  }

  lemma SpacesInSuffix(s: string, t: string, n: nat)
    requires |t| <= |s| && t == s[|s| - |t|..] && n <= |t|
    requires forall i | n <= i < |t| :: IsSpace(t[i])
    ensures forall k | |s| - |t| + n <= k < |s| :: IsSpace(s[k])
  {
    forall k | |s| - |t| + n <= k < |s|
      ensures IsSpace(s[k])
    {
      assert s[k] == t[k - (|s| - |t|)];
    }
  }

  lemma StripOfStripped(s: string)
    requires s == [] || (!IsSpace(s[0]) && !IsSpace(s[|s| - 1]))
    ensures Strip(s) == s
  {
  }

  predicate OccursAt(hay: string, needle: string, i: nat) {
    i + |needle| <= |hay| && hay[i..i + |needle|] == needle
  }

  /** `needle in hay` for strings. */
  predicate Contains(hay: string, needle: string) {
    exists i | 0 <= i <= |hay| - |needle| :: OccursAt(hay, needle, i)
  }

  /** Index of the first `c` in `s`, or `|s|`. */
  function IndexOf(s: string, c: char): (i: nat)
    ensures i <= |s|
    ensures i < |s| ==> s[i] == c
    ensures forall j | 0 <= j < i :: s[j] != c
    ensures i == |s| <==> c !in s
  {
    if s == [] then 0 else if s[0] == c then 0 else 1 + IndexOf(s[1..], c)
  }

  /** `s.split(c, 1)[0]`: everything before the first `c`. */
  function BeforeFirst(s: string, c: char): (r: string)
    ensures c !in r
    ensures r <= s
    ensures |r| < |s| ==> s[|r|] == c
  {
    s[..IndexOf(s, c)]
  }

  /** `s.replace(c, "")` for a one-character `c`. */
  function RemoveAll(s: string, c: char): (r: string)
    ensures c !in r
    ensures c !in s ==> r == s
    ensures forall x | x in r :: x in s
  {
    if s == [] then [] else (if s[0] == c then [] else [s[0]]) + RemoveAll(s[1..], c)
  }

  /** replace() keeps every character other than `c`, as often as it occurs. */
  lemma {:induction false} RemoveAllCounts(s: string, c: char)
    ensures multiset(RemoveAll(s, c)) == multiset(s)[c := 0]
    decreases |s|
  {
    if s != [] {
      RemoveAllCounts(s[1..], c);
      assert s == [s[0]] + s[1..];
      assert multiset(s) == multiset{s[0]} + multiset(s[1..]);
    }
  }

  /** replace() keeps the remaining characters in their order. */
  lemma {:induction false} RemoveAllInOrder(s: string, c: char)
    ensures Seqs.IsSubseq(RemoveAll(s, c), s)
    decreases |s|
  {
    if s != [] {
      var rest := RemoveAll(s[1..], c);
      RemoveAllInOrder(s[1..], c);
      if s[0] == c {
        assert RemoveAll(s, c) == rest;
        Seqs.SubseqDropHead(rest, s);
      } else {
        assert RemoveAll(s, c) == [s[0]] + rest;
        assert ([s[0]] + rest)[1..] == rest;
      }
    }
  }

  /** `s[:n]`. */
  function Take(s: string, n: nat): (r: string)
    ensures |r| == if |s| <= n then |s| else n
    ensures r <= s
  {
    if |s| <= n then s else s[..n]
  }

  /** `s.split(sep)` with a one-character separator: never empty, one more
      part than there are separators. */
  function Split(s: string, sep: char): (parts: seq<string>)
    ensures |parts| >= 1
    ensures forall k | 0 <= k < |parts| :: sep !in parts[k]
    decreases |s|
  {
    var i := IndexOf(s, sep);
    if i == |s| then [s] else [s[..i]] + Split(s[i + 1..], sep)
  }

  /** `sep.join(parts)` with a one-character separator. */
  function Join(parts: seq<string>, sep: char): string
  {
    if parts == [] then []
    else if |parts| == 1 then parts[0]
    else parts[0] + [sep] + Join(parts[1..], sep)
  }

  lemma {:induction false} SplitJoin(parts: seq<string>, sep: char)
    requires |parts| >= 1
    requires forall k | 0 <= k < |parts| :: sep !in parts[k]
    ensures Split(Join(parts, sep), sep) == parts
    decreases |parts|
  {
    if |parts| == 1 {
      assert IndexOf(parts[0], sep) == |parts[0]|;
    } else {
      var rest := Join(parts[1..], sep);
      var s := parts[0] + [sep] + rest;
      assert forall j | 0 <= j < |parts[0]| :: s[j] == parts[0][j];
      assert s[|parts[0]|] == sep;
      assert IndexOf(s, sep) == |parts[0]|;
      assert s[..|parts[0]|] == parts[0];
      assert s[|parts[0]| + 1..] == rest;
      SplitJoin(parts[1..], sep);
    }
  }

  /** Length of the leading run of non-whitespace characters of `s`. */
  function WordLength(s: string): (n: nat)
    ensures n <= |s|
    ensures forall j | 0 <= j < n :: !IsSpace(s[j])
    ensures n < |s| ==> IsSpace(s[n])
  {
    if s == [] || IsSpace(s[0]) then 0 else 1 + WordLength(s[1..])
  }

  /** Non-empty words without whitespace. */
  predicate PlainWords(ws: seq<string>) {
    forall k | 0 <= k < |ws| :: ws[k] != [] && forall j | 0 <= j < |ws[k]| :: !IsSpace(ws[k][j])
  }

  lemma PlainWordsCons(w: string, ws: seq<string>)
    requires w != [] && forall j | 0 <= j < |w| :: !IsSpace(w[j])
    requires PlainWords(ws)
    ensures PlainWords([w] + ws)
  {
    forall k | 1 <= k < |ws| + 1
      ensures ([w] + ws)[k] == ws[k - 1]
    {
    }
  }

  /** `s.split()` with no argument: the maximal runs of non-whitespace. */
  function Words(s: string): (ws: seq<string>)
    ensures PlainWords(ws)
    ensures ws == [] <==> forall i | 0 <= i < |s| :: IsSpace(s[i])
    decreases |s|
  {
    var t := StripLeft(s);
    StripLeftBlank(s);
    if t == [] then []
    else
      var n := WordLength(t);
      var rest := Words(t[n..]);
      PlainWordsCons(t[..n], rest);
      [t[..n]] + rest
  }

  lemma {:induction false} WordLengthOfWord(w: string, rest: string)
    requires forall j | 0 <= j < |w| :: !IsSpace(w[j])
    requires rest == [] || IsSpace(rest[0])
    ensures WordLength(w + rest) == |w|
    decreases |w|
  {
    if w == [] {
      assert w + rest == rest;
    } else {
      assert (w + rest)[1..] == w[1..] + rest;
      WordLengthOfWord(w[1..], rest);
    }
  }

  /** Whitespace in front of the text adds no word. */
  lemma WordsSkipSpace(c: char, rest: string)
    requires IsSpace(c)
    ensures Words([c] + rest) == Words(rest)
  {
    assert ([c] + rest)[1..] == rest;
  }

  /** A word followed by a whitespace character: the word, then the words
      of what follows. */
  lemma WordsAfterWord(w: string, c: char, rest: string)
    requires w != [] && forall j | 0 <= j < |w| :: !IsSpace(w[j])
    requires IsSpace(c)
    ensures Words(w + [c] + rest) == [w] + Words(rest)
  {
    var s := w + [c] + rest;
    assert s == w + ([c] + rest);
    assert s[0] == w[0];
    assert StripLeft(s) == s;
    WordLengthOfWord(w, [c] + rest);
    assert s[..|w|] == w;
    assert s[|w|..] == [c] + rest;
    WordsSkipSpace(c, rest);
  }

  /** A lone word is its own only word. */
  lemma WordsOfWord(w: string)
    requires w != [] && forall j | 0 <= j < |w| :: !IsSpace(w[j])
    ensures Words(w) == [w]
  {
    assert StripLeft(w) == w;
    WordLengthOfWord(w, []);
    assert w + [] == w;
    assert w[|w|..] == [];
  }

  lemma PlainWordsTail(ws: seq<string>)
    requires ws != [] && PlainWords(ws)
    ensures PlainWords(ws[1..])
  {
    forall k | 0 <= k < |ws| - 1
      ensures ws[1..][k] == ws[k + 1]
    {
    }
  }

  /** Splitting words joined by single spaces gives the words back. */
  lemma {:induction false} WordsOfJoin(ws: seq<string>)
    requires PlainWords(ws)
    ensures Words(Join(ws, ' ')) == ws
    decreases |ws|
  {
    if |ws| == 1 {
      WordsOfWord(ws[0]);
    } else if ws != [] {
      PlainWordsTail(ws);
      WordsOfJoin(ws[1..]);
      WordsOfJoinStep(ws);
    }
  }

  lemma WordsOfJoinStep(ws: seq<string>)
    requires |ws| > 1 && PlainWords(ws)
    requires Words(Join(ws[1..], ' ')) == ws[1..]
    ensures Words(Join(ws, ' ')) == ws
  {
    var rest := Join(ws[1..], ' ');
    assert Join(ws, ' ') == ws[0] + [' '] + rest;
    WordsAfterWord(ws[0], ' ', rest);
    assert ws == [ws[0]] + ws[1..];
  }

  /** Reference definition of `str.split()`, one character at a time:
      `cur` is the word being read; whitespace ends it. */
  function SplitRuns(s: string, cur: string): seq<string>
    decreases |s|
  {
    if s == [] then (if cur == [] then [] else [cur])
    else if IsSpace(s[0]) then (if cur == [] then [] else [cur]) + SplitRuns(s[1..], [])
    else SplitRuns(s[1..], cur + [s[0]])
  }

  /** `Words` agrees with the reference on every text, after any partly
      read word. */
  lemma {:induction false} WordsIsSplitRuns(s: string, cur: string)
    requires forall j | 0 <= j < |cur| :: !IsSpace(cur[j])
    ensures Words(cur + s) == SplitRuns(s, cur)
    decreases |s|
  {
    if s == [] {
      SplitRunsEnd(cur);
    } else if IsSpace(s[0]) {
      WordsIsSplitRuns(s[1..], []);
      SplitRunsSpace(s, cur);
    } else {
      var cur' := cur + [s[0]];
      assert forall j | 0 <= j < |cur'| :: !IsSpace(cur'[j]) by {
        forall j | 0 <= j < |cur'| ensures !IsSpace(cur'[j]) {
          if j < |cur| { assert cur'[j] == cur[j]; }
        }
      }
      WordsIsSplitRuns(s[1..], cur');
      SplitRunsWordStep(s, cur);
    }
  }

  lemma SplitRunsEnd(cur: string)
    requires forall j | 0 <= j < |cur| :: !IsSpace(cur[j])
    ensures Words(cur + []) == SplitRuns([], cur)
  {
    assert cur + [] == cur;
    if cur != [] {
      WordsOfWord(cur);
    }
  }

  lemma SplitRunsSpace(s: string, cur: string)
    requires s != [] && IsSpace(s[0])
    requires forall j | 0 <= j < |cur| :: !IsSpace(cur[j])
    requires Words([] + s[1..]) == SplitRuns(s[1..], [])
    ensures Words(cur + s) == SplitRuns(s, cur)
  {
    EmptyPrefix(s[1..]);
    MoveHead(cur, s);
    if cur == [] {
      EmptyPrefix([s[0]] + s[1..]);
      WordsSkipSpace(s[0], s[1..]);
    } else {
      WordsAfterWord(cur, s[0], s[1..]);
    }
  }

  lemma SplitRunsWord(s: string, cur: string)
    requires s != [] && !IsSpace(s[0])
    ensures SplitRuns(s, cur) == SplitRuns(s[1..], cur + [s[0]])
  {
  }

  lemma SplitRunsWordStep(s: string, cur: string)
    requires s != [] && !IsSpace(s[0])
    requires Words((cur + [s[0]]) + s[1..]) == SplitRuns(s[1..], cur + [s[0]])
    ensures Words(cur + s) == SplitRuns(s, cur)
  {
    MoveHead(cur, s);
    SplitRunsWord(s, cur);
  }

  /** Moving the first character of `s` onto the end of `cur`. */
  lemma MoveHead(cur: string, s: string)
    requires s != []
    ensures cur + s == (cur + [s[0]]) + s[1..]
    ensures cur + s == cur + [s[0]] + s[1..]
  {
  }

  lemma EmptyPrefix(s: string)
    ensures [] + s == s
  {
  }

  /** `str.split()` of any text is the reference's words. */
  lemma WordsIsReference(s: string)
    ensures Words(s) == SplitRuns(s, [])
  {
    WordsIsSplitRuns(s, []);
    EmptyPrefix(s);
  }

  /** `" ".join(s.split())`: every whitespace run collapsed to one space,
      none at either end. */
  function Collapse(s: string): string
  {
    Join(Words(s), ' ')
  }

  /** Collapsing twice is collapsing once. */
  lemma CollapseIdempotent(s: string)
    ensures Collapse(Collapse(s)) == Collapse(s)
  {
    WordsOfJoin(Words(s));
  }
}
