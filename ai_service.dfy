/**
 * The offline enrichment heuristic of the AI service: the API-key guard, tag
 * normalisation, tokenising with stop words, word-frequency ranking, the
 * 240-character summary and the title-tag filter with backfill. The Gemini
 * request itself is represented only by the reply it produced.
 */
module AiService {
  import opened Results
  import opened Strings
  import opened Seqs
  import opened Sorting
  import opened OrderedMaps

  /** What `summarizeAndTag` returns. */
  datatype Enrichment = Enrichment(summary: string, autoTags: seq<string>)

  // ---------------------------------------------------------------------------
  // The API-key guard

  /** `hasValidApiKey`: a key that is present, not blank, and not a placeholder. */
  predicate HasValidApiKey(key: Option<string>) {
    match key
    case None => false
    case Some(k) =>
      k != "" &&
      var normalized := Trim(k);
      normalized != "" && !Contains(ToLower(normalized), "replace") && !Contains(ToLower(normalized), "change")
  }

  predicate NoSpaceIn(w: string) {
    forall i | 0 <= i < |w| :: !IsSpace(w[i])
  }

  /** A key is usable exactly when it is present, not blank, and mentions neither placeholder word in any case. */
  lemma ApiKeyIff(key: Option<string>)
    ensures HasValidApiKey(key) <==>
              key.Some? && !AllSpace(key.value)
              && !Contains(ToLower(key.value), "replace") && !Contains(ToLower(key.value), "change")
  {
    if key.Some? {
      var k := key.value;
      TrimEmptyIff(k);
      assert NoSpaceIn("replace") by {
        assert "replace" == ['r', 'e', 'p', 'l', 'a', 'c', 'e'];
      }
      assert NoSpaceIn("change") by {
        assert "change" == ['c', 'h', 'a', 'n', 'g', 'e'];
      }
      ContainsWordAfterTrim(k, "replace");
      ContainsWordAfterTrim(k, "change");
    }
  }

  /** Trimming cannot remove an occurrence of a non-empty word without white space. */
  lemma ContainsWordAfterTrim(k: string, w: string)
    requires w != "" && NoSpaceIn(w)
    ensures Contains(ToLower(Trim(k)), w) <==> Contains(ToLower(k), w)
  {
    TrimParts(k);
    var r := Trim(k);
    var lo := TrimOffset(k);
    LowerSlice(k, lo, lo + |r|);
    ContainsWordInside(k, w, lo, lo + |r|);
  }

  lemma LowerSlice(k: string, lo: nat, hi: nat)
    requires lo <= hi <= |k|
    ensures ToLower(k[lo..hi]) == ToLower(k)[lo..hi]
  {
    assert forall j | 0 <= j < hi - lo :: ToLower(k)[lo..hi][j] == LowerChar(k[lo + j]);
  }

  lemma ContainsWordInside(k: string, w: string, lo: nat, hi: nat)
    requires w != "" && NoSpaceIn(w) && lo <= hi <= |k|
    requires AllSpace(k[..lo]) && AllSpace(k[hi..])
    ensures Contains(ToLower(k)[lo..hi], w) <==> Contains(ToLower(k), w)
  {
    var low := ToLower(k);
    if Contains(low[lo..hi], w) {
      var i :| 0 <= i <= hi - lo - |w| && OccursAt(low[lo..hi], w, i);
      ContainsInSlice(low, w, lo, hi, i);
    }
    if Contains(low, w) {
      var i :| 0 <= i <= |low| - |w| && OccursAt(low, w, i);
      OccurrenceInsideTrim(k, w, lo, hi, i);
      ContainsSlice(low, w, lo, hi, i);
    }
  }

  lemma ContainsInSlice(s: string, w: string, lo: nat, hi: nat, i: nat)
    requires lo <= hi <= |s| && i <= hi - lo - |w| && OccursAt(s[lo..hi], w, i)
    ensures Contains(s, w)
  {
    var a := s[lo + i..lo + i + |w|];
    var b := s[lo..hi][i..i + |w|];
    forall j | 0 <= j < |a| ensures a[j] == b[j] {
      assert a[j] == s[lo + i + j];
      assert b[j] == s[lo..hi][i + j];
    }
    assert OccursAt(s, w, lo + i);
  }

  lemma ContainsSlice(s: string, w: string, lo: nat, hi: nat, i: nat)
    requires lo <= i && i + |w| <= hi <= |s| && OccursAt(s, w, i)
    ensures Contains(s[lo..hi], w)
  {
    var a := s[lo..hi][i - lo..i - lo + |w|];
    var b := s[i..i + |w|];
    forall j | 0 <= j < |a| ensures a[j] == b[j] {
      assert a[j] == s[lo..hi][i - lo + j];
      assert b[j] == s[i + j];
    }
    assert OccursAt(s[lo..hi], w, i - lo);
  }

  /** An occurrence of a word without white space cannot reach into the white space trimmed off either end. */
  lemma OccurrenceInsideTrim(k: string, w: string, lo: nat, hi: nat, i: nat)
    requires w != "" && NoSpaceIn(w) && lo <= hi <= |k|
    requires AllSpace(k[..lo]) && AllSpace(k[hi..])
    requires i + |w| <= |k| && OccursAt(ToLower(k), w, i)
    ensures lo <= i && i + |w| <= hi
  {
    var low := ToLower(k);
    assert low[i] == w[0];
    assert !IsSpace(k[i]);
    assert forall j | 0 <= j < lo :: IsSpace(k[j]) by {
      forall j | 0 <= j < lo ensures IsSpace(k[j]) {
        assert k[..lo][j] == k[j];
      }
    }
    var last := i + |w| - 1;
    assert low[last] == w[|w| - 1];
    assert !IsSpace(k[last]);
    assert forall j | hi <= j < |k| :: IsSpace(k[j]) by {
      forall j | hi <= j < |k| ensures IsSpace(k[j]) {
        assert k[hi..][j - hi] == k[j];
      }
    }
  }

  // ---------------------------------------------------------------------------
  // Tag normalisation

  /** `tag.trim().toLowerCase()`. */
  function NormalizeTag(tag: string): string {
    ToLower(Trim(tag))
  }

  function NormalizeEach(tags: seq<string>): (r: seq<string>)
    ensures |r| == |tags|
    ensures forall i | 0 <= i < |tags| :: r[i] == NormalizeTag(tags[i])
  {
    seq(|tags|, i requires 0 <= i < |tags| => NormalizeTag(tags[i]))
  }

  /** The test `filter(Boolean)` applies to a string. */
  predicate NonEmpty(s: string) {
    s != ""
  }

  /** `normalizeTags`: an absent list gives `[]`; otherwise the distinct non-empty normalised tags. */
  function NormalizeTags(tags: Option<seq<string>>): seq<string> {
    match tags
    case None => []
    case Some(ts) => Distinct(Filter(NormalizeEach(ts), NonEmpty))
  }

  /** A normalised tag: non-empty, lower-case, with no white space at either end. */
  predicate IsNormalTag(t: string) {
    t != "" && IsLower(t) && NoSpaceAtEnds(t)
  }

  lemma NormalizeTagIsNormal(tag: string)
    ensures NoSpaceAtEnds(NormalizeTag(tag)) && IsLower(NormalizeTag(tag))
  {
    TrimParts(tag);
    ToLowerPreservesNoSpaceAtEnds(Trim(tag));
    ToLowerIsLower(Trim(tag));
  }

  /**
   * The output of `normalizeTags` is duplicate-free, every tag in it is
   * normalised, and it holds exactly the non-empty normalisations of the input.
   */
  lemma NormalizeTagsSpec(tags: seq<string>)
    ensures NoDups(NormalizeTags(Some(tags)))
    ensures forall t | t in NormalizeTags(Some(tags)) :: IsNormalTag(t)
    ensures forall t :: t in NormalizeTags(Some(tags)) <==> t != "" && exists x | x in tags :: NormalizeTag(x) == t
  {
    var r := NormalizeTags(Some(tags));
    var all := NormalizeEach(tags);
    forall t ensures t in r <==> t != "" && exists x | x in tags :: NormalizeTag(x) == t {
      if t in r {
        var i :| 0 <= i < |all| && all[i] == t;
        assert tags[i] in tags;
      }
      if t != "" && exists x | x in tags :: NormalizeTag(x) == t {
        var x :| x in tags && NormalizeTag(x) == t;
        var i :| 0 <= i < |tags| && tags[i] == x;
        assert all[i] == t;
      }
    }
    forall t | t in r ensures IsNormalTag(t) {
      var i :| 0 <= i < |all| && all[i] == t;
      NormalizeTagIsNormal(tags[i]);
    }
  }

  /** The order of `normalizeTags` is that of first occurrence among the non-empty normalised tags. */
  lemma NormalizeTagsOrder(tags: seq<string>)
    ensures var kept := Filter(NormalizeEach(tags), NonEmpty);
            var r := NormalizeTags(Some(tags));
            forall a, b | 0 <= a < b < |r| :: FirstIndex(kept, r[a]) < FirstIndex(kept, r[b])
  {
    DistinctFirstOccurrenceOrder(Filter(NormalizeEach(tags), NonEmpty));
  }

  /** Normalising an already normalised list changes nothing. */
  lemma NormalizeTagsIdempotent(tags: seq<string>)
    ensures NormalizeTags(Some(NormalizeTags(Some(tags)))) == NormalizeTags(Some(tags))
  {
    var r := NormalizeTags(Some(tags));
    NormalizeTagsSpec(tags);
    forall i | 0 <= i < |r| ensures NormalizeTag(r[i]) == r[i] {
      assert IsNormalTag(r[i]);
      TrimOfTrimmed(r[i]);
      ToLowerIsLower(r[i]);
      LowerOfLower(r[i]);
    }
    assert NormalizeEach(r) == r;
    FilterAll(r, NonEmpty);
    DistinctOfNoDups(r);
  }

  lemma LowerOfLower(s: string)
    requires IsLower(s)
    ensures ToLower(s) == s
  {
  }

  // ---------------------------------------------------------------------------
  // Text normalisation and tokenising

  /** `STOP_WORDS`. */
  const StopWords: set<string> := {
    "a", "an", "and", "are", "as", "at", "be", "but", "by", "for", "from", "has",
    "have", "he", "her", "his", "i", "if", "in", "into", "is", "it", "its", "me",
    "my", "no", "not", "of", "on", "or", "our", "s", "she", "so", "that", "the",
    "their", "them", "there", "they", "this", "to", "us", "was", "we", "were",
    "what", "when", "where", "which", "who", "why", "will", "with", "you", "your"
  }

  /** The class `[a-z0-9]`. */
  predicate IsWordChar(c: char) {
    ('a' <= c <= 'z') || ('0' <= c <= '9')
  }

  /** `replace(/[^a-z0-9\s]/g, ' ')` on one character. */
  function MaskChar(c: char): char {
    if IsWordChar(c) || IsSpace(c) then c else ' '
  }

  function Mask(s: string): (r: string)
    ensures |r| == |s|
    ensures forall k | 0 <= k < |s| :: r[k] == MaskChar(s[k])
  {
    seq(|s|, k requires 0 <= k < |s| => MaskChar(s[k]))
  }

  /** `replace(/\s+/g, ' ')`: every maximal run of white space becomes one space. */
  function Collapse(s: string): string
    decreases |s|
  {
    if |s| == 0 then ""
    else if !IsSpace(s[0]) then [s[0]] + Collapse(s[1..])
    else if |s| > 1 && IsSpace(s[1]) then Collapse(s[1..])
    else " " + Collapse(s[1..])
  }

  /** `normalizeText`. */
  function NormalizeText(text: string): string {
    Trim(Collapse(Mask(ToLower(text))))
  }

  /** Only `[a-z0-9]` and spaces, and never two spaces in a row. */
  predicate SingleSpaced(s: string) {
    && (forall k | 0 <= k < |s| :: IsWordChar(s[k]) || s[k] == ' ')
    && (forall k | 0 <= k < |s| - 1 :: s[k] == ' ' ==> s[k + 1] != ' ')
  }

  predicate WordOrSpace(s: string) {
    forall k | 0 <= k < |s| :: IsWordChar(s[k]) || IsSpace(s[k])
  }

  lemma {:induction false} CollapseSingleSpaced(s: string)
    requires WordOrSpace(s)
    ensures SingleSpaced(Collapse(s))
    ensures |s| > 0 && !IsSpace(s[0]) ==> |Collapse(s)| > 0 && Collapse(s)[0] == s[0]
    ensures |s| > 0 && IsSpace(s[0]) ==> |Collapse(s)| > 0 && Collapse(s)[0] == ' '
    decreases |s|
  {
    if |s| > 0 {
      CollapseSingleSpaced(s[1..]);
      var c := Collapse(s[1..]);
      if !IsSpace(s[0]) {
        assert Collapse(s) == [s[0]] + c;
      } else if |s| > 1 && IsSpace(s[1]) {
      } else {
        assert Collapse(s) == " " + c;
      }
    }
  }

  lemma SingleSpacedSlice(s: string, lo: nat, hi: nat)
    requires SingleSpaced(s) && lo <= hi <= |s|
    ensures SingleSpaced(s[lo..hi])
  {
    assert forall k | 0 <= k < hi - lo :: s[lo..hi][k] == s[lo + k];
  }

  /** What `normalizeText` returns: letters, digits and single spaces, with no space at either end. */
  predicate IsNormalText(s: string) {
    SingleSpaced(s) && NoSpaceAtEnds(s)
  }

  lemma NormalizeTextSpec(text: string)
    ensures IsNormalText(NormalizeText(text))
  {
    var m := Mask(ToLower(text));
    assert WordOrSpace(m);
    CollapseSingleSpaced(m);
    var c := Collapse(m);
    TrimParts(c);
    var r := Trim(c);
    var lo := TrimOffset(c);
    SingleSpacedSlice(c, lo, lo + |r|);
  }

  /** The letters and digits of `s`, in order: what normalisation must keep. */
  function WordChars(s: string): string
    decreases |s|
  {
    if |s| == 0 then "" else (if IsWordChar(s[0]) then [s[0]] else "") + WordChars(s[1..])
  }

  lemma {:induction false} WordCharsAppend(a: string, b: string)
    ensures WordChars(a + b) == WordChars(a) + WordChars(b)
    decreases |a|
  {
    if |a| == 0 {
      assert a + b == b;
    } else {
      assert (a + b)[0] == a[0] && (a + b)[1..] == a[1..] + b;
      WordCharsAppend(a[1..], b);
      AppendAssoc(if IsWordChar(a[0]) then [a[0]] else "", WordChars(a[1..]), WordChars(b));
    }
  }

  lemma {:induction false} WordCharsOfSpace(s: string)
    requires AllSpace(s)
    ensures WordChars(s) == ""
    decreases |s|
  {
    if |s| > 0 {
      WordCharsOfSpace(s[1..]);
    }
  }

  lemma {:induction false} WordCharsMask(s: string)
    ensures WordChars(Mask(s)) == WordChars(s)
    decreases |s|
  {
    if |s| > 0 {
      assert Mask(s)[1..] == Mask(s[1..]);
      WordCharsMask(s[1..]);
    }
  }

  lemma {:induction false} WordCharsCollapse(s: string)
    ensures WordChars(Collapse(s)) == WordChars(s)
    decreases |s|
  {
    if |s| > 0 {
      WordCharsCollapse(s[1..]);
      if IsSpace(s[0]) {
        assert !IsWordChar(s[0]);
        if !(|s| > 1 && IsSpace(s[1])) {
          assert (" " + Collapse(s[1..]))[1..] == Collapse(s[1..]);
        }
      } else {
        assert ([s[0]] + Collapse(s[1..]))[1..] == Collapse(s[1..]);
      }
    }
  }

  lemma WordCharsTrim(s: string)
    ensures WordChars(Trim(s)) == WordChars(s)
  {
    TrimParts(s);
    var r := Trim(s);
    var lo := TrimOffset(s);
    assert s == s[..lo] + r + s[lo + |r|..];
    WordCharsAppend(s[..lo] + r, s[lo + |r|..]);
    WordCharsAppend(s[..lo], r);
    WordCharsOfSpace(s[..lo]);
    WordCharsOfSpace(s[lo + |r|..]);
  }

  /** Normalisation keeps every letter and digit of the lower-cased text, in order, and changes only the separators. */
  lemma NormalizeTextKeepsWords(text: string)
    ensures WordChars(NormalizeText(text)) == WordChars(ToLower(text))
  {
    var m := Mask(ToLower(text));
    WordCharsMask(ToLower(text));
    WordCharsCollapse(m);
    WordCharsTrim(Collapse(m));
  }

  /** The test `tokenize` keeps a piece by: at least three characters and not a stop word. */
  predicate IsKeyword(t: string) {
    |t| >= 3 && t !in StopWords
  }

  /** `tokenize`. */
  function Tokenize(text: string): seq<string> {
    if text == "" then [] else Filter(Split(NormalizeText(text), ' '), IsKeyword)
  }

  lemma {:induction false} SplitPiecesFrom(s: string, c: char)
    ensures forall p, k | p in Split(s, c) && 0 <= k < |p| :: p[k] in s
    decreases |s|
  {
    if c in s {
      var i := IndexOf(s, c);
      SplitPiecesFrom(s[i + 1..], c);
      forall p, k | p in Split(s, c) && 0 <= k < |p| ensures p[k] in s {
        if p != s[..i] {
          assert p in Split(s[i + 1..], c);
          assert p[k] in s[i + 1..];
        } else {
          assert s[..i][k] == s[k];
        }
      }
    }
  }

  /** Every token is a keyword made of letters and digits only. */
  lemma TokenizeSpec(text: string)
    ensures forall t | t in Tokenize(text) :: IsKeyword(t) && forall k | 0 <= k < |t| :: IsWordChar(t[k])
    ensures forall t :: t in Tokenize(text) <==> text != "" && t in Split(NormalizeText(text), ' ') && IsKeyword(t)
  {
    if text != "" {
      var n := NormalizeText(text);
      NormalizeTextSpec(text);
      SplitPiecesFrom(n, ' ');
      forall t, k | t in Tokenize(text) && 0 <= k < |t| ensures IsWordChar(t[k]) {
        assert t in Split(n, ' ');
        assert t[k] != ' ';
        assert t[k] in n;
      }
    }
  }

  lemma {:induction false} NoWordCharsAtAll(s: string)
    requires WordChars(s) == ""
    ensures forall k | 0 <= k < |s| :: !IsWordChar(s[k])
    decreases |s|
  {
    if |s| > 0 {
      NoWordCharsAtAll(s[1..]);
      assert forall k | 1 <= k < |s| :: s[k] == s[1..][k - 1];
    }
  }

  /** Text without a single ASCII letter or digit yields no tokens. */
  lemma NoWordCharsNoTokens(text: string)
    requires WordChars(ToLower(text)) == ""
    ensures Tokenize(text) == []
  {
    if text != "" {
      var n := NormalizeText(text);
      NormalizeTextKeepsWords(text);
      NormalizeTextSpec(text);
      NoWordCharsAtAll(n);
      assert |n| == 0;
      assert Split(n, ' ') == [""];
      assert Filter([""], IsKeyword) == [] by {
        assert [""][1..] == [];
      }
    }
  }

  // ---------------------------------------------------------------------------
  // Word frequencies

  /** A word's starting count: its value in the seed map, or 0. */
  function Base(seed: OMap<string, int>, w: string): int {
    if w in seed.entries then seed.entries[w] else 0
  }

  /** `m` holds the weighted counts of `words` added on top of `seed`, keyed in first-occurrence order. */
  ghost predicate FrequencyOf(m: OMap<string, int>, seed: OMap<string, int>, words: seq<string>, weight: int) {
    && m.Valid()
    && m.keys == Distinct(seed.keys + words)
    && forall w | w in m.entries :: m.entries[w] == Base(seed, w) + weight * Count(words, w)
  }

  lemma FrequencyStep(m: OMap<string, int>, seed: OMap<string, int>, words: seq<string>, i: nat, weight: int)
    requires seed.Valid() && i < |words| && FrequencyOf(m, seed, words[..i], weight)
    ensures FrequencyOf(m.Put(words[i], Base(m, words[i]) + weight), seed, words[..i + 1], weight)
  {
    var w := words[i];
    FrequencyKeysStep(m, seed.keys, words, i, Base(m, w) + weight);
    if w !in m.entries {
      assert w !in seed.keys + words[..i];
    }
    FrequencyEntriesStep(m.entries, seed, words, i, weight);
  }

  lemma FrequencyKeysStep(m: OMap<string, int>, start: seq<string>, words: seq<string>, i: nat, v: int)
    requires i < |words| && m.Valid() && m.keys == Distinct(start + words[..i])
    ensures m.Put(words[i], v).keys == Distinct(start + words[..i + 1])
  {
    assert start + words[..i + 1] == (start + words[..i]) + [words[i]];
    DistinctSnoc(start + words[..i], words[i]);
  }

  lemma FrequencyEntriesStep(e: map<string, int>, seed: OMap<string, int>, words: seq<string>, i: nat, weight: int)
    requires i < |words|
    requires forall u | u in e :: e[u] == Base(seed, u) + weight * Count(words[..i], u)
    requires words[i] !in e ==> Base(seed, words[i]) == 0 && Count(words[..i], words[i]) == 0
    ensures var w := words[i];
            var e' := e[w := (if w in e then e[w] else 0) + weight];
            forall u | u in e' :: e'[u] == Base(seed, u) + weight * Count(words[..i + 1], u)
  {
    assert words[..i + 1] == words[..i] + [words[i]];
    FrequencyEntriesSnoc(e, seed, words[..i], words[i], weight);
  }

  lemma FrequencyEntriesSnoc(e: map<string, int>, seed: OMap<string, int>, done: seq<string>, w: string, weight: int)
    requires forall u | u in e :: e[u] == Base(seed, u) + weight * Count(done, u)
    requires w !in e ==> Base(seed, w) == 0 && Count(done, w) == 0
    ensures var e' := e[w := (if w in e then e[w] else 0) + weight];
            forall u | u in e' :: e'[u] == Base(seed, u) + weight * Count(done + [w], u)
  {
    var e' := e[w := (if w in e then e[w] else 0) + weight];
    forall u | u in e' ensures e'[u] == Base(seed, u) + weight * Count(done + [w], u) {
      CountSnoc(done, w, u);
      if u == w {
        var c := Count(done, w);
        assert weight * (c + 1) == weight * c + weight;
      }
    }
  }

  /**
   * `buildFrequency`: adds `weight` to a word's entry for every occurrence,
   * starting from `seed` (or an empty map). A new word is appended to the
   * key order; a word already present keeps its place.
   */
  method BuildFrequency(words: seq<string>, weight: int := 1, seed: Option<OMap<string, int>> := None)
    returns (freq: OMap<string, int>)
    requires seed.Some? ==> seed.value.Valid()
    ensures var s0 := seed.GetOr(Empty());
            && freq.Valid()
            && freq.keys == Distinct(s0.keys + words)
            && forall w | w in freq.entries :: freq.entries[w] == Base(s0, w) + weight * Count(words, w)
  {
    var s0 := seed.GetOr(Empty());
    freq := s0;
    DistinctOfNoDups(s0.keys);
    assert s0.keys + [] == s0.keys;
    assert words[..0] == [];
    for i := 0 to |words|
      invariant FrequencyOf(freq, s0, words[..i], weight)
    {
      var word := words[i];
      FrequencyStep(freq, s0, words, i, weight);
      freq := freq.Put(word, Base(freq, word) + weight);
    }
    assert words[..|words|] == words;
  }

  /** A reference definition of the unweighted counts of `words`. */
  function WordCounts(words: seq<string>): OMap<string, int> {
    OMap(Distinct(words), map w | w in words :: Count(words, w))
  }

  /** Counting from an empty map with weight 1 gives exactly the occurrence counts. */
  lemma FrequencyIsWordCounts(m: OMap<string, int>, words: seq<string>)
    requires FrequencyOf(m, Empty(), words, 1)
    ensures m == WordCounts(words)
  {
    var e: OMap<string, int> := Empty();
    assert e.keys + words == words;
    var c := WordCounts(words);
    assert m.keys == c.keys;
    assert m.entries.Keys == c.entries.Keys;
    forall w | w in m.entries ensures m.entries[w] == c.entries[w] {
      assert w in m.keys;
    }
    assert m.entries == c.entries;
  }

  // ---------------------------------------------------------------------------
  // Picking the most frequent words

  /** An entry `[word, count]` of `freq.entries()`. */
  datatype WordCount = WordCount(word: string, count: int)

  function CountOf(e: WordCount): int {
    e.count
  }

  /** `[...freq.entries()]`. */
  function EntryList(freq: OMap<string, int>): (r: seq<WordCount>)
    requires freq.Valid()
    ensures |r| == |freq.keys|
    ensures forall i | 0 <= i < |r| :: r[i] == WordCount(freq.keys[i], freq.entries[freq.keys[i]])
  {
    seq(|freq.keys|, i requires 0 <= i < |freq.keys| => WordCount(freq.keys[i], freq.entries[freq.keys[i]]))
  }

  /** `map(([word]) => word)`. */
  function WordsOf(es: seq<WordCount>): (r: seq<string>)
    ensures |r| == |es|
    ensures forall i | 0 <= i < |es| :: r[i] == es[i].word
  {
    seq(|es|, i requires 0 <= i < |es| => es[i].word)
  }

  /** `pickTopKeywords`: the entries stably sorted by count, largest first, cut to `count`, words only. */
  function PickTopKeywords(freq: OMap<string, int>, count: nat): seq<string>
    requires freq.Valid()
  {
    WordsOf(Take(SortByKeyDesc(EntryList(freq), CountOf), count))
  }

  /** The sorted entries list every word of the map once, with its count. */
  lemma SortedEntriesFacts(freq: OMap<string, int>)
    requires freq.Valid()
    ensures var s := SortByKeyDesc(EntryList(freq), CountOf);
            && (forall p | 0 <= p < |s| :: s[p].word in freq.entries && s[p].count == freq.entries[s[p].word])
            && (forall p, q | 0 <= p < q < |s| :: s[p].word != s[q].word)
            && (forall w | w in freq.entries :: exists p | 0 <= p < |s| :: s[p].word == w)
  {
    var e := EntryList(freq);
    var s := SortByKeyDesc(e, CountOf);
    forall p | 0 <= p < |s|
      ensures s[p].word in freq.entries && s[p].count == freq.entries[s[p].word]
    {
      assert s[p] in multiset(s);
      assert s[p] in e;
    }
    PermutationKeepsNoDups(e, s);
    forall w | w in freq.entries ensures exists p | 0 <= p < |s| :: s[p].word == w {
      var i :| 0 <= i < |freq.keys| && freq.keys[i] == w;
      assert e[i] in multiset(s);
      var p :| 0 <= p < |s| && s[p] == e[i];
    }
  }

  /**
   * `pickTopKeywords(freq, n)` returns `min(n, size)` distinct words of the map
   * in non-increasing order of frequency, and no word left out is more frequent
   * than any word picked.
   */
  lemma PickTopKeywordsSpec(freq: OMap<string, int>, n: nat)
    requires freq.Valid()
    ensures var r := PickTopKeywords(freq, n);
            && |r| == (if n <= |freq.keys| then n else |freq.keys|)
            && NoDups(r)
            && (forall w | w in r :: w in freq.entries)
            && (forall i, j | 0 <= i < j < |r| :: freq.entries[r[i]] >= freq.entries[r[j]])
            && (forall w, i | w in freq.entries && w !in r && 0 <= i < |r| :: freq.entries[r[i]] >= freq.entries[w])
  {
    var s := SortByKeyDesc(EntryList(freq), CountOf);
    SortedEntriesFacts(freq);
    TopOfSorted(freq, s, n);
  }

  /** The first `n` words of a list of the map's entries sorted by decreasing count. */
  lemma TopOfSorted(freq: OMap<string, int>, s: seq<WordCount>, n: nat)
    requires freq.Valid() && |s| == |freq.keys|
    requires forall i, j | 0 <= i < j < |s| :: s[i].count >= s[j].count
    requires forall p | 0 <= p < |s| :: s[p].word in freq.entries && s[p].count == freq.entries[s[p].word]
    requires forall p, q | 0 <= p < q < |s| :: s[p].word != s[q].word
    requires forall w | w in freq.entries :: exists p | 0 <= p < |s| :: s[p].word == w
    ensures var r := WordsOf(Take(s, n));
            && |r| == (if n <= |freq.keys| then n else |freq.keys|)
            && NoDups(r)
            && (forall i | 0 <= i < |r| :: r[i] == s[i].word && r[i] in freq.entries)
            && (forall w | w in r :: w in freq.entries)
            && (forall i, j | 0 <= i < j < |r| :: freq.entries[r[i]] >= freq.entries[r[j]])
            && (forall w, i | w in freq.entries && w !in r && 0 <= i < |r| :: freq.entries[r[i]] >= freq.entries[w])
  {
    var t := Take(s, n);
    var r := WordsOf(t);
    forall w, i | w in freq.entries && w !in r && 0 <= i < |r|
      ensures freq.entries[r[i]] >= freq.entries[w]
    {
      var p :| 0 <= p < |s| && s[p].word == w;
      assert p >= |r|;
    }
  }

  /** Among words of equal frequency, `pickTopKeywords` keeps the order in which they were first counted. */
  lemma PickTopKeywordsTies(freq: OMap<string, int>, k: int)
    requires freq.Valid()
    ensures WithKey(SortByKeyDesc(EntryList(freq), CountOf), CountOf, k) == WithKey(EntryList(freq), CountOf, k)
  {
    SortByKeyDescStable(EntryList(freq), CountOf, k);
  }

  /** `generateAutoTags` as a value: the five most frequent tokens of the content. */
  function AutoTags(content: string): seq<string> {
    var counts := WordCounts(Tokenize(content));
    assert counts.Valid() by {
      DistinctCountsValid(Tokenize(content));
    }
    PickTopKeywords(counts, 5)
  }

  lemma DistinctCountsValid(words: seq<string>)
    ensures WordCounts(words).Valid()
  {
  }

  /** `generateAutoTags`. */
  method GenerateAutoTags(content: string) returns (tags: seq<string>)
    ensures tags == AutoTags(content)
  {
    var bodyTokens := Tokenize(content);
    var freq := BuildFrequency(bodyTokens, 1);
    var e: OMap<string, int> := Empty();
    assert FrequencyOf(freq, e, bodyTokens, 1);
    FrequencyIsWordCounts(freq, bodyTokens);
    tags := PickTopKeywords(freq, 5);
  }

  /** At most five distinct keywords of the content, the most frequent first. */
  lemma AutoTagsSpec(content: string)
    ensures |AutoTags(content)| <= 5
    ensures NoDups(AutoTags(content))
    ensures forall t | t in AutoTags(content) :: t in Tokenize(content) && IsKeyword(t)
  {
    var words := Tokenize(content);
    var counts := WordCounts(words);
    DistinctCountsValid(words);
    PickTopKeywordsSpec(counts, 5);
    TokenizeSpec(content);
  }

  // ---------------------------------------------------------------------------
  // The summary

  predicate IsTerminator(c: char) {
    c == '.' || c == '!' || c == '?'
  }

  /** The end of the maximal run of non-terminators that starts at `k`. */
  function PlainRunEnd(s: string, k: nat): (r: nat)
    requires k <= |s|
    ensures k <= r <= |s|
    ensures r == |s| || IsTerminator(s[r])
    decreases |s| - k
  {
    if k == |s| || IsTerminator(s[k]) then k else PlainRunEnd(s, k + 1)
  }

  /** The end of the maximal run of terminators that starts at `k`. */
  function StopRunEnd(s: string, k: nat): (r: nat)
    requires k <= |s|
    ensures k <= r <= |s|
    ensures r == |s| || !IsTerminator(s[r])
    decreases |s| - k
  {
    if k == |s| || !IsTerminator(s[k]) then k else StopRunEnd(s, k + 1)
  }

  lemma {:induction false} PlainRunEndSpec(s: string, k: nat)
    requires k <= |s|
    ensures forall p | k <= p < PlainRunEnd(s, k) :: !IsTerminator(s[p])
    decreases |s| - k
  {
    if k < |s| && !IsTerminator(s[k]) {
      PlainRunEndSpec(s, k + 1);
    }
  }

  lemma {:induction false} StopRunEndSpec(s: string, k: nat)
    requires k <= |s|
    ensures forall p | k <= p < StopRunEnd(s, k) :: IsTerminator(s[p])
    decreases |s| - k
  {
    if k < |s| && IsTerminator(s[k]) {
      StopRunEndSpec(s, k + 1);
    }
  }

  /**
   * `/[^.!?]+[.!?]+/` matches at `i`: a non-terminator, the rest of its run, and
   * at least one terminator. Both runs are greedy and disjoint, so backtracking
   * never helps and the match is decided by the maximal runs.
   */
  predicate SentenceAt(s: string, i: nat) {
    i < |s| && !IsTerminator(s[i]) && PlainRunEnd(s, i) < |s|
  }

  function SentenceEnd(s: string, i: nat): (e: nat)
    requires SentenceAt(s, i)
    ensures i + 2 <= e <= |s|
  {
    StopRunEnd(s, PlainRunEnd(s, i))
  }

  /** The successive sentences the global regular expression finds when it starts searching at `from`. */
  function SentencesFrom(s: string, from: nat): seq<string>
    decreases |s| - from
  {
    if from >= |s| then []
    else if SentenceAt(s, from) then [s[from..SentenceEnd(s, from)]] + SentencesFrom(s, SentenceEnd(s, from))
    else SentencesFrom(s, from + 1)
  }

  /** `s.match(/[^.!?]+[.!?]+/g)`, with no match as the empty list. */
  function Sentences(s: string): seq<string> {
    SentencesFrom(s, 0)
  }

  /** A sentence: text that does not start with a terminator, followed by the terminators that end it. */
  predicate IsSentence(x: string) {
    |x| >= 2 && !IsTerminator(x[0]) && IsTerminator(x[|x| - 1])
  }

  lemma {:induction false} SentencesFromShape(s: string, from: nat)
    ensures forall x | x in SentencesFrom(s, from) :: IsSentence(x)
    decreases |s| - from
  {
    if from < |s| {
      if SentenceAt(s, from) {
        var j := PlainRunEnd(s, from);
        var e := SentenceEnd(s, from);
        StopRunEndSpec(s, j);
        SentencesFromShape(s, e);
        var x := s[from..e];
        assert x[|x| - 1] == s[e - 1];
      } else {
        SentencesFromShape(s, from + 1);
      }
    }
  }

  /** A place where a terminator follows some other character. */
  predicate EndsSentenceAt(s: string, i: nat) {
    i + 1 < |s| && !IsTerminator(s[i]) && IsTerminator(s[i + 1])
  }

  lemma {:induction false} SentencesFromExist(s: string, from: nat)
    ensures |SentencesFrom(s, from)| > 0 <==> exists i | from <= i :: EndsSentenceAt(s, i)
    decreases |s| - from
  {
    if from < |s| {
      SentencesFromExist(s, from + 1);
      if EndsSentenceAt(s, from) {
        assert PlainRunEnd(s, from + 1) == from + 1;
      }
      if SentenceAt(s, from) {
        var j := PlainRunEnd(s, from);
        PlainRunEndSpec(s, from);
        assert EndsSentenceAt(s, j - 1);
      }
    }
  }

  /** There is at least one sentence exactly when some terminator follows another character. */
  lemma SentencesExist(s: string)
    ensures |Sentences(s)| > 0 <==> exists i :: EndsSentenceAt(s, i)
    ensures forall x | x in Sentences(s) :: IsSentence(x)
  {
    SentencesFromExist(s, 0);
    SentencesFromShape(s, 0);
  }

  const SummaryLimit := 240

  /** `trimmed.replace(/\s+/g, ' ').trim()`. */
  function SingleSpaceText(content: string): string {
    Trim(Collapse(Trim(content)))
  }

  /** The summary before the length cap: the first two sentences, or else the first 40 words. */
  function Draft(normalized: string): string {
    var sentences := Sentences(normalized);
    if |sentences| > 0 then Trim(Join(Take(sentences, 2), " "))
    else Trim(Join(Take(Split(normalized, ' '), 40), " "))
  }

  /**
   * `generateSummary`. Blank content gives `"Note about <title>"`, or `""`
   * without a title, and is not capped. Otherwise the draft is kept when it
   * fits in 240 characters, and is cut to its first 237, trimmed, and given
   * an ellipsis when it does not.
   */
  method GenerateSummary(title: string, content: string) returns (summary: string)
    ensures Trim(content) == "" ==> summary == (if title == "" then "" else "Note about " + title)
    ensures Trim(content) != "" ==> |summary| <= SummaryLimit
    ensures Trim(content) != "" ==>
              var d := Draft(SingleSpaceText(content));
              if |d| <= SummaryLimit then summary == d
              else
                && |summary| >= 3 && summary[|summary| - 3..] == "..."
                && TrimmedFrom(summary[..|summary| - 3], d[..237])
                && NoSpaceAtEnds(summary[..|summary| - 3])
  {
    var trimmed := Trim(content);
    if trimmed == "" {
      return if title != "" then "Note about " + title else "";
    }
    var normalized := Trim(Collapse(trimmed));
    summary := Draft(normalized);
    if |summary| > SummaryLimit {
      var cut := Trim(summary[..237]);
      TrimSpec(summary[..237]);
      TrimParts(summary[..237]);
      summary := cut + "...";
      assert summary[..|summary| - 3] == cut;
    }
  }

  // ---------------------------------------------------------------------------
  // Tag count and title filtering

  /** `ensureTagCount`: the normalised tags, cut to `max` when there are more. */
  function EnsureTagCount(tags: seq<string>, min: int := 3, max: nat := 5): seq<string> {
    var unique := NormalizeTags(Some(tags));
    if |unique| <= max && |unique| >= min then unique
    else if |unique| > max then unique[..max]
    else unique
  }

  /** The lower bound plays no part: the result is always the first `max` normalised tags, and nothing is padded. */
  lemma EnsureTagCountSpec(tags: seq<string>, min: int, max: nat)
    ensures EnsureTagCount(tags, min, max) == Take(NormalizeTags(Some(tags)), max)
    ensures |EnsureTagCount(tags, min, max)| <= max
    ensures NoDups(EnsureTagCount(tags, min, max))
    ensures forall t | t in EnsureTagCount(tags, min, max) :: IsNormalTag(t)
  {
    var unique := NormalizeTags(Some(tags));
    NormalizeTagsSpec(tags);
    var r := EnsureTagCount(tags, min, max);
    assert r == unique[..|r|];
    assert forall t | t in r :: t in unique;
  }

  /** `new Set(tokenize(title))`. */
  function TitleTokens(title: string): set<string> {
    Elements(Tokenize(title))
  }

  /** A tag that may stay: neither a title token nor `untitled`. */
  predicate KeepTag(tag: string, tokens: set<string>) {
    tag !in tokens && tag != "untitled"
  }

  function KeepTags(tags: seq<string>, tokens: set<string>): seq<string> {
    if |tags| == 0 then []
    else (if KeepTag(tags[0], tokens) then [tags[0]] else []) + KeepTags(tags[1..], tokens)
  }

  /** `removeTitleTags`. */
  function RemoveTitleTags(tags: seq<string>, title: string): seq<string> {
    var titleTokens := TitleTokens(title);
    if |titleTokens| == 0 then KeepTags(tags, {}) else KeepTags(tags, titleTokens)
  }

  lemma {:induction false} KeepTagsSpec(tags: seq<string>, tokens: set<string>)
    ensures IsSubsequence(KeepTags(tags, tokens), tags)
    ensures forall t :: t in KeepTags(tags, tokens) <==> t in tags && KeepTag(t, tokens)
  {
    if |tags| > 0 {
      KeepTagsSpec(tags[1..], tokens);
      var rest := KeepTags(tags[1..], tokens);
      assert tags == [tags[0]] + tags[1..];
      if KeepTag(tags[0], tokens) {
        assert KeepTags(tags, tokens)[1..] == rest;
      } else {
        assert KeepTags(tags, tokens) == rest;
        SubsequenceSkip(rest, tags);
      }
    }
  }

  /** `removeTitleTags` keeps, in order, exactly the tags that are neither title tokens nor `untitled`. */
  lemma RemoveTitleTagsSpec(tags: seq<string>, title: string)
    ensures IsSubsequence(RemoveTitleTags(tags, title), tags)
    ensures forall t :: t in RemoveTitleTags(tags, title) <==>
                        t in tags && t !in Tokenize(title) && t != "untitled"
  {
    KeepTagsSpec(tags, TitleTokens(title));
    if |TitleTokens(title)| == 0 {
      assert TitleTokens(title) == {};
      KeepTagsSpec(tags, {});
    }
  }

  /** A single tag survives `removeTitleTags` exactly when it may stay. */
  lemma RemoveTitleTagsSingle(tag: string, title: string)
    ensures |RemoveTitleTags([tag], title)| == 0 <==> !KeepTag(tag, TitleTokens(title))
  {
    KeepTagsSpec([tag], TitleTokens(title));
    if |TitleTokens(title)| == 0 {
      assert TitleTokens(title) == {};
      KeepTagsSpec([tag], {});
    }
  }

  // ---------------------------------------------------------------------------
  // Final tags

  /** The backfill loop of `finalizeTags`, consuming `fallback` in order. */
  function Backfill(combined: seq<string>, fallback: seq<string>, title: string, max: int): seq<string>
    decreases |fallback|
  {
    if |fallback| == 0 || |combined| >= max then combined
    else
      var tag := fallback[0];
      if tag !in combined && |RemoveTitleTags([tag], title)| == 0 then Backfill(combined, fallback[1..], title, max)
      else if tag !in combined then Backfill(combined + [tag], fallback[1..], title, max)
      else Backfill(combined, fallback[1..], title, max)
  }

  /** Backfill only appends, and stops at `max` tags. */
  lemma {:induction false} BackfillGrows(combined: seq<string>, fallback: seq<string>, title: string, max: int)
    ensures var r := Backfill(combined, fallback, title, max);
            && |combined| <= |r| && r[..|combined|] == combined
            && (|combined| <= max ==> |r| <= max)
    decreases |fallback|
  {
    if |fallback| > 0 && |combined| < max {
      var tag := fallback[0];
      var rest := fallback[1..];
      if tag !in combined && |RemoveTitleTags([tag], title)| == 0 {
        BackfillGrows(combined, rest, title, max);
      } else if tag !in combined {
        var c := combined + [tag];
        BackfillGrows(c, rest, title, max);
        var r := Backfill(c, rest, title, max);
        assert r[..|combined|] == c[..|combined|];
      } else {
        BackfillGrows(combined, rest, title, max);
      }
    }
  }

  /** Every tag of `r` from position `n` on comes from `src`, occurs once, and is neither a title token nor `untitled`. */
  predicate AppendsFrom(r: seq<string>, n: nat, src: seq<string>, title: string) {
    forall k | n <= k < |r| :: r[k] in src && r[k] !in r[..k] && KeepTag(r[k], TitleTokens(title))
  }

  /**
   * Every tag backfill appends comes from the fallback, was not present
   * before, and is neither a title token nor `untitled`.
   */
  lemma {:induction false} BackfillAdds(combined: seq<string>, fallback: seq<string>, title: string, max: int)
    ensures AppendsFrom(Backfill(combined, fallback, title, max), |combined|, fallback, title)
    decreases |fallback|
  {
    if |fallback| > 0 && |combined| < max {
      var tag := fallback[0];
      var rest := fallback[1..];
      if tag !in combined && |RemoveTitleTags([tag], title)| == 0 {
        BackfillAdds(combined, rest, title, max);
        AppendsFromWider(Backfill(combined, rest, title, max), |combined|, rest, fallback, title);
      } else if tag !in combined {
        BackfillAdds(combined + [tag], rest, title, max);
        BackfillAddsPush(combined, fallback, title, max);
      } else {
        BackfillAdds(combined, rest, title, max);
        AppendsFromWider(Backfill(combined, rest, title, max), |combined|, rest, fallback, title);
      }
    }
  }

  /** A wider source keeps `AppendsFrom`. */
  lemma AppendsFromWider(r: seq<string>, n: nat, src: seq<string>, wider: seq<string>, title: string)
    requires AppendsFrom(r, n, src, title)
    requires forall x | x in src :: x in wider
    ensures AppendsFrom(r, n, wider, title)
  {
  }

  /** The step of `BackfillAdds` where the next fallback tag is pushed. */
  lemma BackfillAddsPush(combined: seq<string>, fallback: seq<string>, title: string, max: int)
    requires |fallback| > 0 && |combined| < max && fallback[0] !in combined
    requires |RemoveTitleTags([fallback[0]], title)| != 0
    requires AppendsFrom(Backfill(combined + [fallback[0]], fallback[1..], title, max), |combined| + 1, fallback[1..], title)
    ensures AppendsFrom(Backfill(combined, fallback, title, max), |combined|, fallback, title)
  {
    var tag := fallback[0];
    var c := combined + [tag];
    var r := Backfill(c, fallback[1..], title, max);
    assert Backfill(combined, fallback, title, max) == r;
    BackfillGrows(c, fallback[1..], title, max);
    RemoveTitleTagsSingle(tag, title);
    assert r[..|combined|] == combined by {
      assert r[..|combined|] == c[..|combined|];
    }
    forall k | |combined| <= k < |r|
      ensures r[k] in fallback && r[k] !in r[..k] && KeepTag(r[k], TitleTokens(title))
    {
      if k == |combined| {
        assert r[k] == tag && r[..k] == combined;
      } else {
        assert r[k] in fallback[1..];
      }
    }
  }

  /** What `finalizeTags` returns. */
  function FinalTags(tags: seq<string>, title: string, content: string, min: int, max: nat): seq<string> {
    var filtered := RemoveTitleTags(tags, title);
    if |filtered| >= min then Take(filtered, max)
    else Backfill(filtered, AutoTags(content), title, max)
  }

  /** `finalizeTags`. */
  method FinalizeTags(tags: seq<string>, title: string, content: string, min: int := 3, max: nat := 5)
    returns (result: seq<string>)
    ensures result == FinalTags(tags, title, content, min, max)
  {
    var filtered := RemoveTitleTags(tags, title);
    if |filtered| >= min {
      return Take(filtered, max);
    }
    var fallback := GenerateAutoTags(content);
    var combined := filtered;
    var i := 0;
    while i < |fallback|
      invariant 0 <= i <= |fallback|
      invariant Backfill(combined, fallback[i..], title, max) == Backfill(filtered, fallback, title, max)
    {
      var tag := fallback[i];
      assert fallback[i..][1..] == fallback[i + 1..];
      if |combined| >= max {
        break;
      }
      if tag !in combined && |RemoveTitleTags([tag], title)| == 0 {
        i := i + 1;
        continue;
      }
      if tag !in combined {
        combined := combined + [tag];
      }
      i := i + 1;
    }
    assert i == |fallback| ==> fallback[i..] == [];
    result := combined;
  }

  /**
   * The final tags never include a title token or `untitled`; there are at
   * most `max` of them when `min <= max`; and every tag comes from the input or
   * from the content's keywords.
   */
  lemma FinalTagsSpec(tags: seq<string>, title: string, content: string, min: int, max: nat)
    ensures forall t | t in FinalTags(tags, title, content, min, max) :: t !in Tokenize(title) && t != "untitled"
    ensures min <= max ==> |FinalTags(tags, title, content, min, max)| <= max
    ensures forall t | t in FinalTags(tags, title, content, min, max) :: t in tags || t in AutoTags(content)
  {
    var filtered := RemoveTitleTags(tags, title);
    RemoveTitleTagsSpec(tags, title);
    if |filtered| < min {
      BackfillKeeps(filtered, tags, AutoTags(content), title, max);
    } else {
      TakeKeeps(filtered, tags, title, max);
    }
  }

  /** Backfilling tags that are kept and come from `tags` gives kept tags that come from `tags` or the fallback. */
  lemma BackfillKeeps(filtered: seq<string>, tags: seq<string>, fallback: seq<string>, title: string, max: int)
    requires forall t | t in filtered :: t in tags && t !in Tokenize(title) && t != "untitled"
    ensures var r := Backfill(filtered, fallback, title, max);
            && (forall t | t in r :: t !in Tokenize(title) && t != "untitled" && (t in tags || t in fallback))
            && (|filtered| <= max ==> |r| <= max)
  {
    var r := Backfill(filtered, fallback, title, max);
    BackfillGrows(filtered, fallback, title, max);
    BackfillAdds(filtered, fallback, title, max);
    forall t | t in r
      ensures t !in Tokenize(title) && t != "untitled" && (t in tags || t in fallback)
    {
      var k :| 0 <= k < |r| && r[k] == t;
      if k < |filtered| {
        assert t == r[..|filtered|][k];
      } else {
        assert KeepTag(r[k], TitleTokens(title));
      }
    }
  }

  /** Cutting kept tags from `tags` down to `max` keeps at most `max` of them. */
  lemma TakeKeeps(filtered: seq<string>, tags: seq<string>, title: string, max: nat)
    requires forall t | t in filtered :: t in tags && t !in Tokenize(title) && t != "untitled"
    ensures forall t | t in Take(filtered, max) :: t in tags && t !in Tokenize(title) && t != "untitled"
    ensures |Take(filtered, max)| <= max
  {
    var r := Take(filtered, max);
    forall t | t in r
      ensures t in filtered
    {
      var k :| 0 <= k < |r| && r[k] == t;
      assert r[k] == filtered[k];
    }
  }

  /** The input tags that survive the title filter are kept in front, in order. */
  lemma FinalTagsKeepFiltered(tags: seq<string>, title: string, content: string, min: int, max: nat)
    ensures var filtered := RemoveTitleTags(tags, title);
            var r := FinalTags(tags, title, content, min, max);
            if |filtered| >= min then r == Take(filtered, max)
            else |filtered| <= |r| && r[..|filtered|] == filtered
  {
    BackfillGrows(RemoveTitleTags(tags, title), AutoTags(content), title, max);
  }

  // ---------------------------------------------------------------------------
  // summarizeAndTag

  /** The JSON payload a Gemini reply was parsed into: `{ summary?: string; autoTags?: string[] }`. */
  datatype Reply = Reply(summary: Option<string>, autoTags: Option<seq<string>>)

  /** The online branch applies: a usable key and a reply whose summary is a non-empty string. */
  predicate UsesReply(apiKey: Option<string>, reply: Option<Reply>) {
    HasValidApiKey(apiKey) && reply.Some? && reply.value.summary.Some? && reply.value.summary.value != ""
  }

  /**
   * `summarizeAndTag`. With a usable key and a reply carrying a summary, the
   * summary is trimmed and cut to 240 characters and the reply's tags are
   * finalised; in every other case (no key, failed request, bad payload) the
   * offline heuristic produces both.
   */
  method SummarizeAndTag(title: string, content: string, apiKey: Option<string>, reply: Option<Reply>)
    returns (e: Enrichment)
    ensures UsesReply(apiKey, reply) ==>
              e == Enrichment(Take(Trim(reply.value.summary.value), SummaryLimit),
                              FinalTags(reply.value.autoTags.GetOr([]), title, content, 3, 5))
    ensures !UsesReply(apiKey, reply) ==> e.autoTags == FinalTags(AutoTags(content), title, content, 3, 5)
    ensures !UsesReply(apiKey, reply) && Trim(content) == "" ==>
              e.summary == (if title == "" then "" else "Note about " + title)
    ensures UsesReply(apiKey, reply) || Trim(content) != "" ==> |e.summary| <= SummaryLimit
    ensures !UsesReply(apiKey, reply) && Trim(content) != "" ==>
              var d := Draft(SingleSpaceText(content));
              if |d| <= SummaryLimit then e.summary == d
              else
                && |e.summary| >= 3 && e.summary[|e.summary| - 3..] == "..."
                && e.summary[..|e.summary| - 3] == Trim(d[..237])
    ensures |e.autoTags| <= 5
    ensures forall t | t in e.autoTags :: t !in Tokenize(title) && t != "untitled"
  {
    if UsesReply(apiKey, reply) {
      var parsed := reply.value;
      var autoTags := FinalizeTags(parsed.autoTags.GetOr([]), title, content, 3, 5);
      FinalTagsSpec(parsed.autoTags.GetOr([]), title, content, 3, 5);
      return Enrichment(Take(Trim(parsed.summary.value), SummaryLimit), autoTags);
    }
    var summary := GenerateSummary(title, content);
    if Trim(content) != "" && |Draft(SingleSpaceText(content))| > SummaryLimit {
      TrimmedFromIsTrim(summary[..|summary| - 3], Draft(SingleSpaceText(content))[..237]);
    }
    var fallback := GenerateAutoTags(content);
    var autoTags := FinalizeTags(fallback, title, content, 3, 5);
    FinalTagsSpec(fallback, title, content, 3, 5);
    e := Enrichment(summary, autoTags);
  }
}
