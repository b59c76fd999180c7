/**
 * Wiki-link extraction: the global regular expression `\[\[([^\]]+)\]\]`
 * run with repeated `exec` calls over a note's content.
 */
module WikiLinkParser {
  import opened Results
  import opened Strings
  import opened Seqs
  import opened NoteTypes

  /** Characters of context kept on each side of a match. */
  const ContextRadius: nat := 50

  /** The end of the longest run of non-`]` characters starting at `k` (the greedy `[^\]]+`). */
  function RunEnd(s: string, k: nat): (r: nat)
    requires k <= |s|
    ensures k <= r <= |s|
    ensures r == |s| || s[r] == ']'
    decreases |s| - k
  {
    if k == |s| || s[k] == ']' then k else RunEnd(s, k + 1)
  }

  lemma {:induction false} RunEndNoClose(s: string, k: nat)
    requires k <= |s|
    ensures forall p | k <= p < RunEnd(s, k) :: s[p] != ']'
    decreases |s| - k
  {
    if k < |s| && s[k] != ']' {
      RunEndNoClose(s, k + 1);
    }
  }

  /**
   * The pattern matches at `i`: `[[`, then at least one non-`]` character, then `]]`.
   * Because the run is greedy and cannot contain `]`, backtracking never helps,
   * so the match is decided by the maximal run.
   */
  predicate MatchAt(s: string, i: nat) {
    i + 2 <= |s| && s[i] == '[' && s[i + 1] == '[' &&
    var j := RunEnd(s, i + 2); j > i + 2 && j + 1 < |s| && s[j + 1] == ']'
  }

  /** A match `s[start..end]`; its capture group is `s[start + 2..end - 2]`. */
  datatype Match = Match(start: nat, end: nat)

  function MatchEnd(s: string, i: nat): (e: nat)
    requires MatchAt(s, i)
    ensures i + 5 <= e <= |s|
  {
    RunEnd(s, i + 2) + 2
  }

  /** The successive matches `exec` finds when it starts searching at `from`. */
  function Scan(s: string, from: nat): seq<Match>
    decreases |s| - from
  {
    if from >= |s| then []
    else if MatchAt(s, from) then [Match(from, MatchEnd(s, from))] + Scan(s, MatchEnd(s, from))
    else Scan(s, from + 1)
  }

  /** Every match of the global regular expression in `s`, left to right. */
  function Matches(s: string): seq<Match> {
    Scan(s, 0)
  }

  predicate WellFormed(s: string, m: Match) {
    m.start + 5 <= m.end <= |s| && MatchAt(s, m.start) && m.end == MatchEnd(s, m.start)
  }

  /** `match[1]`, the text between the brackets. */
  function Interior(s: string, m: Match): string
    requires WellFormed(s, m)
  {
    s[m.start + 2..m.end - 2]
  }

  function ContextStart(m: Match): nat {
    if m.start >= ContextRadius then m.start - ContextRadius else 0
  }

  function ContextEnd(s: string, m: Match): nat {
    if m.end + ContextRadius <= |s| then m.end + ContextRadius else |s|
  }

  /** `content.slice(max(0, index - 50), min(length, index + match.length + 50))`. */
  function Context(s: string, m: Match): string
    requires WellFormed(s, m)
  {
    s[ContextStart(m)..ContextEnd(s, m)]
  }

  function LinkOf(noteId: string, s: string, m: Match): NoteLink
    requires WellFormed(s, m)
  {
    NoteLink(noteId, Trim(Interior(s, m)), Context(s, m))
  }

  lemma {:induction false} ScanWellFormed(s: string, from: nat)
    ensures forall k | 0 <= k < |Scan(s, from)| :: WellFormed(s, Scan(s, from)[k]) && from <= Scan(s, from)[k].start
    decreases |s| - from
  {
    if from < |s| {
      if MatchAt(s, from) {
        ScanWellFormed(s, MatchEnd(s, from));
      } else {
        ScanWellFormed(s, from + 1);
      }
    }
  }

  predicate AllWellFormed(s: string, ms: seq<Match>) {
    forall k | 0 <= k < |ms| :: WellFormed(s, ms[k])
  }

  function LinksOf(noteId: string, s: string, ms: seq<Match>): (r: seq<NoteLink>)
    requires AllWellFormed(s, ms)
    ensures |r| == |ms|
  {
    if |ms| == 0 then [] else LinksOf(noteId, s, ms[..|ms| - 1]) + [LinkOf(noteId, s, ms[|ms| - 1])]
  }

  function TitlesOf(s: string, ms: seq<Match>): (r: seq<string>)
    requires AllWellFormed(s, ms)
    ensures |r| == |ms|
  {
    if |ms| == 0 then [] else TitlesOf(s, ms[..|ms| - 1]) + [Trim(Interior(s, ms[|ms| - 1]))]
  }

  /** The links `extractWikiLinks(noteId, content)` returns. */
  function WikiLinks(noteId: string, content: string): seq<NoteLink> {
    ScanWellFormed(content, 0);
    LinksOf(noteId, content, Matches(content))
  }

  /** The titles `getWikiLinkTitles` collects before removing duplicates. */
  function Titles(content: string): seq<string> {
    ScanWellFormed(content, 0);
    TitlesOf(content, Matches(content))
  }

  /**
   * One `regex.exec(content)` with the regular expression's `lastIndex` at `lastIndex`:
   * the leftmost match at or after `lastIndex`, or none.
   */
  method Exec(s: string, lastIndex: nat) returns (m: Option<Match>)
    requires lastIndex <= |s|
    ensures m.None? ==> Scan(s, lastIndex) == []
    ensures m.Some? ==> lastIndex <= m.value.start && m.value.end <= |s| &&
                        Scan(s, lastIndex) == [m.value] + Scan(s, m.value.end)
  {
    var i := lastIndex;
    while i < |s|
      invariant lastIndex <= i <= |s|
      invariant Scan(s, lastIndex) == Scan(s, i)
      decreases |s| - i
    {
      if i + 2 <= |s| && s[i] == '[' && s[i + 1] == '[' {
        var j := i + 2;
        while j < |s| && s[j] != ']'
          invariant i + 2 <= j <= |s|
          invariant RunEnd(s, i + 2) == RunEnd(s, j)
          decreases |s| - j
        {
          j := j + 1;
        }
        if j > i + 2 && j + 1 < |s| && s[j + 1] == ']' {
          return Some(Match(i, j + 2));
        }
      }
      i := i + 1;
    }
    return None;
  }

  /** `extractWikiLinks(noteId, content)`. */
  method ExtractWikiLinks(noteId: string, content: string) returns (links: seq<NoteLink>)
    ensures links == WikiLinks(noteId, content)
  {
    links := [];
    var lastIndex := 0;
    ghost var done: seq<Match> := [];
    var m := Exec(content, lastIndex);
    ScanWellFormed(content, 0);
    while m.Some?
      invariant lastIndex <= |content|
      invariant Matches(content) == done + Scan(content, lastIndex)
      invariant m.None? ==> Scan(content, lastIndex) == []
      invariant m.Some? ==> lastIndex <= m.value.start && m.value.end <= |content| &&
                            Scan(content, lastIndex) == [m.value] + Scan(content, m.value.end)
      invariant AllWellFormed(content, done)
      invariant links == LinksOf(noteId, content, done)
      decreases |content| - lastIndex
    {
      var mt := m.value;
      NextMatch(content, done, mt, lastIndex);
      LinksOfSnoc(noteId, content, done, mt);
      var link := MakeLink(noteId, content, mt);
      links := links + [link];
      done := done + [mt];
      lastIndex := mt.end;
      m := Exec(content, lastIndex);
    }
    assert done == Matches(content);
  }

  /** The body of the `exec` loop: the trimmed title and the context window of one match. */
  method MakeLink(noteId: string, content: string, mt: Match) returns (link: NoteLink)
    requires WellFormed(content, mt)
    ensures link == LinkOf(noteId, content, mt)
  {
    var targetTitle := Trim(content[mt.start + 2..mt.end - 2]);
    var start := if mt.start >= ContextRadius then mt.start - ContextRadius else 0;
    var end := if mt.end + ContextRadius <= |content| then mt.end + ContextRadius else |content|;
    link := NoteLink(noteId, targetTitle, content[start..end]);
  }

  /** `getWikiLinkTitles(content)`: the trimmed titles, duplicates removed, in first-occurrence order. */
  method GetWikiLinkTitles(content: string) returns (titles: seq<string>)
    ensures titles == Distinct(Titles(content))
  {
    var found: seq<string> := [];
    var lastIndex := 0;
    ghost var done: seq<Match> := [];
    var m := Exec(content, lastIndex);
    ScanWellFormed(content, 0);
    while m.Some?
      invariant lastIndex <= |content|
      invariant Matches(content) == done + Scan(content, lastIndex)
      invariant m.None? ==> Scan(content, lastIndex) == []
      invariant m.Some? ==> lastIndex <= m.value.start && m.value.end <= |content| &&
                            Scan(content, lastIndex) == [m.value] + Scan(content, m.value.end)
      invariant AllWellFormed(content, done)
      invariant found == TitlesOf(content, done)
      decreases |content| - lastIndex
    {
      var mt := m.value;
      NextMatch(content, done, mt, lastIndex);
      TitlesOfSnoc(content, done, mt);
      var title := Trim(content[mt.start + 2..mt.end - 2]);
      found := found + [title];
      done := done + [mt];
      lastIndex := mt.end;
      m := Exec(content, lastIndex);
    }
    assert done == Matches(content);
    assert found == Titles(content);
    titles := Distinct(found);
  }

  /** The match `exec` returns next extends the matches consumed so far. */
  lemma NextMatch(s: string, done: seq<Match>, mt: Match, lastIndex: nat)
    requires Matches(s) == done + Scan(s, lastIndex)
    requires Scan(s, lastIndex) == [mt] + Scan(s, mt.end)
    requires AllWellFormed(s, done)
    ensures WellFormed(s, mt) && AllWellFormed(s, done + [mt])
    ensures Matches(s) == (done + [mt]) + Scan(s, mt.end)
  {
    ScanWellFormed(s, 0);
    assert mt == Matches(s)[|done|];
  }

  lemma LinksOfSnoc(noteId: string, s: string, done: seq<Match>, mt: Match)
    requires AllWellFormed(s, done + [mt])
    ensures AllWellFormed(s, done) && WellFormed(s, mt)
    ensures LinksOf(noteId, s, done + [mt]) == LinksOf(noteId, s, done) + [LinkOf(noteId, s, mt)]
  {
    assert (done + [mt])[..|done|] == done;
    assert (done + [mt])[|done|] == mt;
  }

  lemma TitlesOfSnoc(s: string, done: seq<Match>, mt: Match)
    requires AllWellFormed(s, done + [mt])
    ensures AllWellFormed(s, done) && WellFormed(s, mt)
    ensures TitlesOf(s, done + [mt]) == TitlesOf(s, done) + [Trim(Interior(s, mt))]
  {
    assert (done + [mt])[..|done|] == done;
    assert (done + [mt])[|done|] == mt;
  }

  // ---------------------------------------------------------------------------
  // What the scan finds

  lemma {:induction false} ScanShift(s: string, from: nat, b: nat)
    requires from < |s| && MatchAt(s, from) && 0 < b < |Scan(s, from)|
    ensures Scan(s, from)[b] == Scan(s, MatchEnd(s, from))[b - 1]
  {
  }

  /** Matches come left to right and never overlap. */
  lemma {:induction false} ScanOrdered(s: string, from: nat)
    ensures forall a, b | 0 <= a < b < |Scan(s, from)| :: Scan(s, from)[a].end <= Scan(s, from)[b].start
    decreases |s| - from
  {
    if from < |s| {
      if MatchAt(s, from) {
        var e := MatchEnd(s, from);
        ScanOrdered(s, e);
        ScanWellFormed(s, e);
        var ms := Scan(s, from);
        forall a, b | 0 <= a < b < |ms| ensures ms[a].end <= ms[b].start {
          ScanShift(s, from, b);
          if a > 0 { ScanShift(s, from, a); }
        }
      } else {
        ScanOrdered(s, from + 1);
      }
    }
  }

  /** Every position where the pattern matches is the start of a found match or lies inside one. */
  lemma {:induction false} ScanComplete(s: string, from: nat, p: nat)
    requires from <= p && MatchAt(s, p)
    ensures exists k | 0 <= k < |Scan(s, from)| :: Scan(s, from)[k].start <= p < Scan(s, from)[k].end
    decreases |s| - from
  {
    var ms := Scan(s, from);
    if MatchAt(s, from) {
      var e := MatchEnd(s, from);
      if p < e {
        assert ms[0].start <= p < ms[0].end;
      } else {
        ScanComplete(s, e, p);
        var k :| 0 <= k < |Scan(s, e)| && Scan(s, e)[k].start <= p < Scan(s, e)[k].end;
        ScanShift(s, from, k + 1);
        assert ms[k + 1].start <= p < ms[k + 1].end;
      }
    } else {
      ScanComplete(s, from + 1, p);
    }
  }

  /**
   * `Matches(s)` is exactly the leftmost, non-overlapping sequence of matches:
   * each one is a genuine match, they come in order, and every other place
   * where the pattern would match lies inside one of them.
   */
  lemma MatchesAreExactlyTheMatches(s: string)
    ensures forall k | 0 <= k < |Matches(s)| :: WellFormed(s, Matches(s)[k])
    ensures forall a, b | 0 <= a < b < |Matches(s)| :: Matches(s)[a].end <= Matches(s)[b].start
    ensures forall p: nat | MatchAt(s, p) ::
              exists k | 0 <= k < |Matches(s)| :: Matches(s)[k].start <= p < Matches(s)[k].end
  {
    ScanWellFormed(s, 0);
    ScanOrdered(s, 0);
    forall p: nat | MatchAt(s, p)
      ensures exists k | 0 <= k < |Matches(s)| :: Matches(s)[k].start <= p < Matches(s)[k].end
    {
      ScanComplete(s, 0, p);
      assert Matches(s) == Scan(s, 0);
    }
  }

  /** Content yields no link exactly when the pattern matches nowhere in it. */
  lemma NoLinksIff(noteId: string, s: string)
    ensures WikiLinks(noteId, s) == [] <==> forall p: nat | p < |s| :: !MatchAt(s, p)
  {
    ScanWellFormed(s, 0);
    if exists p: nat | p < |s| :: MatchAt(s, p) {
      var p: nat :| p < |s| && MatchAt(s, p);
      ScanComplete(s, 0, p);
    }
  }

  /** In particular, content without a `[[` yields no link. */
  lemma NoOpenBracketsNoLinks(noteId: string, s: string)
    requires forall i | 0 <= i < |s| - 1 :: !(s[i] == '[' && s[i + 1] == '[')
    ensures WikiLinks(noteId, s) == []
  {
    NoLinksIff(noteId, s);
  }

  /** `[[]]` has nothing between the brackets and is not a link. */
  lemma EmptyBracketsAreNoLink(noteId: string)
    ensures WikiLinks(noteId, "[[]]") == []
  {
    var s := "[[]]";
    assert RunEnd(s, 2) == 2;
    NoLinksIff(noteId, s);
  }

  /** A blank title is not filtered: `[[ ]]` is a link whose target is the empty string. */
  lemma BlankTitleIsKept(noteId: string)
    ensures WikiLinks(noteId, "[[ ]]") == [NoteLink(noteId, "", "[[ ]]")]
  {
    var s := "[[ ]]";
    assert RunEnd(s, 3) == 3;
    assert RunEnd(s, 2) == 3;
    assert MatchAt(s, 0);
    assert Scan(s, 0) == [Match(0, 5)];
    assert Interior(s, Match(0, 5)) == " ";
    assert TrimStart(" ") == "";
    assert Context(s, Match(0, 5)) == s;
  }

  lemma {:induction false} LinksOfAt(noteId: string, s: string, ms: seq<Match>, k: nat)
    requires AllWellFormed(s, ms) && k < |ms|
    ensures LinksOf(noteId, s, ms)[k] == LinkOf(noteId, s, ms[k])
  {
    if k < |ms| - 1 {
      LinksOfAt(noteId, s, ms[..|ms| - 1], k);
    }
  }

  lemma {:induction false} TitlesOfAt(s: string, ms: seq<Match>, k: nat)
    requires AllWellFormed(s, ms) && k < |ms|
    ensures TitlesOf(s, ms)[k] == Trim(Interior(s, ms[k]))
  {
    if k < |ms| - 1 {
      TitlesOfAt(s, ms[..|ms| - 1], k);
    }
  }

  /** The context window holds the whole match and at most 50 characters on each side of it. */
  lemma ContextHoldsMatch(s: string, m: Match)
    requires WellFormed(s, m)
    ensures ContextStart(m) <= m.start && m.end <= ContextEnd(s, m)
    ensures Context(s, m)[m.start - ContextStart(m)..m.end - ContextStart(m)] == s[m.start..m.end]
    ensures |Context(s, m)| <= (m.end - m.start) + 2 * ContextRadius
  {
    var lo, hi := ContextStart(m), ContextEnd(s, m);
    var c := Context(s, m);
    assert c == s[lo..hi];
    var inner := c[m.start - lo..m.end - lo];
    forall q | 0 <= q < m.end - m.start
      ensures inner[q] == s[m.start..m.end][q]
    {
      assert inner[q] == s[m.start + q];
    }
  }

  /** One link per match, in order of the matches. */
  lemma WikiLinksSpec(noteId: string, content: string)
    ensures |WikiLinks(noteId, content)| == |Matches(content)|
    ensures forall k | 0 <= k < |Matches(content)| ::
              WellFormed(content, Matches(content)[k]) &&
              WikiLinks(noteId, content)[k] == LinkOf(noteId, content, Matches(content)[k])
  {
    ScanWellFormed(content, 0);
    var ms := Matches(content);
    forall k | 0 <= k < |ms|
      ensures WikiLinks(noteId, content)[k] == LinkOf(noteId, content, ms[k])
    {
      LinksOfAt(noteId, content, ms, k);
    }
  }

  /**
   * The link made from a match: the source is the note, the target is the
   * trimmed text between the brackets (which is non-empty and free of `]`
   * before trimming), and the context is the window of up to 50 characters
   * around the match, clipped to the content.
   */
  lemma LinkOfSpec(noteId: string, content: string, m: Match)
    requires WellFormed(content, m)
    ensures content[m.start..m.start + 2] == "[[" && content[m.end - 2..m.end] == "]]"
    ensures |content[m.start + 2..m.end - 2]| > 0 && ']' !in content[m.start + 2..m.end - 2]
    ensures LinkOf(noteId, content, m).sourceId == noteId
    ensures LinkOf(noteId, content, m).targetId == Trim(content[m.start + 2..m.end - 2])
    ensures LinkOf(noteId, content, m).context ==
              content[(if m.start >= 50 then m.start - 50 else 0)..(if m.end + 50 <= |content| then m.end + 50 else |content|)]
  {
    MatchBrackets(content, m);
    MatchInterior(content, m);
  }

  /** A match starts with `[[` and ends with `]]`. */
  lemma MatchBrackets(content: string, m: Match)
    requires WellFormed(content, m)
    ensures content[m.start..m.start + 2] == "[[" && content[m.end - 2..m.end] == "]]"
  {
    assert content[m.start..m.start + 2] == [content[m.start], content[m.start + 1]];
    assert content[m.end - 2..m.end] == [content[m.end - 2], content[m.end - 1]];
  }

  /** Between the brackets of a match is a non-empty run without `]`. */
  lemma MatchInterior(content: string, m: Match)
    requires WellFormed(content, m)
    ensures |content[m.start + 2..m.end - 2]| > 0 && ']' !in content[m.start + 2..m.end - 2]
  {
    RunEndNoClose(content, m.start + 2);
    var inner := content[m.start + 2..m.end - 2];
    forall q | 0 <= q < |inner|
      ensures inner[q] != ']'
    {
      assert inner[q] == content[m.start + 2 + q];
    }
  }

  /** `getWikiLinkTitles` lists exactly the link targets, each once, in order of first appearance. */
  lemma WikiLinkTitlesSpec(noteId: string, content: string)
    ensures NoDups(Distinct(Titles(content)))
    ensures forall t :: t in Distinct(Titles(content)) <==>
              exists k | 0 <= k < |WikiLinks(noteId, content)| :: WikiLinks(noteId, content)[k].targetId == t
    ensures forall a, b | 0 <= a < b < |Distinct(Titles(content))| ::
              FirstIndex(Titles(content), Distinct(Titles(content))[a]) <
              FirstIndex(Titles(content), Distinct(Titles(content))[b])
  {
    ScanWellFormed(content, 0);
    var ms := Matches(content);
    var ts := Titles(content);
    forall k | 0 <= k < |ms|
      ensures ts[k] == WikiLinks(noteId, content)[k].targetId
    {
      TitlesOfAt(content, ms, k);
      LinksOfAt(noteId, content, ms, k);
    }
    DistinctFirstOccurrenceOrder(ts);
  }
}
