/**
 * The argument mapper's local logic: how often each tag occurs, which tags
 * are offered for analysis, and the guard that runs before the argument
 * analysis is requested from the AI service.
 */
module ArgumentMapper {
  import opened Results
  import opened Seqs
  import opened Sorting
  import opened OrderedMaps
  import opened NoteTypes
  import opened TagIndex

  // ---------------------------------------------------------------------------
  // Tag counts

  /** `tagCounts` for `notes`: first-seen order, and how many times each tag occurs. */
  function TagCountsOf(notes: seq<Note>): OMap<string, int> {
    OMap(Distinct(FlatTags(notes)), map t | t in FlatTags(notes) :: Count(FlatTags(notes), t))
  }

  /** The map counts the tags `seen` so far. */
  ghost predicate Counts(m: OMap<string, int>, seen: seq<string>) {
    && m.Valid()
    && m.keys == Distinct(seen)
    && forall t | t in m.entries :: m.entries[t] == Count(seen, t)
  }

  /** `tagCounts.set(tag, (tagCounts.get(tag) || 0) + 1)` counts one more sighting. */
  lemma CountStep(m: OMap<string, int>, seen: seq<string>, tag: string)
    requires Counts(m, seen)
    ensures Counts(m.Put(tag, (if tag in m.entries then m.entries[tag] else 0) + 1), seen + [tag])
  {
    DistinctSnoc(seen, tag);
    CountSnoc(seen, tag, tag);
    var m' := m.Put(tag, (if tag in m.entries then m.entries[tag] else 0) + 1);
    forall t | t in m'.entries ensures m'.entries[t] == Count(seen + [tag], t) {
      CountSnoc(seen, tag, t);
    }
  }

  /** One sighting: `tagCounts.set(tag, (tagCounts.get(tag) || 0) + 1)`. */
  method CountSighting(m0: OMap<string, int>, ghost seen: seq<string>, tag: string) returns (m: OMap<string, int>)
    requires Counts(m0, seen)
    ensures Counts(m, seen + [tag])
  {
    CountStep(m0, seen, tag);
    m := m0.Put(tag, (if tag in m0.entries then m0.entries[tag] else 0) + 1);
  }

  /** The nested `forEach` that fills `tagCounts`. */
  method BuildTagCounts(notes: seq<Note>) returns (tagCounts: OMap<string, int>)
    ensures tagCounts == TagCountsOf(notes)
  {
    tagCounts := Empty();
    assert notes[..0] == [];
    for i := 0 to |notes|
      invariant Counts(tagCounts, FlatTags(notes[..i]))
    {
      assert notes[..i + 1] == notes[..i] + [notes[i]];
      tagCounts := CountNote(tagCounts, FlatTags(notes[..i]), notes[i]);
    }
    assert notes[..|notes|] == notes;
    assert tagCounts.entries == TagCountsOf(notes).entries;
  }

  /** The inner `forEach` over one note's tags and auto-tags. */
  method CountNote(m0: OMap<string, int>, ghost seen: seq<string>, note: Note) returns (m: OMap<string, int>)
    requires Counts(m0, seen)
    ensures Counts(m, seen + note.AllTags())
  {
    m := m0;
    var allTags := note.AllTags();
    ghost var done := seen;
    assert seen + allTags[..0] == seen;
    for j := 0 to |allTags|
      invariant done == seen + allTags[..j]
      invariant Counts(m, done)
    {
      m := CountSighting(m, done, allTags[j]);
      PrefixSnocAfter(seen, allTags, j);
      done := done + [allTags[j]];
    }
    assert allTags[..|allTags|] == allTags;
  }

  /** Every tag is counted once per occurrence among all notes' tags and auto-tags; the keys are duplicate-free. */
  lemma TagCountsSpec(notes: seq<Note>, t: string)
    ensures var m := TagCountsOf(notes);
            m.Valid() && (t in m.entries <==> t in FlatTags(notes)) &&
            (t in m.entries ==> m.entries[t] == Count(FlatTags(notes), t) >= 1)
  {
  }

  // ---------------------------------------------------------------------------
  // Popular tags

  function CountOf(e: (string, int)): int {
    e.1
  }

  predicate IsPopular(e: (string, int)) {
    e.1 >= 3
  }

  /** `Array.from(tagCounts.entries())`. */
  function EntriesOf(m: OMap<string, int>): (r: seq<(string, int)>)
    requires forall i | 0 <= i < |m.keys| :: m.keys[i] in m.entries
    ensures |r| == |m.keys|
  {
    seq(|m.keys|, i requires 0 <= i < |m.keys| => (m.keys[i], m.entries[m.keys[i]]))
  }

  /** The popular entries, most frequent first (the sort is stable, so ties keep first-seen order). */
  function PopularEntries(notes: seq<Note>): seq<(string, int)> {
    var m := TagCountsOf(notes);
    SortByKeyDesc(Filter(EntriesOf(m), IsPopular), CountOf)
  }

  /** `popularTags`. */
  function PopularTags(notes: seq<Note>): seq<string> {
    Firsts(PopularEntries(notes))
  }

  /** The entries list each distinct tag once, with its count. */
  lemma EntriesOfCounts(notes: seq<Note>, e: (string, int))
    ensures e in EntriesOf(TagCountsOf(notes)) <==> e.0 in FlatTags(notes) && e.1 == Count(FlatTags(notes), e.0)
  {
    var m := TagCountsOf(notes);
    var es := EntriesOf(m);
    if e.0 in FlatTags(notes) && e.1 == Count(FlatTags(notes), e.0) {
      var i :| 0 <= i < |m.keys| && m.keys[i] == e.0;
      assert es[i] == e;
    }
  }

  /** A popular entry is a tag with its count, that count being at least 3. */
  lemma PopularEntriesMembers(notes: seq<Note>, e: (string, int))
    ensures e in PopularEntries(notes) <==> e.0 in FlatTags(notes) && e.1 == Count(FlatTags(notes), e.0) && e.1 >= 3
  {
    var f := Filter(EntriesOf(TagCountsOf(notes)), IsPopular);
    assert e in PopularEntries(notes) <==> e in multiset(f);
    EntriesOfCounts(notes, e);
  }

  /** The popular tags are exactly the tags that occur at least three times. */
  lemma PopularTagsMembers(notes: seq<Note>, t: string)
    ensures t in PopularTags(notes) <==> Count(FlatTags(notes), t) >= 3
  {
    var es := PopularEntries(notes);
    var e := (t, Count(FlatTags(notes), t));
    PopularEntriesMembers(notes, e);
    if t in PopularTags(notes) {
      var i :| 0 <= i < |es| && es[i].0 == t;
      PopularEntriesMembers(notes, es[i]);
    }
    if Count(FlatTags(notes), t) >= 3 {
      var i :| 0 <= i < |es| && es[i] == e;
      assert PopularTags(notes)[i] == t;
    }
  }

  /** The popular tags come most frequent first. */
  lemma PopularTagsOrdered(notes: seq<Note>, i: nat, j: nat)
    requires i < j < |PopularTags(notes)|
    ensures Count(FlatTags(notes), PopularTags(notes)[i]) >= Count(FlatTags(notes), PopularTags(notes)[j])
  {
    var es := PopularEntries(notes);
    assert es[i] in es && es[j] in es;
    PopularEntriesMembers(notes, es[i]);
    PopularEntriesMembers(notes, es[j]);
  }

  /** No tag is offered twice. */
  lemma PopularTagsNoDups(notes: seq<Note>, i: nat, j: nat)
    requires i < j < |PopularTags(notes)|
    ensures PopularTags(notes)[i] != PopularTags(notes)[j]
  {
    var m := TagCountsOf(notes);
    var es := EntriesOf(m);
    var f := Filter(es, IsPopular);
    var p := PopularEntries(notes);
    assert NoDups(es) by {
      forall a, b | 0 <= a < b < |es| ensures es[a] != es[b] {
        assert m.keys[a] != m.keys[b];
      }
    }
    FilterNoDups(es, IsPopular);
    PermutationKeepsNoDups(f, p);
    assert p[i] in p && p[j] in p;
    PopularEntriesMembers(notes, p[i]);
    PopularEntriesMembers(notes, p[j]);
  }

  // ---------------------------------------------------------------------------
  // The guard before the analysis request

  /** The fields of a note that the analysis request carries. */
  datatype NoteRef = NoteRef(id: string, title: string, content: string, createdAt: int)

  function RefOf(n: Note): NoteRef {
    NoteRef(n.id, n.title, n.content, n.createdAt)
  }

  predicate Carries(n: Note, tag: string) {
    tag in n.AllTags()
  }

  /** `relevantNotes`: the notes that carry the tag, in list order, once each. */
  function RelevantNotes(notes: seq<Note>, tag: string): (r: seq<NoteRef>) {
    var carrying := Filter(notes, (n: Note) => Carries(n, tag));
    seq(|carrying|, i requires 0 <= i < |carrying| => RefOf(carrying[i]))
  }

  const TooFewMessage: string := "Need at least 3 notes with this tag to analyze arguments"

  /** What `handleAnalyze` decides before any AI call. */
  datatype Decision = Skip | TooFew | Request(tag: string, notes: seq<NoteRef>)

  function Decide(selectedTag: string, notes: seq<Note>): Decision {
    if selectedTag == "" then Skip
    else
      var relevant := RelevantNotes(notes, selectedTag);
      if |relevant| < 3 then TooFew else Request(selectedTag, relevant)
  }

  /** A note that carries a tag counts once among the relevant notes, however often it carries the tag. */
  lemma {:induction false} RelevantAtMostCount(notes: seq<Note>, tag: string)
    ensures |Filter(notes, (n: Note) => Carries(n, tag))| <= Count(FlatTags(notes), tag)
  {
    if |notes| > 0 {
      var init, last := notes[..|notes| - 1], notes[|notes| - 1];
      var p := (n: Note) => Carries(n, tag);
      RelevantAtMostCount(init, tag);
      assert notes == init + [last];
      FilterSnoc(init, last, p);
      CountAppend(FlatTags(init), last.AllTags(), tag);
    }
  }

  /** The request goes out exactly when a tag is selected and at least three notes carry it. */
  lemma DecideRequestIff(selectedTag: string, notes: seq<Note>)
    ensures Decide(selectedTag, notes).Request? <==>
              selectedTag != "" && |Filter(notes, (n: Note) => Carries(n, selectedTag))| >= 3
  {
  }

  /** The request carries the selected tag and at least three notes, each of which carries the tag. */
  lemma DecideRequestNotes(selectedTag: string, notes: seq<Note>)
    requires Decide(selectedTag, notes).Request?
    ensures Decide(selectedTag, notes) == Request(selectedTag, RelevantNotes(notes, selectedTag))
    ensures |RelevantNotes(notes, selectedTag)| >= 3
    ensures forall r | r in RelevantNotes(notes, selectedTag) :: exists n | n in notes :: Carries(n, selectedTag) && r == RefOf(n)
  {
    var carrying := Filter(notes, (n: Note) => Carries(n, selectedTag));
    var rel := RelevantNotes(notes, selectedTag);
    forall r | r in rel
      ensures exists n | n in notes :: Carries(n, selectedTag) && r == RefOf(n)
    {
      var k :| 0 <= k < |rel| && rel[k] == r;
      assert carrying[k] in carrying;
      assert carrying[k] in notes && Carries(carrying[k], selectedTag);
      assert r == RefOf(carrying[k]);
    }
  }

  /** A tag that is analysed occurs at least three times, so every analysable tag is a popular one. */
  lemma RequestedTagIsPopular(selectedTag: string, notes: seq<Note>)
    requires Decide(selectedTag, notes).Request?
    ensures selectedTag in PopularTags(notes)
  {
    RelevantAtMostCount(notes, selectedTag);
    PopularTagsMembers(notes, selectedTag);
  }

  /**
   * A tag can be offered yet refused: one note carrying it both as a tag and
   * as an auto-tag plus one more note give it a count of 3, but only two
   * notes carry it.
   */
  lemma PopularButTooFew(a: Note, b: Note, t: string)
    requires t != ""
    requires a.tags == [t] && a.autoTags == Some([t]) && b.tags == [t] && b.autoTags == None
    ensures t in PopularTags([a, b]) && Decide(t, [a, b]) == TooFew
  {
    ThreeSightings(a, b, t);
    PopularTagsMembers([a, b], t);
    BothCarry(a, b, t);
  }

  lemma ThreeSightings(a: Note, b: Note, t: string)
    requires a.tags == [t] && a.autoTags == Some([t]) && b.tags == [t] && b.autoTags == None
    ensures Count(FlatTags([a, b]), t) == 3
  {
    assert [a, b][..1] == [a] && [a][..0] == [];
    assert a.AllTags() == [t, t] && b.AllTags() == [t];
    assert FlatTags([a]) == [t, t];
    assert FlatTags([a, b]) == [t, t, t];
    assert [t, t, t][..2] == [t, t];
    assert [t, t][..1] == [t];
    assert [t][..0] == [];
  }

  lemma BothCarry(a: Note, b: Note, t: string)
    requires a.tags == [t] && b.tags == [t]
    ensures |RelevantNotes([a, b], t)| == 2
  {
    var p := (n: Note) => Carries(n, t);
    assert p(a) && p(b);
    assert [a, b][1..] == [b];
    assert [b][1..] == [];
    assert Filter([b], p) == [b];
    assert Filter([a, b], p) == [a, b];
  }

  // ---------------------------------------------------------------------------
  // The component's state

  class Mapper {
    var selectedTag: string
    /** The analysis the AI service returned last; its shape is not part of this model. */
    var analysis: Option<string>
    var isAnalyzing: bool
    var error: Option<string>

    constructor ()
      ensures selectedTag == "" && analysis == None && !isAnalyzing && error == None
    {
      selectedTag := "";
      analysis := None;
      isAnalyzing := false;
      error := None;
    }

    method SelectTag(tag: string)
      modifies this
      ensures selectedTag == tag
      ensures analysis == old(analysis) && isAnalyzing == old(isAnalyzing) && error == old(error)
    {
      selectedTag := tag;
    }

    /**
     * `handleAnalyze`; `reply` is what `analyzeArguments` resolves or rejects
     * with, and is only used when the request goes out. The decision tells
     * whether it was made.
     */
    method HandleAnalyze(notes: seq<Note>, reply: Result<string>) returns (d: Decision)
      modifies this
      ensures d == Decide(old(selectedTag), notes)
      ensures selectedTag == old(selectedTag)
      ensures d.Skip? ==> analysis == old(analysis) && isAnalyzing == old(isAnalyzing) && error == old(error)
      ensures d.TooFew? ==> analysis == old(analysis) && !isAnalyzing && error == Some(TooFewMessage)
      ensures d.Request? ==> !isAnalyzing
      ensures d.Request? && reply.Success? ==> analysis == Some(reply.value) && error == None
      ensures d.Request? && reply.Failure? ==> analysis == old(analysis) && error == Some(reply.message)
    {
      if selectedTag == "" {
        return Skip;
      }
      isAnalyzing := true;
      error := None;
      var relevantNotes := RelevantNotes(notes, selectedTag);
      if |relevantNotes| < 3 {
        error := Some(TooFewMessage);
        isAnalyzing := false;
        return TooFew;
      }
      d := Request(selectedTag, relevantNotes);
      if reply.Success? {
        analysis := Some(reply.value);
      } else {
        error := Some(reply.message);
      }
      isAnalyzing := false;
    }

    /**
     * A click on a tag button: `setSelectedTag(tag)`, then the effect that
     * runs `handleAnalyze` whenever the selected tag changes to a non-empty
     * one. Selecting the tag already selected is no change, so no effect
     * runs and `d` is `None`.
     */
    method ClickTag(tag: string, notes: seq<Note>, reply: Result<string>) returns (d: Option<Decision>)
      modifies this
      ensures tag == old(selectedTag) ==>
                d == None && selectedTag == old(selectedTag) && analysis == old(analysis)
                && isAnalyzing == old(isAnalyzing) && error == old(error)
      ensures tag != old(selectedTag) ==> selectedTag == tag && d == Some(Decide(tag, notes))
      ensures d == Some(Skip) ==> analysis == old(analysis) && isAnalyzing == old(isAnalyzing) && error == old(error)
      ensures d == Some(TooFew) ==> analysis == old(analysis) && !isAnalyzing && error == Some(TooFewMessage)
      ensures d.Some? && d.value.Request? ==> !isAnalyzing
      ensures d.Some? && d.value.Request? && reply.Success? ==> analysis == Some(reply.value) && error == None
      ensures d.Some? && d.value.Request? && reply.Failure? ==> analysis == old(analysis) && error == Some(reply.message)
    {
      if tag == selectedTag {
        return None;
      }
      SelectTag(tag);
      if tag == "" {
        return Some(Skip);
      }
      var decision := HandleAnalyze(notes, reply);
      d := Some(decision);
    }
  }
}
