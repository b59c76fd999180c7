/**
 * Chapters: one per tag that enough notes carry, largest first
 * (`computeChapters` in the chapter service).
 */
module ChapterService {
  import opened Seqs
  import opened Sorting
  import opened OrderedMaps
  import opened NoteTypes
  import opened TagIndex

  /** A tag grouping: the tag, how many times it was seen, and the id pushed for each sighting. */
  datatype Chapter = Chapter(tag: string, count: int, noteIds: seq<string>)

  /** The threshold used when the caller gives none. */
  const DefaultMinSize: int := 5

  function ChapterCount(c: Chapter): int {
    c.count
  }

  /** The chapter a tag would give rise to. */
  function ChapterFor(notes: seq<Note>, t: string): Chapter {
    var ids := IdsCarrying(notes, t);
    Chapter(t, |ids|, ids)
  }

  /** The chapters of the tags `ts` (in that order) that reach the threshold. */
  function ChaptersOver(notes: seq<Note>, ts: seq<string>, minSize: int): seq<Chapter> {
    if |ts| == 0 then []
    else
      ChaptersOver(notes, ts[..|ts| - 1], minSize)
      + (if |IdsCarrying(notes, ts[|ts| - 1])| >= minSize then [ChapterFor(notes, ts[|ts| - 1])] else [])
  }

  /** The chapters before sorting: tags in the order they were first seen. */
  function Unsorted(notes: seq<Note>, minSize: int): seq<Chapter> {
    ChaptersOver(notes, Distinct(FlatTags(notes)), minSize)
  }

  /** What `computeChapters(notes, minSize)` returns. */
  function Chapters(notes: seq<Note>, minSize: int): seq<Chapter> {
    SortByKeyDesc(Unsorted(notes, minSize), ChapterCount)
  }

  /** `computeChapters(notes, minSize = 5)`. */
  method ComputeChapters(notes: seq<Note>, minSize: int := DefaultMinSize) returns (chapters: seq<Chapter>)
    ensures chapters == Chapters(notes, minSize)
  {
    var tagCounts := BuildTagToNotes(notes);
    var found: seq<Chapter> := [];
    var keys := tagCounts.keys;
    assert keys[..0] == [];
    for k := 0 to |keys|
      invariant found == ChaptersOver(notes, keys[..k], minSize)
    {
      var tag := keys[k];
      var noteIds := tagCounts.entries[tag];
      assert keys[..k + 1][..k] == keys[..k];
      if |noteIds| >= minSize {
        found := found + [Chapter(tag, |noteIds|, noteIds)];
      }
    }
    assert keys[..|keys|] == keys;
    chapters := SortByKeyDesc(found, ChapterCount);
  }

  // ---------------------------------------------------------------------------
  // Properties

  lemma {:induction false} ChaptersOverMembers(notes: seq<Note>, ts: seq<string>, minSize: int, c: Chapter)
    ensures c in ChaptersOver(notes, ts, minSize) <==>
              c.tag in ts && c == ChapterFor(notes, c.tag) && |IdsCarrying(notes, c.tag)| >= minSize
  {
    if |ts| > 0 {
      var init := ts[..|ts| - 1];
      ChaptersOverMembers(notes, init, minSize, c);
      assert ts == init + [ts[|ts| - 1]];
    }
  }

  lemma {:induction false} ChaptersOverNoDups(notes: seq<Note>, ts: seq<string>, minSize: int)
    requires NoDups(ts)
    ensures NoDups(ChaptersOver(notes, ts, minSize))
  {
    if |ts| > 0 {
      var init := ts[..|ts| - 1];
      var last := ts[|ts| - 1];
      ChaptersOverNoDups(notes, init, minSize);
      if |IdsCarrying(notes, last)| >= minSize {
        ChaptersOverMembers(notes, init, minSize, ChapterFor(notes, last));
        assert last !in init;
      }
    }
  }

  /**
   * A tag has a chapter exactly when it occurs at least `minSize` times
   * among the notes' tags and auto-tags (and at least once); the chapter's
   * count is its number of note ids, and those ids are one per occurrence.
   */
  lemma ChapterMembership(notes: seq<Note>, minSize: int, c: Chapter)
    ensures c in Chapters(notes, minSize) <==>
              c.tag in FlatTags(notes) && Count(FlatTags(notes), c.tag) >= minSize &&
              c.noteIds == IdsCarrying(notes, c.tag) && c.count == |c.noteIds|
  {
    var u := Unsorted(notes, minSize);
    assert c in Chapters(notes, minSize) <==> c in multiset(u);
    ChaptersOverMembers(notes, Distinct(FlatTags(notes)), minSize, c);
    CountIdsCarrying(notes, c.tag);
  }

  /** Every tag that occurs often enough has a chapter, with the tag's occurrence list. */
  lemma ChapterExists(notes: seq<Note>, minSize: int, t: string)
    requires t in FlatTags(notes) && Count(FlatTags(notes), t) >= minSize
    ensures exists c | c in Chapters(notes, minSize) :: c.tag == t
  {
    ChapterMembership(notes, minSize, ChapterFor(notes, t));
    CountIdsCarrying(notes, t);
  }

  /** Chapters come largest first, each tag has at most one, and every id listed belongs to a note with that tag. */
  lemma ChaptersShape(notes: seq<Note>, minSize: int)
    ensures forall i, j | 0 <= i < j < |Chapters(notes, minSize)| ::
              Chapters(notes, minSize)[i].count >= Chapters(notes, minSize)[j].count &&
              Chapters(notes, minSize)[i].tag != Chapters(notes, minSize)[j].tag
    ensures forall c | c in Chapters(notes, minSize) ::
              c.count >= minSize && c.count == |c.noteIds| &&
              forall id | id in c.noteIds :: exists n | n in notes :: n.id == id && c.tag in n.AllTags()
  {
    var u := Unsorted(notes, minSize);
    var r := Chapters(notes, minSize);
    ChaptersOverNoDups(notes, Distinct(FlatTags(notes)), minSize);
    PermutationKeepsNoDups(u, r);
    forall c | c in r
      ensures c.count >= minSize && c.count == |c.noteIds|
      ensures forall id | id in c.noteIds :: exists n | n in notes :: n.id == id && c.tag in n.AllTags()
    {
      assert c in multiset(u);
      ChaptersOverMembers(notes, Distinct(FlatTags(notes)), minSize, c);
      IdsCarryingMembers(notes, c.tag);
    }
    forall i, j | 0 <= i < j < |r| ensures r[i].tag != r[j].tag {
      assert r[i] in r && r[j] in r;
      assert r[i] in multiset(u) && r[j] in multiset(u);
      ChaptersOverMembers(notes, Distinct(FlatTags(notes)), minSize, r[i]);
      ChaptersOverMembers(notes, Distinct(FlatTags(notes)), minSize, r[j]);
    }
  }

  /** Chapters of equal size keep the order in which their tags were first seen. */
  lemma ChaptersTieOrder(notes: seq<Note>, minSize: int, k: int)
    ensures WithKey(Chapters(notes, minSize), ChapterCount, k) == WithKey(Unsorted(notes, minSize), ChapterCount, k)
  {
    SortByKeyDescStable(Unsorted(notes, minSize), ChapterCount, k);
  }
}
