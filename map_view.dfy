/**
 * The knowledge map: a force-directed graph whose nodes are the notes and one
 * hub per chapter, and whose edges join hubs to their notes, follow the
 * stored wiki links, and (when switched on) join every two notes that share
 * a tag or auto-tag.
 */
module MapView {
  import opened Results
  import opened Strings
  import opened Seqs
  import opened OrderedMaps
  import opened NoteTypes
  import opened TagIndex
  import opened ChapterService

  datatype NodeKind = NoteKind | ChapterKind

  datatype GraphNode = GraphNode(
    id: string,
    labelText: string,
    kind: NodeKind,
    noteCount: Option<int>,
    tags: Option<seq<string>>,
    modifiedAt: Option<int>)

  datatype LinkKind = WikiKind | ChapterToNoteKind | SharedTagKind

  datatype GraphLink = GraphLink(source: string, target: string, kind: LinkKind, labelText: string)

  // ---------------------------------------------------------------------------
  // Nodes

  function NoteNodeOf(n: Note): GraphNode {
    GraphNode(n.id, n.title, NoteKind, None, Some(n.AllTags()), Some(n.modifiedAt))
  }

  /** The id of a chapter's hub: `chapter:<tag>`. */
  function ChapterId(tag: string): string {
    "chapter:" + tag
  }

  function HubOf(c: Chapter): GraphNode {
    GraphNode(ChapterId(c.tag), c.tag, ChapterKind, Some(c.count), None, None)
  }

  function NoteNodes(notes: seq<Note>): (r: seq<GraphNode>)
    ensures |r| == |notes|
  {
    seq(|notes|, i requires 0 <= i < |notes| => NoteNodeOf(notes[i]))
  }

  function HubNodes(chapters: seq<Chapter>): (r: seq<GraphNode>)
    ensures |r| == |chapters|
  {
    seq(|chapters|, i requires 0 <= i < |chapters| => HubOf(chapters[i]))
  }

  // ---------------------------------------------------------------------------
  // Hub and wiki edges

  /** One `chapter-to-note` edge per id the chapter lists, labelled `#<tag>`. */
  function ChapterLinks(c: Chapter): (r: seq<GraphLink>)
    ensures |r| == |c.noteIds|
  {
    seq(|c.noteIds|, k requires 0 <= k < |c.noteIds| => GraphLink(ChapterId(c.tag), c.noteIds[k], ChapterToNoteKind, "#" + c.tag))
  }

  function ChapterEdges(chapters: seq<Chapter>): seq<GraphLink> {
    if |chapters| == 0 then []
    else ChapterEdges(chapters[..|chapters| - 1]) + ChapterLinks(chapters[|chapters| - 1])
  }

  function WikiEdgeOf(l: NoteLink): GraphLink {
    GraphLink(l.sourceId, l.targetId, WikiKind, "Wiki link")
  }

  function WikiEdges(noteLinks: seq<NoteLink>): (r: seq<GraphLink>)
    ensures |r| == |noteLinks|
  {
    seq(|noteLinks|, i requires 0 <= i < |noteLinks| => WikiEdgeOf(noteLinks[i]))
  }

  // ---------------------------------------------------------------------------
  // Shared-tag edges

  /** `[a, b].sort()`. */
  function SortedPair(a: string, b: string): seq<string> {
    if LessEq(a, b) then [a, b] else [b, a]
  }

  /** `[a, b].sort().join('|')`. */
  function PairKey(a: string, b: string): string {
    Join(SortedPair(a, b), "|")
  }

  /** The pushes of row `i` of the pair loop: `ids[i]` with every later id, under `tag`. */
  function Row(ids: seq<string>, i: nat, tag: string): (r: seq<(string, string)>)
    requires i < |ids|
    ensures |r| == |ids| - i - 1
  {
    seq(|ids| - i - 1, k requires 0 <= k < |ids| - i - 1 => (PairKey(ids[i], ids[i + 1 + k]), tag))
  }

  /** The pushes of the first `i` rows. */
  function Rows(ids: seq<string>, i: nat, tag: string): seq<(string, string)>
    requires i <= |ids|
  {
    if i == 0 then [] else Rows(ids, i - 1, tag) + Row(ids, i - 1, tag)
  }

  /** The pushes for one tag: none unless at least two ids carry it. */
  function TagOccurrences(tag: string, ids: seq<string>): seq<(string, string)> {
    if |ids| >= 2 then Rows(ids, |ids|, tag) else []
  }

  /** The pushes for the tags `tags`, in that order. */
  function SharedOccurrences(index: OMap<string, seq<string>>, tags: seq<string>): seq<(string, string)>
    requires forall i | 0 <= i < |tags| :: tags[i] in index.entries
  {
    if |tags| == 0 then []
    else
      var t := tags[|tags| - 1];
      SharedOccurrences(index, tags[..|tags| - 1]) + TagOccurrences(t, index.entries[t])
  }

  /** `tags.map(t => '#' + t).join(', ')`. */
  function TagLabel(tags: seq<string>): string {
    Join(seq(|tags|, i requires 0 <= i < |tags| => "#" + tags[i]), ", ")
  }

  /** `const [source, target] = pairKey.split('|')`, labelled with the shared tags. */
  function SharedEdgeOf(key: string, tags: seq<string>): GraphLink
    requires '|' in key
  {
    SplitHasTwo(key, '|');
    var parts := Split(key, '|');
    GraphLink(parts[0], parts[1], SharedTagKind, TagLabel(tags))
  }

  /** Every key pushed is a pair key, so every key holds the separator. */
  predicate KeysHaveBar(pm: OMap<string, seq<string>>) {
    forall i | 0 <= i < |pm.keys| :: pm.keys[i] in pm.entries && '|' in pm.keys[i]
  }

  function SharedEdges(pm: OMap<string, seq<string>>): (r: seq<GraphLink>)
    requires KeysHaveBar(pm)
    ensures |r| == |pm.keys|
  {
    seq(|pm.keys|, i requires 0 <= i < |pm.keys| => SharedEdgeOf(pm.keys[i], pm.entries[pm.keys[i]]))
  }

  /** `tagToNotes` for `notes`, as `BuildTagToNotes` fills it. */
  function TagIndexOf(notes: seq<Note>): (r: OMap<string, seq<string>>)
    ensures forall i | 0 <= i < |r.keys| :: r.keys[i] in r.entries
  {
    OMap(Distinct(FlatTags(notes)), map t | t in FlatTags(notes) :: IdsCarrying(notes, t))
  }

  /** `notePairToTags` for `notes`. */
  function PairIndexOf(notes: seq<Note>): OMap<string, seq<string>> {
    var index := TagIndexOf(notes);
    GroupOf(SharedOccurrences(index, index.keys))
  }

  function SharedLinks(notes: seq<Note>): seq<GraphLink> {
    PairIndexHasBars(notes);
    SharedEdges(PairIndexOf(notes))
  }

  // ---------------------------------------------------------------------------
  // The whole graph

  function NodesOf(notes: seq<Note>, groupingMinSize: int): seq<GraphNode> {
    NoteNodes(notes) + HubNodes(Chapters(notes, groupingMinSize))
  }

  function LinksOf(notes: seq<Note>, noteLinks: seq<NoteLink>, groupingMinSize: int, showTagLinks: bool): seq<GraphLink> {
    ChapterEdges(Chapters(notes, groupingMinSize)) + WikiEdges(noteLinks)
    + TagEdges(notes, showTagLinks)
  }

  /** The shared-tag section: empty unless switched on. */
  function TagEdges(notes: seq<Note>, showTagLinks: bool): seq<GraphLink> {
    if showTagLinks then SharedLinks(notes) else []
  }

  /** The `graphData` memo: note nodes, hubs, hub edges, wiki edges, then shared-tag edges. */
  method GraphData(notes: seq<Note>, noteLinks: seq<NoteLink>, groupingMinSize: int, showTagLinks: bool)
    returns (nodes: seq<GraphNode>, links: seq<GraphLink>)
    ensures nodes == NodesOf(notes, groupingMinSize)
    ensures links == LinksOf(notes, noteLinks, groupingMinSize, showTagLinks)
  {
    nodes := AddNotes(notes);
    var chapters := ComputeChapters(notes, groupingMinSize);
    nodes, links := AddChapters(nodes, chapters);
    links := AddWikiLinks(links, noteLinks);
    if showTagLinks {
      var notePairToTags := BuildPairIndex(notes);
      PairIndexHasBars(notes);
      links := AddSharedLinks(links, notePairToTags);
    }
    assert links == ChapterEdges(chapters) + WikiEdges(noteLinks) + TagEdges(notes, showTagLinks);
  }

  /** The note loop: one node per note. */
  method AddNotes(notes: seq<Note>) returns (nodes: seq<GraphNode>)
    ensures nodes == NoteNodes(notes)
  {
    nodes := [];
    for i := 0 to |notes|
      invariant nodes == NoteNodes(notes)[..i]
    {
      PrefixSnoc(NoteNodes(notes), i);
      nodes := nodes + [NoteNodeOf(notes[i])];
    }
  }

  /** The chapter loop: a hub per chapter and an edge per listed id. */
  method AddChapters(nodes0: seq<GraphNode>, chapters: seq<Chapter>) returns (nodes: seq<GraphNode>, links: seq<GraphLink>)
    ensures nodes == nodes0 + HubNodes(chapters)
    ensures links == ChapterEdges(chapters)
  {
    nodes, links := nodes0, [];
    for c := 0 to |chapters|
      invariant nodes == nodes0 + HubNodes(chapters)[..c]
      invariant links == ChapterEdges(chapters[..c])
    {
      var chapter := chapters[c];
      PrefixSnoc(HubNodes(chapters), c);
      nodes := nodes + [HubOf(chapter)];
      var noteIds := chapter.noteIds;
      for k := 0 to |noteIds|
        invariant links == ChapterEdges(chapters[..c]) + ChapterLinks(chapter)[..k]
      {
        PrefixSnoc(ChapterLinks(chapter), k);
        links := links + [GraphLink(ChapterId(chapter.tag), noteIds[k], ChapterToNoteKind, "#" + chapter.tag)];
      }
      assert chapters[..c + 1][..c] == chapters[..c];
    }
    assert chapters[..|chapters|] == chapters;
  }

  /** The wiki-link loop: every stored link, dangling targets included. */
  method AddWikiLinks(links0: seq<GraphLink>, noteLinks: seq<NoteLink>) returns (links: seq<GraphLink>)
    ensures links == links0 + WikiEdges(noteLinks)
  {
    links := links0;
    for w := 0 to |noteLinks|
      invariant links == links0 + WikiEdges(noteLinks)[..w]
    {
      PrefixSnoc(WikiEdges(noteLinks), w);
      links := links + [WikiEdgeOf(noteLinks[w])];
    }
  }

  /** The loop over `notePairToTags`: one edge per pair key. */
  method AddSharedLinks(links0: seq<GraphLink>, pm: OMap<string, seq<string>>) returns (links: seq<GraphLink>)
    requires KeysHaveBar(pm)
    ensures links == links0 + SharedEdges(pm)
  {
    links := links0;
    for k := 0 to |pm.keys|
      invariant links == links0 + SharedEdges(pm)[..k]
    {
      PrefixSnoc(SharedEdges(pm), k);
      var pairKey := pm.keys[k];
      links := links + [SharedEdgeOf(pairKey, pm.entries[pairKey])];
    }
  }

  /** Both maps of the shared-tag section: `tagToNotes`, then `notePairToTags`. */
  method BuildPairIndex(notes: seq<Note>) returns (notePairToTags: OMap<string, seq<string>>)
    ensures notePairToTags == PairIndexOf(notes)
  {
    var tagToNotes := BuildTagToNotes(notes);
    TagIndexIsTagIndexOf(tagToNotes, notes);
    notePairToTags := GroupSharedTags(tagToNotes, tagToNotes.keys);
  }

  /** The loop over the tags of `tagToNotes`: every pair of notes under each tag, grouped by pair key. */
  method GroupSharedTags(index: OMap<string, seq<string>>, tags: seq<string>) returns (pm: OMap<string, seq<string>>)
    requires forall i | 0 <= i < |tags| :: tags[i] in index.entries
    ensures pm == GroupOf(SharedOccurrences(index, tags))
  {
    pm := Empty();
    assert tags[..0] == [];
    for t := 0 to |tags|
      invariant pm == GroupOf(SharedOccurrences(index, tags[..t]))
    {
      pm := AddSharedTag(pm, index, tags, t);
    }
    assert tags[..|tags|] == tags;
  }

  /** One tag of that loop: nothing for fewer than two notes, else every pair of them. */
  method AddSharedTag(pm0: OMap<string, seq<string>>, index: OMap<string, seq<string>>, tags: seq<string>, t: nat)
    returns (pm: OMap<string, seq<string>>)
    requires forall i | 0 <= i < |tags| :: tags[i] in index.entries
    requires t < |tags| && pm0 == GroupOf(SharedOccurrences(index, tags[..t]))
    ensures pm == GroupOf(SharedOccurrences(index, tags[..t + 1]))
  {
    var tag := tags[t];
    var noteIds := index.entries[tag];
    ghost var before := SharedOccurrences(index, tags[..t]);
    assert tags[..t + 1][..t] == tags[..t];
    if |noteIds| >= 2 {
      pm := AddTagPairs(pm0, before, tag, noteIds);
    } else {
      pm := pm0;
      assert before + TagOccurrences(tag, noteIds) == before;
    }
  }

  /** The pair loop for one tag: push the tag under the key of every pair `i < j`. */
  method AddTagPairs(pm0: OMap<string, seq<string>>, ghost before: seq<(string, string)>, tag: string, ids: seq<string>)
    returns (pm: OMap<string, seq<string>>)
    requires pm0 == GroupOf(before) && |ids| >= 2
    ensures pm == GroupOf(before + TagOccurrences(tag, ids))
  {
    pm := pm0;
    assert before + Rows(ids, 0, tag) == before;
    for i := 0 to |ids|
      invariant pm == GroupOf(before + Rows(ids, i, tag))
    {
      RowsSnoc(before, ids, i, tag);
      pm := AddRow(pm, before + Rows(ids, i, tag), ids, i, tag);
    }
  }

  /** One more row of pushes after `done`. */
  lemma RowsSnoc(done: seq<(string, string)>, ids: seq<string>, i: nat, tag: string)
    requires i < |ids|
    ensures done + Rows(ids, i + 1, tag) == done + Rows(ids, i, tag) + Row(ids, i, tag)
  {
  }

  /** The inner loop: pair `ids[i]` with every later id. */
  method AddRow(pm0: OMap<string, seq<string>>, ghost done: seq<(string, string)>, ids: seq<string>, i: nat, tag: string)
    returns (pm: OMap<string, seq<string>>)
    requires pm0 == GroupOf(done) && i < |ids|
    ensures pm == GroupOf(done + Row(ids, i, tag))
  {
    pm := pm0;
    assert done + Row(ids, i, tag)[..0] == done;
    for j := i + 1 to |ids|
      invariant pm == GroupOf(done + Row(ids, i, tag)[..j - i - 1])
    {
      var pairKey := PairKey(ids[i], ids[j]);
      RowPush(done, ids, i, j, tag);
      GroupOfValid(done + Row(ids, i, tag)[..j - i - 1]);
      pm := pm.Put(pairKey, (if pairKey in pm.entries then pm.entries[pairKey] else []) + [tag]);
    }
    assert Row(ids, i, tag)[..|ids| - i - 1] == Row(ids, i, tag);
  }

  /** One push of the inner loop. */
  lemma RowPush(done: seq<(string, string)>, ids: seq<string>, i: nat, j: nat, tag: string)
    requires i < j < |ids|
    ensures var m := GroupOf(done + Row(ids, i, tag)[..j - i - 1]);
            var key := PairKey(ids[i], ids[j]);
            GroupOf(done + Row(ids, i, tag)[..j - i]) == m.Put(key, (if key in m.entries then m.entries[key] else []) + [tag])
  {
    var row := Row(ids, i, tag);
    var x := j - i - 1;
    assert row[x] == (PairKey(ids[i], ids[j]), tag);
    PrefixSnocAfter(done, row, x);
    GroupOfSnoc(done + row[..x], PairKey(ids[i], ids[j]), tag);
  }

  lemma TagIndexIsTagIndexOf(m: OMap<string, seq<string>>, notes: seq<Note>)
    requires m.Valid()
    requires m.keys == Distinct(FlatTags(notes))
    requires forall t | t in m.entries :: m.entries[t] == IdsCarrying(notes, t)
    ensures m == TagIndexOf(notes)
  {
    assert m.entries == TagIndexOf(notes).entries;
  }

  lemma PairKeyHasBar(a: string, b: string)
    ensures PairKey(a, b) == SortedPair(a, b)[0] + "|" + SortedPair(a, b)[1]
    ensures '|' in PairKey(a, b)
  {
    var p := SortedPair(a, b);
    assert p[1..] == [p[1]];
    assert Join(p[1..], "|") == p[1];
    assert PairKey(a, b)[|p[0]|] == '|';
  }

  lemma {:induction false} RowsHaveBar(ids: seq<string>, i: nat, tag: string)
    requires i <= |ids|
    ensures forall o | o in Rows(ids, i, tag) :: '|' in o.0
  {
    if i > 0 {
      RowsHaveBar(ids, i - 1, tag);
      var row := Row(ids, i - 1, tag);
      forall k | 0 <= k < |row| ensures '|' in row[k].0 {
        PairKeyHasBar(ids[i - 1], ids[i + k]);
      }
    }
  }

  lemma {:induction false} OccurrencesHaveBar(index: OMap<string, seq<string>>, tags: seq<string>)
    requires forall i | 0 <= i < |tags| :: tags[i] in index.entries
    ensures forall o | o in SharedOccurrences(index, tags) :: '|' in o.0
  {
    if |tags| > 0 {
      var t := tags[|tags| - 1];
      OccurrencesHaveBar(index, tags[..|tags| - 1]);
      RowsHaveBar(index.entries[t], |index.entries[t]|, t);
    }
  }

  lemma PairIndexHasBars(notes: seq<Note>)
    ensures KeysHaveBar(PairIndexOf(notes))
  {
    var index := TagIndexOf(notes);
    var occ := SharedOccurrences(index, index.keys);
    OccurrencesHaveBar(index, index.keys);
    var pm := PairIndexOf(notes);
    forall i | 0 <= i < |pm.keys| ensures pm.keys[i] in pm.entries && '|' in pm.keys[i] {
      var key := pm.keys[i];
      assert key in Firsts(occ);
      var p :| 0 <= p < |occ| && Firsts(occ)[p] == key;
      assert occ[p] in occ;
    }
  }
  // ---------------------------------------------------------------------------
  // Properties of the shared-tag index

  /** Some two different positions `i < j` of `ids`, with `i < r`, hold the ids whose pair key is `key`. */
  ghost predicate PairAt(ids: seq<string>, r: nat, key: string) {
    exists i, j | 0 <= i < r && i < j < |ids| :: key == PairKey(ids[i], ids[j])
  }

  lemma RowMembers(ids: seq<string>, i: nat, tag: string, o: (string, string))
    requires i < |ids|
    ensures o in Row(ids, i, tag) <==> o.1 == tag && exists j | i < j < |ids| :: o.0 == PairKey(ids[i], ids[j])
  {
    var row := Row(ids, i, tag);
    if o in row {
      var k :| 0 <= k < |row| && row[k] == o;
      assert o.0 == PairKey(ids[i], ids[i + 1 + k]);
    }
    if o.1 == tag && exists j | i < j < |ids| :: o.0 == PairKey(ids[i], ids[j]) {
      var j :| i < j < |ids| && o.0 == PairKey(ids[i], ids[j]);
      assert row[j - i - 1] == o;
    }
  }

  /** The pairs whose first position is below `r` are those below `r - 1` and those starting at `r - 1`. */
  lemma PairAtStep(ids: seq<string>, r: nat, key: string)
    requires 0 < r <= |ids|
    ensures PairAt(ids, r, key) <==>
              PairAt(ids, r - 1, key) || exists j | r - 1 < j < |ids| :: key == PairKey(ids[r - 1], ids[j])
  {
    if PairAt(ids, r, key) {
      PairAtSplit(ids, r, key);
    }
    if PairAt(ids, r - 1, key) {
      var i, j :| 0 <= i < r - 1 && i < j < |ids| && key == PairKey(ids[i], ids[j]);
      assert 0 <= i < r && i < j < |ids|;
    }
    if exists j | r - 1 < j < |ids| :: key == PairKey(ids[r - 1], ids[j]) {
      var j :| r - 1 < j < |ids| && key == PairKey(ids[r - 1], ids[j]);
      assert 0 <= r - 1 < r && r - 1 < j < |ids|;
    }
  }

  /** A pair whose first position is below `r` starts below `r - 1` or at `r - 1`. */
  lemma PairAtSplit(ids: seq<string>, r: nat, key: string)
    requires 0 < r <= |ids| && PairAt(ids, r, key)
    ensures PairAt(ids, r - 1, key) || exists j | r - 1 < j < |ids| :: key == PairKey(ids[r - 1], ids[j])
  {
    var i, j :| 0 <= i < r && i < j < |ids| && key == PairKey(ids[i], ids[j]);
    if i < r - 1 {
      assert 0 <= i < r - 1 && i < j < |ids|;
    } else {
      assert ids[i] == ids[r - 1];
    }
  }

  lemma {:induction false} RowsMembers(ids: seq<string>, r: nat, tag: string, o: (string, string))
    requires r <= |ids|
    ensures o in Rows(ids, r, tag) <==> o.1 == tag && PairAt(ids, r, o.0)
  {
    if r > 0 {
      RowsMembers(ids, r - 1, tag, o);
      RowMembers(ids, r - 1, tag, o);
      PairAtStep(ids, r, o.0);
    }
  }

  /** The pushes for one tag are exactly the pairs of two different positions of its list; the `>= 2` guard loses none. */
  lemma TagOccurrencesMembers(tag: string, ids: seq<string>, o: (string, string))
    ensures o in TagOccurrences(tag, ids) <==> o.1 == tag && PairAt(ids, |ids|, o.0)
  {
    RowsMembers(ids, |ids|, tag, o);
  }

  lemma {:induction false} OccurrencesMembers(index: OMap<string, seq<string>>, tags: seq<string>, o: (string, string))
    requires forall i | 0 <= i < |tags| :: tags[i] in index.entries
    ensures o in SharedOccurrences(index, tags) <==>
              o.1 in tags && o.1 in index.entries && o in TagOccurrences(o.1, index.entries[o.1])
  {
    if |tags| > 0 {
      var init, t := tags[..|tags| - 1], tags[|tags| - 1];
      OccurrencesMembers(index, init, o);
      TagOccurrencesMembers(t, index.entries[t], o);
      assert tags == init + [t];
    }
  }

  /**
   * Pair key `key` lists tag `t` exactly when two different positions of the
   * occurrence list of `t` hold ids whose pair key is `key`.
   */
  lemma PairIndexMembers(notes: seq<Note>, key: string, t: string)
    ensures var pm := PairIndexOf(notes);
            var ids := IdsCarrying(notes, t);
            key in pm.entries && t in pm.entries[key] <==> PairAt(ids, |ids|, key)
  {
    var index := TagIndexOf(notes);
    var occ := SharedOccurrences(index, index.keys);
    var ids := IdsCarrying(notes, t);
    ValuesForMembers(occ, key, t);
    OccurrencesMembers(index, index.keys, (key, t));
    TagOccurrencesMembers(t, ids, (key, t));
    IdsCarryingLength(notes, t);
    if PairAt(ids, |ids|, key) {
      assert t in index.keys;
      var p :| 0 <= p < |occ| && occ[p] == (key, t);
      assert Firsts(occ)[p] == key;
    }
  }

  /** Two notes at different positions that share a tag: that tag labels the key of their ids. */
  lemma SharedTagComplete(notes: seq<Note>, p: nat, q: nat, t: string)
    requires p < q < |notes| && t in notes[p].AllTags() && t in notes[q].AllTags()
    ensures var pm := PairIndexOf(notes);
            var key := PairKey(notes[p].id, notes[q].id);
            key in pm.entries && t in pm.entries[key]
  {
    IdsCarryingPositions(notes, p, q, t);
    PairIndexMembers(notes, PairKey(notes[p].id, notes[q].id), t);
  }

  /** Every tag listed under a key is carried by notes whose ids make that key. */
  lemma SharedTagSound(notes: seq<Note>, key: string, t: string)
    requires key in PairIndexOf(notes).entries && t in PairIndexOf(notes).entries[key]
    ensures exists n, m | n in notes && m in notes :: t in n.AllTags() && t in m.AllTags() && key == PairKey(n.id, m.id)
  {
    var ids := IdsCarrying(notes, t);
    PairIndexMembers(notes, key, t);
    var i, j :| 0 <= i < |ids| && i < j < |ids| && key == PairKey(ids[i], ids[j]);
    IdsCarryingMembers(notes, t);
    assert ids[i] in ids && ids[j] in ids;
    var n :| n in notes && n.id == ids[i] && t in n.AllTags();
    var m :| m in notes && m.id == ids[j] && t in m.AllTags();
  }
  // ---------------------------------------------------------------------------
  // Properties of the shared-tag edges

  /** Note ids are `yyyyMMddHHmmss` timestamps, so none holds the `|` separator. */
  predicate NoBar(notes: seq<Note>) {
    forall n | n in notes :: '|' !in n.id
  }

  /** `[a, b].sort()` holds `a` and `b`, in order, and sorting it again changes nothing. */
  lemma SortedPairSpec(a: string, b: string)
    ensures var p := SortedPair(a, b);
            |p| == 2 && LessEq(p[0], p[1]) && multiset(p) == multiset{a, b} && SortedPair(p[0], p[1]) == p
  {
    if !LessEq(a, b) {
      LessTotal(a, b);
    }
  }

  /** Splitting a pair key at the separator gives back the sorted pair. */
  lemma SplitPairKey(a: string, b: string)
    requires '|' !in a && '|' !in b
    ensures Split(PairKey(a, b), '|') == SortedPair(a, b)
  {
    var p := SortedPair(a, b);
    PairKeyHasBar(a, b);
    SplitJoined(p[0], p[1], '|');
  }

  /** Without the separator in any id, a pair key determines its unordered pair of ids. */
  lemma PairKeyInjective(a: string, b: string, c: string, d: string)
    requires '|' !in a && '|' !in b && '|' !in c && '|' !in d
    requires PairKey(a, b) == PairKey(c, d)
    ensures multiset{a, b} == multiset{c, d}
  {
    SplitPairKey(a, b);
    SplitPairKey(c, d);
    SortedPairSpec(a, b);
    SortedPairSpec(c, d);
  }

  /** The key at position `i` of the pair index is the key of two ids of notes. */
  lemma PairKeyOfNotes(notes: seq<Note>, i: nat)
    requires i < |PairIndexOf(notes).keys|
    ensures exists n, m | n in notes && m in notes :: PairIndexOf(notes).keys[i] == PairKey(n.id, m.id)
  {
    var index := TagIndexOf(notes);
    var occ := SharedOccurrences(index, index.keys);
    var key := PairIndexOf(notes).keys[i];
    assert key in Firsts(occ);
    var p :| 0 <= p < |occ| && Firsts(occ)[p] == key;
    ValuesForMembers(occ, key, occ[p].1);
    SharedTagSound(notes, key, occ[p].1);
  }

  /**
   * Edge `i` of the shared-tag section joins, in sorted order, the two ids
   * whose pair key is key `i` of the index, and is labelled with every tag
   * listed under that key.
   */
  lemma SharedEdgeAt(notes: seq<Note>, i: nat)
    requires NoBar(notes) && i < |SharedLinks(notes)|
    ensures var e := SharedLinks(notes)[i];
            var pm := PairIndexOf(notes);
            && e.kind == SharedTagKind
            && LessEq(e.source, e.target)
            && PairKey(e.source, e.target) == pm.keys[i]
            && e.labelText == TagLabel(pm.entries[pm.keys[i]])
            && '|' !in e.source && '|' !in e.target
  {
    var pm := PairIndexOf(notes);
    PairIndexHasBars(notes);
    PairKeyOfNotes(notes, i);
    var n, m :| n in notes && m in notes && pm.keys[i] == PairKey(n.id, m.id);
    SplitPairKey(n.id, m.id);
    SortedPairSpec(n.id, m.id);
    var p := SortedPair(n.id, m.id);
    assert p[0] in multiset(p) && p[1] in multiset(p);
  }

  /** The order of the two ids does not matter to their pair key. */
  lemma PairKeySymmetric(a: string, b: string)
    ensures PairKey(a, b) == PairKey(b, a)
  {
    if a != b {
      LessTotal(a, b);
      if Less(a, b) {
        LessAsymmetric(a, b);
      } else {
        LessAsymmetric(b, a);
      }
    }
  }

  /** No two shared-tag edges join the same two ids, in either order. */
  lemma SharedEdgesDistinct(notes: seq<Note>, i: nat, j: nat)
    requires NoBar(notes) && i < j < |SharedLinks(notes)|
    ensures var es := SharedLinks(notes);
            multiset{es[i].source, es[i].target} != multiset{es[j].source, es[j].target}
  {
    var pm := PairIndexOf(notes);
    var es := SharedLinks(notes);
    SharedEdgeAt(notes, i);
    SharedEdgeAt(notes, j);
    assert pm.keys[i] != pm.keys[j];
    PairKeySymmetric(es[j].source, es[j].target);
  }
  /** Every key of the pair index has the edge that joins its two ids. */
  lemma EdgeOfKey(notes: seq<Note>, key: string)
    requires NoBar(notes) && key in PairIndexOf(notes).entries
    ensures exists i | 0 <= i < |SharedLinks(notes)| :: PairKey(SharedLinks(notes)[i].source, SharedLinks(notes)[i].target) == key
  {
    var pm := PairIndexOf(notes);
    GroupOfValid(SharedOccurrences(TagIndexOf(notes), TagIndexOf(notes).keys));
    var i :| 0 <= i < |pm.keys| && pm.keys[i] == key;
    SharedEdgeAt(notes, i);
  }

  /** A key that pairs an id with itself gives an edge from that id to itself. */
  lemma SelfLoopOfKey(notes: seq<Note>, id: string)
    requires NoBar(notes) && '|' !in id && PairKey(id, id) in PairIndexOf(notes).entries
    ensures exists i | 0 <= i < |SharedLinks(notes)| :: SharedLinks(notes)[i].source == id && SharedLinks(notes)[i].target == id
  {
    EdgeOfKey(notes, PairKey(id, id));
    var es := SharedLinks(notes);
    var i :| 0 <= i < |es| && PairKey(es[i].source, es[i].target) == PairKey(id, id);
    var e := es[i];
    SharedEdgeAt(notes, i);
    PairKeyInjective(e.source, e.target, id, id);
    PairOfSame(e.source, e.target, id);
    assert es[i].source == id && es[i].target == id;
  }

  lemma PairOfSame(a: string, b: string, id: string)
    requires multiset{a, b} == multiset{id, id}
    ensures a == id && b == id
  {
    assert a in multiset{id, id} && b in multiset{id, id};
  }

  /**
   * A note that carries a tag both as a user tag and as an auto-tag is
   * listed twice under it, so the pair loop joins it to itself: the map gets
   * a shared-tag edge from the note to the note.
   */
  lemma SelfLoopWhenTagRepeated(n: Note, t: string)
    requires n.tags == [t] && n.autoTags == Some([t]) && '|' !in n.id
    ensures exists i | 0 <= i < |SharedLinks([n])| :: SharedLinks([n])[i].source == n.id && SharedLinks([n])[i].target == n.id
  {
    SelfPairListed(n, t);
    assert NoBar([n]);
    SelfLoopOfKey([n], n.id);
  }

  lemma SelfPairListed(n: Note, t: string)
    requires n.tags == [t] && n.autoTags == Some([t])
    ensures PairKey(n.id, n.id) in PairIndexOf([n]).entries
  {
    CarriedTwiceListedTwice(n, t);
    var ids := IdsCarrying([n], t);
    assert PairKey(n.id, n.id) == PairKey(ids[0], ids[1]);
    PairIndexMembers([n], PairKey(n.id, n.id), t);
  }

  // ---------------------------------------------------------------------------
  // Properties of the nodes

  /** Hub ids of different tags differ. */
  lemma ChapterIdInjective(a: string, b: string)
    requires ChapterId(a) == ChapterId(b)
    ensures a == b
  {
    assert a == ChapterId(a)[8..];
  }

  /** The first nodes are the notes, one each, in order, with their ids, titles and tags. */
  lemma NoteNodesSpec(notes: seq<Note>, minSize: int)
    ensures var nodes := NodesOf(notes, minSize);
            |nodes| == |notes| + |Chapters(notes, minSize)| &&
            forall i | 0 <= i < |notes| ::
              nodes[i].id == notes[i].id && nodes[i].kind == NoteKind &&
              nodes[i].labelText == notes[i].title && nodes[i].tags == Some(notes[i].AllTags())
  {
  }

  /** Node `|notes| + x` is the hub of chapter `x`. */
  lemma HubAt(notes: seq<Note>, minSize: int, x: nat)
    requires x < |Chapters(notes, minSize)|
    ensures NodesOf(notes, minSize)[|notes| + x] == HubOf(Chapters(notes, minSize)[x])
  {
  }

  lemma ChapterCountIsOccurrences(notes: seq<Note>, minSize: int, c: Chapter)
    requires c in Chapters(notes, minSize)
    ensures c.count == Count(FlatTags(notes), c.tag)
  {
    ChapterMembership(notes, minSize, c);
    CountIdsCarrying(notes, c.tag);
  }

  lemma ChapterTagsDistinct(notes: seq<Note>, minSize: int, x: nat, y: nat)
    requires x < y < |Chapters(notes, minSize)|
    ensures Chapters(notes, minSize)[x].tag != Chapters(notes, minSize)[y].tag
  {
    ChaptersShape(notes, minSize);
  }

  /**
   * After the notes come the hubs: there is a hub for tag `t` exactly when
   * `t` occurs at least `minSize` times (and at least once) among the notes'
   * tags and auto-tags.
   */
  lemma HubNodeIff(notes: seq<Note>, minSize: int, t: string)
    ensures var nodes := NodesOf(notes, minSize);
            (exists k | |notes| <= k < |nodes| :: nodes[k].id == ChapterId(t)) <==>
              t in FlatTags(notes) && Count(FlatTags(notes), t) >= minSize
  {
    var nodes := NodesOf(notes, minSize);
    if exists k | |notes| <= k < |nodes| :: nodes[k].id == ChapterId(t) {
      var k :| |notes| <= k < |nodes| && nodes[k].id == ChapterId(t);
      HubNodeSound(notes, minSize, t, k);
    }
    if t in FlatTags(notes) && Count(FlatTags(notes), t) >= minSize {
      HubNodeComplete(notes, minSize, t);
    }
  }

  /** A hub named after `t` is there only for a tag that occurs often enough. */
  lemma HubNodeSound(notes: seq<Note>, minSize: int, t: string, k: nat)
    requires |notes| <= k < |NodesOf(notes, minSize)| && NodesOf(notes, minSize)[k].id == ChapterId(t)
    ensures t in FlatTags(notes) && Count(FlatTags(notes), t) >= minSize
  {
    var chs := Chapters(notes, minSize);
    var x := k - |notes|;
    assert x < |chs|;
    HubAt(notes, minSize, x);
    var c := chs[x];
    assert ChapterId(c.tag) == ChapterId(t);
    ChapterIdInjective(c.tag, t);
    assert c in chs;
    ChapterMembership(notes, minSize, c);
  }

  /** A tag that occurs often enough has a hub named after it. */
  lemma HubNodeComplete(notes: seq<Note>, minSize: int, t: string)
    requires t in FlatTags(notes) && Count(FlatTags(notes), t) >= minSize
    ensures var nodes := NodesOf(notes, minSize);
            exists k | |notes| <= k < |nodes| :: nodes[k].id == ChapterId(t)
  {
    var chs := Chapters(notes, minSize);
    ChapterExists(notes, minSize, t);
    var x :| 0 <= x < |chs| && chs[x].tag == t;
    HubAt(notes, minSize, x);
    assert NodesOf(notes, minSize)[|notes| + x].id == ChapterId(t);
  }

  /** The hub of chapter `x` is named after its tag and records the number of occurrences of that tag. */
  lemma HubNodesCount(notes: seq<Note>, minSize: int, x: nat)
    requires x < |Chapters(notes, minSize)|
    ensures var node := NodesOf(notes, minSize)[|notes| + x];
            var t := Chapters(notes, minSize)[x].tag;
            node.kind == ChapterKind && node.labelText == t && node.id == ChapterId(t) &&
            node.noteCount == Some(Count(FlatTags(notes), t))
  {
    var c := Chapters(notes, minSize)[x];
    HubAt(notes, minSize, x);
    assert c in Chapters(notes, minSize);
    ChapterCountIsOccurrences(notes, minSize, c);
  }

  /** No two hubs share an id. */
  lemma HubIdsDistinct(notes: seq<Note>, minSize: int, x: nat, y: nat)
    requires x < y < |Chapters(notes, minSize)|
    ensures NodesOf(notes, minSize)[|notes| + x].id != NodesOf(notes, minSize)[|notes| + y].id
  {
    var a, b := Chapters(notes, minSize)[x].tag, Chapters(notes, minSize)[y].tag;
    HubAt(notes, minSize, x);
    HubAt(notes, minSize, y);
    ChapterTagsDistinct(notes, minSize, x, y);
    if ChapterId(a) == ChapterId(b) {
      ChapterIdInjective(a, b);
    }
  }

  // ---------------------------------------------------------------------------
  // Properties of the edges

  /** The hub edges are one per id listed by each chapter, from the chapter's hub, labelled with its tag. */
  lemma {:induction false} ChapterEdgesMembers(chapters: seq<Chapter>, l: GraphLink)
    ensures l in ChapterEdges(chapters) <==>
              exists c, k | c in chapters && 0 <= k < |c.noteIds| ::
                l == GraphLink(ChapterId(c.tag), c.noteIds[k], ChapterToNoteKind, "#" + c.tag)
  {
    if |chapters| > 0 {
      var init, last := chapters[..|chapters| - 1], chapters[|chapters| - 1];
      ChapterEdgesMembers(init, l);
      assert chapters == init + [last];
      if l in ChapterLinks(last) {
        var k :| 0 <= k < |last.noteIds| && ChapterLinks(last)[k] == l;
        assert last in chapters;
      }
      if exists c, k | c in chapters && 0 <= k < |c.noteIds| ::
           l == GraphLink(ChapterId(c.tag), c.noteIds[k], ChapterToNoteKind, "#" + c.tag) {
        var c, k :| c in chapters && 0 <= k < |c.noteIds| &&
                    l == GraphLink(ChapterId(c.tag), c.noteIds[k], ChapterToNoteKind, "#" + c.tag);
        if c == last {
          assert ChapterLinks(last)[k] == l;
        } else {
          assert c in init;
        }
      }
    }
  }

  /** The hub of every chapter is joined to every note that carries the chapter's tag. */
  lemma HubEdgeComplete(notes: seq<Note>, minSize: int, c: Chapter, n: Note)
    requires c in Chapters(notes, minSize) && n in notes && c.tag in n.AllTags()
    ensures GraphLink(ChapterId(c.tag), n.id, ChapterToNoteKind, "#" + c.tag) in ChapterEdges(Chapters(notes, minSize))
  {
    ChapterMembership(notes, minSize, c);
    IdsCarryingComplete(notes, n, c.tag);
    var k :| 0 <= k < |c.noteIds| && c.noteIds[k] == n.id;
    ChapterEdgesMembers(Chapters(notes, minSize), GraphLink(ChapterId(c.tag), n.id, ChapterToNoteKind, "#" + c.tag));
  }

  /** Every hub edge leaves the hub of a chapter and reaches a note that carries the chapter's tag. */
  lemma HubEdgeSound(notes: seq<Note>, minSize: int, l: GraphLink)
    requires l in ChapterEdges(Chapters(notes, minSize))
    ensures l.kind == ChapterToNoteKind
    ensures exists c, n | c in Chapters(notes, minSize) && n in notes ::
              c.tag in n.AllTags() && l == GraphLink(ChapterId(c.tag), n.id, ChapterToNoteKind, "#" + c.tag)
  {
    var chs := Chapters(notes, minSize);
    ChapterEdgesMembers(chs, l);
    var c, k :| c in chs && 0 <= k < |c.noteIds| &&
                l == GraphLink(ChapterId(c.tag), c.noteIds[k], ChapterToNoteKind, "#" + c.tag);
    ChapterMembership(notes, minSize, c);
    IdsCarryingMembers(notes, c.tag);
    assert c.noteIds[k] in c.noteIds;
    var n :| n in notes && n.id == c.noteIds[k] && c.tag in n.AllTags();
  }

  /**
   * The links are the hub edges, then one wiki edge per stored link, then
   * the shared-tag edges exactly when they are switched on.
   */
  lemma LinksLayout(notes: seq<Note>, noteLinks: seq<NoteLink>, minSize: int, showTagLinks: bool)
    ensures var links := LinksOf(notes, noteLinks, minSize, showTagLinks);
            var hub := ChapterEdges(Chapters(notes, minSize));
            && |links| == |hub| + |noteLinks| + |TagEdges(notes, showTagLinks)|
            && links[..|hub|] == hub
            && links[|hub| + |noteLinks|..] == TagEdges(notes, showTagLinks)
  {
    var hub := ChapterEdges(Chapters(notes, minSize));
    var tail := TagEdges(notes, showTagLinks);
    ThreeParts(hub, WikiEdges(noteLinks), tail);
  }

  /** Every stored link becomes a wiki edge, in order, dangling targets included. */
  lemma WikiEdgesKept(notes: seq<Note>, noteLinks: seq<NoteLink>, minSize: int, showTagLinks: bool, w: nat)
    requires w < |noteLinks|
    ensures var links := LinksOf(notes, noteLinks, minSize, showTagLinks);
            var at := |ChapterEdges(Chapters(notes, minSize))| + w;
            at < |links| && links[at].source == noteLinks[w].sourceId &&
            links[at].target == noteLinks[w].targetId && links[at].kind == WikiKind
  {
    var hub := ChapterEdges(Chapters(notes, minSize));
    var wiki := WikiEdges(noteLinks);
    MiddlePart(hub, wiki, TagEdges(notes, showTagLinks), w);
    assert wiki[w] == WikiEdgeOf(noteLinks[w]);
  }

  /** A shared-tag edge is present only when shared-tag edges are switched on. */
  lemma SharedEdgesOnlyWhenShown(notes: seq<Note>, noteLinks: seq<NoteLink>, minSize: int, l: GraphLink)
    requires l in LinksOf(notes, noteLinks, minSize, false)
    ensures l.kind != SharedTagKind
  {
    var hub := ChapterEdges(Chapters(notes, minSize));
    assert LinksOf(notes, noteLinks, minSize, false) == hub + WikiEdges(noteLinks);
    if l in hub {
      HubEdgeSound(notes, minSize, l);
    }
  }

  /** `getLinkWidth`. */
  function LinkWidth(l: GraphLink): (r: real)
    ensures r >= 1.0
    ensures r == 1.0 <==> l.kind == ChapterToNoteKind
  {
    match l.kind
    case WikiKind => 2.5
    case SharedTagKind => 1.5
    case ChapterToNoteKind => 1.0
  }

  /** Wiki edges are drawn widest, shared-tag edges narrower, hub edges narrowest. */
  lemma LinkWidthOrder(wiki: GraphLink, shared: GraphLink, hub: GraphLink)
    requires wiki.kind == WikiKind && shared.kind == SharedTagKind && hub.kind == ChapterToNoteKind
    ensures LinkWidth(wiki) > LinkWidth(shared) > LinkWidth(hub)
  {
  }
}
