/**
 * The note repository: a `notes` table keyed by `id` and a `noteLinks`
 * table keyed by `[sourceId+targetId]`, kept consistent by `create`,
 * `update` and `delete`, each of which runs as one transaction.
 */
module NoteService {
  import opened Results
  import opened Strings
  import opened Seqs
  import opened Sorting
  import opened NoteTypes
  import opened WikiLinkParser

  type LinkKey = (string, string)
  type NoteTable = map<string, Note>
  type LinkTable = map<LinkKey, NoteLink>

  /** The compound primary key `[sourceId+targetId]` of a link. */
  function KeyOf(l: NoteLink): LinkKey {
    (l.sourceId, l.targetId)
  }

  /** Every note is stored under its id; every link under its key, from a stored note, and never to itself. */
  ghost predicate ValidTables(notes: NoteTable, links: LinkTable) {
    && (forall id | id in notes :: notes[id].id == id)
    && (forall k | k in links :: KeyOf(links[k]) == k && links[k].sourceId in notes && links[k].sourceId != links[k].targetId)
  }

  // ---------------------------------------------------------------------------
  // Title resolution: `new Map(allNotes.map(n => [n.title.toLowerCase(), n.id]))`

  /** The title map built from the notes `ids`, in that order; a later note overrides an earlier one. */
  function TitleIndexOver(notes: NoteTable, ids: seq<string>): map<string, string>
    requires forall i | 0 <= i < |ids| :: ids[i] in notes
  {
    if |ids| == 0 then map[]
    else TitleIndexOver(notes, ids[..|ids| - 1])[ToLower(notes[ids[|ids| - 1]].title) := ids[|ids| - 1]]
  }

  /** `toArray()` lists the notes in primary-key order, so the map is built over the ids in ascending order. */
  ghost function TitleIndex(notes: NoteTable): map<string, string> {
    TitleIndexOver(notes, SortedSeqOf(notes.Keys))
  }

  lemma {:induction false} TitleIndexOverSpec(notes: NoteTable, ids: seq<string>, key: string)
    requires forall i | 0 <= i < |ids| :: ids[i] in notes
    requires StrictlySorted(ids)
    ensures key in TitleIndexOver(notes, ids) <==> exists i | 0 <= i < |ids| :: ToLower(notes[ids[i]].title) == key
    ensures key in TitleIndexOver(notes, ids) ==>
              var id := TitleIndexOver(notes, ids)[key];
              id in ids && ToLower(notes[id].title) == key &&
              forall i | 0 <= i < |ids| && ToLower(notes[ids[i]].title) == key :: LessEq(ids[i], id)
  {
    if |ids| > 0 {
      var n := |ids| - 1;
      var init := ids[..n];
      assert StrictlySorted(init);
      TitleIndexOverSpec(notes, init, key);
      var m := TitleIndexOver(notes, init);
      if ToLower(notes[ids[n]].title) != key {
        if key in m {
          forall i | 0 <= i < |ids| && ToLower(notes[ids[i]].title) == key
            ensures LessEq(ids[i], m[key])
          {
            assert i < n && ids[i] == init[i];
          }
        }
        if exists i | 0 <= i < |ids| :: ToLower(notes[ids[i]].title) == key {
          var i :| 0 <= i < |ids| && ToLower(notes[ids[i]].title) == key;
          assert i < n && ids[i] == init[i];
        }
      } else {
        forall i | 0 <= i < |ids| && ToLower(notes[ids[i]].title) == key
          ensures LessEq(ids[i], ids[n])
        {
        }
      }
    }
  }

  /**
   * Titles resolve case-insensitively: a lower-cased title is in the map exactly
   * when some stored note has it, it maps to such a note, and among several
   * notes with that title the one with the greatest id wins.
   */
  lemma TitleIndexResolves(notes: NoteTable, key: string)
    ensures key in TitleIndex(notes) <==> exists id | id in notes :: ToLower(notes[id].title) == key
    ensures key in TitleIndex(notes) ==>
              var id := TitleIndex(notes)[key];
              id in notes && ToLower(notes[id].title) == key &&
              forall other | other in notes && ToLower(notes[other].title) == key :: LessEq(other, id)
  {
    var ids := SortedSeqOf(notes.Keys);
    TitleIndexOverSpec(notes, ids, key);
    if exists id | id in notes :: ToLower(notes[id].title) == key {
      var id :| id in notes && ToLower(notes[id].title) == key;
      TitleAtSomeIndex(notes, ids, id, key);
    }
    if key in TitleIndex(notes) {
      forall other | other in notes && ToLower(notes[other].title) == key
        ensures LessEq(other, TitleIndex(notes)[key])
      {
        TitleAtSomeIndex(notes, ids, other, key);
      }
    }
  }

  /** A stored note with the title `key` sits at some position of the sorted ids. */
  lemma TitleAtSomeIndex(notes: NoteTable, ids: seq<string>, id: string, key: string)
    requires ids == SortedSeqOf(notes.Keys) && id in notes && ToLower(notes[id].title) == key
    ensures exists i | 0 <= i < |ids| :: ids[i] == id && ToLower(notes[ids[i]].title) == key
  {
    assert id in ids;
    var i :| 0 <= i < |ids| && ids[i] == id;
  }

  /** `{...link, targetId: titleToId.get(link.targetId.toLowerCase()) ?? link.targetId}`. */
  function Resolve(index: map<string, string>, l: NoteLink): NoteLink {
    var key := ToLower(l.targetId);
    NoteLink(l.sourceId, if key in index then index[key] else l.targetId, l.context)
  }

  /** The raw links resolved in order, dropping those that come to point at `noteId` itself. */
  function ResolveAll(index: map<string, string>, noteId: string, raw: seq<NoteLink>): seq<NoteLink> {
    if |raw| == 0 then []
    else
      var l := Resolve(index, raw[|raw| - 1]);
      ResolveAll(index, noteId, raw[..|raw| - 1]) + (if l.targetId != noteId then [l] else [])
  }

  lemma {:induction false} ResolveAllMembers(index: map<string, string>, noteId: string, raw: seq<NoteLink>, l: NoteLink)
    ensures l in ResolveAll(index, noteId, raw) <==>
              l.targetId != noteId && exists j | 0 <= j < |raw| :: l == Resolve(index, raw[j])
  {
    if |raw| > 0 {
      var init := raw[..|raw| - 1];
      ResolveAllMembers(index, noteId, init, l);
      if exists j | 0 <= j < |raw| :: l == Resolve(index, raw[j]) {
        var j :| 0 <= j < |raw| && l == Resolve(index, raw[j]);
        if j < |raw| - 1 {
          assert raw[j] == init[j];
        }
      }
      if exists j | 0 <= j < |init| :: l == Resolve(index, init[j]) {
        var j :| 0 <= j < |init| && l == Resolve(index, init[j]);
        assert init[j] == raw[j];
      }
    }
  }

  /** The links a sync of `note` stores, given the notes table it reads. */
  ghost function ResolvedLinks(notes: NoteTable, note: Note): seq<NoteLink> {
    ResolveAll(TitleIndex(notes), note.id, WikiLinks(note.id, note.content))
  }

  /**
   * The stored links of a synced note are its extracted links, one per
   * `[[...]]`, with the target resolved to the id of the note of that title
   * (compared case-insensitively) or kept as written, self-links dropped.
   */
  lemma ResolvedLinksSpec(notes: NoteTable, note: Note, l: NoteLink)
    ensures l in ResolvedLinks(notes, note) <==>
              l.targetId != note.id &&
              exists j | 0 <= j < |WikiLinks(note.id, note.content)| ::
                l == Resolve(TitleIndex(notes), WikiLinks(note.id, note.content)[j])
    ensures l in ResolvedLinks(notes, note) ==> l.sourceId == note.id
  {
    var raw := WikiLinks(note.id, note.content);
    ResolveAllMembers(TitleIndex(notes), note.id, raw, l);
    if l in ResolvedLinks(notes, note) {
      var j :| 0 <= j < |raw| && l == Resolve(TitleIndex(notes), raw[j]);
      WikiLinksSpec(note.id, note.content);
    }
  }

  // ---------------------------------------------------------------------------
  // Table updates

  /** `bulkPut(links)`: each link is stored under its key, a later link replacing an earlier one with the same key. */
  function PutAll(t: LinkTable, ls: seq<NoteLink>): LinkTable {
    if |ls| == 0 then t else PutAll(t, ls[..|ls| - 1])[KeyOf(ls[|ls| - 1]) := ls[|ls| - 1]]
  }

  /** `ls[j]` is the last link in `ls` with key `k`. */
  predicate LastWithKey(ls: seq<NoteLink>, k: LinkKey, j: int) {
    0 <= j < |ls| && KeyOf(ls[j]) == k && forall j' | j < j' < |ls| :: KeyOf(ls[j']) != k
  }

  lemma {:induction false} PutAllDomain(t: LinkTable, ls: seq<NoteLink>, k: LinkKey)
    ensures k in PutAll(t, ls) <==> k in t || exists j | 0 <= j < |ls| :: KeyOf(ls[j]) == k
  {
    if |ls| > 0 {
      var n := |ls| - 1;
      var init := ls[..n];
      PutAllDomain(t, init, k);
      if KeyOf(ls[n]) != k && exists j | 0 <= j < |ls| :: KeyOf(ls[j]) == k {
        var j :| 0 <= j < |ls| && KeyOf(ls[j]) == k;
        assert j < n && init[j] == ls[j];
      }
    }
  }

  /** After `bulkPut(ls)`, a key holds the last link of `ls` with that key, or its old link if `ls` has none. */
  lemma {:induction false} PutAllValue(t: LinkTable, ls: seq<NoteLink>, k: LinkKey)
    requires k in PutAll(t, ls)
    ensures (k in t && PutAll(t, ls)[k] == t[k] && forall j | 0 <= j < |ls| :: KeyOf(ls[j]) != k) ||
            (exists j | LastWithKey(ls, k, j) :: PutAll(t, ls)[k] == ls[j])
  {
    if |ls| > 0 {
      var n := |ls| - 1;
      var init := ls[..n];
      if KeyOf(ls[n]) != k {
        PutAllValue(t, init, k);
        PutAllValueStep(t, ls, k);
      } else {
        assert LastWithKey(ls, k, n);
      }
    }
  }

  lemma PutAllValueStep(t: LinkTable, ls: seq<NoteLink>, k: LinkKey)
    requires |ls| > 0 && KeyOf(ls[|ls| - 1]) != k
    requires var init := ls[..|ls| - 1];
             k in PutAll(t, init) &&
             ((k in t && PutAll(t, init)[k] == t[k] && forall j | 0 <= j < |init| :: KeyOf(init[j]) != k) ||
              (exists j | LastWithKey(init, k, j) :: PutAll(t, init)[k] == init[j]))
    ensures (k in t && PutAll(t, ls)[k] == t[k] && forall j | 0 <= j < |ls| :: KeyOf(ls[j]) != k) ||
            (exists j | LastWithKey(ls, k, j) :: PutAll(t, ls)[k] == ls[j])
  {
    var n := |ls| - 1;
    var init := ls[..n];
    assert PutAll(t, ls)[k] == PutAll(t, init)[k];
    if exists j | LastWithKey(init, k, j) :: PutAll(t, init)[k] == init[j] {
      var j :| LastWithKey(init, k, j) && PutAll(t, init)[k] == init[j];
      assert ls[j] == init[j];
      forall j' | j < j' < |ls| ensures KeyOf(ls[j']) != k {
        if j' < n {
          assert ls[j'] == init[j'];
        }
      }
      assert LastWithKey(ls, k, j);
    } else {
      forall j | 0 <= j < |ls| ensures KeyOf(ls[j]) != k {
        if j < n {
          assert ls[j] == init[j];
        }
      }
    }
  }

  /** `where('sourceId').equals(id).delete()`. */
  function WithoutSource(t: LinkTable, id: string): LinkTable {
    map k | k in t && t[k].sourceId != id :: t[k]
  }

  /** Both `where(...)` deletions of `delete(id)`: links from and to `id` go. */
  function WithoutId(t: LinkTable, id: string): LinkTable {
    map k | k in t && t[k].sourceId != id && t[k].targetId != id :: t[k]
  }

  /** The link table after `syncNoteLinks(note)` ran against the tables `notes` and `links`. */
  ghost function Synced(notes: NoteTable, links: LinkTable, note: Note): LinkTable {
    PutAll(WithoutSource(links, note.id), ResolvedLinks(notes, note))
  }

  /** `where('sourceId').equals(id)`: the forward links of `id`. */
  function LinksFrom(t: LinkTable, id: string): (r: set<NoteLink>)
    ensures forall l :: l in r <==> l in t.Values && l.sourceId == id
  {
    set k | k in t && t[k].sourceId == id :: t[k]
  }

  /** `where('targetId').equals(id)`: the backlinks of `id`. */
  function LinksTo(t: LinkTable, id: string): (r: set<NoteLink>)
    ensures forall l :: l in r <==> l in t.Values && l.targetId == id
  {
    set k | k in t && t[k].targetId == id :: t[k]
  }

  // ---------------------------------------------------------------------------
  // What a sync and a delete leave in the link table

  /** A sync keeps the tables consistent: it only stores links from the synced (stored) note, none to itself. */
  lemma SyncKeepsValid(notes: NoteTable, links: LinkTable, note: Note)
    requires ValidTables(notes, links) && note.id in notes
    ensures ValidTables(notes, Synced(notes, links, note))
  {
    var base := WithoutSource(links, note.id);
    var ls := ResolvedLinks(notes, note);
    forall k | k in Synced(notes, links, note)
      ensures var l := Synced(notes, links, note)[k];
              KeyOf(l) == k && l.sourceId in notes && l.sourceId != l.targetId
    {
      PutAllValue(base, ls, k);
      if exists j | LastWithKey(ls, k, j) :: PutAll(base, ls)[k] == ls[j] {
        var j :| LastWithKey(ls, k, j) && PutAll(base, ls)[k] == ls[j];
        ResolvedLinksSpec(notes, note, ls[j]);
      }
    }
  }

  /** After a sync, every forward link of the note is one of its resolved links. */
  lemma SyncForwardLinksAreResolved(notes: NoteTable, links: LinkTable, note: Note)
    ensures forall l | l in LinksFrom(Synced(notes, links, note), note.id) :: l in ResolvedLinks(notes, note)
  {
    var base := WithoutSource(links, note.id);
    var ls := ResolvedLinks(notes, note);
    var t := Synced(notes, links, note);
    forall l | l in LinksFrom(t, note.id) ensures l in ls {
      var k :| k in t && t[k] == l;
      PutAllValue(base, ls, k);
    }
  }

  /**
   * After a sync, every resolved link of the note is stored under its key; when
   * several share a key, the last of them is the one stored.
   */
  lemma SyncStoresEveryResolved(notes: NoteTable, links: LinkTable, note: Note, l: NoteLink)
    requires l in ResolvedLinks(notes, note)
    ensures KeyOf(l) in Synced(notes, links, note)
    ensures exists j | LastWithKey(ResolvedLinks(notes, note), KeyOf(l), j) ::
              Synced(notes, links, note)[KeyOf(l)] == ResolvedLinks(notes, note)[j]
    ensures Synced(notes, links, note)[KeyOf(l)] in LinksFrom(Synced(notes, links, note), note.id)
  {
    var base := WithoutSource(links, note.id);
    var ls := ResolvedLinks(notes, note);
    var k := KeyOf(l);
    var i :| 0 <= i < |ls| && ls[i] == l;
    PutAllDomain(base, ls, k);
    PutAllValue(base, ls, k);
    var j :| LastWithKey(ls, k, j) && PutAll(base, ls)[k] == ls[j];
    ResolvedLinksSpec(notes, note, ls[j]);
  }

  /** A sync leaves the forward links of every other note as they were. */
  lemma SyncKeepsOtherSources(notes: NoteTable, links: LinkTable, note: Note, other: string)
    requires ValidTables(notes, links) && other != note.id
    ensures LinksFrom(Synced(notes, links, note), other) == LinksFrom(links, other)
  {
    var base := WithoutSource(links, note.id);
    var ls := ResolvedLinks(notes, note);
    var t := Synced(notes, links, note);
    forall l | l in LinksFrom(t, other) ensures l in LinksFrom(links, other) {
      var k :| k in t && t[k] == l;
      PutAllValue(base, ls, k);
      if exists j | LastWithKey(ls, k, j) :: PutAll(base, ls)[k] == ls[j] {
        var j :| LastWithKey(ls, k, j) && PutAll(base, ls)[k] == ls[j];
        ResolvedLinksSpec(notes, note, ls[j]);
      }
    }
    forall l | l in LinksFrom(links, other) ensures l in LinksFrom(t, other) {
      var k :| k in links && links[k] == l;
      assert k in base;
      PutAllDomain(base, ls, k);
      PutAllValue(base, ls, k);
      if exists j | LastWithKey(ls, k, j) :: PutAll(base, ls)[k] == ls[j] {
        var j :| LastWithKey(ls, k, j) && PutAll(base, ls)[k] == ls[j];
        ResolvedLinksSpec(notes, note, ls[j]);
      }
    }
  }

  /** Deleting a note keeps the tables consistent. */
  lemma DeleteKeepsValid(notes: NoteTable, links: LinkTable, id: string)
    requires ValidTables(notes, links)
    ensures ValidTables(notes - {id}, WithoutId(links, id))
  {
  }

  /** After `delete(id)` no link mentions `id`, and every link between other notes is still there. */
  lemma DeletePurges(links: LinkTable, id: string)
    ensures LinksFrom(WithoutId(links, id), id) == {} && LinksTo(WithoutId(links, id), id) == {}
    ensures forall l | l in links.Values && l.sourceId != id && l.targetId != id :: l in WithoutId(links, id).Values
  {
    var t := WithoutId(links, id);
    forall l | l in links.Values && l.sourceId != id && l.targetId != id
      ensures l in t.Values
    {
      var k :| k in links && links[k] == l;
      assert k in t;
    }
  }

  // ---------------------------------------------------------------------------
  // Queries

  function ModifiedAt(n: Note): int {
    n.modifiedAt
  }

  /** The notes stored under `ids`, last id first. */
  function NotesInReverse(notes: NoteTable, ids: seq<string>): (r: seq<Note>)
    requires forall i | 0 <= i < |ids| :: ids[i] in notes
    ensures |r| == |ids|
  {
    if |ids| == 0 then [] else [notes[ids[|ids| - 1]]] + NotesInReverse(notes, ids[..|ids| - 1])
  }

  lemma {:induction false} NotesInReverseMembers(notes: NoteTable, ids: seq<string>, n: Note)
    requires forall i | 0 <= i < |ids| :: ids[i] in notes
    ensures n in NotesInReverse(notes, ids) <==> exists i | 0 <= i < |ids| :: notes[ids[i]] == n
  {
    if |ids| > 0 {
      var init := ids[..|ids| - 1];
      NotesInReverseMembers(notes, init, n);
      if exists i | 0 <= i < |ids| :: notes[ids[i]] == n {
        var i :| 0 <= i < |ids| && notes[ids[i]] == n;
        if i < |ids| - 1 {
          assert ids[i] == init[i];
        }
      }
      if exists i | 0 <= i < |init| :: notes[init[i]] == n {
        var i :| 0 <= i < |init| && notes[init[i]] == n;
        assert ids[i] == init[i];
      }
    }
  }

  /** `orderBy('modifiedAt').reverse()`: newest first, equal timestamps by descending id. */
  ghost function ByRecency(notes: NoteTable): seq<Note> {
    SortByKeyDesc(NotesInReverse(notes, SortedSeqOf(notes.Keys)), ModifiedAt)
  }

  /** `getAll()` lists every stored note once, most recently modified first, ties in descending id order. */
  lemma ByRecencySpec(notes: NoteTable, k: int)
    ensures SortedDesc(ByRecency(notes), ModifiedAt)
    ensures |ByRecency(notes)| == |notes|
    ensures forall n :: n in ByRecency(notes) <==> n in notes.Values
    ensures WithKey(ByRecency(notes), ModifiedAt, k) == WithKey(NotesInReverse(notes, SortedSeqOf(notes.Keys)), ModifiedAt, k)
  {
    var ids := SortedSeqOf(notes.Keys);
    var u := NotesInReverse(notes, ids);
    assert |notes.Keys| == |notes|;
    forall n ensures n in ByRecency(notes) <==> n in notes.Values {
      assert n in ByRecency(notes) <==> n in multiset(u);
      NotesInReverseMembers(notes, ids, n);
      if n in notes.Values {
        var id :| id in notes && notes[id] == n;
        assert id in ids;
        var i :| 0 <= i < |ids| && ids[i] == id;
      }
    }
    SortByKeyDescStable(u, ModifiedAt, k);
  }

  /** The case-insensitive match `search` applies, `lowerQuery` already lower-cased. */
  predicate NoteMatches(n: Note, lowerQuery: string) {
    || Contains(ToLower(n.title), lowerQuery)
    || Contains(ToLower(n.content), lowerQuery)
    || exists i | 0 <= i < |n.tags| :: Contains(ToLower(n.tags[i]), lowerQuery)
  }

  /** The notes under `ids` that match, in the order of `ids`. */
  function SearchOver(notes: NoteTable, ids: seq<string>, lowerQuery: string): seq<Note>
    requires forall i | 0 <= i < |ids| :: ids[i] in notes
  {
    if |ids| == 0 then []
    else
      var n := notes[ids[|ids| - 1]];
      SearchOver(notes, ids[..|ids| - 1], lowerQuery) + (if NoteMatches(n, lowerQuery) then [n] else [])
  }

  lemma {:induction false} SearchOverMembers(notes: NoteTable, ids: seq<string>, lowerQuery: string, n: Note)
    requires forall i | 0 <= i < |ids| :: ids[i] in notes
    ensures n in SearchOver(notes, ids, lowerQuery) <==>
              NoteMatches(n, lowerQuery) && exists i | 0 <= i < |ids| :: notes[ids[i]] == n
  {
    if |ids| > 0 {
      var init := ids[..|ids| - 1];
      SearchOverMembers(notes, init, lowerQuery, n);
      if exists i | 0 <= i < |ids| :: notes[ids[i]] == n {
        var i :| 0 <= i < |ids| && notes[ids[i]] == n;
        if i < |ids| - 1 {
          assert ids[i] == init[i];
        }
      }
      if exists i | 0 <= i < |init| :: notes[init[i]] == n {
        var i :| 0 <= i < |init| && notes[init[i]] == n;
        assert ids[i] == init[i];
      }
    }
  }

  /** `search(query)`: the matching notes in primary-key order. */
  ghost function SearchResult(notes: NoteTable, query: string): seq<Note> {
    SearchOver(notes, SortedSeqOf(notes.Keys), ToLower(query))
  }

  /** `search(q)` returns exactly the stored notes whose title, content or some tag contains `q`, ignoring case. */
  lemma SearchSpec(notes: NoteTable, query: string, n: Note)
    ensures n in SearchResult(notes, query) <==> n in notes.Values && NoteMatches(n, ToLower(query))
  {
    var ids := SortedSeqOf(notes.Keys);
    SearchOverMembers(notes, ids, ToLower(query), n);
    if n in notes.Values {
      var id :| id in notes && notes[id] == n;
      assert id in ids;
      var i :| 0 <= i < |ids| && ids[i] == id;
    }
  }

  /** The user tags (not auto-tags) of the notes under `ids`. */
  function TagsOf(notes: NoteTable, ids: seq<string>): set<string>
    requires forall i | 0 <= i < |ids| :: ids[i] in notes
  {
    if |ids| == 0 then {}
    else TagsOf(notes, ids[..|ids| - 1]) + Elements(notes[ids[|ids| - 1]].tags)
  }

  lemma {:induction false} TagsOfMembers(notes: NoteTable, ids: seq<string>, t: string)
    requires forall i | 0 <= i < |ids| :: ids[i] in notes
    ensures t in TagsOf(notes, ids) <==> exists i | 0 <= i < |ids| :: t in notes[ids[i]].tags
  {
    if |ids| > 0 {
      var init := ids[..|ids| - 1];
      TagsOfMembers(notes, init, t);
      if exists i | 0 <= i < |ids| :: t in notes[ids[i]].tags {
        var i :| 0 <= i < |ids| && t in notes[ids[i]].tags;
        if i < |ids| - 1 {
          assert ids[i] == init[i];
        }
      }
      if exists i | 0 <= i < |init| :: t in notes[init[i]].tags {
        var i :| 0 <= i < |init| && t in notes[init[i]].tags;
        assert ids[i] == init[i];
      }
    }
  }

  lemma TagsOfStep(notes: NoteTable, ids: seq<string>, i: nat)
    requires i < |ids| && forall k | 0 <= k < |ids| :: ids[k] in notes
    ensures TagsOf(notes, ids[..i + 1]) == TagsOf(notes, ids[..i]) + Elements(notes[ids[i]].tags)
  {
    assert ids[..i + 1][..i] == ids[..i];
  }

  /** The nested loop of `getAllTags`: add every user tag of every listed note to a set. */
  method CollectTags(table: NoteTable, ids: seq<string>) returns (tagSet: set<string>)
    requires forall k | 0 <= k < |ids| :: ids[k] in table
    ensures tagSet == TagsOf(table, ids)
  {
    tagSet := {};
    assert ids[..0] == [];
    for i := 0 to |ids|
      invariant tagSet == TagsOf(table, ids[..i])
    {
      var tags := table[ids[i]].tags;
      ghost var before := tagSet;
      assert tags[..0] == [];
      for j := 0 to |tags|
        invariant tagSet == before + Elements(tags[..j])
      {
        ElementsPrefixStep(tags, j);
        tagSet := tagSet + {tags[j]};
      }
      assert tags[..|tags|] == tags;
      TagsOfStep(table, ids, i);
    }
    assert ids[..|ids|] == ids;
  }

  /** `getAllTags()`: the distinct user tags of all notes, sorted. */
  ghost function AllTagsSorted(notes: NoteTable): seq<string> {
    SortedSeqOf(TagsOf(notes, SortedSeqOf(notes.Keys)))
  }

  /** `getAllTags()` lists each user tag of some note exactly once, in ascending order; auto-tags are not included. */
  lemma AllTagsSpec(notes: NoteTable, t: string)
    ensures StrictlySorted(AllTagsSorted(notes))
    ensures t in AllTagsSorted(notes) <==> exists id | id in notes :: t in notes[id].tags
  {
    var ids := SortedSeqOf(notes.Keys);
    TagsOfMembers(notes, ids, t);
    if exists id | id in notes :: t in notes[id].tags {
      var id :| id in notes && t in notes[id].tags;
      assert id in ids;
      var i :| 0 <= i < |ids| && ids[i] == id;
    }
  }

  // ---------------------------------------------------------------------------
  // The repository

  /** The note `create(input)` builds, with the id and the clock reading it is given. */
  function NewNote(input: NoteCreateInput, id: string, now: int): Note {
    Note(id, input.title, input.content, input.tags, None, None, None, now, now)
  }

  /** `{...existing, ...input, modifiedAt: now}`: supplied fields override, all others are kept. */
  function ApplyUpdate(existing: Note, input: NoteUpdateInput, now: int): (r: Note)
    ensures r.id == existing.id && r.createdAt == existing.createdAt && r.modifiedAt == now
    ensures r.autoTags == existing.autoTags && r.summary == existing.summary
    ensures r.title == (if input.title.Some? then input.title.value else existing.title)
    ensures r.content == (if input.content.Some? then input.content.value else existing.content)
    ensures r.tags == (if input.tags.Some? then input.tags.value else existing.tags)
    ensures r.bookColor == (if input.bookColor.Some? then input.bookColor else existing.bookColor)
  {
    existing.(
      title := input.title.GetOr(existing.title),
      content := input.content.GetOr(existing.content),
      tags := input.tags.GetOr(existing.tags),
      bookColor := if input.bookColor.Some? then input.bookColor else existing.bookColor,
      modifiedAt := now)
  }

  class NoteRepository {
    var notes: NoteTable
    var noteLinks: LinkTable

    ghost predicate Valid()
      reads this
    {
      ValidTables(notes, noteLinks)
    }

    constructor ()
      ensures Valid() && notes == map[] && noteLinks == map[]
    {
      notes := map[];
      noteLinks := map[];
    }

    /** `syncNoteLinks(note)`: replace the note's outgoing links by those its content now names. */
    method SyncNoteLinks(note: Note)
      requires Valid() && note.id in notes
      modifies this
      ensures Valid() && notes == old(notes)
      ensures noteLinks == Synced(notes, old(noteLinks), note)
    {
      noteLinks := WithoutSource(noteLinks, note.id);
      var rawLinks := ExtractWikiLinks(note.id, note.content);
      var allNotes := SortedElements(notes.Keys);
      var titleToId := TitleIndexOver(notes, allNotes);
      var resolvedLinks := ResolveAll(titleToId, note.id, rawLinks);
      if |resolvedLinks| > 0 {
        noteLinks := PutAll(noteLinks, resolvedLinks);
      }
      SyncKeepsValid(notes, old(noteLinks), note);
    }

    /**
     * `create(input)`: store a new note and its links in one transaction. Adding
     * an id that is already stored fails and rolls the whole transaction back.
     */
    method Create(input: NoteCreateInput, id: string, now: int) returns (r: Result<Note>)
      requires Valid()
      modifies this
      ensures Valid()
      ensures id in old(notes) ==> r.Failure? && notes == old(notes) && noteLinks == old(noteLinks)
      ensures id !in old(notes) ==>
                r == Success(NewNote(input, id, now)) && notes == old(notes)[id := r.value] &&
                noteLinks == Synced(notes, old(noteLinks), r.value)
    {
      if id in notes {
        return Failure("ConstraintError: key already exists in the notes table");
      }
      var note := NewNote(input, id, now);
      notes := notes[id := note];
      SyncNoteLinks(note);
      return Success(note);
    }

    /** `update(id, input)`: absent for an unknown id, otherwise store the merged note and re-sync its links. */
    method Update(id: string, input: NoteUpdateInput, now: int) returns (r: Option<Note>)
      requires Valid()
      modifies this
      ensures Valid()
      ensures id !in old(notes) ==> r.None? && notes == old(notes) && noteLinks == old(noteLinks)
      ensures id in old(notes) ==>
                r == Some(ApplyUpdate(old(notes)[id], input, now)) && notes == old(notes)[id := r.value] &&
                noteLinks == Synced(notes, old(noteLinks), r.value)
    {
      if id !in notes {
        return None;
      }
      var updated := ApplyUpdate(notes[id], input, now);
      notes := notes[id := updated];
      SyncNoteLinks(updated);
      return Some(updated);
    }

    /** `delete(id)`: remove the note and every link from or to it, in one transaction. */
    method Delete(id: string)
      requires Valid()
      modifies this
      ensures Valid()
      ensures notes == old(notes) - {id}
      ensures noteLinks == WithoutId(old(noteLinks), id)
    {
      notes := notes - {id};
      noteLinks := WithoutSource(noteLinks, id);
      noteLinks := map k | k in noteLinks && noteLinks[k].targetId != id :: noteLinks[k];
      assert noteLinks == WithoutId(old(noteLinks), id);
      DeleteKeepsValid(old(notes), old(noteLinks), id);
    }

    /** `getById(id)`. */
    function GetById(id: string): (r: Option<Note>)
      reads this
      ensures r.Some? <==> id in notes
      ensures r.Some? ==> r.value == notes[id]
    {
      if id in notes then Some(notes[id]) else None
    }

    /** `getAll()`. */
    method GetAll() returns (r: seq<Note>)
      ensures r == ByRecency(notes)
    {
      var ids := SortedElements(notes.Keys);
      r := SortByKeyDesc(NotesInReverse(notes, ids), ModifiedAt);
    }

    /** `search(query)`. */
    method Search(query: string) returns (r: seq<Note>)
      ensures r == SearchResult(notes, query)
    {
      var lowerQuery := ToLower(query);
      var ids := SortedElements(notes.Keys);
      r := SearchOver(notes, ids, lowerQuery);
    }

    /** `getAllTags()`: fill a set from every note's user tags, then sort it. */
    method GetAllTags() returns (r: seq<string>)
      ensures r == AllTagsSorted(notes)
    {
      var allNotes := SortedElements(notes.Keys);
      var tagSet := CollectTags(notes, allNotes);
      r := SortedElements(tagSet);
    }

    /** `getBacklinks(noteId)`. */
    function GetBacklinks(noteId: string): (r: set<NoteLink>)
      reads this
      ensures forall l :: l in r <==> l in noteLinks.Values && l.targetId == noteId
    {
      LinksTo(noteLinks, noteId)
    }

    /** `getForwardLinks(noteId)`. */
    function GetForwardLinks(noteId: string): (r: set<NoteLink>)
      reads this
      ensures forall l :: l in r <==> l in noteLinks.Values && l.sourceId == noteId
    {
      LinksFrom(noteLinks, noteId)
    }
  }
}
