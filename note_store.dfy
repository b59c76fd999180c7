/**
 * The client-side note store: the list of notes on screen, the active note,
 * and the loading and error flags, updated by actions that call the note
 * repository. Every action that awaits the repository is one atomic step here.
 */
module NoteStore {
  import opened Results
  import opened Seqs
  import opened Sorting
  import opened NoteTypes
  import opened NoteService

  /** The ids of a list of notes, in order. */
  function Ids(ns: seq<Note>): (r: seq<string>)
    ensures |r| == |ns|
    ensures forall i | 0 <= i < |ns| :: r[i] == ns[i].id
  {
    seq(|ns|, i requires 0 <= i < |ns| => ns[i].id)
  }

  /** `notes.map((n) => (n.id === id ? updated : n))`. */
  function ReplaceById(ns: seq<Note>, id: string, updated: Note): (r: seq<Note>)
    ensures |r| == |ns|
    ensures forall i | 0 <= i < |ns| :: r[i] == if ns[i].id == id then updated else ns[i]
  {
    seq(|ns|, i requires 0 <= i < |ns| => if ns[i].id == id then updated else ns[i])
  }

  /** `notes.filter((n) => n.id !== id)`. */
  function WithoutNote(ns: seq<Note>, id: string): seq<Note> {
    if |ns| == 0 then []
    else (if ns[0].id != id then [ns[0]] else []) + WithoutNote(ns[1..], id)
  }

  /**
   * Replacing by id keeps the length, the order and the ids (the replacement
   * carries the same id), touches no note with another id, and changes
   * nothing when no note has that id.
   */
  lemma ReplaceByIdSpec(ns: seq<Note>, id: string, updated: Note)
    requires updated.id == id
    ensures Ids(ReplaceById(ns, id, updated)) == Ids(ns)
    ensures forall i | 0 <= i < |ns| && ns[i].id != id :: ReplaceById(ns, id, updated)[i] == ns[i]
    ensures id !in Ids(ns) ==> ReplaceById(ns, id, updated) == ns
  {
    if id !in Ids(ns) {
      assert forall i | 0 <= i < |ns| :: ns[i].id != id by {
        assert forall i | 0 <= i < |ns| :: Ids(ns)[i] == ns[i].id;
      }
    }
  }

  /** Filtering by id keeps, in order, exactly the notes with another id. */
  lemma {:induction false} WithoutNoteSpec(ns: seq<Note>, id: string)
    ensures IsSubsequence(WithoutNote(ns, id), ns)
    ensures forall n :: n in WithoutNote(ns, id) <==> n in ns && n.id != id
    ensures (forall i | 0 <= i < |ns| :: ns[i].id != id) ==> WithoutNote(ns, id) == ns
  {
    if |ns| > 0 {
      WithoutNoteSpec(ns[1..], id);
      var rest := WithoutNote(ns[1..], id);
      assert ns == [ns[0]] + ns[1..];
      if ns[0].id != id {
        assert WithoutNote(ns, id)[1..] == rest;
      } else {
        assert WithoutNote(ns, id) == rest;
        SubsequenceSkip(rest, ns);
      }
    }
  }

  // ---------------------------------------------------------------------------
  // The list on screen mirrors the repository

  /** Every listed note is the stored note with its id, and no id is listed twice. */
  ghost predicate Cached(ns: seq<Note>, table: NoteTable) {
    && (forall i | 0 <= i < |ns| :: ns[i].id in table && table[ns[i].id] == ns[i])
    && (forall i, j | 0 <= i < j < |ns| :: ns[i].id != ns[j].id)
  }

  /** Every note is stored under its own id. */
  ghost predicate Keyed(table: NoteTable) {
    forall id | id in table :: table[id].id == id
  }

  lemma {:induction false} NotesInReverseCached(table: NoteTable, ids: seq<string>)
    requires Keyed(table) && NoDups(ids)
    requires forall i | 0 <= i < |ids| :: ids[i] in table
    ensures Cached(NotesInReverse(table, ids), table)
  {
    if |ids| > 0 {
      var init := ids[..|ids| - 1];
      var last := ids[|ids| - 1];
      NotesInReverseCached(table, init);
      var rest := NotesInReverse(table, init);
      forall j | 0 <= j < |rest| ensures rest[j].id != last {
        NotesInReverseMembers(table, init, rest[j]);
        var i :| 0 <= i < |init| && table[init[i]] == rest[j];
        assert init[i] == ids[i];
      }
      var u := NotesInReverse(table, ids);
      assert u == [table[last]] + rest;
      assert forall j | 1 <= j < |u| :: u[j] == rest[j - 1];
    }
  }

  lemma StrictlySortedNoDups(s: seq<string>)
    requires StrictlySorted(s)
    ensures NoDups(s)
  {
    forall i, j | 0 <= i < j < |s| ensures s[i] != s[j] {
      LessIrreflexiveAt(s, i, j);
    }
  }

  lemma LessIrreflexiveAt(s: seq<string>, i: int, j: int)
    requires StrictlySorted(s) && 0 <= i < j < |s|
    ensures s[i] != s[j]
  {
    Strings.LessIrreflexive(s[i]);
  }

  /** `getAll()` lists each stored note once, as stored. */
  lemma ByRecencyCached(table: NoteTable)
    requires Keyed(table)
    ensures Cached(ByRecency(table), table)
  {
    var ids := SortedSeqOf(table.Keys);
    StrictlySortedNoDups(ids);
    NotesInReverseCached(table, ids);
    var u := NotesInReverse(table, ids);
    var r := ByRecency(table);
    assert forall i, j | 0 <= i < j < |u| :: u[i] != u[j];
    PermutationKeepsNoDups(u, r);
    forall i | 0 <= i < |r| ensures r[i].id in table && table[r[i].id] == r[i] {
      assert r[i] in multiset(u);
      assert r[i] in u;
    }
  }

  lemma {:induction false} SearchOverCached(table: NoteTable, ids: seq<string>, lowerQuery: string)
    requires Keyed(table) && NoDups(ids)
    requires forall i | 0 <= i < |ids| :: ids[i] in table
    ensures Cached(SearchOver(table, ids, lowerQuery), table)
  {
    if |ids| > 0 {
      var init := ids[..|ids| - 1];
      var last := ids[|ids| - 1];
      SearchOverCached(table, init, lowerQuery);
      var front := SearchOver(table, init, lowerQuery);
      forall j | 0 <= j < |front| ensures front[j].id != last {
        SearchOverMembers(table, init, lowerQuery, front[j]);
        var i :| 0 <= i < |init| && table[init[i]] == front[j];
        assert init[i] == ids[i];
      }
    }
  }

  /** `search(query)` lists each matching stored note once, as stored. */
  lemma SearchCached(table: NoteTable, query: string)
    requires Keyed(table)
    ensures Cached(SearchResult(table, query), table)
  {
    var ids := SortedSeqOf(table.Keys);
    StrictlySortedNoDups(ids);
    SearchOverCached(table, ids, Strings.ToLower(query));
  }

  /** Prepending a newly stored note keeps the list a faithful copy. */
  lemma PrependCached(ns: seq<Note>, table: NoteTable, n: Note)
    requires Cached(ns, table) && n.id !in table
    ensures Cached([n] + ns, table[n.id := n])
  {
    var r := [n] + ns;
    assert forall j | 1 <= j < |r| :: r[j] == ns[j - 1];
  }

  /** Replacing a stored note in the list and in the table alike keeps the list a faithful copy. */
  lemma ReplaceCached(ns: seq<Note>, table: NoteTable, updated: Note)
    requires Cached(ns, table) && updated.id in table
    ensures Cached(ReplaceById(ns, updated.id, updated), table[updated.id := updated])
  {
  }

  /** Removing a note from the list and from the table alike keeps the list a faithful copy. */
  lemma RemoveCached(ns: seq<Note>, table: NoteTable, id: string)
    requires Cached(ns, table)
    ensures Cached(WithoutNote(ns, id), table - {id})
  {
    WithoutNoteSpec(ns, id);
    var r := WithoutNote(ns, id);
    forall i, j | 0 <= i < j < |r| ensures r[i].id != r[j].id {
      SubsequenceDistinctIds(r, ns, i, j);
    }
  }

  /** Two positions of a subsequence come from two positions of the original, in the same order. */
  lemma {:induction false} SubsequenceDistinctIds(r: seq<Note>, ns: seq<Note>, i: int, j: int)
    requires IsSubsequence(r, ns) && 0 <= i < j < |r|
    requires forall p, q | 0 <= p < q < |ns| :: ns[p].id != ns[q].id
    ensures r[i].id != r[j].id
    decreases |ns|
  {
    if r[0] == ns[0] {
      if i == 0 {
        assert r[j] == r[1..][j - 1];
        SubsequenceMember(r[1..], ns[1..], j - 1);
        var q :| 0 <= q < |ns[1..]| && ns[1..][q] == r[j];
        assert ns[q + 1] == r[j];
      } else {
        assert forall p, q | 0 <= p < q < |ns[1..]| :: ns[1..][p].id != ns[1..][q].id by {
          assert forall p | 0 <= p < |ns[1..]| :: ns[1..][p] == ns[p + 1];
        }
        SubsequenceDistinctIds(r[1..], ns[1..], i - 1, j - 1);
      }
    } else {
      assert forall p, q | 0 <= p < q < |ns[1..]| :: ns[1..][p].id != ns[1..][q].id by {
        assert forall p | 0 <= p < |ns[1..]| :: ns[1..][p] == ns[p + 1];
      }
      SubsequenceDistinctIds(r, ns[1..], i, j);
    }
  }

  lemma {:induction false} SubsequenceMember(r: seq<Note>, ns: seq<Note>, k: int)
    requires IsSubsequence(r, ns) && 0 <= k < |r|
    ensures r[k] in ns
    decreases |ns|
  {
    if r[0] == ns[0] {
      if k > 0 {
        SubsequenceMember(r[1..], ns[1..], k - 1);
      }
    } else {
      SubsequenceMember(r, ns[1..], k);
    }
  }

  // ---------------------------------------------------------------------------
  // The store

  class Store {
    var notes: seq<Note>
    var activeNoteId: Option<string>
    var isLoading: bool
    var error: Option<string>
    /** The note service the actions await. */
    const repo: NoteRepository

    /** The repository is consistent and the list on screen is a faithful copy of part of it. */
    ghost predicate Valid()
      reads this, repo
    {
      repo.Valid() && Cached(notes, repo.notes)
    }

    /** The initial state: no notes, no active note, not loading, no error. */
    constructor (repo: NoteRepository)
      requires repo.Valid()
      ensures Valid() && this.repo == repo
      ensures notes == [] && activeNoteId == None && !isLoading && error == None
    {
      this.repo := repo;
      notes := [];
      activeNoteId := None;
      isLoading := false;
      error := None;
    }

    /** `loadNotes()`: the list becomes every stored note, newest first. */
    method LoadNotes()
      requires Valid()
      modifies this
      ensures Valid()
      ensures notes == ByRecency(repo.notes)
      ensures !isLoading && error == None && activeNoteId == old(activeNoteId)
    {
      isLoading, error := true, None;
      var all := repo.GetAll();
      ByRecencyCached(repo.notes);
      notes, isLoading := all, false;
    }

    /**
     * `createNote(input)`: on success the new note goes to the front of the
     * list and becomes active; on failure the error is recorded, loading ends,
     * the failure is passed on, and nothing else changes.
     */
    method CreateNote(input: NoteCreateInput, id: string, now: int) returns (r: Result<Note>)
      requires Valid()
      modifies this, repo
      ensures Valid()
      ensures r.Failure? <==> id in old(repo.notes)
      ensures r.Success? ==>
                && r.value == NewNote(input, id, now)
                && repo.notes == old(repo.notes)[id := r.value]
                && repo.noteLinks == Synced(repo.notes, old(repo.noteLinks), r.value)
                && notes == [r.value] + old(notes)
                && activeNoteId == Some(id) && !isLoading && error == None
      ensures r.Failure? ==>
                && repo.notes == old(repo.notes) && repo.noteLinks == old(repo.noteLinks)
                && notes == old(notes) && activeNoteId == old(activeNoteId)
                && !isLoading && error == Some(r.message)
    {
      isLoading, error := true, None;
      r := repo.Create(input, id, now);
      if r.Failure? {
        error, isLoading := Some(r.message), false;
        return;
      }
      PrependCached(notes, old(repo.notes), r.value);
      notes, activeNoteId, isLoading := [r.value] + notes, Some(r.value.id), false;
    }

    /**
     * `updateNote(id, input)`: when the repository returns the merged note,
     * it replaces the listed note with that id, in place; otherwise the list
     * is left as it was. The flags and the active note do not change.
     */
    method UpdateNote(id: string, input: NoteUpdateInput, now: int)
      requires Valid()
      modifies this, repo
      ensures Valid()
      ensures id !in old(repo.notes) ==>
                notes == old(notes) && repo.notes == old(repo.notes) && repo.noteLinks == old(repo.noteLinks)
      ensures id in old(repo.notes) ==>
                var updated := ApplyUpdate(old(repo.notes)[id], input, now);
                && repo.notes == old(repo.notes)[id := updated]
                && repo.noteLinks == Synced(repo.notes, old(repo.noteLinks), updated)
                && notes == ReplaceById(old(notes), id, updated)
      ensures activeNoteId == old(activeNoteId) && isLoading == old(isLoading) && error == old(error)
    {
      var updated := repo.Update(id, input, now);
      if updated.Some? {
        ReplaceCached(notes, old(repo.notes), updated.value);
        notes := ReplaceById(notes, id, updated.value);
      }
    }

    /** `deleteNote(id)`: the note leaves the list, and stops being active if it was. */
    method DeleteNote(id: string)
      requires Valid()
      modifies this, repo
      ensures Valid()
      ensures repo.notes == old(repo.notes) - {id}
      ensures repo.noteLinks == WithoutId(old(repo.noteLinks), id)
      ensures notes == WithoutNote(old(notes), id)
      ensures activeNoteId == if old(activeNoteId) == Some(id) then None else old(activeNoteId)
      ensures isLoading == old(isLoading) && error == old(error)
    {
      repo.Delete(id);
      RemoveCached(notes, old(repo.notes), id);
      notes := WithoutNote(notes, id);
      activeNoteId := if activeNoteId == Some(id) then None else activeNoteId;
    }

    /** `setActiveNote(id)`: only the active note changes. */
    method SetActiveNote(id: Option<string>)
      requires Valid()
      modifies this
      ensures Valid()
      ensures activeNoteId == id
      ensures notes == old(notes) && isLoading == old(isLoading) && error == old(error)
    {
      activeNoteId := id;
    }

    /** `searchNotes(query)`: an empty query reloads every note instead of searching. The error is not reset. */
    method SearchNotes(query: string)
      requires Valid()
      modifies this
      ensures Valid()
      ensures notes == if query == "" then ByRecency(repo.notes) else SearchResult(repo.notes, query)
      ensures !isLoading && error == old(error) && activeNoteId == old(activeNoteId)
    {
      isLoading := true;
      var found;
      if query != "" {
        found := repo.Search(query);
        SearchCached(repo.notes, query);
      } else {
        found := repo.GetAll();
        ByRecencyCached(repo.notes);
      }
      notes, isLoading := found, false;
    }

    /** `clearError()`. */
    method ClearError()
      requires Valid()
      modifies this
      ensures Valid()
      ensures error == None
      ensures notes == old(notes) && activeNoteId == old(activeNoteId) && isLoading == old(isLoading)
    {
      error := None;
    }
  }
}
