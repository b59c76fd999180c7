/**
 * The shelf's bulk selection: a set of selected note ids (a JavaScript `Set`,
 * so iteration follows insertion order), a selection mode, and the actions
 * that toggle one id, select or clear all, prune ids whose notes are gone and
 * delete every selected note through the note store.
 */
module NoteList {
  import opened Results
  import opened Seqs
  import opened NoteTypes
  import opened NoteService
  import opened NoteStore

  // ---------------------------------------------------------------------------
  // Selections as values: duplicate-free sequences in insertion order

  /** `toggleSelect(id, checked)`: `next.add(id)` or `next.delete(id)` on a copy. */
  function Toggle(sel: seq<string>, id: string, checked: bool): seq<string> {
    if checked then (if id in sel then sel else sel + [id])
    else Filter(sel, (x: string) => x != id)
  }

  /** `handleSelectAll`: clear when the selection is as large as the list, else select every id. */
  function SelectAll(sel: seq<string>, allIds: seq<string>): seq<string> {
    if |sel| == |allIds| then [] else Distinct(allIds)
  }

  /** The prune effect: keep only the ids that still name a note. */
  function Prune(sel: seq<string>, allIds: seq<string>): seq<string> {
    if |sel| == 0 then sel else Filter(sel, (id: string) => id in allIds)
  }

  /** The notes left after deleting the ids `ids`, one at a time, from the list `ns`. */
  function WithoutAll(ns: seq<Note>, ids: seq<string>): seq<Note> {
    if |ids| == 0 then ns else WithoutNote(WithoutAll(ns, ids[..|ids| - 1]), ids[|ids| - 1])
  }

  /** The active note after deleting the ids `ids`: cleared exactly when it is one of them. */
  function ActiveAfter(active: Option<string>, ids: seq<string>): Option<string> {
    if active.Some? && active.value in ids then None else active
  }

  /** The link table after deleting the notes `ids`: exactly the links with neither end among them. */
  function WithoutIds(t: LinkTable, ids: set<string>): LinkTable {
    map k | k in t && t[k].sourceId !in ids && t[k].targetId !in ids :: t[k]
  }

  // ---------------------------------------------------------------------------
  // Properties

  /** Checking adds `id` at the end if absent; unchecking removes it; no other id changes. */
  lemma ToggleSpec(sel: seq<string>, id: string, checked: bool)
    requires NoDups(sel)
    ensures NoDups(Toggle(sel, id, checked))
    ensures forall x :: x in Toggle(sel, id, checked) <==> (x == id && checked) || (x != id && x in sel)
    ensures checked ==> sel <= Toggle(sel, id, checked)
    ensures !checked ==> IsSubsequence(Toggle(sel, id, checked), sel)
  {
    if !checked {
      FilterNoDups(sel, (x: string) => x != id);
      FilterIsSubsequence(sel, (x: string) => x != id);
    }
  }

  /** Checking the same id twice, or unchecking it twice, is the same as doing it once. */
  lemma ToggleIdempotent(sel: seq<string>, id: string, checked: bool)
    ensures Toggle(Toggle(sel, id, checked), id, checked) == Toggle(sel, id, checked)
  {
    if !checked {
      var r := Toggle(sel, id, false);
      FilterAll(r, (x: string) => x != id);
    }
  }

  /** A subset of a duplicate-free list that is just as large holds every element of it. */
  lemma {:induction false} SameSizeSubsetIsAll(sel: seq<string>, allIds: seq<string>)
    requires NoDups(sel) && NoDups(allIds)
    requires forall x | x in sel :: x in allIds
    ensures |sel| == |allIds| <==> forall x | x in allIds :: x in sel
  {
    var a, b := Elements(sel), Elements(allIds);
    ElementsCard(sel);
    ElementsCard(allIds);
    assert a <= b;
    if |sel| == |allIds| {
      assert |b - a| == 0 by {
        assert |b| == |a| + |b - a|;
      }
      forall x | x in allIds ensures x in sel {
        assert x in b;
      }
    }
    if forall x | x in allIds :: x in sel {
      assert a == b;
    }
  }

  /** The elements of a duplicate-free list are as many as its length. */
  lemma {:induction false} ElementsCard(s: seq<string>)
    requires NoDups(s)
    ensures |Elements(s)| == |s|
  {
    if |s| > 0 {
      var init := s[..|s| - 1];
      assert NoDups(init);
      ElementsCard(init);
      assert s == init + [s[|s| - 1]];
      assert Elements(s) == Elements(init) + {s[|s| - 1]};
    }
  }

  /**
   * When the selection only holds ids of listed notes, select-all clears it
   * exactly when every note is selected, and otherwise selects every note.
   */
  lemma SelectAllSpec(sel: seq<string>, allIds: seq<string>)
    requires NoDups(sel) && NoDups(allIds)
    requires forall x | x in sel :: x in allIds
    ensures (forall x | x in allIds :: x in sel) ==> SelectAll(sel, allIds) == []
    ensures (exists x | x in allIds :: x !in sel) ==> SelectAll(sel, allIds) == allIds
  {
    SameSizeSubsetIsAll(sel, allIds);
    DistinctOfNoDups(allIds);
  }

  /** After pruning, the selection only holds ids of listed notes, in the same order, and nothing listed is lost. */
  lemma PruneSpec(sel: seq<string>, allIds: seq<string>)
    requires NoDups(sel)
    ensures forall x | x in Prune(sel, allIds) :: x in allIds
    ensures forall x | x in sel && x in allIds :: x in Prune(sel, allIds)
    ensures IsSubsequence(Prune(sel, allIds), sel) && NoDups(Prune(sel, allIds))
    ensures Prune(Prune(sel, allIds), allIds) == Prune(sel, allIds)
  {
    if |sel| > 0 {
      var p := (id: string) => id in allIds;
      FilterNoDups(sel, p);
      FilterIsSubsequence(sel, p);
      var r := Filter(sel, p);
      if |r| > 0 {
        FilterAll(r, p);
      }
    } else {
      assert IsSubsequence(sel, sel);
    }
  }

  /** Deleting the ids one at a time leaves exactly the listed notes whose id is not among them. */
  lemma {:induction false} WithoutAllMembers(ns: seq<Note>, ids: seq<string>, n: Note)
    ensures n in WithoutAll(ns, ids) <==> n in ns && n.id !in ids
  {
    if |ids| > 0 {
      var init := ids[..|ids| - 1];
      WithoutAllMembers(ns, init, n);
      WithoutNoteSpec(WithoutAll(ns, init), ids[|ids| - 1]);
      assert ids == init + [ids[|ids| - 1]];
    }
  }

  /** Deleting one more note purges its links from what the earlier deletes left. */
  lemma WithoutIdsSnoc(t: LinkTable, ids: seq<string>, k: nat)
    requires k < |ids|
    ensures WithoutIds(t, Elements(ids[..k + 1])) == WithoutId(WithoutIds(t, Elements(ids[..k])), ids[k])
  {
    ElementsPrefixStep(ids, k);
  }

  lemma WithoutAllSnoc(ns: seq<Note>, ids: seq<string>, k: nat)
    requires k < |ids|
    ensures WithoutAll(ns, ids[..k + 1]) == WithoutNote(WithoutAll(ns, ids[..k]), ids[k])
  {
    assert ids[..k + 1][..k] == ids[..k];
  }

  lemma ActiveAfterSnoc(active: Option<string>, ids: seq<string>, k: nat)
    requires k < |ids|
    ensures ActiveAfter(active, ids[..k + 1]) ==
              var a := ActiveAfter(active, ids[..k]); if a == Some(ids[k]) then None else a
  {
    assert ids[..k + 1] == ids[..k] + [ids[k]];
  }

  // ---------------------------------------------------------------------------
  // The component's state

  class Shelf {
    var selectedIds: seq<string>
    var selectionMode: bool
    /** The note store whose `notes` the shelf lists and whose `deleteNote` it calls. */
    const store: Store

    ghost predicate Valid()
      reads this, store, store.repo
    {
      store.Valid() && NoDups(selectedIds)
    }

    /** `allNoteIds`. */
    function AllNoteIds(): seq<string>
      reads this, store
    {
      Ids(store.notes)
    }

    /** Nothing selected, selection mode off. */
    constructor (store: Store)
      requires store.Valid()
      ensures Valid() && this.store == store
      ensures selectedIds == [] && !selectionMode
    {
      this.store := store;
      selectedIds := [];
      selectionMode := false;
    }

    method ToggleSelect(id: string, checked: bool)
      requires Valid()
      modifies this
      ensures Valid()
      ensures selectedIds == Toggle(old(selectedIds), id, checked)
      ensures selectionMode == old(selectionMode)
    {
      ToggleSpec(selectedIds, id, checked);
      if checked {
        if id !in selectedIds {
          selectedIds := selectedIds + [id];
        }
      } else {
        selectedIds := Filter(selectedIds, (x: string) => x != id);
      }
    }

    method HandleSelectAll()
      requires Valid()
      modifies this
      ensures Valid()
      ensures selectedIds == SelectAll(old(selectedIds), AllNoteIds())
      ensures selectionMode == old(selectionMode)
    {
      if |selectedIds| == |store.notes| {
        selectedIds := [];
        return;
      }
      selectedIds := Distinct(AllNoteIds());
    }

    /** Leaving selection mode empties the selection; entering it keeps the selection. */
    method HandleToggleSelectionMode()
      requires Valid()
      modifies this
      ensures Valid()
      ensures selectionMode == !old(selectionMode)
      ensures selectedIds == if selectionMode then old(selectedIds) else []
    {
      var next := !selectionMode;
      if !next {
        selectedIds := [];
      }
      selectionMode := next;
    }

    /** The effect that runs when the list of notes changes. */
    method PruneSelection()
      requires Valid()
      modifies this
      ensures Valid()
      ensures selectedIds == Prune(old(selectedIds), AllNoteIds())
      ensures selectionMode == old(selectionMode)
    {
      PruneSpec(selectedIds, AllNoteIds());
      if |selectedIds| == 0 {
        return;
      }
      var noteIdSet := AllNoteIds();
      selectedIds := Filter(selectedIds, (id: string) => id in noteIdSet);
    }

    /**
     * `handleDeleteSelected`: nothing unless something is selected and the
     * user confirms; then every selected note is deleted, in selection
     * order, and the selection is emptied.
     */
    method HandleDeleteSelected(confirmed: bool)
      requires Valid()
      modifies this, store, store.repo
      ensures Valid()
      ensures selectionMode == old(selectionMode)
      ensures |old(selectedIds)| == 0 || !confirmed ==>
                && selectedIds == old(selectedIds) && store.notes == old(store.notes)
                && store.repo.notes == old(store.repo.notes) && store.repo.noteLinks == old(store.repo.noteLinks)
                && store.activeNoteId == old(store.activeNoteId)
      ensures |old(selectedIds)| > 0 && confirmed ==>
                && selectedIds == []
                && store.repo.notes == old(store.repo.notes) - Elements(old(selectedIds))
                && store.repo.noteLinks == WithoutIds(old(store.repo.noteLinks), Elements(old(selectedIds)))
                && store.notes == WithoutAll(old(store.notes), old(selectedIds))
                && store.activeNoteId == ActiveAfter(old(store.activeNoteId), old(selectedIds))
      ensures store.isLoading == old(store.isLoading) && store.error == old(store.error)
    {
      if |selectedIds| == 0 {
        return;
      }
      if !confirmed {
        return;
      }
      var ids := selectedIds;
      assert ids[..0] == [];
      for k := 0 to |ids|
        invariant store.Valid() && selectedIds == ids && selectionMode == old(selectionMode)
        invariant store.repo.notes == old(store.repo.notes) - Elements(ids[..k])
        invariant store.repo.noteLinks == WithoutIds(old(store.repo.noteLinks), Elements(ids[..k]))
        invariant store.notes == WithoutAll(old(store.notes), ids[..k])
        invariant store.activeNoteId == ActiveAfter(old(store.activeNoteId), ids[..k])
        invariant store.isLoading == old(store.isLoading) && store.error == old(store.error)
      {
        WithoutAllSnoc(old(store.notes), ids, k);
        ActiveAfterSnoc(old(store.activeNoteId), ids, k);
        ElementsPrefixStep(ids, k);
        WithoutIdsSnoc(old(store.repo.noteLinks), ids, k);
        store.DeleteNote(ids[k]);
      }
      assert ids[..|ids|] == ids;
      selectedIds := [];
    }
  }
}
