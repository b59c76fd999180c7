/**
 * The tag-to-notes index that both the chapter computation and the map view
 * build: a `Map<string, string[]>` filled by walking every note's
 * `[...note.tags, ...(note.autoTags ?? [])]` and pushing the note's id once
 * per occurrence of the tag.
 */
module TagIndex {
  import opened Seqs
  import opened OrderedMaps
  import opened NoteTypes

  /** Every note's tags and auto-tags, concatenated in note order. */
  function FlatTags(notes: seq<Note>): seq<string> {
    if |notes| == 0 then [] else FlatTags(notes[..|notes| - 1]) + notes[|notes| - 1].AllTags()
  }

  /** The ids pushed for tag `t`: each note's id, once per occurrence of `t` among its tags. */
  function IdsCarrying(notes: seq<Note>, t: string): seq<string> {
    if |notes| == 0 then []
    else
      var n := notes[|notes| - 1];
      IdsCarrying(notes[..|notes| - 1], t) + Repeat(n.id, Count(n.AllTags(), t))
  }

  /** The entries of the index are exactly the occurrence lists, keyed in first-occurrence order. */
  ghost predicate IndexOf(m: OMap<string, seq<string>>, notes: seq<Note>, pending: seq<string>, id: string) {
    && m.Valid()
    && m.keys == Distinct(FlatTags(notes) + pending)
    && forall t | t in m.entries :: m.entries[t] == IdsCarrying(notes, t) + Repeat(id, Count(pending, t))
  }

  /** One step of the inner loop keeps the index in step with the tags seen so far. */
  lemma PendingStep(m: OMap<string, seq<string>>, notes: seq<Note>, tags: seq<string>, j: nat, id: string)
    requires j < |tags| && IndexOf(m, notes, tags[..j], id)
    ensures var ids := if tags[j] in m.entries then m.entries[tags[j]] else [];
            IndexOf(m.Put(tags[j], ids + [id]), notes, tags[..j + 1], id)
  {
    var tag := tags[j];
    var m' := m.Put(tag, (if tag in m.entries then m.entries[tag] else []) + [id]);
    PendingKeys(m, notes, tags, j, id);
    PendingEntries(m, notes, tags, j, id);
    assert m'.keys == Distinct(FlatTags(notes) + tags[..j + 1]);
    assert forall t | t in m'.entries :: m'.entries[t] == IdsCarrying(notes, t) + Repeat(id, Count(tags[..j + 1], t));
  }

  /** The key order after one step of the inner loop. */
  lemma PendingKeys(m: OMap<string, seq<string>>, notes: seq<Note>, tags: seq<string>, j: nat, id: string)
    requires j < |tags| && IndexOf(m, notes, tags[..j], id)
    ensures (if tags[j] in m.entries then m.keys else m.keys + [tags[j]]) == Distinct(FlatTags(notes) + tags[..j + 1])
  {
    var tag := tags[j];
    var xs := FlatTags(notes) + tags[..j];
    assert FlatTags(notes) + tags[..j + 1] == xs + [tag] by {
      assert tags[..j + 1] == tags[..j] + [tag];
    }
    DistinctSnoc(xs, tag);
  }

  /** Every tag's list after one step of the inner loop. */
  lemma PendingEntries(m: OMap<string, seq<string>>, notes: seq<Note>, tags: seq<string>, j: nat, id: string)
    requires j < |tags| && IndexOf(m, notes, tags[..j], id)
    ensures var tag := tags[j];
            var e := m.entries[tag := (if tag in m.entries then m.entries[tag] else []) + [id]];
            forall t | t in e :: e[t] == IdsCarrying(notes, t) + Repeat(id, Count(tags[..j + 1], t))
  {
    var tag := tags[j];
    var pending := tags[..j];
    assert tags[..j + 1] == pending + [tag];
    var e := m.entries[tag := (if tag in m.entries then m.entries[tag] else []) + [id]];
    if tag !in m.entries {
      NewTagUnseen(m, notes, pending, id, tag);
    }
    forall t | t in e
      ensures e[t] == IdsCarrying(notes, t) + Repeat(id, Count(pending + [tag], t))
    {
      if t == tag {
        TagEntryGrows(m.entries, notes, pending, id, tag);
      } else {
        CountSnoc(pending, tag, t);
      }
    }
  }

  /** Pushing `id` onto the list of `tag` accounts for one more pending occurrence of `tag`. */
  lemma TagEntryGrows(e: map<string, seq<string>>, notes: seq<Note>, pending: seq<string>, id: string, tag: string)
    requires forall u | u in e :: e[u] == IdsCarrying(notes, u) + Repeat(id, Count(pending, u))
    requires tag !in e ==> IdsCarrying(notes, tag) == [] && Count(pending, tag) == 0
    ensures var ids := if tag in e then e[tag] else [];
            ids + [id] == IdsCarrying(notes, tag) + Repeat(id, Count(pending + [tag], tag))
  {
    CountSnoc(pending, tag, tag);
    var c := Count(pending, tag);
    assert Repeat(id, c + 1) == Repeat(id, c) + [id];
    assert (IdsCarrying(notes, tag) + Repeat(id, c)) + [id] == IdsCarrying(notes, tag) + (Repeat(id, c) + [id]);
  }

  lemma NewTagUnseen(m: OMap<string, seq<string>>, notes: seq<Note>, pending: seq<string>, id: string, tag: string)
    requires IndexOf(m, notes, pending, id) && tag !in m.entries
    ensures IdsCarrying(notes, tag) == [] && Count(pending, tag) == 0
  {
    assert tag !in FlatTags(notes) + pending;
    CountIdsCarrying(notes, tag);
  }

  lemma {:induction false} CountIdsCarrying(notes: seq<Note>, t: string)
    ensures |IdsCarrying(notes, t)| == Count(FlatTags(notes), t)
  {
    if |notes| > 0 {
      var n := notes[|notes| - 1];
      CountIdsCarrying(notes[..|notes| - 1], t);
      CountAppend(FlatTags(notes[..|notes| - 1]), n.AllTags(), t);
    }
  }

  lemma NextNote(m: OMap<string, seq<string>>, done: seq<Note>, note: Note)
    requires IndexOf(m, done, note.AllTags(), note.id)
    ensures IndexOf(m, done + [note], [], note.id)
  {
    assert (done + [note])[..|done|] == done;
    assert FlatTags(done + [note]) + [] == FlatTags(done) + note.AllTags();
  }

  lemma IndexOfChangeId(m: OMap<string, seq<string>>, notes: seq<Note>, id: string, id': string)
    requires IndexOf(m, notes, [], id)
    ensures IndexOf(m, notes, [], id')
  {
  }

  /** The nested loop that fills `tagToNotes` in `computeChapters` and in the map view. */
  method BuildTagToNotes(notes: seq<Note>) returns (m: OMap<string, seq<string>>)
    ensures m.Valid()
    ensures m.keys == Distinct(FlatTags(notes))
    ensures forall t | t in m.entries :: m.entries[t] == IdsCarrying(notes, t)
  {
    m := Empty();
    assert notes[..0] == [];
    for i := 0 to |notes|
      invariant IndexOf(m, notes[..i], [], "")
    {
      assert notes[..i + 1] == notes[..i] + [notes[i]];
      m := IndexNote(m, notes[..i], notes[i]);
    }
    assert notes[..|notes|] == notes;
    IndexOfAll(m, notes);
  }

  /** The inner loop: push the note's id under each of its tags and auto-tags. */
  method IndexNote(m0: OMap<string, seq<string>>, done: seq<Note>, note: Note) returns (m: OMap<string, seq<string>>)
    requires IndexOf(m0, done, [], "")
    ensures IndexOf(m, done + [note], [], "")
  {
    m := m0;
    var allTags := note.AllTags();
    IndexOfChangeId(m, done, "", note.id);
    assert allTags[..0] == [];
    for j := 0 to |allTags|
      invariant IndexOf(m, done, allTags[..j], note.id)
    {
      var tag := allTags[j];
      var ids := if tag in m.entries then m.entries[tag] else [];
      PendingStep(m, done, allTags, j, note.id);
      m := m.Put(tag, ids + [note.id]);
    }
    assert allTags[..|allTags|] == allTags;
    NextNote(m, done, note);
    IndexOfChangeId(m, done + [note], note.id, "");
  }

  lemma IndexOfAll(m: OMap<string, seq<string>>, notes: seq<Note>)
    requires IndexOf(m, notes, [], "")
    ensures m.keys == Distinct(FlatTags(notes))
    ensures forall t | t in m.entries :: m.entries[t] == IdsCarrying(notes, t)
  {
    assert FlatTags(notes) + [] == FlatTags(notes);
  }

  // ---------------------------------------------------------------------------
  // Properties of the occurrence lists

  /** The list for `t` has one entry per occurrence of `t` across all `tags ++ autoTags`. */
  lemma IdsCarryingLength(notes: seq<Note>, t: string)
    ensures |IdsCarrying(notes, t)| == Count(FlatTags(notes), t)
    ensures |IdsCarrying(notes, t)| > 0 <==> t in FlatTags(notes)
  {
    CountIdsCarrying(notes, t);
  }

  /** Every id in the list for `t` is the id of a note that carries `t`. */
  lemma {:induction false} IdsCarryingMembers(notes: seq<Note>, t: string)
    ensures forall id | id in IdsCarrying(notes, t) :: exists n | n in notes :: n.id == id && t in n.AllTags()
  {
    if |notes| > 0 {
      var init := notes[..|notes| - 1];
      var n := notes[|notes| - 1];
      IdsCarryingMembers(init, t);
      forall id | id in IdsCarrying(notes, t)
        ensures exists n' | n' in notes :: n'.id == id && t in n'.AllTags()
      {
        if id in IdsCarrying(init, t) {
          var n' :| n' in init && n'.id == id && t in n'.AllTags();
          assert n' in notes;
        } else {
          RepeatMembers(n.id, Count(n.AllTags(), t), id);
          assert n in notes;
        }
      }
    }
  }

  /** A note that carries a tag both as a user tag and as an auto-tag is listed twice under it. */
  lemma CarriedTwiceListedTwice(n: Note, t: string)
    requires n.tags == [t] && n.autoTags == Results.Some([t])
    ensures IdsCarrying([n], t) == [n.id, n.id]
  {
    assert [n][..0] == [];
    assert n.AllTags() == [t, t];
    assert Count([t, t], t) == 2 by {
      assert [t, t][..1] == [t];
      assert [t][..0] == [];
    }
    assert Repeat(n.id, 2) == [n.id, n.id] by {
      assert Repeat(n.id, 1) == [n.id];
    }
  }

  lemma {:induction false} FlatTagsMembers(notes: seq<Note>, t: string)
    ensures t in FlatTags(notes) <==> exists n | n in notes :: t in n.AllTags()
  {
    if |notes| > 0 {
      var init := notes[..|notes| - 1];
      FlatTagsMembers(init, t);
      assert notes == init + [notes[|notes| - 1]];
    }
  }
  /** The list for a run of notes followed by another is the two lists one after the other. */
  lemma {:induction false} IdsCarryingAppend(a: seq<Note>, b: seq<Note>, t: string)
    ensures IdsCarrying(a + b, t) == IdsCarrying(a, t) + IdsCarrying(b, t)
    decreases |b|
  {
    if |b| == 0 {
      assert a + b == a;
    } else {
      IdsCarryingAppend(a, b[..|b| - 1], t);
      IdsCarryingAppendStep(a, b, t);
    }
  }

  /** The inductive step of `IdsCarryingAppend`: one more note at the end of `b`. */
  lemma IdsCarryingAppendStep(a: seq<Note>, b: seq<Note>, t: string)
    requires |b| > 0
    requires IdsCarrying(a + b[..|b| - 1], t) == IdsCarrying(a, t) + IdsCarrying(b[..|b| - 1], t)
    ensures IdsCarrying(a + b, t) == IdsCarrying(a, t) + IdsCarrying(b, t)
  {
    var init, last := b[..|b| - 1], b[|b| - 1];
    var x, y, r := IdsCarrying(a, t), IdsCarrying(init, t), Repeat(last.id, Count(last.AllTags(), t));
    assert IdsCarrying(a + b, t) == IdsCarrying(a + init, t) + r by {
      assert (a + b)[..|a + b| - 1] == a + init;
      assert (a + b)[|a + b| - 1] == last;
    }
    AppendAssoc(x, y, r);
  }

  /** Every note that carries `t` has its id in the list for `t`. */
  lemma {:induction false} IdsCarryingComplete(notes: seq<Note>, n: Note, t: string)
    requires n in notes && t in n.AllTags()
    ensures n.id in IdsCarrying(notes, t)
  {
    var init := notes[..|notes| - 1];
    var last := notes[|notes| - 1];
    if n == last {
      var c := Count(n.AllTags(), t);
      assert Repeat(n.id, c) == Repeat(n.id, c - 1) + [n.id];
    } else {
      assert notes == init + [last];
      IdsCarryingComplete(init, n, t);
    }
  }

  /**
   * Two notes at positions `p < q` that both carry `t` appear in that order,
   * at two different positions, in the list for `t`.
   */
  lemma IdsCarryingPositions(notes: seq<Note>, p: nat, q: nat, t: string)
    requires p < q < |notes| && t in notes[p].AllTags() && t in notes[q].AllTags()
    ensures var ids := IdsCarrying(notes, t);
            exists i, j | 0 <= i < j < |ids| :: ids[i] == notes[p].id && ids[j] == notes[q].id
  {
    var head := IdsCarrying(notes[..q], t);
    IdsCarryingSplitAt(notes, q, t);
    assert notes[p] in notes[..q] by {
      assert notes[..q][p] == notes[p];
    }
    IdsCarryingComplete(notes[..q], notes[p], t);
    var i :| 0 <= i < |head| && head[i] == notes[p].id;
    assert IdsCarrying(notes, t)[i] == head[i];
  }

  /** The list for `notes` starts with the list for the notes before `q`, followed by `notes[q]`'s id when it carries `t`. */
  lemma IdsCarryingSplitAt(notes: seq<Note>, q: nat, t: string)
    requires q < |notes|
    ensures var ids, head := IdsCarrying(notes, t), IdsCarrying(notes[..q], t);
            && |head| <= |ids| && ids[..|head|] == head
            && (t in notes[q].AllTags() ==> |head| < |ids| && ids[|head|] == notes[q].id)
  {
    var before, m, after := notes[..q], notes[q], notes[q + 1..];
    assert notes == before + ([m] + after);
    IdsCarryingAppend(before, [m] + after, t);
    IdsCarryingAppend([m], after, t);
    assert [m][..0] == [];
    var c := Count(m.AllTags(), t);
    var mine := Repeat(m.id, c);
    assert IdsCarrying([m], t) == mine;
    if t in m.AllTags() {
      assert mine[0] in mine;
      RepeatMembers(m.id, c, mine[0]);
    }
  }
}
