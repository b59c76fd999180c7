/**
 * The sidebar's "groupings" tab: notes grouped under each of their user
 * tags, tags in sorted order, with the untagged notes listed apart.
 */
module TagGroupList {
  import opened Seqs
  import opened Sorting
  import opened OrderedMaps
  import opened NoteTypes

  /** Every note's user tags, concatenated in note order (auto-tags play no part here). */
  function UserTags(notes: seq<Note>): seq<string> {
    if |notes| == 0 then [] else UserTags(notes[..|notes| - 1]) + notes[|notes| - 1].tags
  }

  predicate IsUntagged(n: Note) {
    |n.tags| == 0
  }

  /** The notes pushed onto `untagged`, in input order. */
  function Untagged(notes: seq<Note>): seq<Note> {
    Filter(notes, IsUntagged)
  }

  /** The notes pushed under tag `t`: each note once per occurrence of `t` among its user tags. */
  function Carrying(notes: seq<Note>, t: string): seq<Note> {
    if |notes| == 0 then []
    else
      var n := notes[|notes| - 1];
      Carrying(notes[..|notes| - 1], t) + Repeat(n, Count(n.tags, t))
  }

  /** The map holds, for every user tag seen in `notes`, the notes carrying it, keyed in first-occurrence order. */
  ghost predicate GroupsOf(m: OMap<string, seq<Note>>, notes: seq<Note>) {
    && m.Valid()
    && m.keys == Distinct(UserTags(notes))
    && forall t | t in m.entries :: m.entries[t] == Carrying(notes, t)
  }

  /** As `GroupsOf`, part way through `note`'s first `j` tags. */
  ghost predicate GroupsPending(m: OMap<string, seq<Note>>, done: seq<Note>, note: Note, j: nat) {
    && j <= |note.tags|
    && m.Valid()
    && m.keys == Distinct(UserTags(done) + note.tags[..j])
    && forall t | t in m.entries :: m.entries[t] == Carrying(done, t) + Repeat(note, Count(note.tags[..j], t))
  }

  lemma StartNote(m: OMap<string, seq<Note>>, done: seq<Note>, note: Note)
    requires GroupsOf(m, done)
    ensures GroupsPending(m, done, note, 0)
  {
    assert note.tags[..0] == [];
    assert UserTags(done) + [] == UserTags(done);
  }

  lemma FinishNote(m: OMap<string, seq<Note>>, done: seq<Note>, note: Note)
    requires GroupsPending(m, done, note, |note.tags|)
    ensures GroupsOf(m, done + [note])
  {
    assert note.tags[..|note.tags|] == note.tags;
    assert (done + [note])[..|done|] == done;
  }

  lemma NewTagUnseen(m: OMap<string, seq<Note>>, done: seq<Note>, note: Note, j: nat, tag: string)
    requires GroupsPending(m, done, note, j) && tag !in m.entries
    ensures Carrying(done, tag) == [] && Count(note.tags[..j], tag) == 0
  {
    assert tag !in UserTags(done) + note.tags[..j];
    CarryingLength(done, tag);
  }

  /** Pushing the note under its `j`-th tag gives the earlier carriers plus one more copy of the note. */
  lemma TagEntryGrows(existing: seq<Note>, before: seq<Note>, note: Note, j: nat)
    requires j < |note.tags| && existing == before + Repeat(note, Count(note.tags[..j], note.tags[j]))
    ensures existing + [note] == before + Repeat(note, Count(note.tags[..j + 1], note.tags[j]))
  {
    RepeatCountSnoc(note, note.tags, j);
  }

  /** The list under a tag part way through a note, whether or not the tag was seen before. */
  lemma TagEntryNow(m: OMap<string, seq<Note>>, done: seq<Note>, note: Note, j: nat, tag: string)
    requires GroupsPending(m, done, note, j)
    ensures (if tag in m.entries then m.entries[tag] else []) == Carrying(done, tag) + Repeat(note, Count(note.tags[..j], tag))
  {
    if tag !in m.entries {
      NewTagUnseen(m, done, note, j, tag);
    }
  }

  /** One more occurrence of a tag adds one more copy of the note. */
  lemma RepeatCountSnoc(note: Note, tags: seq<string>, j: nat)
    requires j < |tags|
    ensures Repeat(note, Count(tags[..j + 1], tags[j])) == Repeat(note, Count(tags[..j], tags[j])) + [note]
  {
    assert tags[..j + 1] == tags[..j] + [tags[j]];
    CountSnoc(tags[..j], tags[j], tags[j]);
  }

  /** The list the inner loop stores under the note's `j`-th tag. */
  function Pushed(m: OMap<string, seq<Note>>, note: Note, j: nat): seq<Note>
    requires j < |note.tags|
  {
    (if note.tags[j] in m.entries then m.entries[note.tags[j]] else []) + [note]
  }

  /** One step of the inner loop keeps the key order in step with the tags seen. */
  lemma PushKeys(m: OMap<string, seq<Note>>, done: seq<Note>, note: Note, j: nat)
    requires GroupsPending(m, done, note, j) && j < |note.tags|
    ensures m.Put(note.tags[j], Pushed(m, note, j)).keys == Distinct(UserTags(done) + note.tags[..j + 1])
  {
    var xs := UserTags(done) + note.tags[..j];
    PrefixSnoc(note.tags, j);
    assert UserTags(done) + note.tags[..j + 1] == xs + [note.tags[j]];
    DistinctSnoc(xs, note.tags[j]);
  }

  /** One step of the inner loop keeps every tag's list in step. */
  lemma PushEntries(m: OMap<string, seq<Note>>, done: seq<Note>, note: Note, j: nat)
    requires GroupsPending(m, done, note, j) && j < |note.tags|
    ensures var e := m.Put(note.tags[j], Pushed(m, note, j)).entries;
            forall t | t in e :: e[t] == Carrying(done, t) + Repeat(note, Count(note.tags[..j + 1], t))
  {
    var tag := note.tags[j];
    var e := m.Put(tag, Pushed(m, note, j)).entries;
    TagEntryNow(m, done, note, j, tag);
    TagEntryGrows(if tag in m.entries then m.entries[tag] else [], Carrying(done, tag), note, j);
    PrefixSnoc(note.tags, j);
    forall t | t in e
      ensures e[t] == Carrying(done, t) + Repeat(note, Count(note.tags[..j + 1], t))
    {
      CountSnoc(note.tags[..j], tag, t);
    }
  }

  /** One step of the inner loop: push the note under its next tag. */
  method PushUnder(m0: OMap<string, seq<Note>>, done: seq<Note>, note: Note, j: nat) returns (m: OMap<string, seq<Note>>)
    requires GroupsPending(m0, done, note, j) && j < |note.tags|
    ensures GroupsPending(m, done, note, j + 1)
  {
    var tag := note.tags[j];
    var existing := if tag in m0.entries then m0.entries[tag] else [];
    PushKeys(m0, done, note, j);
    PushEntries(m0, done, note, j);
    m := m0.Put(tag, existing + [note]);
  }

  /** An untagged note changes no group. */
  lemma SkipUntagged(m: OMap<string, seq<Note>>, done: seq<Note>, note: Note)
    requires GroupsOf(m, done) && IsUntagged(note)
    ensures GroupsOf(m, done + [note])
  {
    assert (done + [note])[..|done|] == done;
    assert UserTags(done + [note]) == UserTags(done);
  }

  /** The loop over the notes: untagged notes are set aside, the others pushed under each user tag. */
  method GroupNotes(notes: seq<Note>) returns (tagMap: OMap<string, seq<Note>>, untagged: seq<Note>)
    ensures GroupsOf(tagMap, notes)
    ensures untagged == Untagged(notes)
  {
    tagMap, untagged := Empty(), [];
    assert notes[..0] == [];
    for i := 0 to |notes|
      invariant GroupsOf(tagMap, notes[..i])
      invariant untagged == Untagged(notes[..i])
    {
      var note := notes[i];
      assert notes[..i + 1] == notes[..i] + [note];
      FilterSnoc(notes[..i], note, IsUntagged);
      if |note.tags| == 0 {
        SkipUntagged(tagMap, notes[..i], note);
        untagged := untagged + [note];
        continue;
      }
      tagMap := GroupNote(tagMap, notes[..i], note);
    }
    assert notes[..|notes|] == notes;
  }

  /** The inner loop: push the note under each of its user tags. */
  method GroupNote(m0: OMap<string, seq<Note>>, done: seq<Note>, note: Note) returns (m: OMap<string, seq<Note>>)
    requires GroupsOf(m0, done)
    ensures GroupsOf(m, done + [note])
  {
    m := m0;
    StartNote(m, done, note);
    for j := 0 to |note.tags|
      invariant GroupsPending(m, done, note, j)
    {
      m := PushUnder(m, done, note, j);
    }
    FinishNote(m, done, note);
  }

  // ---------------------------------------------------------------------------
  // What is shown

  datatype Group = Group(tag: string, notes: seq<Note>)

  datatype Listing =
    | Spinner
    | NoNotesYet
    | NoGroupingsYet
    | Grouped(untagged: seq<Note>, groups: seq<Group>)

  /** The group tags, sorted. */
  function GroupTags(notes: seq<Note>): seq<string> {
    SortStrings(Distinct(UserTags(notes)))
  }

  function GroupsFor(notes: seq<Note>, tags: seq<string>): (r: seq<Group>)
    ensures |r| == |tags|
    ensures forall i | 0 <= i < |tags| :: r[i] == Group(tags[i], Carrying(notes, tags[i]))
  {
    seq(|tags|, i requires 0 <= i < |tags| => Group(tags[i], Carrying(notes, tags[i])))
  }

  /** The component's output for the store's notes and loading flag. */
  function ListingOf(notes: seq<Note>, isLoading: bool): Listing {
    if isLoading then Spinner
    else if |notes| == 0 then NoNotesYet
    else if |GroupTags(notes)| == 0 then NoGroupingsYet
    else Grouped(Untagged(notes), GroupsFor(notes, GroupTags(notes)))
  }

  /** The groups read back from the map, in the order of `tags`. */
  function GroupsFromMap(m: OMap<string, seq<Note>>, tags: seq<string>): (r: seq<Group>)
    requires forall i | 0 <= i < |tags| :: tags[i] in m.entries
  {
    seq(|tags|, i requires 0 <= i < |tags| => Group(tags[i], m.entries[tags[i]]))
  }

  lemma SortedKeysInMap(m: OMap<string, seq<Note>>, notes: seq<Note>)
    requires GroupsOf(m, notes)
    ensures SortStrings(m.keys) == GroupTags(notes)
    ensures forall i | 0 <= i < |GroupTags(notes)| :: GroupTags(notes)[i] in m.entries
  {
    var ts := GroupTags(notes);
    forall i | 0 <= i < |ts| ensures ts[i] in m.entries {
      assert ts[i] in multiset(m.keys);
    }
  }

  lemma GroupsFromMapSpec(m: OMap<string, seq<Note>>, notes: seq<Note>)
    requires GroupsOf(m, notes)
    ensures forall i | 0 <= i < |GroupTags(notes)| :: GroupTags(notes)[i] in m.entries
    ensures GroupsFromMap(m, GroupTags(notes)) == GroupsFor(notes, GroupTags(notes))
  {
    SortedKeysInMap(m, notes);
  }

  /** `TagGroupList()`: the spinner, the empty states, or the untagged list and the groups. */
  method Render(notes: seq<Note>, isLoading: bool) returns (v: Listing)
    ensures v == ListingOf(notes, isLoading)
  {
    if isLoading {
      return Spinner;
    }
    if |notes| == 0 {
      return NoNotesYet;
    }
    var tagMap, untagged := GroupNotes(notes);
    var sortedTags := SortStrings(tagMap.keys);
    if |sortedTags| == 0 {
      return NoGroupingsYet;
    }
    SortedKeysInMap(tagMap, notes);
    GroupsFromMapSpec(tagMap, notes);
    var groups := GroupsFromMap(tagMap, sortedTags);
    return Grouped(untagged, groups);
  }

  // ---------------------------------------------------------------------------
  // Properties

  lemma {:induction false} CarryingLength(notes: seq<Note>, t: string)
    ensures |Carrying(notes, t)| == Count(UserTags(notes), t)
  {
    if |notes| > 0 {
      var n := notes[|notes| - 1];
      CarryingLength(notes[..|notes| - 1], t);
      CountAppend(UserTags(notes[..|notes| - 1]), n.tags, t);
    }
  }

  /** A tag names a group exactly when some note carries it as a user tag. */
  lemma {:induction false} UserTagsMembers(notes: seq<Note>, t: string)
    ensures t in UserTags(notes) <==> exists n | n in notes :: t in n.tags
  {
    if |notes| > 0 {
      var init := notes[..|notes| - 1];
      UserTagsMembers(init, t);
      assert notes == init + [notes[|notes| - 1]];
    }
  }

  /** The group of `t` lists exactly the notes carrying `t` as a user tag, once per occurrence. */
  lemma {:induction false} CarryingSpec(notes: seq<Note>, t: string)
    ensures forall n :: n in Carrying(notes, t) <==> n in notes && t in n.tags
    ensures |Carrying(notes, t)| == Count(UserTags(notes), t)
  {
    CarryingLength(notes, t);
    if |notes| > 0 {
      var init := notes[..|notes| - 1];
      var last := notes[|notes| - 1];
      CarryingSpec(init, t);
      assert notes == init + [last];
      forall n ensures n in Carrying(notes, t) <==> n in notes && t in n.tags {
        if n in Repeat(last, Count(last.tags, t)) {
          RepeatMembers(last, Count(last.tags, t), n);
        }
        if n == last && t in n.tags {
          assert n in Repeat(last, Count(last.tags, t));
        }
      }
    }
  }

  /** When no note repeats a tag, the group of `t` is the notes carrying `t`, in input order. */
  lemma {:induction false} CarryingIsFilter(notes: seq<Note>, t: string)
    requires forall i | 0 <= i < |notes| :: NoDups(notes[i].tags)
    ensures Carrying(notes, t) == Filter(notes, (n: Note) => t in n.tags)
  {
    if |notes| > 0 {
      var init := notes[..|notes| - 1];
      var last := notes[|notes| - 1];
      CarryingIsFilter(init, t);
      assert notes == init + [last];
      FilterSnoc(init, last, (n: Note) => t in n.tags);
      if t in last.tags {
        CountNoDups(last.tags, t);
        assert Repeat(last, 1) == [last];
      }
    }
  }

  /** The untagged list holds exactly the notes without user tags, in input order; none of them is in any group. */
  lemma UntaggedSpec(notes: seq<Note>, t: string)
    ensures forall n :: n in Untagged(notes) <==> n in notes && |n.tags| == 0
    ensures IsSubsequence(Untagged(notes), notes)
    ensures forall n | n in Untagged(notes) :: n !in Carrying(notes, t)
  {
    FilterIsSubsequence(notes, IsUntagged);
    CarryingSpec(notes, t);
  }

  /** The group tags are sorted, distinct, and exactly the user tags some note carries. */
  lemma GroupTagsSpec(notes: seq<Note>)
    ensures SortedAsc(GroupTags(notes))
    ensures NoDups(GroupTags(notes))
    ensures forall t :: t in GroupTags(notes) <==> exists n | n in notes :: t in n.tags
  {
    var d := Distinct(UserTags(notes));
    PermutationKeepsNoDups(d, GroupTags(notes));
    forall t ensures t in GroupTags(notes) <==> exists n | n in notes :: t in n.tags {
      assert t in GroupTags(notes) <==> t in multiset(d);
      UserTagsMembers(notes, t);
    }
  }

  /** "No tag groupings yet" is shown exactly when there are notes and none has a user tag. */
  lemma NoGroupingsIff(notes: seq<Note>, isLoading: bool)
    ensures ListingOf(notes, isLoading) == NoGroupingsYet <==>
              !isLoading && |notes| > 0 && forall i | 0 <= i < |notes| :: |notes[i].tags| == 0
  {
    GroupTagsSpec(notes);
    forall i | 0 <= i < |notes| && |notes[i].tags| > 0 ensures |GroupTags(notes)| > 0 {
      assert notes[i].tags[0] in GroupTags(notes);
    }
    if |GroupTags(notes)| > 0 {
      var t := GroupTags(notes)[0];
      assert t in GroupTags(notes);
      var n :| n in notes && t in n.tags;
      var i :| 0 <= i < |notes| && notes[i] == n;
      assert |notes[i].tags| > 0;
    }
  }
}
