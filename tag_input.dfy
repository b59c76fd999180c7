/**
 * The tag editor under a note's title: the note's tags plus the text being
 * typed. Enter or a comma commits the text as a tag; Backspace on an empty
 * field removes the last tag.
 */
module TagInput {
  import opened Strings
  import opened Seqs
  import opened AiService

  /** `addTag(value)`: the trimmed, lower-cased value is appended unless it is empty or already present. */
  function AddTag(tags: seq<string>, value: string): seq<string> {
    var tag := NormalizeTag(value);
    if tag != "" && tag !in tags then tags + [tag] else tags
  }

  /** `removeTag(t)`: `tags.filter((x) => x !== t)`. */
  function RemoveTag(tags: seq<string>, t: string): seq<string> {
    Filter(tags, x => x != t)
  }

  /**
   * Adding keeps every existing tag in place and at most appends one: the
   * normalised value, exactly when it is non-empty and new. A list without
   * duplicates stays so, and the added tag is lower case with no space at its ends.
   */
  lemma AddTagSpec(tags: seq<string>, value: string)
    ensures |tags| <= |AddTag(tags, value)| <= |tags| + 1
    ensures AddTag(tags, value)[..|tags|] == tags
    ensures forall x :: x in AddTag(tags, value) <==> x in tags || (x == NormalizeTag(value) && !AllSpace(value))
    ensures NoDups(tags) ==> NoDups(AddTag(tags, value))
    ensures |AddTag(tags, value)| == |tags| + 1 ==> IsNormalTag(AddTag(tags, value)[|tags|])
  {
    var tag := NormalizeTag(value);
    TrimEmptyIff(value);
    assert tag == "" <==> Trim(value) == "";
    NormalizeTagIsNormal(value);
  }

  /** Adding the same value twice gives the list adding it once gives. */
  lemma AddTagIdempotent(tags: seq<string>, value: string)
    ensures AddTag(AddTag(tags, value), value) == AddTag(tags, value)
  {
  }

  /**
   * Removing drops every occurrence of the tag and keeps the others in order;
   * removing a tag that is not there changes nothing.
   */
  lemma RemoveTagSpec(tags: seq<string>, t: string)
    ensures forall x :: x in RemoveTag(tags, t) <==> x in tags && x != t
    ensures IsSubsequence(RemoveTag(tags, t), tags)
    ensures t !in tags ==> RemoveTag(tags, t) == tags
    ensures NoDups(tags) ==> NoDups(RemoveTag(tags, t))
  {
    FilterIsSubsequence(tags, x => x != t);
    if t !in tags {
      FilterAll(tags, x => x != t);
    }
    if NoDups(tags) {
      FilterNoDups(tags, x => x != t);
    }
  }

  /** On a list without duplicates, removing the last tag drops exactly the last position. */
  lemma RemoveLastTag(tags: seq<string>)
    requires NoDups(tags) && |tags| > 0
    ensures RemoveTag(tags, tags[|tags| - 1]) == tags[..|tags| - 1]
  {
    var last := tags[|tags| - 1];
    var init := tags[..|tags| - 1];
    assert tags == init + [last];
    FilterSnoc(init, last, x => x != last);
    assert forall i | 0 <= i < |init| :: init[i] != last by {
      assert forall i | 0 <= i < |init| :: init[i] == tags[i];
    }
    FilterAll(init, x => x != last);
  }

  /** The editor's state: the tags the note holds and the text in the field. */
  class Editor {
    var tags: seq<string>
    var input: string

    constructor (tags: seq<string>)
      ensures this.tags == tags && input == ""
    {
      this.tags := tags;
      input := "";
    }

    /** Typing into the field. */
    method SetInput(value: string)
      modifies this
      ensures input == value && tags == old(tags)
    {
      input := value;
    }

    /** `addTag(value)`: the field is cleared whether or not a tag was added. */
    method Add(value: string)
      modifies this
      ensures tags == AddTag(old(tags), value) && input == ""
      ensures NoDups(old(tags)) ==> NoDups(tags)
    {
      AddTagSpec(tags, value);
      tags, input := AddTag(tags, value), "";
    }

    /** `removeTag(t)`: the field is left alone. */
    method Remove(t: string)
      modifies this
      ensures tags == RemoveTag(old(tags), t) && input == old(input)
      ensures NoDups(old(tags)) ==> NoDups(tags)
    {
      RemoveTagSpec(tags, t);
      tags := RemoveTag(tags, t);
    }

    /** `handleKeyDown(e)`: Enter and comma commit the field; Backspace on an empty field removes the last tag. */
    method HandleKeyDown(key: string)
      modifies this
      ensures key == "Enter" || key == "," ==> tags == AddTag(old(tags), old(input)) && input == ""
      ensures key == "Backspace" && old(input) == "" && |old(tags)| > 0 ==>
                tags == RemoveTag(old(tags), old(tags)[|old(tags)| - 1]) && input == old(input)
      ensures key != "Enter" && key != "," && !(key == "Backspace" && old(input) == "" && |old(tags)| > 0) ==>
                tags == old(tags) && input == old(input)
      ensures NoDups(old(tags)) ==> NoDups(tags)
    {
      if key == "Enter" || key == "," {
        Add(input);
      } else if key == "Backspace" && input == "" && |tags| > 0 {
        Remove(tags[|tags| - 1]);
      }
    }
  }
}
