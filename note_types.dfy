/** The records the application stores: notes and the wiki links between them. */
module NoteTypes {
  import opened Results

  /**
   * A note. Timestamps are milliseconds since the epoch; `embedding` is not modelled.
   * `bookColor` selects one of the shelf colours when present.
   */
  datatype Note = Note(
    id: string,
    title: string,
    content: string,
    tags: seq<string>,
    autoTags: Option<seq<string>>,
    summary: Option<string>,
    bookColor: Option<int>,
    createdAt: int,
    modifiedAt: int)
  {
    /** `[...note.tags, ...(note.autoTags ?? [])]`: user tags first, then machine tags. */
    function AllTags(): seq<string> {
      tags + autoTags.GetOr([])
    }
  }

  /** A directed wiki link found in the content of note `sourceId`. */
  datatype NoteLink = NoteLink(sourceId: string, targetId: string, context: string)

  /** The fields a caller supplies to create a note. */
  datatype NoteCreateInput = NoteCreateInput(title: string, content: string, tags: seq<string>)

  /** The fields a caller may change on a note; an absent field keeps its stored value. The id is not among them. */
  datatype NoteUpdateInput = NoteUpdateInput(
    title: Option<string>,
    content: Option<string>,
    tags: Option<seq<string>>,
    bookColor: Option<int>)
}
