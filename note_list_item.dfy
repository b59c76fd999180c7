/**
 * How a note is drawn as a book on the shelf: its colour (the stored book
 * colour, or a hash of its id), its height and width variants (from the
 * first two character codes of its id) and its title.
 *
 * A character code is the character's value; for ids made of characters
 * below U+10000, the UTF-16 code unit `charCodeAt` returns. `None` stands
 * for the `NaN` that `charCodeAt` returns past the end of the string, and
 * `NaN % 3` is again `NaN`.
 */
module NoteListItem {
  import opened Results
  import opened NoteTypes

  const ColorCount: int := 6
  const VariantCount: int := 3

  /** The sum of the character codes of `s`: `s.split('').reduce((acc, c) => acc + c.charCodeAt(0), 0)`. */
  function CodeSum(s: string): (r: nat) {
    if |s| == 0 then 0 else CodeSum(s[..|s| - 1]) + s[|s| - 1] as nat
  }

  /** `s.charCodeAt(i)`. */
  function CharCodeAt(s: string, i: nat): Option<int> {
    if i < |s| then Some(s[i] as int) else None
  }

  /** `x % k` on a character code or `NaN`; codes are non-negative, so JavaScript's remainder is the plain one. */
  function ModOrNaN(x: Option<int>, k: int): Option<int>
    requires k > 0
  {
    if x.Some? then Some(x.value % k) else None
  }

  /** `colorIndex`: the stored book colour when present, otherwise the id's code sum modulo 6. */
  function ColorIndex(note: Note): int {
    if note.bookColor.Some? then note.bookColor.value else CodeSum(note.id) % ColorCount
  }

  /** `heightVariant`: the first character code modulo 3, `NaN` for an empty id. */
  function HeightVariant(id: string): Option<int> {
    ModOrNaN(CharCodeAt(id, 0), VariantCount)
  }

  /**
   * `widthVariant` as written: `(id.charCodeAt(1) ?? 0) % 3`. `charCodeAt`
   * never returns `null` or `undefined`, so the `?? 0` never applies, and an
   * id of one character gives `NaN`.
   */
  function WidthVariantAsWritten(id: string): Option<int> {
    ModOrNaN(CharCodeAt(id, 1), VariantCount)
  }

  /** `widthVariant` with the evident intent of the fallback: a missing second character counts as code 0. */
  function WidthVariant(id: string): (r: int)
    ensures 0 <= r < VariantCount
  {
    (if |id| >= 2 then id[1] as int else 0) % VariantCount
  }

  /** `note.title || 'Untitled'`: an empty title is shown as "Untitled". */
  function DisplayTitle(note: Note): (r: string)
    ensures r != ""
    ensures note.title != "" ==> r == note.title
  {
    if note.title != "" then note.title else "Untitled"
  }

  /** What the book on the shelf is drawn with. */
  datatype Book = Book(colorIndex: int, heightVariant: Option<int>, widthVariant: int, title: string)

  function BookOf(note: Note): Book {
    Book(ColorIndex(note), HeightVariant(note.id), WidthVariant(note.id), DisplayTitle(note))
  }

  // ---------------------------------------------------------------------------
  // Properties

  /** Without a stored colour, the colour is one of the six shelf colours, and it depends only on the id. */
  lemma ColorIndexSpec(note: Note)
    ensures note.bookColor.Some? ==> ColorIndex(note) == note.bookColor.value
    ensures note.bookColor.None? ==> 0 <= ColorIndex(note) < ColorCount && ColorIndex(note) == CodeSum(note.id) % ColorCount
  {
  }

  /** The code sum of two pieces is the sum of their code sums. */
  lemma {:induction false} CodeSumAppend(a: string, b: string)
    ensures CodeSum(a + b) == CodeSum(a) + CodeSum(b)
    decreases |b|
  {
    if |b| == 0 {
      assert a + b == a;
    } else {
      var init := b[..|b| - 1];
      assert (a + b)[..|a + b| - 1] == a + init;
      assert (a + b)[|a + b| - 1] == b[|b| - 1];
      CodeSumAppend(a, init);
    }
  }

  /** The hash ignores order: swapping two pieces of an id keeps its colour. */
  lemma ColorIgnoresOrder(n: Note, m: Note, a: string, b: string)
    requires n.bookColor.None? && m.bookColor.None?
    requires n.id == a + b && m.id == b + a
    ensures ColorIndex(n) == ColorIndex(m)
  {
    CodeSumAppend(a, b);
    CodeSumAppend(b, a);
  }

  /** The height variant is one of the three heights for every non-empty id, and `NaN` for the empty one. */
  lemma HeightVariantSpec(id: string)
    ensures |id| >= 1 ==> HeightVariant(id).Some? && 0 <= HeightVariant(id).value < VariantCount
    ensures |id| == 0 ==> HeightVariant(id) == None
  {
  }

  /** For ids of at least two characters the written width variant is the intended one. */
  lemma WidthVariantAgrees(id: string)
    requires |id| >= 2
    ensures WidthVariantAsWritten(id) == Some(WidthVariant(id))
  {
  }

  /** A one-character id makes the written width variant `NaN`, which names none of the three widths. */
  lemma WidthVariantNaNForShortId(id: string)
    requires |id| == 1
    ensures WidthVariantAsWritten(id) == None
    ensures WidthVariant(id) == 0
  {
  }

  /** The book drawn for a note: its colour, a height for every non-empty id, one of the three widths and a non-empty title. */
  lemma BookOfSpec(note: Note)
    requires note.id != ""
    ensures var b := BookOf(note);
            && (note.bookColor.None? ==> 0 <= b.colorIndex < ColorCount)
            && b.heightVariant.Some? && 0 <= b.heightVariant.value < VariantCount
            && 0 <= b.widthVariant < VariantCount
            && b.title != ""
  {
    HeightVariantSpec(note.id);
  }
}
