# Hacklahoma notes: links, tags, chapters and shelf state in Dafny

This project models the core of a local-first note-taking app ("neural
zettelkasten"). Notes carry a title, markdown content, user tags, optional
auto-tags, an optional summary and an optional book colour; they link to
each other with `[[wiki links]]`. The model covers:

- the wiki-link scanner (`extractWikiLinks`, `getWikiLinkTitles`), as a
  scan over the `/\[\[([^\]]+)\]\]/g` matches with its 50-character context
  window;
- the note repository (`noteService`), with the `notes` and `noteLinks`
  tables as in-memory maps keyed as in the database schema (`id`, and
  `[sourceId+targetId]`), each transaction as one atomic method: link
  resolution by case-insensitive title, self-link filtering, create, update,
  delete (with link purging), search, recency listing, tag listing,
  backlinks and forward links;
- tag aggregation: `computeChapters`, the tag-group list of the sidebar and
  the tag counts, popular tags and pre-analysis guard of the argument mapper;
- the graph projection of the map view (note nodes, chapter hubs, chapter
  edges, wiki edges, shared-tag edges) and its edge widths;
- the offline enrichment heuristic of the AI service (API-key guard, tag
  and text normalisation, tokenising, word frequencies, keyword ranking,
  the 240-character summary, title-tag filtering with backfill) and the
  offline branch of `summarizeAndTag`;
- the client stores and components that change state: the note store, the
  UI settings store (clamped thresholds, persisted fields), the tag input
  editor, the shelf's bulk selection and the book look of a shelf item.

Helper modules hold what several of these share: `Results` (Option and
Result), `Strings` (JavaScript whitespace, trim, ASCII lower case,
substring search, split and join, code-point order, which equals code-unit
order below U+10000), `Seqs` (the
`[...new Set(xs)]` dedup, filter, count), `Sorting` (the stable sorts the
engine's `Array.prototype.sort` performs), `OrderedMaps` (a JavaScript
`Map`: insertion-ordered keys over a Dafny map), `JsNumbers` (a number
that may be `NaN`), `NoteTypes` and `TagIndex` (the per-tag note lists that
chapters, the map view and the argument mapper all build from
`tags ++ autoTags`).

Where a source function works by loops and mutation, the model is a method
with loop invariants proved against a specification function; where the
source updates an object's fields (a store, a repository, a component's
state), the model is a class whose methods state the whole new state.

## Model

| member | source | states |
|---|---|---|
| WikiLinkParser.RunEnd | src/utils/wikiLinkParser.ts:3 | the greedy `[^\]]+` run from a position ends at the end of the text or at a `]` |
| WikiLinkParser.RunEndNoClose | src/utils/wikiLinkParser.ts:3 | no character inside the greedy run is a `]` |
| WikiLinkParser.MatchEnd | src/utils/wikiLinkParser.ts:3 | a match spans at least five characters (`[[`, one interior character, `]]`) and stays inside the text |
| WikiLinkParser.Exec | src/utils/wikiLinkParser.ts:9 | one `regex.exec` from `lastIndex`: no result exactly when no match is left, otherwise the next match after `lastIndex`, and the remaining matches start at its end |
| WikiLinkParser.ExtractWikiLinks | src/utils/wikiLinkParser.ts:5-23 | the loop pushes exactly one link per match, in match order |
| WikiLinkParser.MakeLink | src/utils/wikiLinkParser.ts:10-19 | the loop body builds the link of the current match: trimmed interior and clipped context window |
| WikiLinkParser.GetWikiLinkTitles | src/utils/wikiLinkParser.ts:25-35 | the result is the first-occurrence dedup of the trimmed titles of all matches |
| WikiLinkParser.LinksOf | src/utils/wikiLinkParser.ts:9-20 | one link per match |
| WikiLinkParser.TitlesOf | src/utils/wikiLinkParser.ts:30-32 | one title per match |
| WikiLinkParser.ScanWellFormed | src/utils/wikiLinkParser.ts:3-9 | every match found from a position is a genuine match at or after that position |
| WikiLinkParser.ScanOrdered | src/utils/wikiLinkParser.ts:9 | matches do not overlap and come in left-to-right order |
| WikiLinkParser.ScanComplete | src/utils/wikiLinkParser.ts:9 | every place where the pattern matches lies inside some reported match (the global search skips nothing) |
| WikiLinkParser.ScanShift | src/utils/wikiLinkParser.ts:9 | after a match, the search resumes at that match's end |
| WikiLinkParser.NextMatch | src/utils/wikiLinkParser.ts:9-20 | a loop step: the matches seen so far plus the next one are still a prefix of all matches |
| WikiLinkParser.LinksOfSnoc | src/utils/wikiLinkParser.ts:15-19 | pushing the link of one more match extends the link list by exactly that link |
| WikiLinkParser.TitlesOfSnoc | src/utils/wikiLinkParser.ts:31 | pushing one more title extends the title list by the trimmed interior |
| WikiLinkParser.MatchesAreExactlyTheMatches | src/utils/wikiLinkParser.ts:3-9 | the matches are genuine, ordered without overlap, and cover every place the pattern matches |
| WikiLinkParser.NoLinksIff | src/utils/wikiLinkParser.ts:6-22 | the link list is empty exactly when the pattern matches nowhere in the content |
| WikiLinkParser.NoOpenBracketsNoLinks | src/utils/wikiLinkParser.ts:3-22 | content with no `[[` yields no link |
| WikiLinkParser.EmptyBracketsAreNoLink | src/utils/wikiLinkParser.ts:3 | `[[]]` yields no link, since the interior needs one non-`]` character |
| WikiLinkParser.BlankTitleIsKept | src/utils/wikiLinkParser.ts:3-10 | `[[ ]]` matches and yields a link whose target is the empty trimmed title |
| WikiLinkParser.LinksOfAt | src/utils/wikiLinkParser.ts:9-20 | the k-th link is the link of the k-th match |
| WikiLinkParser.TitlesOfAt | src/utils/wikiLinkParser.ts:30-32 | the k-th title is the trimmed interior of the k-th match |
| WikiLinkParser.ContextHoldsMatch | src/utils/wikiLinkParser.ts:11-13 | the context window contains the whole match and is at most the match's length plus 100 |
| WikiLinkParser.WikiLinksSpec | src/utils/wikiLinkParser.ts:5-23 | one link per match, in order, each built from its match |
| WikiLinkParser.LinkOfSpec | src/utils/wikiLinkParser.ts:10-18 | a link's source is the note id, its target the trimmed non-empty `]`-free interior, its context the text from 50 before to 50 after the match, clipped to the content |
| WikiLinkParser.MatchBrackets | src/utils/wikiLinkParser.ts:3 | every match starts with `[[` and ends with `]]` |
| WikiLinkParser.MatchInterior | src/utils/wikiLinkParser.ts:3 | the captured text between the brackets is non-empty and holds no `]` |
| WikiLinkParser.WikiLinkTitlesSpec | src/utils/wikiLinkParser.ts:25-35 | the titles are duplicate-free, are exactly the link targets, and keep first-occurrence order |
| ChapterService.ComputeChapters | src/services/chapterService.ts:8-38 | the nested loops, the threshold filter and the sort compute exactly the specified chapter list; the default threshold is 5 |
| ChapterService.ChaptersOverMembers | src/services/chapterService.ts:24-32 | a chapter is kept exactly when its tag was seen, its ids are the ids of the notes carrying it and their number reaches the threshold |
| ChapterService.ChaptersOverNoDups | src/services/chapterService.ts:24-32 | visiting distinct tags gives distinct chapters |
| ChapterService.ChapterMembership | src/services/chapterService.ts:8-38 | a chapter exists for a tag iff the tag's occurrences across `tags ++ autoTags` reach the threshold; its ids are the carriers' ids and its count their number |
| ChapterService.ChapterExists | src/services/chapterService.ts:24-32 | every tag that reaches the threshold has a chapter |
| ChapterService.ChaptersShape | src/services/chapterService.ts:12-35 | counts are non-increasing, tags distinct, each count at least the threshold and equal to its id list's length, and every id is a note carrying the tag |
| ChapterService.ChaptersTieOrder | src/services/chapterService.ts:24-35 | chapters with equal counts keep the order in which their tags were first seen (a stable sort) |
| JsNumbers.Floor | src/stores/uiStore.ts:59-62 | `Math.floor`: NaN stays NaN, a finite value goes to the greatest integer not above it |
| JsNumbers.Or | src/stores/uiStore.ts:59-62 | definition of numeric `a \|\| b`; the clamp it serves is proved in UiStore.ClampAtLeastSpec |
| JsNumbers.Max | src/stores/uiStore.ts:59-62 | `Math.max` of two numbers: NaN if either is NaN, else the larger of the two |
| UiStore.ClampAtLeastSpec | src/stores/uiStore.ts:58-62 | the clamped value is at least the floor; a finite input that rounds down to the floor or above gives its rounded-down value; NaN and anything rounding below the floor give the floor |
| UiStore.ClampAtLeastIdempotent | src/stores/uiStore.ts:58-62 | setting a threshold to its own clamped value changes nothing |
| UiStore.PartializeSpec | src/stores/uiStore.ts:71-74 | the persisted record plus the hovered tag restores the whole state, and the hovered tag does not affect what is persisted |
| UiStore.TogglesAreInvolutions | src/stores/uiStore.ts:44-52 | toggling the sidebar, or dark mode, twice restores the state |
| UiStore.StepsKeepValid | src/stores/uiStore.ts:44-67 | every action keeps the grouping minimum at least 1 and the colour threshold at least 2 |
| UiStore.HoverIsNotPersisted | src/stores/uiStore.ts:64-74 | setting the hovered group tag leaves the persisted record unchanged |
| UiStore.Store.constructor | src/stores/uiStore.ts:34-42 | the defaults: light mode, sidebar open, editor view, split preview, grouping minimum 5, colour threshold 10, notes tab, settings closed, nothing hovered |
| UiStore.Store.Rehydrate | src/stores/uiStore.ts:69-74 | restoring a persisted record sets every persisted field from it and keeps the hovered tag |
| UiStore.Store.ToggleDarkMode | src/stores/uiStore.ts:44-49 | flips dark mode and changes nothing else |
| UiStore.Store.ToggleSidebar | src/stores/uiStore.ts:51-52 | flips the sidebar and changes nothing else |
| UiStore.Store.SetView | src/stores/uiStore.ts:54 | sets the view and changes nothing else |
| UiStore.Store.SetEditorPreviewMode | src/stores/uiStore.ts:56 | sets the editor mode and changes nothing else |
| UiStore.Store.SetGroupingMinSize | src/stores/uiStore.ts:58-59 | sets the grouping minimum to the clamped input, so it is at least 1, and changes nothing else |
| UiStore.Store.SetMapColorThreshold | src/stores/uiStore.ts:61-62 | sets the colour threshold to the clamped input, so it is at least 2, and changes nothing else |
| UiStore.Store.SetSidebarTab | src/stores/uiStore.ts:65 | sets the sidebar tab and changes nothing else |
| UiStore.Store.SetHoveredGroupTag | src/stores/uiStore.ts:64 | sets the hovered tag, changes nothing else and nothing persisted |
| UiStore.Store.OpenSettings | src/stores/uiStore.ts:66 | opens the settings and changes nothing else |
| UiStore.Store.CloseSettings | src/stores/uiStore.ts:67 | closes the settings and changes nothing else |
| NoteService.TitleIndexOverSpec | src/services/noteService.ts:10-11 | the title map built in primary-key order has a key exactly for each lower-cased title, and maps it to a note with that title whose id is the greatest among those notes (a later entry wins) |
| NoteService.TitleIndexResolves | src/services/noteService.ts:10-11 | over the whole table: a lower-cased title resolves iff some note has it, and resolves to the greatest id with that title |
| NoteService.ResolveAllMembers | src/services/noteService.ts:13-18 | the resolved links are exactly the resolved raw links whose target is not the note itself |
| NoteService.ResolvedLinksSpec | src/services/noteService.ts:9-18 | a sync's links are exactly the note's extracted links with titles resolved (unmatched titles kept as written) minus self-links, and all come from the note |
| NoteService.PutAllDomain | src/services/noteService.ts:20-22 | after `bulkPut` a key is present iff it was present or some put link has it |
| NoteService.PutAllValue | src/services/noteService.ts:20-22 | after `bulkPut` a key holds its old link if no put link has that key, else the last put link with that key |
| NoteService.PutAllValueStep | src/services/noteService.ts:21 | one more put with another key keeps the previous value of a key |
| NoteService.LinksFrom | src/services/noteService.ts:110-112 | definition of `where('sourceId').equals(id)`; what it returns after a sync or delete is proved in NoteService.SyncForwardLinksAreResolved and NoteService.DeletePurges |
| NoteService.LinksTo | src/services/noteService.ts:106-108 | definition of `where('targetId').equals(id)`; that a delete leaves none for the deleted id is proved in NoteService.DeletePurges |
| NoteService.SyncKeepsValid | src/services/noteService.ts:6-23 | a sync keeps every link under its key, from a stored note and never a self-link |
| NoteService.SyncForwardLinksAreResolved | src/services/noteService.ts:7-21 | after a sync every forward link of the note is one of its resolved links (the old ones are gone) |
| NoteService.SyncStoresEveryResolved | src/services/noteService.ts:13-21 | after a sync every resolved link's key is stored, holding the last resolved link with that key, as a forward link of the note |
| NoteService.SyncKeepsOtherSources | src/services/noteService.ts:6-23 | a sync leaves the links of every other source unchanged |
| NoteService.DeleteKeepsValid | src/services/noteService.ts:63-69 | deleting a note and purging its links keeps the tables consistent |
| NoteService.DeletePurges | src/services/noteService.ts:66-67 | after a delete no link has the deleted id as source or as target |
| NoteService.NotesInReverse | src/services/noteService.ts:76 | reading the notes for a list of keys gives one note per key |
| NoteService.NotesInReverseMembers | src/services/noteService.ts:76 | the notes read are exactly the notes stored under the keys |
| NoteService.ByRecencySpec | src/services/noteService.ts:75-77 | `getAll` lists every stored note once, by `modifiedAt` non-increasing, and notes with the same `modifiedAt` in reverse primary-key order |
| NoteService.SearchOverMembers | src/services/noteService.ts:81-88 | the filter keeps exactly the scanned notes that match the query |
| NoteService.SearchSpec | src/services/noteService.ts:79-89 | `search` returns exactly the stored notes whose lower-cased title, content or some tag contains the lower-cased query |
| NoteService.TagsOfMembers | src/services/noteService.ts:97-102 | the collected set holds exactly the user tags of the scanned notes |
| NoteService.TagsOfStep | src/services/noteService.ts:98-102 | one outer-loop step adds exactly the next note's user tags |
| NoteService.CollectTags | src/services/noteService.ts:96-102 | the nested loops collect exactly the tag set specified |
| NoteService.AllTagsSpec | src/services/noteService.ts:95-104 | `getAllTags` is strictly sorted (so duplicate-free) and lists exactly the user tags of stored notes; auto-tags are not included |
| NoteService.ApplyUpdate | src/services/noteService.ts:49-53 | supplied fields override the stored ones, others are kept, id and creation time are unchanged and `modifiedAt` is the update time |
| NoteService.NoteRepository.constructor | src/db/database.ts:11-14 | both tables start empty |
| NoteService.NoteRepository.SyncNoteLinks | src/services/noteService.ts:6-23 | deletes the note's forward links and puts its resolved links; the notes table is unchanged |
| NoteService.NoteRepository.Create | src/services/noteService.ts:26-43 | an existing id makes the add fail and the transaction change nothing; otherwise the new note (creation time equal to modification time) is stored and its links synced in the same step |
| NoteService.NoteRepository.Update | src/services/noteService.ts:45-61 | a missing id returns nothing and changes neither table; otherwise the merged note replaces the stored one and its links are synced |
| NoteService.NoteRepository.Delete | src/services/noteService.ts:63-69 | removes the note and every link from or to it; other links stay |
| NoteService.NoteRepository.GetById | src/services/noteService.ts:71-73 | the stored note for the id, or nothing when absent |
| NoteService.NoteRepository.GetAll | src/services/noteService.ts:75-77 | the recency listing |
| NoteService.NoteRepository.Search | src/services/noteService.ts:79-89 | the search result |
| NoteService.NoteRepository.GetAllTags | src/services/noteService.ts:95-104 | the sorted distinct user tags |
| NoteService.NoteRepository.GetBacklinks | src/services/noteService.ts:106-108 | exactly the stored links whose target is the note |
| NoteService.NoteRepository.GetForwardLinks | src/services/noteService.ts:110-112 | exactly the stored links whose source is the note |
| NoteStore.Ids | src/components/notes/NoteList.tsx:17 | definition of `notes.map(n => n.id)`; the selection facts over it are proved in NoteList.SelectAllSpec and NoteList.PruneSpec |
| NoteStore.ReplaceById | src/stores/noteStore.ts:57 | the `map` keeps the length and replaces exactly the notes with the matching id |
| NoteStore.ReplaceByIdSpec | src/stores/noteStore.ts:57 | replacing by id keeps the id order and every other note, and changes nothing when the id is not listed |
| NoteStore.WithoutNoteSpec | src/stores/noteStore.ts:69 | the `filter` keeps the order, keeps exactly the notes with another id, and changes nothing when the id is not listed |
| NoteStore.NotesInReverseCached | src/services/noteService.ts:75-77 | notes read for distinct keys are copies of the stored notes with distinct ids |
| NoteStore.StrictlySortedNoDups | src/services/noteService.ts:76 | a strictly sorted key list has no duplicates |
| NoteStore.LessIrreflexiveAt | src/services/noteService.ts:76 | two positions of a strictly sorted key list hold different keys |
| NoteStore.ByRecencyCached | src/stores/noteStore.ts:29-30 | the loaded list mirrors the repository: each note is the stored one and no id repeats |
| NoteStore.SearchOverCached | src/stores/noteStore.ts:82-85 | a filtered scan of distinct keys mirrors the repository |
| NoteStore.SearchCached | src/stores/noteStore.ts:82-85 | a search result mirrors the repository |
| NoteStore.PrependCached | src/stores/noteStore.ts:41 | prepending the newly created note keeps the list a mirror of the repository |
| NoteStore.ReplaceCached | src/stores/noteStore.ts:57 | replacing the updated note keeps the list a mirror of the repository |
| NoteStore.RemoveCached | src/stores/noteStore.ts:69 | filtering out the deleted note keeps the list a mirror of the repository |
| NoteStore.SubsequenceDistinctIds | src/stores/noteStore.ts:69 | a subsequence of a list with distinct ids has distinct ids |
| NoteStore.SubsequenceMember | src/stores/noteStore.ts:69 | every note of a subsequence is a note of the list |
| NoteStore.Store.constructor | src/stores/noteStore.ts:20-24 | no notes, no active note, not loading, no error |
| NoteStore.Store.LoadNotes | src/stores/noteStore.ts:26-34 | the list becomes the recency listing, loading ends and the error is cleared |
| NoteStore.Store.CreateNote | src/stores/noteStore.ts:36-50 | success prepends the new note, makes it active and clears loading and error; the repository's links become those synced for the new note; failure records the error, ends loading and changes neither the list nor either repository table |
| NoteStore.Store.UpdateNote | src/stores/noteStore.ts:52-63 | a missing note changes nothing, links included; otherwise the stored note and the listed note with that id become the merged note, its links are re-synced, and nothing else changes |
| NoteStore.Store.DeleteNote | src/stores/noteStore.ts:65-75 | removes the note from the repository and from the list, and every link from or to it from the link table; the active note is cleared only if it was the deleted one |
| NoteStore.Store.SetActiveNote | src/stores/noteStore.ts:77 | only the active note changes |
| NoteStore.Store.SearchNotes | src/stores/noteStore.ts:79-89 | an empty query loads the recency listing, any other query the search result; loading ends |
| NoteStore.Store.ClearError | src/stores/noteStore.ts:91 | only the error is cleared |
| NoteList.ToggleSpec | src/components/notes/NoteList.tsx:25-35 | checking adds the id (at the end, if absent) and unchecking removes it; every other id keeps its membership, the selection stays duplicate-free, checking extends it and unchecking keeps the others in order |
| NoteList.ToggleIdempotent | src/components/notes/NoteList.tsx:25-35 | toggling the same id the same way twice is the same as once |
| NoteList.SameSizeSubsetIsAll | src/components/notes/NoteList.tsx:38 | a duplicate-free selection of listed ids has the list's size exactly when it holds every listed id |
| NoteList.ElementsCard | src/components/notes/NoteList.tsx:15 | a set built from a duplicate-free list has the list's size |
| NoteList.SelectAllSpec | src/components/notes/NoteList.tsx:37-43 | when every listed note is selected, select-all clears the selection; when some is not, it selects every note id |
| NoteList.PruneSpec | src/components/notes/NoteList.tsx:19-23 | after pruning the selection holds only current note ids, loses no selected id that is still listed, keeps its order, stays duplicate-free, and pruning again changes nothing |
| NoteList.WithoutAllMembers | src/components/notes/NoteList.tsx:60-62 | deleting the selected ids one by one leaves exactly the listed notes whose id was not selected |
| NoteList.WithoutAllSnoc | src/components/notes/NoteList.tsx:60-62 | one deletion step of the loop |
| NoteList.ActiveAfterSnoc | src/components/notes/NoteList.tsx:60-62 | one deletion step clears the active note only when it is the deleted one |
| NoteList.Shelf.constructor | src/components/notes/NoteList.tsx:12-13 | nothing selected, selection mode off |
| NoteList.Shelf.ToggleSelect | src/components/notes/NoteList.tsx:25-35 | the selection becomes the toggled one and stays duplicate-free; the mode is unchanged |
| NoteList.Shelf.HandleSelectAll | src/components/notes/NoteList.tsx:37-43 | clears the selection when its size equals the number of notes, otherwise selects every note id |
| NoteList.Shelf.HandleToggleSelectionMode | src/components/notes/NoteList.tsx:45-53 | flips the mode; leaving selection mode empties the selection, entering keeps it |
| NoteList.Shelf.PruneSelection | src/components/notes/NoteList.tsx:19-23 | the selection becomes its pruned form |
| NoteList.Shelf.HandleDeleteSelected | src/components/notes/NoteList.tsx:55-64 | an empty selection or a declined confirmation changes nothing; otherwise every selected note is deleted from the repository and the list, exactly the links with no selected end are kept, the active note is cleared if it was selected, and the selection is emptied |
| NoteListItem.WidthVariant | src/components/notes/NoteListItem.tsx:26 | the intended width variant is always one of the three widths |
| NoteListItem.DisplayTitle | src/components/notes/NoteListItem.tsx:41-53 | the shown title is never empty, and is the note's title whenever that is non-empty |
| NoteListItem.ColorIndexSpec | src/components/notes/NoteListItem.tsx:20-22 | a set book colour is used as is; otherwise the colour is the id's character-code sum modulo 6, one of the six shelf colours |
| NoteListItem.CodeSumAppend | src/components/notes/NoteListItem.tsx:22 | the code sum of a concatenation is the sum of the code sums |
| NoteListItem.ColorIgnoresOrder | src/components/notes/NoteListItem.tsx:22 | swapping two pieces of an id keeps its hashed colour |
| NoteListItem.HeightVariantSpec | src/components/notes/NoteListItem.tsx:24 | a non-empty id gives one of the three heights; an empty id gives NaN |
| NoteListItem.WidthVariantAgrees | src/components/notes/NoteListItem.tsx:26 | for ids of two or more characters the width variant as written is the intended one |
| NoteListItem.WidthVariantNaNForShortId | src/components/notes/NoteListItem.tsx:26 | a one-character id gives NaN as written, where the fallback evidently meant width 0 |
| NoteListItem.BookOfSpec | src/components/notes/NoteListItem.tsx:20-53 | a book drawn for a non-empty id has a shelf colour (when none is stored), one of the three heights, one of the three widths and a non-empty title |
| TagInput.AddTagSpec | src/components/notes/TagInput.tsx:11-20 | adding appends at most one tag and keeps the list as a prefix; the new tag is the trimmed, lower-cased value and is added only when non-blank and absent; duplicate-freeness is kept |
| TagInput.AddTagIdempotent | src/components/notes/TagInput.tsx:14-16 | adding the same value twice gives the same list as adding it once |
| TagInput.RemoveTagSpec | src/components/notes/TagInput.tsx:22-27 | removing drops every occurrence of the tag, keeps the others in order, changes nothing when the tag is absent and keeps duplicate-freeness |
| TagInput.RemoveLastTag | src/components/notes/TagInput.tsx:33-34 | in a duplicate-free list, removing the last tag drops just the last element |
| TagInput.Editor.constructor | src/components/notes/TagInput.tsx:8-9 | the editor starts with the given tags and an empty input |
| TagInput.Editor.SetInput | src/components/notes/TagInput.tsx:9 | typing replaces the input and leaves the tags |
| TagInput.Editor.Add | src/components/notes/TagInput.tsx:11-20 | the tags become the added list and the input is cleared, whether or not a tag was added |
| TagInput.Editor.Remove | src/components/notes/TagInput.tsx:22-27 | the tags become the list without that tag; the input is kept |
| TagInput.Editor.HandleKeyDown | src/components/notes/TagInput.tsx:29-36 | Enter or `,` commits the input; Backspace on an empty input removes the last tag if there is one; any other key changes nothing |
| TagGroupList.StartNote | src/components/notes/TagGroupList.tsx:39 | the inner loop starts from the groups built so far |
| TagGroupList.FinishNote | src/components/notes/TagGroupList.tsx:39-46 | once all of a note's tags are visited, the groups are those of the notes so far plus this one |
| TagGroupList.NewTagUnseen | src/components/notes/TagGroupList.tsx:43-44 | a tag missing from the map has not been seen in any earlier note or earlier tag of this note |
| TagGroupList.TagEntryGrows | src/components/notes/TagGroupList.tsx:40-45 | pushing the note under a tag (a new list or an existing one) gives the carriers so far plus this note once more |
| TagGroupList.PushKeys | src/components/notes/TagGroupList.tsx:40-45 | after a push the map's keys are the user tags seen so far, in first-occurrence order |
| TagGroupList.PushEntries | src/components/notes/TagGroupList.tsx:40-45 | after a push every group holds the carriers seen so far |
| TagGroupList.PushUnder | src/components/notes/TagGroupList.tsx:40-45 | one inner-loop step keeps the pending-groups invariant |
| TagGroupList.SkipUntagged | src/components/notes/TagGroupList.tsx:35-38 | a note without user tags leaves every group unchanged |
| TagGroupList.GroupNotes | src/components/notes/TagGroupList.tsx:31-47 | the loops build, for each user tag in first-occurrence order, the notes carrying it, and the untagged notes in input order |
| TagGroupList.GroupNote | src/components/notes/TagGroupList.tsx:34-46 | one outer-loop step adds exactly one note to the groups |
| TagGroupList.GroupsFor | src/components/notes/TagGroupList.tsx:60-90 | one group per tag, holding the notes that carry it |
| TagGroupList.SortedKeysInMap | src/components/notes/TagGroupList.tsx:49 | the sorted map keys are the sorted distinct user tags, all present in the map |
| TagGroupList.GroupsFromMapSpec | src/components/notes/TagGroupList.tsx:49-90 | the groups read back from the map in sorted key order are the specified groups |
| TagGroupList.Render | src/components/notes/TagGroupList.tsx:11-58 | the component shows the spinner while loading, "no notes yet" for no notes, "no tag groupings yet" when no group exists, else the untagged list and the sorted groups |
| TagGroupList.CarryingLength | src/components/notes/TagGroupList.tsx:39-46 | a group's size is the number of occurrences of its tag among the user tags |
| TagGroupList.UserTagsMembers | src/components/notes/TagGroupList.tsx:39 | a tag is seen exactly when some note has it as a user tag |
| TagGroupList.CarryingSpec | src/components/notes/TagGroupList.tsx:39-46 | a group holds exactly the notes having the tag among their user tags (auto-tags are ignored), once per occurrence |
| TagGroupList.CarryingIsFilter | src/components/notes/TagGroupList.tsx:39-46 | when no note repeats a tag, a group is the input notes carrying the tag, in input order |
| TagGroupList.UntaggedSpec | src/components/notes/TagGroupList.tsx:34-38 | the untagged list holds exactly the notes with no user tags, in input order, and none of them is in any group |
| TagGroupList.GroupTagsSpec | src/components/notes/TagGroupList.tsx:49 | the group keys are sorted, distinct, and exactly the user tags of the notes |
| TagGroupList.NoGroupingsIff | src/components/notes/TagGroupList.tsx:51-58 | "no tag groupings yet" is shown exactly when not loading, some note exists and no note has a user tag |
| TagIndex.PendingStep | src/services/chapterService.ts:14-19 | one inner-loop step (create the list if missing, push the id) keeps the partial tag index |
| TagIndex.TagEntryGrows | src/services/chapterService.ts:15-18 | pushing the id under a tag gives the earlier carriers' ids plus this id once more |
| TagIndex.NewTagUnseen | src/services/chapterService.ts:15-16 | a tag without a list has not been seen before |
| TagIndex.CountIdsCarrying | src/services/chapterService.ts:12-20 | a tag's id list is as long as the tag's occurrence count across `tags ++ autoTags` |
| TagIndex.NextNote | src/services/chapterService.ts:12-20 | after all of a note's tags the index covers the notes so far plus that one |
| TagIndex.IndexOfChangeId | src/services/chapterService.ts:12-20 | between notes the index does not depend on the id being pushed |
| TagIndex.BuildTagToNotes | src/services/chapterService.ts:10-20 | the loops build a map whose keys are the tags in first-occurrence order and whose lists are the ids of the notes carrying each tag, once per occurrence |
| TagIndex.IndexNote | src/services/chapterService.ts:13-19 | one outer-loop step indexes exactly one more note |
| TagIndex.IndexOfAll | src/services/chapterService.ts:10-20 | the finished index has the specified keys and lists |
| TagIndex.IdsCarryingLength | src/services/chapterService.ts:12-20 | a tag has a non-empty id list exactly when it occurs, and the list's length is its occurrence count |
| TagIndex.IdsCarryingMembers | src/services/chapterService.ts:12-20 | every listed id is a note carrying the tag in `tags` or `autoTags` |
| TagIndex.CarriedTwiceListedTwice | src/services/chapterService.ts:13-18 | a note with the tag in both `tags` and `autoTags` is listed twice, as there is no per-note dedup |
| TagIndex.FlatTagsMembers | src/services/chapterService.ts:13 | a tag occurs exactly when some note carries it in `tags ++ autoTags` |
| TagIndex.IdsCarryingAppend | src/services/chapterService.ts:12-20 | indexing two note lists one after the other concatenates their id lists |
| TagIndex.IdsCarryingComplete | src/services/chapterService.ts:12-20 | every note carrying the tag is listed |
| TagIndex.IdsCarryingPositions | src/services/chapterService.ts:12-20 | two carriers appear in the id list in the order of the notes |
| MapView.NoteNodes | src/components/map/MapView.tsx:53-61 | one note node per note |
| MapView.HubNodes | src/components/map/MapView.tsx:65-72 | one hub node per chapter |
| MapView.ChapterLinks | src/components/map/MapView.tsx:75-82 | one chapter edge per id in the chapter's list |
| MapView.WikiEdges | src/components/map/MapView.tsx:86-93 | one wiki edge per stored link |
| MapView.Row | src/components/map/MapView.tsx:113-119 | the inner pair loop visits each later position once |
| MapView.SharedEdges | src/components/map/MapView.tsx:124-133 | one shared-tag edge per pair key |
| MapView.TagIndexOf | src/components/map/MapView.tsx:98-108 | every key of the tag index has a list |
| MapView.GraphData | src/components/map/MapView.tsx:48-137 | the loops produce exactly the specified nodes and links |
| MapView.AddNotes | src/components/map/MapView.tsx:53-61 | the first loop pushes one node per note, in note order |
| MapView.AddChapters | src/components/map/MapView.tsx:64-83 | the chapter loop appends one hub per chapter and, per chapter, one edge per listed id |
| MapView.AddWikiLinks | src/components/map/MapView.tsx:86-93 | the wiki loop appends one edge per stored link, in order |
| MapView.AddSharedLinks | src/components/map/MapView.tsx:124-133 | the last loop appends one shared-tag edge per pair key, in key order |
| MapView.BuildPairIndex | src/components/map/MapView.tsx:97-122 | the tag index and pair loops build exactly the specified pair index |
| MapView.GroupSharedTags | src/components/map/MapView.tsx:110-122 | the loop over `tagToNotes` leaves exactly the pair keys and tag lists of all tags seen, in order |
| MapView.AddSharedTag | src/components/map/MapView.tsx:110-122 | one tag with fewer than two ids changes nothing; with two or more its pairs are pushed |
| MapView.AddTagPairs | src/components/map/MapView.tsx:111-121 | the pair loops of one tag with at least two ids push that tag under each pair key they visit |
| MapView.AddRow | src/components/map/MapView.tsx:113-119 | one row of the pair loop pushes the tag under the key of each later id |
| MapView.RowPush | src/components/map/MapView.tsx:114-118 | one pair step creates the key's list if missing and pushes the tag |
| MapView.TagIndexIsTagIndexOf | src/components/map/MapView.tsx:98-108 | an index with the specified keys and lists is the tag index |
| MapView.PairKeyHasBar | src/components/map/MapView.tsx:114 | a pair key is the sorted pair joined by a bar |
| MapView.RowsHaveBar | src/components/map/MapView.tsx:112-120 | every key a tag's pair loops visit contains a bar |
| MapView.OccurrencesHaveBar | src/components/map/MapView.tsx:110-122 | every key the pair loops visit contains a bar |
| MapView.PairIndexHasBars | src/components/map/MapView.tsx:110-125 | every key of the pair index can be split at a bar |
| MapView.RowMembers | src/components/map/MapView.tsx:113-119 | one row visits exactly the keys of the id at that position with each later id |
| MapView.PairAtStep | src/components/map/MapView.tsx:112-120 | the keys visited after one more row are those before plus that row's |
| MapView.RowsMembers | src/components/map/MapView.tsx:112-120 | the rows visit exactly the keys of pairs of positions i < j |
| MapView.TagOccurrencesMembers | src/components/map/MapView.tsx:111-121 | a tag's pair loops visit exactly the pairs of positions of its id list (the at-least-two guard loses none) |
| MapView.OccurrencesMembers | src/components/map/MapView.tsx:110-122 | all pair loops together visit exactly each tag's own pairs |
| MapView.PairIndexMembers | src/components/map/MapView.tsx:97-122 | a tag is listed under a pair key exactly when the key is that of two positions i < j of the tag's id list |
| MapView.SharedTagComplete | src/components/map/MapView.tsx:100-122 | two notes sharing a tag (in `tags` or `autoTags`) have their pair key listed with that tag |
| MapView.SharedTagSound | src/components/map/MapView.tsx:100-122 | a tag listed under a pair key is carried by both notes of that pair |
| MapView.SortedPairSpec | src/components/map/MapView.tsx:114 | sorting a pair gives the same two ids in non-decreasing order, and sorting again changes nothing |
| MapView.SplitPairKey | src/components/map/MapView.tsx:114-125 | for bar-free ids, splitting a pair key gives back the sorted pair |
| MapView.PairKeyInjective | src/components/map/MapView.tsx:114-125 | for bar-free ids, equal pair keys mean the same unordered pair |
| MapView.PairKeyOfNotes | src/components/map/MapView.tsx:110-124 | every pair key names two notes |
| MapView.SharedEdgeAt | src/components/map/MapView.tsx:124-133 | each shared-tag edge has its endpoints in sorted order, neither holding the separator, comes from the pair key at its position, and is labelled with every shared tag |
| MapView.PairKeySymmetric | src/components/map/MapView.tsx:114 | the pair key does not depend on the order of the two ids |
| MapView.SharedEdgesDistinct | src/components/map/MapView.tsx:124-133 | no two shared-tag edges join the same unordered pair |
| MapView.EdgeOfKey | src/components/map/MapView.tsx:124-133 | every pair key gives a shared-tag edge |
| MapView.SelfLoopOfKey | src/components/map/MapView.tsx:124-133 | a pair key of an id with itself gives an edge from that note to itself |
| MapView.SelfLoopWhenTagRepeated | src/components/map/MapView.tsx:100-133 | a note carrying a tag in both `tags` and `autoTags` gets a shared-tag edge to itself |
| MapView.SelfPairListed | src/components/map/MapView.tsx:100-122 | such a note's id paired with itself is listed in the pair index |
| MapView.ChapterIdInjective | src/components/map/MapView.tsx:66 | different tags give different hub ids |
| MapView.NoteNodesSpec | src/components/map/MapView.tsx:53-72 | the nodes are one per note and one per chapter; each note node keeps its note's id, title and combined tags |
| MapView.HubAt | src/components/map/MapView.tsx:65-72 | the hub of the x-th chapter follows the note nodes at position x |
| MapView.ChapterCountIsOccurrences | src/components/map/MapView.tsx:64-71 | a chapter's count is its tag's occurrence count |
| MapView.ChapterTagsDistinct | src/components/map/MapView.tsx:64 | chapters have distinct tags |
| MapView.HubNodeIff | src/components/map/MapView.tsx:64-72 | a `chapter:<tag>` node exists exactly when the tag reaches the grouping minimum |
| MapView.HubNodeSound | src/components/map/MapView.tsx:64-72 | a `chapter:<tag>` node is only made for a tag that reaches the grouping minimum |
| MapView.HubNodeComplete | src/components/map/MapView.tsx:64-72 | every tag that reaches the grouping minimum gets a `chapter:<tag>` node |
| MapView.HubNodesCount | src/components/map/MapView.tsx:65-72 | each hub is labelled with its tag, has id `chapter:<tag>` and counts the tag's occurrences |
| MapView.HubIdsDistinct | src/components/map/MapView.tsx:66 | hub ids are distinct |
| MapView.ChapterEdgesMembers | src/components/map/MapView.tsx:75-82 | the chapter edges are exactly the edges from each hub to each listed id, labelled `#<tag>` |
| MapView.HubEdgeComplete | src/components/map/MapView.tsx:64-82 | every note carrying a chapter's tag is joined to its hub |
| MapView.HubEdgeSound | src/components/map/MapView.tsx:64-82 | every chapter edge joins a hub to a note carrying its tag |
| MapView.LinksLayout | src/components/map/MapView.tsx:75-133 | the links are the chapter edges, then one edge per stored link, then the shared-tag edges |
| MapView.WikiEdgesKept | src/components/map/MapView.tsx:86-93 | every stored link, dangling targets included, becomes a wiki edge with the same source and target |
| MapView.SharedEdgesOnlyWhenShown | src/components/map/MapView.tsx:96 | with tag links off there is no shared-tag edge |
| MapView.LinkWidth | src/components/map/MapView.tsx:182-186 | every edge is at least 1 wide, and exactly 1 for chapter edges |
| MapView.LinkWidthOrder | src/components/map/MapView.tsx:182-186 | wiki edges are wider than shared-tag edges, which are wider than chapter edges |
| ArgumentMapper.CountStep | src/components/arguments/ArgumentMapper.tsx:18 | `set(tag, (get(tag) \|\| 0) + 1)` adds one sighting of the tag |
| ArgumentMapper.CountSighting | src/components/arguments/ArgumentMapper.tsx:17-19 | one inner step keeps the counts equal to the occurrences seen |
| ArgumentMapper.BuildTagCounts | src/components/arguments/ArgumentMapper.tsx:14-20 | the loops build the specified counts map |
| ArgumentMapper.CountNote | src/components/arguments/ArgumentMapper.tsx:15-19 | one outer step counts every tag of one note's `tags ++ autoTags` |
| ArgumentMapper.TagCountsSpec | src/components/arguments/ArgumentMapper.tsx:14-20 | a tag has a count exactly when it occurs, and its count is its number of occurrences across `tags ++ autoTags` |
| ArgumentMapper.EntriesOf | src/components/arguments/ArgumentMapper.tsx:22 | one entry per key, in key order |
| ArgumentMapper.EntriesOfCounts | src/components/arguments/ArgumentMapper.tsx:22 | the entries are exactly the occurring tags with their counts |
| ArgumentMapper.PopularEntriesMembers | src/components/arguments/ArgumentMapper.tsx:22-24 | the filtered, sorted entries are exactly the tags with count at least 3 |
| ArgumentMapper.PopularTagsMembers | src/components/arguments/ArgumentMapper.tsx:22-25 | a tag is popular exactly when it occurs at least 3 times |
| ArgumentMapper.PopularTagsOrdered | src/components/arguments/ArgumentMapper.tsx:24 | popular tags come in non-increasing count order |
| ArgumentMapper.PopularTagsNoDups | src/components/arguments/ArgumentMapper.tsx:22-25 | no popular tag is listed twice |
| ArgumentMapper.RelevantAtMostCount | src/components/arguments/ArgumentMapper.tsx:33-37 | the notes carrying a tag are at most its occurrence count, since a note carrying it twice is listed once |
| ArgumentMapper.DecideRequestIff | src/components/arguments/ArgumentMapper.tsx:28-50 | the AI is asked exactly when a tag is selected and at least three notes carry it |
| ArgumentMapper.DecideRequestNotes | src/components/arguments/ArgumentMapper.tsx:33-50 | the request sends the selected tag and at least three references, each the id, title, content and creation time of a note carrying it |
| ArgumentMapper.RequestedTagIsPopular | src/components/arguments/ArgumentMapper.tsx:22-50 | a tag that passes the guard is a popular tag |
| ArgumentMapper.PopularButTooFew | src/components/arguments/ArgumentMapper.tsx:22-48 | a tag can be popular and still be refused: two notes, one carrying it in both lists, count 3 but are only two notes |
| ArgumentMapper.ThreeSightings | src/components/arguments/ArgumentMapper.tsx:14-20 | that example counts the tag three times |
| ArgumentMapper.BothCarry | src/components/arguments/ArgumentMapper.tsx:33-43 | that example has two relevant notes |
| ArgumentMapper.Mapper.constructor | src/components/arguments/ArgumentMapper.tsx:8-11 | no tag selected, no analysis, not analysing, no error |
| ArgumentMapper.Mapper.SelectTag | src/components/arguments/ArgumentMapper.tsx:8 | only the selected tag changes |
| ArgumentMapper.Mapper.HandleAnalyze | src/components/arguments/ArgumentMapper.tsx:27-57 | no tag changes nothing; too few notes set the error message with no AI call; a request stores the reply's analysis and clears the error, or records the failure's message; analysing ends in every case that started it |
| ArgumentMapper.Mapper.ClickTag | src/components/arguments/ArgumentMapper.tsx:59-91 | clicking the tag already selected changes nothing and starts no analysis; clicking another tag selects it and, for a non-empty tag, runs the analysis, whose decision is `Decide(tag, notes)` with the state after each outcome as in `HandleAnalyze` |
| AiService.ApiKeyIff | src/services/aiService.ts:9-16 | a key is usable exactly when present, not blank, and containing neither "replace" nor "change" in any letter case |
| AiService.ContainsWordAfterTrim | src/services/aiService.ts:11-14 | trimming the key first does not change whether it contains a placeholder word |
| AiService.LowerSlice | src/services/aiService.ts:13 | lower-casing commutes with taking a slice |
| AiService.ContainsWordInside | src/services/aiService.ts:11-14 | a space-free word occurs in the text between blank ends exactly when it occurs in the whole text |
| AiService.ContainsInSlice | src/services/aiService.ts:13-14 | an occurrence in a slice is an occurrence in the text |
| AiService.ContainsSlice | src/services/aiService.ts:13-14 | an occurrence inside the slice bounds is an occurrence in the slice |
| AiService.OccurrenceInsideTrim | src/services/aiService.ts:11-14 | an occurrence of a space-free word lies between the blank ends |
| AiService.NormalizeEach | src/services/aiService.ts:48 | definition of `map(tag => tag.trim().toLowerCase())`; the promises of `normalizeTags` are proved in AiService.NormalizeTagsSpec |
| AiService.NormalizeTagIsNormal | src/services/aiService.ts:48 | a normalised tag has no white space at its ends and no upper-case letter |
| AiService.NormalizeTagsSpec | src/services/aiService.ts:46-49 | the normalised tags are duplicate-free, trimmed, lower-case and non-empty, and are exactly the non-empty normalised inputs |
| AiService.NormalizeTagsOrder | src/services/aiService.ts:48 | the normalised tags keep their first-occurrence order |
| AiService.NormalizeTagsIdempotent | src/services/aiService.ts:46-49 | normalising twice is normalising once |
| AiService.LowerOfLower | src/services/aiService.ts:48 | lower-casing lower-case text changes nothing |
| AiService.Mask | src/services/aiService.ts:63 | definition of `replace(/[^a-z0-9\s]/g, ' ')`; what it keeps is proved in AiService.WordCharsMask and AiService.NormalizeTextSpec |
| AiService.CollapseSingleSpaced | src/services/aiService.ts:64 | collapsing white-space runs leaves no two spaces in a row and no other white space |
| AiService.SingleSpacedSlice | src/services/aiService.ts:64-65 | a slice of single-spaced text is single-spaced |
| AiService.NormalizeTextSpec | src/services/aiService.ts:60-66 | normalised text holds only `[a-z0-9]` and single spaces, with no space at either end |
| AiService.WordCharsAppend | src/services/aiService.ts:60-66 | the letters and digits of a concatenation are those of its parts |
| AiService.WordCharsOfSpace | src/services/aiService.ts:64-65 | white space has no letters or digits |
| AiService.WordCharsMask | src/services/aiService.ts:63 | masking keeps every lower-case letter and digit, in order |
| AiService.WordCharsCollapse | src/services/aiService.ts:64 | collapsing white space keeps every letter and digit |
| AiService.WordCharsTrim | src/services/aiService.ts:65 | trimming keeps every letter and digit |
| AiService.NormalizeTextKeepsWords | src/services/aiService.ts:60-66 | normalising drops no lower-case letter or digit of the lower-cased text, and adds none |
| AiService.SplitPiecesFrom | src/services/aiService.ts:71 | the pieces of a split consist of characters of the text |
| AiService.TokenizeSpec | src/services/aiService.ts:68-73 | the tokens are exactly the space-separated pieces of the normalised text that have at least 3 characters and are not stop words; they hold only letters and digits; empty text gives none |
| AiService.NoWordCharsAtAll | src/services/aiService.ts:63-72 | text with no letters or digits has no word character anywhere |
| AiService.NoWordCharsNoTokens | src/services/aiService.ts:68-73 | text with no letters or digits has no tokens |
| AiService.FrequencyStep | src/services/aiService.ts:77-79 | one loop step adds the weight to the word's count |
| AiService.FrequencyKeysStep | src/services/aiService.ts:78 | a new word is added after the existing keys |
| AiService.FrequencyEntriesStep | src/services/aiService.ts:78 | one loop step keeps every count equal to the seed plus the weight times the occurrences so far |
| AiService.FrequencyEntriesSnoc | src/services/aiService.ts:78 | the same step, stated for one more word |
| AiService.BuildFrequency | src/services/aiService.ts:75-81 | the keys are the seed's keys then the new words in first-occurrence order, and each count is the seed's count plus the weight times the word's occurrences |
| AiService.FrequencyIsWordCounts | src/services/aiService.ts:75-81 | with no seed and weight 1 the map is the word-count map |
| AiService.EntryList | src/services/aiService.ts:84 | definition of `Array.from(freq.entries())`; the ranking over it is proved in AiService.PickTopKeywordsSpec |
| AiService.WordsOf | src/services/aiService.ts:87 | definition of `map(([word]) => word)`; the ranking over it is proved in AiService.PickTopKeywordsSpec |
| AiService.SortedEntriesFacts | src/services/aiService.ts:84-85 | the sorted entries are the map's entries, each word once, none lost |
| AiService.PickTopKeywordsSpec | src/services/aiService.ts:83-88 | the result has `min(n, size)` distinct words of the map, in non-increasing frequency, and no word left out is more frequent than one kept |
| AiService.PickTopKeywordsTies | src/services/aiService.ts:85 | words with equal frequency keep their insertion order (a stable sort) |
| AiService.DistinctCountsValid | src/services/aiService.ts:116 | the word-count map is a well-formed map |
| AiService.GenerateAutoTags | src/services/aiService.ts:114-120 | the tokens are counted and the five most frequent picked |
| AiService.AutoTagsSpec | src/services/aiService.ts:114-120 | at most 5 distinct auto-tags, each a token of the content |
| AiService.PlainRunEnd | src/services/aiService.ts:97 | the `[^.!?]+` run ends at the end or at a terminator |
| AiService.StopRunEnd | src/services/aiService.ts:97 | the `[.!?]+` run ends at the end or at a non-terminator |
| AiService.PlainRunEndSpec | src/services/aiService.ts:97 | the plain run holds no terminator |
| AiService.StopRunEndSpec | src/services/aiService.ts:97 | the terminator run holds only terminators |
| AiService.SentenceEnd | src/services/aiService.ts:97 | a sentence match has at least two characters and stays in the text |
| AiService.SentencesFromShape | src/services/aiService.ts:97 | every sentence match is a non-empty plain run followed by a non-empty terminator run |
| AiService.SentencesFromExist | src/services/aiService.ts:97-100 | the text from a position has a sentence exactly when a terminator follows a non-terminator somewhere after it |
| AiService.SentencesExist | src/services/aiService.ts:97-100 | the text has sentences exactly when a terminator follows a non-terminator, and every sentence has that shape |
| AiService.GenerateSummary | src/services/aiService.ts:90-112 | blank content gives "Note about <title>", or "" for an empty title; otherwise the summary is at most 240 characters: the draft (two sentences, or 40 words) when short enough, else its first 237 characters with the white space at both ends removed (none left) plus "..." |
| AiService.EnsureTagCountSpec | src/services/aiService.ts:122-127 | the result is the first `max` normalised tags, duplicate-free and normal, whatever `min` is |
| AiService.KeepTagsSpec | src/services/aiService.ts:131-132 | the filter keeps, in order, exactly the tags that are not title tokens and not "untitled" |
| AiService.RemoveTitleTagsSpec | src/services/aiService.ts:129-133 | the result is a subsequence of the input holding exactly the tags that are neither title tokens nor "untitled" |
| AiService.RemoveTitleTagsSingle | src/services/aiService.ts:145 | filtering a single tag leaves nothing exactly when that tag would be removed |
| AiService.BackfillGrows | src/services/aiService.ts:142-151 | the backfill loop only appends, and never grows past `max` a list that started within it |
| AiService.BackfillAdds | src/services/aiService.ts:143-151 | every appended tag comes from the fallback, is new, and is not a title token or "untitled" |
| AiService.FinalizeTags | src/services/aiService.ts:135-153 | the early return, the loop with `break` and `continue`, and the pushes compute exactly the specified tags |
| AiService.FinalTagsSpec | src/services/aiService.ts:135-153 | the final tags contain no title token and no "untitled", are at most `max` when `min <= max`, and each comes from the input or the content's auto-tags |
| AiService.BackfillKeeps | src/services/aiService.ts:143-151 | backfilling kept input tags gives only kept tags from the input or the fallback, at most `max` of them |
| AiService.TakeKeeps | src/services/aiService.ts:137-139 | the early return keeps at most `max` tags, each a kept input tag |
| AiService.FinalTagsKeepFiltered | src/services/aiService.ts:136-152 | with enough filtered tags the result is their first `max`; otherwise the filtered tags lead the result |
| AiService.SummarizeAndTag | src/services/aiService.ts:156-220 | with a usable key and a reply carrying a summary, the trimmed summary cut to 240 and the finalised reply tags; otherwise, for non-blank content, the draft when it fits in 240 or else `Trim` of its first 237 characters plus "...", for blank content "Note about <title>" or "", and the finalised auto-tags; always at most 5 tags, none a title token or "untitled" |
| Seqs.Distinct | src/utils/wikiLinkParser.ts:34 | `[...new Set(xs)]` is duplicate-free, has exactly the elements of `xs` and is no longer |
| Seqs.DistinctFirstOccurrenceOrder | src/utils/wikiLinkParser.ts:34 | a `Set` iterates in first-insertion order |
| Seqs.Filter | src/services/noteService.ts:18 | `filter` keeps exactly the elements that pass |
| Seqs.Count | src/services/chapterService.ts:18 | an element's occurrence count is zero exactly when it is absent |
| Sorting.SortByKeyDesc | src/services/chapterService.ts:35 | sorting by a descending numeric key gives a non-increasing permutation |
| Sorting.SortByKeyDescStable | src/services/chapterService.ts:35 | elements with equal keys keep their relative order, as `Array.prototype.sort` is stable |
| Sorting.SortStrings | src/services/noteService.ts:103 | the default `sort()` gives a permutation in code-point order (equal to code-unit order below U+10000) |
| Sorting.SortDistinctIsStrict | src/services/noteService.ts:103 | sorting distinct strings gives a strictly increasing list |
| Sorting.SortedElements | src/services/noteService.ts:103 | `[...tagSet].sort()` lists each element of the set once, in increasing order |
| Strings.TrimSpec | src/utils/wikiLinkParser.ts:10 | `trim` removes exactly the leading and trailing white space |
| Strings.TrimmedFromIsTrim | src/services/aiService.ts:108 | a string cut by white space from both ends with none left at either end is the `trim` of the original |
| Strings.TrimEmptyIff | src/services/aiService.ts:11-12 | a string trims to empty exactly when it is all white space |
| Strings.ToLowerIsLower | src/services/noteService.ts:11 | `toLowerCase` leaves no upper-case letter and is idempotent |
| Strings.SplitJoined | src/components/map/MapView.tsx:125 | splitting `x|y` at the bar, when neither part holds one, gives `[x, y]` |
| Strings.JoinSplit | src/components/map/MapView.tsx:114-125 | joining the pieces of a split with the separator gives back the string |
| OrderedMaps.Put | src/services/chapterService.ts:15-18 | `Map.set` updates the value and appends a new key at the end of the iteration order |

## Left out

- The Gemini HTTP calls are not modelled: prompt building, `fetch`, response decoding and `JSON.parse`. `SummarizeAndTag` takes the API key and the parsed reply (or its absence) as parameters.
- The error messages `summarizeAndTag` builds on the online path are not returned to callers, so they are not modelled.
- Dexie is not modelled. The two tables are Dafny maps, each transaction is one method, and `bulkPut` is a left-to-right put.
- A failed `db.notes.add` on an existing id is modelled as a failed, rolled-back `create`. Other database failures are not modelled.
- `generateNoteId` is not modelled, and neither are clocks. A new note's id and the current time are parameters.
- Timestamps are integers. Pair keys may be split at `|`, because ids are `yyyyMMddHHmmss` strings and hold no bar.
- The note store's `updateNote` and `deleteNote` catch errors from the service. The repository's `Update` and `Delete` never fail in this model, so those catch branches are not modelled.
- The `catch` of `loadNotes` and `searchNotes` is not modelled, for the same reason.
- The rethrow in `createNote` becomes the returned `Failure`.
- `NoteStore.Store.LoadNotes`, `NoteStore.Store.SearchNotes`: these do not model the intermediate `isLoading: true` write that a renderer could observe between the two `set` calls. They model only the final state.
- NoteStore.Store.CreateNote: the intermediate `{ isLoading: true, error: null }` write made before the service call is awaited is not modelled. The method states only the state after the action ends.
- ArgumentMapper.Mapper.HandleAnalyze: the state while the AI request is pending, with `isAnalyzing` true and the error cleared, is not modelled. The method states only the state after the analysis ends, so `isAnalyzing` is always false there.
- ArgumentMapper.Mapper.ClickTag: the same pending state is not modelled for a click either.
- Each store action and each analysis runs to completion as one step. Actions interleaving at an `await` are not modelled, such as a `loadNotes` snapshot overwriting a note that `createNote` prepended meanwhile, or two analyses overlapping after the selected tag changes.
- Locale-aware `localeCompare` in the tag group list is modelled as code-point order.
- `toLowerCase` is modelled on ASCII letters only.
- Strings are sequences of Unicode code points, while JavaScript's `length`, `slice`, indices and default `sort()` count and compare UTF-16 code units. The two agree for text below U+10000 only; the members below inherit this.
- WikiLinkParser.LinkOfSpec: the 50-character context offsets count code points, not UTF-16 code units, so text above U+FFFF near a link gives a wider window in the model.
- WikiLinkParser.ContextHoldsMatch: its bound of the match's length plus 100 counts code points, for the same reason.
- AiService.GenerateSummary: the 240-character cap and the 237-character cut count code points, so a draft with characters above U+FFFF can be kept whole in the model where the app truncates it.
- AiService.SummarizeAndTag: the online `slice(0, 240)` and the offline cap count code points, not UTF-16 code units.
- Sorting.SortStrings: orders by code point, which puts characters above U+FFFF after U+E000–U+FFFF, where the default `sort()` puts them before.
- MapView.SortedPairSpec: the pair is sorted by code point, with the same difference from code-unit order above U+FFFF.
- `charCodeAt` is modelled as the character's value, which equals the UTF-16 code unit only for characters below U+10000. Surrogate pairs are not modelled.
- Numbers given to the UI threshold setters are NaN or finite. ±Infinity is not modelled.
- The `document` class toggle in `toggleDarkMode` is a DOM write and is not modelled.
- The zustand `persist` layer's storage I/O is not modelled. Only the choice of persisted fields (`partialize`) and restoring from them are.
- `MapView` loads `noteLinks` from the database in an effect. It is a parameter of `GraphData`.
- The map view's recency colouring, node sizes, link colours and canvas drawing depend on `Date.now()` and floating point, and are not modelled.
- The shelf's `selectedLabel` text and the confirmation message are number-to-text formatting for display, and are not modelled.
- The answer to `window.confirm` is the `confirmed` parameter of `HandleDeleteSelected`.
- The argument mapper does not model the contents of the AI analysis, which is an opaque string in the model.
- The argument mapper's fallback message "Analysis failed" for a non-`Error` throw is not modelled. A failed reply carries its message.
- The argument mapper's result rendering is display-only and is not modelled. A tag click together with the effect it triggers is `ArgumentMapper.Mapper.ClickTag`: `SelectTag` followed, for a changed non-empty tag, by `HandleAnalyze`.
- The CSS class lookups `widths[...]` and `heights[...]` are not modelled. The book look stops at the variant numbers.
- The temporal graph, knowledge chat, resurfacing, synthesis, reading importer, editor, header, landing, settings and markdown components are not part of this model. They are UI, date arithmetic or AI calls.
- `getByTag` is not part of this model. It is not used by the modelled core.
- `getBacklinks` and `getForwardLinks` return sets rather than index-ordered arrays, so their order is left out.

## Findings

| source | as written | input that shows it | evidently intended | confidence | as-written member | corrected member |
|---|---|---|---|---|---|---|
| src/components/notes/NoteListItem.tsx:26 | `(note.id.charCodeAt(1) ?? 0) % 3`: `charCodeAt` past the end returns `NaN`, which is not nullish, so the `?? 0` never applies and the width variant is `NaN` | a note whose id has one character, e.g. `"a"`; `generateNoteId` makes 14-digit `yyyyMMddHHmmss` ids, so only ids it did not make, such as imported or hand-made records, have one character | a missing second character counts as code 0, giving width variant 0 | not executed | NoteListItem.WidthVariantNaNForShortId | NoteListItem.WidthVariant |
