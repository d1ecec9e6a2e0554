# A verified model of the WIDA Explain writing workspace

The WIDA Explain tool is a drag-and-drop writing workspace. A lesson brings a
mentor text: a title, paragraphs that list sentence ids, and a map from id to
sentence. It also brings a bank of sentences, grouped into sections (Starters,
My Sentences, Mentor Sentences, Trash). A student composes an explanation in
three ways:
- dragging bank sentences into paragraphs;
- reordering sentences and moving them between paragraphs;
- sending sentences back to the bank.

Sentences can also be edited, whole or one chunk at a time. The composition
can be exported as plain text, and the workspace can be reset.

This project models the state logic of the application component in Dafny.
All of it lives in one component, and the model keeps it as pure functions
over an immutable store:

- `Store.Workspace` holds the sentence map, the bank and the paragraphs.
  `Store` also defines the invariants that are argued over:
  - no sentence id is listed twice across paragraphs;
  - paragraph ids are distinct;
  - every listed id names a sentence;
  - a sentence's chunks concatenate to its text.
- `Events` resolves drag events into container ids, the way the handlers do.
  The dragged item's sortable list falls back to `"bank-droppable"`. The drop
  candidate's list falls back to its own id. Paragraph lists are named
  `"p-" + id`.
- `Hover` is the hover handler, which rearranges the paragraphs live on every
  hover tick. `Transfer` is the drop handler and the remove button: minting a
  `custom-…` sentence for a dropped bank item, sending a sentence back to the
  bank, and reordering the bank.
- `Lifecycle` follows whole gestures: a hover and then a drop, a hover and
  then a cancelled drop, or a drop and then the remove button.
- `Bank` covers the bank lifecycle: templated creation, trash, permanent
  delete and in-place editing.
- `Editing` covers sentence and chunk editing.
- `Export` covers the download and copy text.
- `Session` holds the surrounding application state: the loaded lesson, the
  reset, and the bank editor's Escape key.
- `Styles` is the colour-class mapping.
- `Sample` transcribes the sample content of `src/data.ts` (`MENTOR_CONTENT`
  and `DEFAULT_BANK`) as a concrete lesson, and proves the store invariants
  for it once loaded.

Ids that the source derives from the clock (`custom-${Date.now()}`,
`bank-${Date.now()}`) become parameters. Lemmas that need them unused say so
with `Store.Fresh`.

Behaviours of the code worth knowing:
- Removing a sentence from the composition appends a new Mentor Sentences
  entry every time. It does not deduplicate by text.
- A trashed entry can only be deleted; nothing moves it back out of Trash.
- At drop time, the raw bank id is replaced by the minted id only in the
  destination paragraph. Every other paragraph merely has the raw id
  filtered out.
- The chunk invariant is not kept by every operation. A whole-sentence edit
  and a bank edit change the text but not the chunks. A templated sentence
  is created with an empty chunk list and a non-empty text.
  `Editing.MentorEditConsistency` and `Bank.TemplateBreaksChunkInvariant`
  state this.
- Paragraphs dragged in discourse mode are rendered as draggable, but no
  handler moves them.
- Bank cards take their colour from `function` alone. Sentence cards use
  `currentFunction || function`.

## Model

| member | source | states |
|---|---|---|
| Events.ContainerNaming | src/App.tsx:574 | the list id `"p-" + pid` of a paragraph is recognised as a paragraph container and decodes back to `pid`; the bank's id is never taken for a paragraph |
| Events.ParagraphContainerIsPrefixed | src/App.tsx:240-241 | the character test used by the model holds exactly when the list id starts with `"p-"` |
| Hover.DragOver | src/App.tsx:227-292 | a hover never touches the sentence map or the bank, and keeps the number, order and ids of the paragraphs |
| Hover.DragOverIgnored | src/App.tsx:229-237 | with no drop candidate, or hovering the dragged item over itself, nothing changes |
| Hover.DragOverReorder | src/App.tsx:239-253 | inside one paragraph, the dragged sentence lands at the hovered sentence's index and the other sentences keep their relative order (so `arrayMove` of [s1, s2, s3] with s3 over s1 can only give [s3, s1, s2]); only that paragraph changes, and only as a permutation; if either id is not listed there, nothing changes; no id's total count changes |
| Hover.PlaceIdsPosition | src/App.tsx:266-269 | filtering out the dragged id and splicing it back puts it at the hovered id's original index, or at the end when the hovered id is absent |
| Hover.DragOverAcross | src/App.tsx:255-291 | hovering a paragraph from another container lists the dragged id exactly once, in that paragraph and at the hovered index (or the end), with that paragraph's other sentences in their old order; every other paragraph has only lost that id; every other id keeps its count |
| Hover.MoveAcrossPlaced | src/App.tsx:259-289 | the same facts, stated on the paragraph list alone, including the destination's other sentences keeping their order |
| Hover.ReorderIdsKeepsOthers | src/App.tsx:243-247 | `arrayMove` inside a paragraph leaves the list without the dragged id exactly as it was |
| Hover.PlaceIdsKeepsOthers | src/App.tsx:266-269 | filtering the dragged id out and splicing it back leaves the list without the dragged id exactly as it was |
| Hover.DragOverUntracked | src/App.tsx:276 | an item from outside the bank that no paragraph lists changes nothing when hovered over a paragraph |
| Hover.DragOverKeepsNoDuplicates | src/App.tsx:227-292 | every hover keeps each id in at most one place across paragraphs, and keeps paragraph ids distinct |
| Hover.DragOverKeepsChunks | src/App.tsx:227-292 | a hover keeps every sentence's chunks spelling its text, since it touches only the paragraph lists |
| Transfer.RemoveEverywhere | src/App.tsx:347-350 | each paragraph keeps its id and its list with the removed id filtered out, in order; so the id is listed nowhere and every other id keeps its count |
| Transfer.HandleRemoveSentence | src/App.tsx:339-351 | an unknown id changes nothing; otherwise the sentence is cloned onto the end of the bank under Mentor Sentences with the new id, and each paragraph's list is the old one with that id filtered out; no sentence or earlier bank entry changes |
| Transfer.DragEnd | src/App.tsx:294-337 | a drop never changes an existing sentence, only adds the minted id to the map, keeps the paragraph ids, and only adds (at most one) or reorders bank entries; with no drop target, or a drop that is neither bank to paragraph, paragraph to bank nor bank to bank (such as paragraph to paragraph), nothing changes |
| Transfer.MintIdsFacts | src/App.tsx:317-321 | in the destination list the minted id occurs exactly once, the raw bank id not at all, every other id as before, and the minted id sits where the preview was, at the hovered index, or at the end |
| Transfer.MintIdsInserted | src/App.tsx:318-320 | without a preview entry, the minted id is spliced in at the hovered index or appended |
| Transfer.MintIdsReplaced | src/App.tsx:317 | with a preview entry, the minted id takes the preview's place |
| Transfer.MintIntoCounts | src/App.tsx:313-326 | over all paragraphs, the minted id occurs once if the destination exists, the raw id never, every other id as before |
| Transfer.DragEndMint | src/App.tsx:306-326 | a bank item dropped on a paragraph becomes a new sentence with the item's text under the minted id; the bank is unchanged; the raw id is gone and the minted id is listed once, in the destination, at its placed index; every other paragraph's list only loses the raw id |
| Transfer.DragEndMintMissing | src/App.tsx:308-309 | a bank-to-paragraph drop whose item is not in the bank changes nothing |
| Transfer.DragEndToBank | src/App.tsx:327-331 | a paragraph sentence dropped on the bank is exactly the remove button |
| Transfer.DragEndBankReorder | src/App.tsx:332-333 | a drop inside the bank is a permutation of the whole bank: the dragged entry lands at the hovered entry's index, every entry comes from its shifted position, and dropping on itself changes nothing |
| Transfer.DragEndKeepsNoDuplicates | src/App.tsx:294-337 | given an unused id to mint, every drop keeps each id in at most one place and paragraph ids distinct |
| Transfer.DragEndKeepsChunks | src/App.tsx:294-337 | every drop keeps each sentence's chunks spelling its text: a minted sentence copies a bank entry that already did |
| Transfer.RemoveKeepsChunks | src/App.tsx:339-351 | the remove button keeps every chunk list spelling its text, including that of the bank entry it appends |
| Transfer.UnmintIds | src/App.tsx:317-321 | removing a freshly minted id from the list it was minted into restores the list |
| Lifecycle.DragOverOtherCounts | src/App.tsx:227-292 | no hover changes how often an id other than the dragged one is listed |
| Lifecycle.DragOverKeepsReferenced | src/App.tsx:227-292 | hovering with a sentence of the map keeps every listed id known |
| Lifecycle.PreviewUnreferenced | src/App.tsx:262-273 | hovering a bank item over a paragraph lists its raw bank id, which names no sentence, so the document cannot be exported mid-drag |
| Lifecycle.CancelledPreviewDangles | src/App.tsx:297 | such a hover followed by a drop with no target leaves the raw id listed and the export undefined |
| Lifecycle.PreviewThenBankDropDangles | src/App.tsx:332-333 | such a hover followed by a drop on a bank entry reorders the bank but leaves the paragraphs as the hover made them, with the raw id listed and the export undefined |
| Lifecycle.DragEndCorrected | src/App.tsx:294-337 | the drop handler in which a bank item's drop that does not land on a paragraph (no target, or a bank entry) withdraws the item's preview: each paragraph's list loses the raw id and nothing else; the sentences, bank and paragraph ids are those of the original; every other drop is the original |
| Lifecycle.DragEndCorrectedReferenced | src/App.tsx:294-337 | with that correction, any drop of a bank item from a store whose only unknown id is the item's raw id leaves every listed id known and the raw id nowhere |
| Lifecycle.PreviewThenAnyDrop | src/App.tsx:262-337 | with that correction, any hover of a bank item followed by any drop of it leaves every listed id known and the document exportable |
| Lifecycle.PreviewThenDrop | src/App.tsx:262-326 | a bank item hovered over a paragraph and dropped there leaves every listed id known, no id listed twice, and the raw id nowhere |
| Lifecycle.DropRepairsReferenced | src/App.tsx:313-326 | a bank-to-paragraph drop makes every id known when only the raw bank id was unknown |
| Lifecycle.RemoveKeepsReferenced | src/App.tsx:339-351 | removing a sentence keeps every listed id known |
| Lifecycle.DragEndKeepsReferenced | src/App.tsx:294-337 | every drop keeps every listed id known |
| Lifecycle.DropThenRemove | src/App.tsx:227-351 | hovering a bank item over a paragraph, dropping it there and pressing remove on the new sentence restores every paragraph of the store before the hover; the bank gains one Mentor Sentences entry with the item's sentence, and the map keeps the minted sentence |
| Bank.CreateTemplatedSentence | src/App.tsx:129-147 | one My Sentences entry is appended, with the chosen function's template as both texts, the new id and an empty chunk list; nothing else changes |
| Bank.TemplatesDistinct | src/App.tsx:130-136 | different functions have different templates |
| Bank.TemplateBreaksChunkInvariant | src/App.tsx:138-145 | a templated entry's empty chunk list does not spell its text |
| Bank.MoveToTrash | src/App.tsx:153 | the entries with the id move to Trash in place; texts, order and everything else stay |
| Bank.DeletePermanently | src/App.tsx:154 | exactly the entries with the id disappear, with their multiplicities kept for all others |
| Bank.UpdateBankSentence | src/App.tsx:155 | the entries with the id get the new current text; sections, order and all other fields stay |
| Bank.PressDelete | src/App.tsx:558 | on a trashed entry, the bank becomes the permanent delete of its id: every entry with that id is gone, and the others keep their multiplicities and their order; on any other entry, every entry sharing its id is in Trash at the same place, no text changes, and entries with other ids stay; sentences and paragraphs never change |
| Bank.RemoveByIdAppend | src/App.tsx:154 | deleting distributes over concatenation, so the survivors keep their relative order |
| Bank.DeleteIdempotent | src/App.tsx:154 | deleting twice is deleting once |
| Bank.TrashThenDelete | src/App.tsx:153-154 | trashing and then deleting gives the bank that deleting straight away gives |
| Bank.TrashIdempotent | src/App.tsx:153 | trashing twice is trashing once |
| Bank.PressDeleteTwice | src/App.tsx:558 | pressing the delete button of an untrashed entry twice trashes it, then removes every entry with its id |
| Bank.BankEditRestore | src/App.tsx:556 | writing back the saved text after an edit restores the bank |
| Bank.BankEditLastWins | src/App.tsx:155 | of two edits of one entry only the later is visible |
| Bank.TrashAndDeleteKeepConsistency | src/App.tsx:153-154 | trash and delete keep every bank sentence's chunks in step with its text |
| Editing.FormatChunkText | src/App.tsx:168 | a stored chunk text starts and ends with a space and trims to the trimmed input; it is a lone space exactly when the input is blank, and otherwise exactly two characters longer than the trimmed input, so one space each side |
| Editing.FormatChunkTextFixpoint | src/App.tsx:392-393 | formatting the trimmed stored text gives the stored text back |
| Editing.UpdateChunkText | src/App.tsx:164-173 | a missing sentence or one without chunks changes nothing; otherwise only the chunks with that id get the formatted text, the sentence's text becomes their concatenation, and nothing else changes |
| Editing.UpdateChunkTextKeepsConsistency | src/App.tsx:164-173 | a chunk edit keeps every sentence consistent with its chunks, and repairs the edited one |
| Editing.UpdateChunkTextIdempotent | src/App.tsx:164-173 | committing the same chunk edit twice is committing it once |
| Editing.RecommitUnchanged | src/App.tsx:388-394 | opening a chunk's editor, which shows the trimmed text, and committing it unchanged leaves the store as it was |
| Editing.EditedTextSplices | src/App.tsx:169-170 | after editing chunk `j`, the sentence reads as the chunks before it, the padded edit, then the chunks after it |
| Editing.UpdateMentorSentence | src/App.tsx:157-162 | only that sentence's current text changes, to the given text; its chunks and all other fields stay |
| Editing.MentorEditConsistency | src/App.tsx:157-162 | a whole-sentence edit keeps the sentence consistent exactly when it has no chunks or they spell the new text |
| Editing.MentorEditEscape | src/App.tsx:371 | writing the text saved at double-click back restores the store |
| Editing.MentorEditLastWins | src/App.tsx:157-162 | of two edits of one sentence only the later is visible |
| Export.Lookup | src/App.tsx:178 | defined exactly when every id names a sentence, and then lists their current texts in order |
| Export.ParagraphTexts | src/App.tsx:177-179 | one line per paragraph, its sentences joined by single spaces; defined exactly when every paragraph's ids are known |
| Export.ExportText | src/App.tsx:177-179 | the document is defined exactly when every listed id names a sentence, and then starts with the title and a blank line |
| Export.ExportAppendParagraph | src/App.tsx:177-179 | appending a paragraph appends a blank line and that paragraph's line to the document |
| Export.ExportFrame | src/App.tsx:190-192 | the document depends only on the paragraphs and the current texts of the sentences they list |
| Export.ExportSingle | src/App.tsx:177-179 | a lone paragraph holding one sentence exports as the title, a blank line and that sentence's text |
| Session.LoadLesson | src/App.tsx:85-88 | the lesson becomes current and the store is a copy of it; nothing else changes |
| Session.ExportDocument | src/App.tsx:175-179 | download and copy produce a document exactly when a lesson is loaded and every listed id names a sentence; it is the export of the store under the mentor text's title (not the lesson's own title), so it starts with that title and a blank line |
| Session.StartFresh | src/App.tsx:197-204 | with a lesson loaded, sentences and bank return to the lesson's, selection and reading are cleared, and the view returns to edit; the paragraphs are kept; without a lesson nothing changes |
| Session.StartFreshCorrected | src/App.tsx:197-204 | the reset that also restores the paragraphs, so the whole store is the lesson's |
| Session.StartFreshIdempotent | src/App.tsx:197-204 | resetting twice is resetting once, in both versions |
| Session.StartFreshDangles | src/App.tsx:197-204 | a reset after a minted sentence was listed leaves an unknown id listed, and the export undefined |
| Session.StartFreshDanglesExample | src/App.tsx:197-204 | a one-sentence lesson (lesson title and mentor title different) with a dropped bank item exports before the reset and not after it; the corrected reset exports the mentor title and the original text |
| Session.StartFreshCorrectedRestores | src/App.tsx:85-88 | the corrected reset gives the freshly loaded store, which is exportable and free of duplicates whenever the lesson is |
| Session.BeginBankEdit | src/App.tsx:554 | the double-click opens the entry's editor and saves its current text |
| Session.TypeBankEdit | src/App.tsx:556 | with no open editor nothing changes; otherwise the entries with the edited id show the typed text, every other entry, the sentences and the paragraphs stay, and the editing session is untouched |
| Session.EscapeBankEdit | src/App.tsx:556 | the editor is always closed afterwards; with one open, the entries with its id show the saved text and nothing else in the bank or store changes; the saved text itself stays |
| Session.BankEditCommitKeeps | src/App.tsx:554-556 | opening an entry's editor, typing, and pressing Enter or leaving the field closes the editor and keeps the last typed text on every entry with that id, with the rest of the store unchanged |
| Session.TypeBankEditsLast | src/App.tsx:556 | any run of keystrokes amounts to its last one |
| Session.BankEditEscapeRestores | src/App.tsx:554-556 | double-clicking an entry with a unique id, typing anything, and pressing Escape leaves the bank as it was |
| Session.CreateTemplated | src/App.tsx:147-148 | the bank keeps its entries and gains a My Sentences entry with the new id, the chosen function and the template as text; that entry's editor opens, but the saved text is whatever was saved before, not the template |
| Session.CreateTemplatedCorrected | src/App.tsx:147-148 | the same appended entry and open editor, with the saved text equal to the new entry's text |
| Session.CreateThenEscapeBlanks | src/App.tsx:42-148 | right after any lesson has loaded, Escape straight after creating a templated sentence blanks the new entry's text, which then differs from its template |
| Session.CreateThenEscapeKeepsTemplate | src/App.tsx:148 | with the corrected creation, Escape straight after creating leaves the bank as creation made it |
| Styles.SentenceClass | src/App.tsx:409 | a sentence card's class is `"function-"` followed by the lower-cased name of its override function when it has one, and of its own function otherwise |
| Styles.FunctionClassNaming | src/App.tsx:206-215 | each function's class is `"function-"` followed by its name in lower case |
| Styles.FunctionClassDefault | src/App.tsx:213 | the fallback class is used exactly for strings that are not function names |
| Styles.FunctionClassInjective | src/App.tsx:206-215 | distinct functions get distinct classes |
| Sample.SampleIdsDistinct | src/data.ts:5-22 | the mentor paragraphs list the eighteen sentence ids in order, each once |
| Sample.SampleReferenced | src/data.ts:5-150 | every id the sample paragraphs list has a mentor sentence |
| Sample.SampleChunksConsistent | src/data.ts:23-203 | no sentence or starter of the sample content has a chunk list that disagrees with its text (vacuously: none has chunks) |
| Sample.SampleLoadInvariants | src/data.ts:3-203 | loading the sample content of `src/data.ts` as a lesson gives a store with no id listed twice, distinct paragraph ids, every listed id known and every chunk list spelling its text, so the document can be exported |

## Left out

- Collision detection (`hybridCollision`) is left out. It is dnd-kit geometry; the model takes the resolved drop candidate as input.
- Transfer.DragEnd requires both bank indexes to exist for a drop inside the bank. `arrayMove` with an index of -1 is library behaviour that the model does not reproduce.
- Ids derived from `Date.now()` are parameters. Their uniqueness is a precondition of the lemmas that need it.
- Speech synthesis (`speak`, `readSentence`, `readFullText`) is left out. It is an I/O side effect; its text is the export body without the title.
- The Blob download, the clipboard write and the alert are left out. They are I/O; only the text they carry is modelled.
- Fetching lesson JSON, URL parameters and `handleSelectLesson` are left out. They are network and navigation; `Session.LoadLesson` takes the parsed lesson, and its validation of missing fields is not modelled.
- Rendering is left out, including the drag overlay, the landing page and `DraggableSentence`. It produces no state; only the class choice is modelled, in `Styles`.
- The mode, view and colour toggles, the selection and the creator menu are left out. They are plain setters with no logic to prove.
- The `activeId` overlay state set by the drag handlers is left out, for the same reason.
- Discourse-mode paragraph dragging is left out. No handler moves paragraphs.
- The `section` field copied with the bank item into the new sentence at App.tsx line 312 is dropped. Sentences in the model have no section.
- Phrase hotspots and the `AppState` interface in types.ts are left out. The component does not use them.
- Editing.UpdateMentorSentence requires the id to be in the map. Its only caller passes the id of a rendered sentence; on an unknown id the source would store a partial record.
- Styles.SentenceClass covers sentence cards only. Bank cards use `function` without the override; that is the same `FunctionClass` of a different field.
- The lesson files the component loads at App.tsx lines 70-88 (such as `g4-explain-weathering.json`) are not modelled; `Sample` transcribes `src/data.ts` instead, so its proved invariants say nothing about those files.
- `src/data.ts` has no lesson id or top-level title. `Sample.Weathering` uses `"weathering"` and the mentor title for them.

## Findings

| source | as written | input that shows it | evidently intended | confidence | as-written member | corrected member |
|---|---|---|---|---|---|---|
| src/App.tsx:197-204 | the reset copies the sentences and the bank back from the lesson but keeps the current paragraphs | a lesson with paragraph p1 = [s1]; drop a bank item so that p1 = [s1, custom-1]; press reset: p1 still lists custom-1, which the restored map lacks, so the export dereferences an undefined sentence | the reset restores the paragraphs too, as loading does | high, not executed | Session.StartFreshDanglesExample | Session.StartFreshCorrected |
| src/App.tsx:129-150 | creating a templated sentence opens its editor without saving the text that Escape restores | right after loading a lesson, create an INTRO sentence and press Escape: the new entry's text becomes "" instead of "To start with, ____." | the template is saved as the text to restore, as the double-click at line 554 does | high, not executed | Session.CreateThenEscapeBlanks | Session.CreateTemplatedCorrected |
| src/App.tsx:294-337 | a bank item's drop that does not land on a paragraph leaves the raw bank id that the hover preview inserted into a paragraph: a drop with no target returns at once (line 297), and a drop on another bank entry only reorders the bank (lines 332-333) | hover bank item bank1 over paragraph p1, then drop it on bank entry bank2: the bank is reordered and p1 still lists bank1, which names no sentence, so the export fails; releasing it outside every drop target has the same effect | a drop that does not land on a paragraph withdraws the preview | high, not executed | Lifecycle.PreviewThenBankDropDangles | Lifecycle.DragEndCorrected |
