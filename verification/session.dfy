/**
 * The application state around the entity store: the loaded lesson, the
 * view, the selection and reading highlights, and the bank-edit session
 * (which entry is being edited and the text it had when editing began).
 * `startFresh` and the bank editor's Escape key live here.
 */
module Session {
  import opened Wrappers
  import opened Seqs
  import opened Types
  import opened Store
  import opened Bank
  import opened Export
  import opened Text

  datatype View = EDIT | FINISH

  /** The read-only lesson snapshot: the mentor text (title, paragraphs, sentences) and the starting bank. */
  datatype Lesson = Lesson(
    id: string,
    title: string,
    mentorTitle: string,
    paragraphs: seq<Paragraph>,
    sentences: map<string, Sentence>,
    defaultBank: seq<BankSentence>)

  datatype AppState = AppState(
    lesson: Option<Lesson>,
    ws: Workspace,
    selected: Option<string>,
    reading: Option<string>,
    view: View,
    editingBank: Option<string>,
    preEditBank: string)

  /** The entity store a lesson starts from. */
  function LessonWorkspace(l: Lesson): Workspace
  {
    Workspace(l.sentences, l.defaultBank, l.paragraphs)
  }

  /** The state before any lesson has loaded. */
  function Initial(): AppState
  {
    AppState(None, Workspace(map[], [], []), None, None, EDIT, None, "")
  }

  /** A lesson arriving from the loader: it becomes current and the store is copied from it. */
  function LoadLesson(st: AppState, l: Lesson): (r: AppState)
    ensures r.lesson == Some(l)
    ensures r.ws.sentences == l.sentences && r.ws.bank == l.defaultBank && r.ws.paragraphs == l.paragraphs
    ensures r.(lesson := st.lesson, ws := st.ws) == st
  {
    st.(lesson := Some(l), ws := LessonWorkspace(l))
  }

  /**
   * `startFresh` as written: with a lesson loaded, sentences and bank are
   * copied back from it, selection and reading are cleared and the view
   * returns to EDIT; the paragraphs are left as they are.
   */
  function StartFresh(st: AppState): (r: AppState)
    ensures st.lesson.None? ==> r == st
    ensures st.lesson.Some? ==>
      && r.ws.sentences == st.lesson.value.sentences
      && r.ws.bank == st.lesson.value.defaultBank
      && r.ws.paragraphs == st.ws.paragraphs
      && r.selected.None? && r.reading.None? && r.view == EDIT
      && r.(ws := st.ws, selected := st.selected, reading := st.reading, view := st.view) == st
  {
    if st.lesson.None? then st
    else
      var l := st.lesson.value;
      st.(ws := st.ws.(sentences := l.sentences, bank := l.defaultBank), selected := None, reading := None, view := EDIT)
  }

  /** `startFresh` with the paragraphs reset as well, so the whole store is the lesson's again. */
  function StartFreshCorrected(st: AppState): (r: AppState)
    ensures st.lesson.None? ==> r == st
    ensures st.lesson.Some? ==>
      && r.ws == LessonWorkspace(st.lesson.value)
      && r.selected.None? && r.reading.None? && r.view == EDIT
      && r.(ws := st.ws, selected := st.selected, reading := st.reading, view := st.view) == st
  {
    if st.lesson.None? then st
    else
      var l := st.lesson.value;
      st.(ws := LessonWorkspace(l), selected := None, reading := None, view := EDIT)
  }

  /** Download / copy: no lesson, no document; otherwise the export under the mentor text's title. */
  function ExportDocument(st: AppState): (r: Option<string>)
    ensures r.Some? <==> st.lesson.Some? && AllReferenced(st.ws)
    ensures r.Some? ==> StartsWith(r.value, st.lesson.value.mentorTitle + "\n\n")
    ensures st.lesson.Some? ==> r == ExportText(st.lesson.value.mentorTitle, st.ws)
  {
    if st.lesson.None? then None else ExportText(st.lesson.value.mentorTitle, st.ws)
  }

  /** Double-clicking bank entry `k` opens its editor and saves its current text for Escape. */
  function BeginBankEdit(st: AppState, k: nat): (r: AppState)
    requires k < |st.ws.bank|
    ensures r.editingBank == Some(st.ws.bank[k].id()) && r.preEditBank == st.ws.bank[k].sentence.currentText
    ensures r.(editingBank := st.editingBank, preEditBank := st.preEditBank) == st
  {
    st.(editingBank := Some(st.ws.bank[k].id()), preEditBank := st.ws.bank[k].sentence.currentText)
  }

  /**
   * A keystroke in the open bank editor: every entry carrying the edited id
   * shows the input's value; every other entry, every other field of those
   * entries, the sentences, the paragraphs and the rest of the state are kept.
   * With no editor open nothing changes.
   */
  function TypeBankEdit(st: AppState, text: string): (r: AppState)
    ensures st.editingBank.None? ==> r == st
    ensures r.(ws := st.ws) == st
    ensures st.editingBank.Some? ==> BankTextSet(st.ws, r.ws, st.editingBank.value, text)
  {
    match st.editingBank
    case None => st
    case Some(id) => st.(ws := UpdateBankSentence(st.ws, id, text))
  }

  /**
   * `after` is `before` with the current text of every bank entry carrying
   * `id` set to `text`: positions, sections, every other field and every other
   * entry are kept, and so are the sentences and the paragraphs.
   */
  predicate BankTextSet(before: Workspace, after: Workspace, id: string, text: string)
  {
    && after.sentences == before.sentences && after.paragraphs == before.paragraphs
    && |after.bank| == |before.bank|
    && forall j :: 0 <= j < |before.bank| ==>
         && after.bank[j].section == before.bank[j].section
         && after.bank[j].id() == before.bank[j].id()
         && after.bank[j].sentence.currentText == (if before.bank[j].id() == id then text else before.bank[j].sentence.currentText)
         && after.bank[j].sentence.(currentText := before.bank[j].sentence.currentText) == before.bank[j].sentence
  }

  /** A run of keystrokes, one `TypeBankEdit` each. */
  function TypeBankEdits(st: AppState, texts: seq<string>): (r: AppState)
    ensures r.editingBank == st.editingBank && r.preEditBank == st.preEditBank && r.lesson == st.lesson
    decreases |texts|
  {
    if |texts| == 0 then st else TypeBankEdits(TypeBankEdit(st, texts[0]), texts[1..])
  }

  /**
   * Escape in the bank editor: every entry carrying the edited id shows the
   * text saved when editing began, and the editor closes; everything else is
   * kept, the saved text included.
   */
  function EscapeBankEdit(st: AppState): (r: AppState)
    ensures r.editingBank.None?
    ensures st.editingBank.None? ==> r == st
    ensures r.(ws := st.ws, editingBank := st.editingBank) == st
    ensures st.editingBank.Some? ==> BankTextSet(st.ws, r.ws, st.editingBank.value, st.preEditBank)
  {
    match st.editingBank
    case None => st
    case Some(id) => st.(ws := UpdateBankSentence(st.ws, id, st.preEditBank), editingBank := None)
  }

  /** Enter or leaving the field in the bank editor: the editor closes and the typed text stays. */
  function CommitBankEdit(st: AppState): (r: AppState)
    ensures r.editingBank.None? && r.ws == st.ws
    ensures r.(editingBank := st.editingBank) == st
  {
    st.(editingBank := None)
  }

  /**
   * `after` is `before` with one My Sentences entry appended, carrying `newId`,
   * the function `f` and its template as text; sentences and paragraphs kept.
   */
  predicate TemplateAppended(before: Workspace, after: Workspace, f: SentenceFunction, newId: string)
  {
    && after.sentences == before.sentences && after.paragraphs == before.paragraphs
    && |after.bank| == |before.bank| + 1 && after.bank[..|before.bank|] == before.bank
    && var e := after.bank[|before.bank|];
       && e.section == MY_SENTENCES && e.id() == newId && e.sentence.func == f
       && e.sentence.currentText == Template(f)
  }

  /**
   * `createTemplatedSentence` as written: the entry is appended and its editor
   * opened, but the text saved for Escape is whatever an earlier edit left.
   */
  function CreateTemplated(st: AppState, f: SentenceFunction, newId: string): (r: AppState)
    ensures TemplateAppended(st.ws, r.ws, f, newId)
    ensures r.editingBank == Some(newId) && r.preEditBank == st.preEditBank
    ensures r.(ws := st.ws, editingBank := st.editingBank) == st
  {
    st.(ws := CreateTemplatedSentence(st.ws, f, newId), editingBank := Some(newId))
  }

  /** `createTemplatedSentence` saving the template as the text Escape restores. */
  function CreateTemplatedCorrected(st: AppState, f: SentenceFunction, newId: string): (r: AppState)
    ensures TemplateAppended(st.ws, r.ws, f, newId)
    ensures r.editingBank == Some(newId)
    ensures r.preEditBank == r.ws.bank[|st.ws.bank|].sentence.currentText
    ensures r.(ws := st.ws, editingBank := st.editingBank, preEditBank := st.preEditBank) == st
  {
    st.(ws := CreateTemplatedSentence(st.ws, f, newId), editingBank := Some(newId), preEditBank := Template(f))
  }

  // ---- Properties: reset ----

  /** Resetting twice is resetting once. */
  lemma StartFreshIdempotent(st: AppState)
    ensures StartFresh(StartFresh(st)) == StartFresh(st)
    ensures StartFreshCorrected(StartFreshCorrected(st)) == StartFreshCorrected(st)
  {
  }

  /**
   * As written, a reset after a bank item was dropped into the composition
   * keeps the minted id listed while the sentence map no longer has it, so
   * the document can no longer be exported.
   */
  lemma StartFreshDangles(st: AppState, id: string, i: nat)
    requires st.lesson.Some? && i < |st.ws.paragraphs|
    requires id in st.ws.paragraphs[i].sentenceIds && id !in st.lesson.value.sentences
    ensures !AllReferenced(StartFresh(st).ws)
    ensures ExportDocument(StartFresh(st)).None?
  {
  }

  /** A concrete case: a lesson with one sentence, after dropping a bank item into its paragraph and resetting. */
  lemma StartFreshDanglesExample()
    ensures var s1 := Sentence("s1", "Rocks break.", "Rocks break.", INTRO, None, None);
            var b1 := Sentence("bank1", "Water flows.", "Water flows.", EXAMPLE_DETAIL, None, None);
            var l := Lesson("demo", "Demo lesson", "Demo", [Paragraph("p1", ["s1"])], map["s1" := s1], [BankSentence(b1, STARTERS)]);
            var dropped := Workspace(map["s1" := s1, "custom-1" := b1.(id := "custom-1")],
                                     [BankSentence(b1, STARTERS)],
                                     [Paragraph("p1", ["s1", "custom-1"])]);
            var st := LoadLesson(Initial(), l).(ws := dropped);
            && ExportDocument(st).Some?
            && ExportDocument(StartFresh(st)).None?
            && ExportDocument(StartFreshCorrected(st)) == Some("Demo\n\nRocks break.")
  {
    var s1 := Sentence("s1", "Rocks break.", "Rocks break.", INTRO, None, None);
    var b1 := Sentence("bank1", "Water flows.", "Water flows.", EXAMPLE_DETAIL, None, None);
    var l := Lesson("demo", "Demo lesson", "Demo", [Paragraph("p1", ["s1"])], map["s1" := s1], [BankSentence(b1, STARTERS)]);
    var dropped := Workspace(map["s1" := s1, "custom-1" := b1.(id := "custom-1")],
                             [BankSentence(b1, STARTERS)],
                             [Paragraph("p1", ["s1", "custom-1"])]);
    var st := LoadLesson(Initial(), l).(ws := dropped);
    assert "custom-1" in StartFresh(st).ws.paragraphs[0].sentenceIds;
    var reset := StartFreshCorrected(st);
    assert reset.ws.paragraphs == [Paragraph("p1", ["s1"])] && reset.ws.sentences["s1"].currentText == "Rocks break.";
    ExportSingle("Demo", reset.ws, "p1", "s1");
    assert "Demo" + "\n\n" + "Rocks break." == "Demo\n\nRocks break.";
    assert AllReferenced(dropped);
    assert ExportDocument(st).Some?;
    StartFreshDangles(st, "custom-1", 0);
    assert ExportDocument(StartFresh(st)).None?;
    assert ExportDocument(StartFreshCorrected(st)) == Some("Demo\n\nRocks break.");
  }

  /**
   * With the correction, a reset from any state restores a lesson-shaped
   * store: exportable, no id listed twice, distinct paragraph ids, whenever
   * the lesson itself is so.
   */
  lemma StartFreshCorrectedRestores(st: AppState)
    requires st.lesson.Some?
    requires var w := LessonWorkspace(st.lesson.value);
             AllReferenced(w) && NoDuplicates(w.paragraphs) && UniqueParagraphIds(w.paragraphs)
    ensures var r := StartFreshCorrected(st);
            && ExportDocument(r).Some?
            && NoDuplicates(r.ws.paragraphs) && UniqueParagraphIds(r.ws.paragraphs)
            && r.ws == LoadLesson(st, st.lesson.value).ws
  {
  }

  // ---- Properties: bank edit session ----

  /** Keystrokes in the editor of entry `id` amount to the last one (or nothing, for none). */
  lemma {:induction false} TypeBankEditsLast(st: AppState, id: string, texts: seq<string>)
    requires st.editingBank == Some(id)
    ensures |texts| == 0 ==> TypeBankEdits(st, texts) == st
    ensures |texts| > 0 ==> TypeBankEdits(st, texts) == st.(ws := UpdateBankSentence(st.ws, id, texts[|texts| - 1]))
    decreases |texts|
  {
    if |texts| > 1 {
      var next := TypeBankEdit(st, texts[0]);
      TypeBankEditsLast(next, id, texts[1..]);
      BankEditLastWins(st.ws, id, texts[0], texts[|texts| - 1]);
    }
  }

  /**
   * Opening the editor of an entry whose id is unique in the bank, typing any
   * keystrokes, and pressing Escape leaves the bank as it was.
   */
  lemma BankEditEscapeRestores(st: AppState, k: nat, texts: seq<string>)
    requires k < |st.ws.bank|
    requires forall j :: 0 <= j < |st.ws.bank| && st.ws.bank[j].id() == st.ws.bank[k].id() ==> j == k
    ensures EscapeBankEdit(TypeBankEdits(BeginBankEdit(st, k), texts)).ws == st.ws
  {
    var id := st.ws.bank[k].id();
    var editing := BeginBankEdit(st, k);
    TypeBankEditsLast(editing, id, texts);
    var saved := st.ws.bank[k].sentence.currentText;
    if |texts| > 0 {
      BankEditRestore(st.ws, id, texts[|texts| - 1], saved);
    } else {
      BankEditRestore(st.ws, id, saved, saved);
      BankEditLastWins(st.ws, id, saved, saved);
    }
  }

  /**
   * Opening the editor of entry `k`, typing, and pressing Enter (or leaving
   * the field) keeps the last typed text on every entry with its id and
   * closes the editor; nothing else in the store changes.
   */
  lemma BankEditCommitKeeps(st: AppState, k: nat, texts: seq<string>)
    requires k < |st.ws.bank| && |texts| > 0
    ensures var r := CommitBankEdit(TypeBankEdits(BeginBankEdit(st, k), texts));
            && r.editingBank.None?
            && BankTextSet(st.ws, r.ws, st.ws.bank[k].id(), texts[|texts| - 1])
  {
    TypeBankEditsLast(BeginBankEdit(st, k), st.ws.bank[k].id(), texts);
  }

  /**
   * As written, pressing Escape straight after creating a templated sentence
   * (right after a lesson has loaded, when no edit has saved a text yet)
   * blanks the new entry instead of keeping its template.
   */
  lemma CreateThenEscapeBlanks(l: Lesson, f: SentenceFunction, newId: string)
    ensures var r := EscapeBankEdit(CreateTemplated(LoadLesson(Initial(), l), f, newId));
            && |r.ws.bank| == |l.defaultBank| + 1
            && r.ws.bank[|l.defaultBank|].sentence.currentText == ""
            && r.ws.bank[|l.defaultBank|].sentence.currentText != Template(f)
  {
    var created := CreateTemplated(LoadLesson(Initial(), l), f, newId);
    assert created.preEditBank == "";
    assert created.ws.bank[|l.defaultBank|].id() == newId;
    assert |Template(f)| > 0;
  }

  /**
   * With the template saved, Escape straight after creating a templated
   * sentence leaves the bank exactly as creation made it, whenever the new id
   * is fresh in the bank.
   */
  lemma CreateThenEscapeKeepsTemplate(st: AppState, f: SentenceFunction, newId: string)
    requires forall j :: 0 <= j < |st.ws.bank| ==> st.ws.bank[j].id() != newId
    ensures EscapeBankEdit(CreateTemplatedCorrected(st, f, newId)).ws == CreateTemplatedSentence(st.ws, f, newId)
  {
    var created := CreateTemplatedSentence(st.ws, f, newId);
    BankEditRestore(created, newId, Template(f), Template(f));
    BankEditLastWins(created, newId, Template(f), Template(f));
  }
}
