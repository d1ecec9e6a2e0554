/**
 * The bank's own lifecycle: creating a sentence from a template, moving an
 * entry to the trash, deleting it for good, and editing its text in place.
 * None of these touch the sentence map or the paragraphs.
 */
module Bank {
  import opened Wrappers
  import opened Seqs
  import opened Types
  import opened Store

  /** The starter text offered for each function by the "new sentence" menu. */
  function Template(f: SentenceFunction): string
  {
    match f
    case INTRO => "To start with, ____."
    case SEQ => "Then, ____."
    case CAUSE_EFFECT => "Because of this, ____ happens."
    case EXAMPLE_DETAIL => "For example, ____."
    case CONCLUSION => "In conclusion, ____."
  }

  /** The bank entry `createTemplatedSentence` builds: template text, the chosen function, an empty chunk list. */
  function TemplateEntry(f: SentenceFunction, newId: string): BankSentence
  {
    BankSentence(Sentence(newId, Template(f), Template(f), f, None, Some([])), MY_SENTENCES)
  }

  /** `createTemplatedSentence`: one MY_SENTENCES entry is appended; nothing else changes. */
  function CreateTemplatedSentence(ws: Workspace, f: SentenceFunction, newId: string): (r: Workspace)
    ensures r.sentences == ws.sentences && r.paragraphs == ws.paragraphs
    ensures |r.bank| == |ws.bank| + 1 && r.bank[..|ws.bank|] == ws.bank
    ensures var e := r.bank[|ws.bank|];
            && e.section == MY_SENTENCES && e.id() == newId && e.sentence.func == f
            && e.sentence.originalText == e.sentence.currentText == Template(f)
            && e.sentence.chunks == Some([])
  {
    ws.(bank := ws.bank + [TemplateEntry(f, newId)])
  }

  /** `moveToTrash`: every entry with the id is relabelled TRASH, in place. */
  function MoveToTrash(ws: Workspace, id: string): (r: Workspace)
    ensures r.sentences == ws.sentences && r.paragraphs == ws.paragraphs
    ensures |r.bank| == |ws.bank|
    ensures forall i :: 0 <= i < |ws.bank| ==>
      && r.bank[i].sentence == ws.bank[i].sentence
      && r.bank[i].section == if ws.bank[i].id() == id then TRASH else ws.bank[i].section
  {
    ws.(bank := TrashById(ws.bank, id))
  }

  function TrashById(bank: seq<BankSentence>, id: string): (r: seq<BankSentence>)
    ensures |r| == |bank|
    ensures forall i :: 0 <= i < |bank| ==>
      r[i] == if bank[i].id() == id then bank[i].(section := TRASH) else bank[i]
  {
    if |bank| == 0 then []
    else [if bank[0].id() == id then bank[0].(section := TRASH) else bank[0]] + TrashById(bank[1..], id)
  }

  /** `deletePermanently`: the entries with the id are dropped; the rest keep their order. */
  function DeletePermanently(ws: Workspace, id: string): (r: Workspace)
    ensures r.sentences == ws.sentences && r.paragraphs == ws.paragraphs
    ensures forall b :: b in r.bank <==> b in ws.bank && b.id() != id
    ensures forall b :: multiset(r.bank)[b] == if b.id() == id then 0 else multiset(ws.bank)[b]
  {
    ws.(bank := RemoveById(ws.bank, id))
  }

  function RemoveById(bank: seq<BankSentence>, id: string): (r: seq<BankSentence>)
    ensures forall b :: multiset(r)[b] == if b.id() == id then 0 else multiset(bank)[b]
    ensures |r| <= |bank|
  {
    if |bank| == 0 then []
    else
      assert bank == [bank[0]] + bank[1..];
      if bank[0].id() == id then RemoveById(bank[1..], id)
      else [bank[0]] + RemoveById(bank[1..], id)
  }

  /** `updateBankSentence`: every entry with the id gets the new current text; sections and order stay. */
  function UpdateBankSentence(ws: Workspace, id: string, text: string): (r: Workspace)
    ensures r.sentences == ws.sentences && r.paragraphs == ws.paragraphs
    ensures |r.bank| == |ws.bank|
    ensures forall i :: 0 <= i < |ws.bank| ==>
      && r.bank[i].section == ws.bank[i].section
      && r.bank[i].sentence == if ws.bank[i].id() == id then ws.bank[i].sentence.(currentText := text) else ws.bank[i].sentence
  {
    ws.(bank := seq(|ws.bank|, i requires 0 <= i < |ws.bank| =>
      if ws.bank[i].id() == id then ws.bank[i].(sentence := ws.bank[i].sentence.(currentText := text)) else ws.bank[i]))
  }

  /**
   * The delete button of bank entry `k`: a trashed entry leaves the bank for
   * good, together with every entry sharing its id; any other entry (and every
   * entry sharing its id) moves to the trash in place.
   */
  function PressDelete(ws: Workspace, k: nat): (r: Workspace)
    requires k < |ws.bank|
    ensures r.sentences == ws.sentences && r.paragraphs == ws.paragraphs
    ensures ws.bank[k].section == TRASH ==>
      && (forall j :: 0 <= j < |r.bank| ==> r.bank[j].id() != ws.bank[k].id())
      && (forall b: BankSentence :: b.id() != ws.bank[k].id() ==> multiset(r.bank)[b] == multiset(ws.bank)[b])
      && r.bank == DeletePermanently(ws, ws.bank[k].id()).bank
    ensures ws.bank[k].section != TRASH ==>
      && |r.bank| == |ws.bank| && r.bank[k].section == TRASH
      && (forall j :: 0 <= j < |ws.bank| ==> r.bank[j].sentence == ws.bank[j].sentence)
      && (forall j :: 0 <= j < |ws.bank| && ws.bank[j].id() != ws.bank[k].id() ==> r.bank[j] == ws.bank[j])
      && (forall j :: 0 <= j < |ws.bank| && ws.bank[j].id() == ws.bank[k].id() ==> r.bank[j].section == TRASH)
  {
    if ws.bank[k].section == TRASH then
      var r := DeletePermanently(ws, ws.bank[k].id());
      assert forall j :: 0 <= j < |r.bank| ==> r.bank[j] in r.bank;
      r
    else MoveToTrash(ws, ws.bank[k].id())
  }

  // ---- Properties ----

  /** Different functions get different templates, so a template identifies the function it was made for. */
  lemma TemplatesDistinct(f: SentenceFunction, g: SentenceFunction)
    ensures Template(f) == Template(g) <==> f == g
  {
    if f != g {
      assert Template(f)[0] != Template(g)[0] || |Template(f)| != |Template(g)|;
    }
  }

  /** A templated entry's empty chunk list does not spell its text: the chunk invariant fails for it. */
  lemma TemplateBreaksChunkInvariant(f: SentenceFunction, newId: string)
    ensures !ChunksConsistent(TemplateEntry(f, newId).sentence)
  {
    assert Join("", ChunkTexts([])) == "";
  }

  /** Deleting distributes over concatenation: the survivors keep their relative order. */
  lemma {:induction false} RemoveByIdAppend(a: seq<BankSentence>, b: seq<BankSentence>, id: string)
    ensures RemoveById(a + b, id) == RemoveById(a, id) + RemoveById(b, id)
  {
    if |a| == 0 {
      assert a + b == b;
    } else {
      assert (a + b)[0] == a[0] && (a + b)[1..] == a[1..] + b;
      RemoveByIdAppend(a[1..], b, id);
    }
  }

  /** Deleting an id no entry carries changes nothing. */
  lemma {:induction false} RemoveByIdAbsent(bank: seq<BankSentence>, id: string)
    requires forall k :: 0 <= k < |bank| ==> bank[k].id() != id
    ensures RemoveById(bank, id) == bank
  {
    if |bank| > 0 {
      RemoveByIdAbsent(bank[1..], id);
    }
  }

  /** Deleting twice is deleting once. */
  lemma DeleteIdempotent(ws: Workspace, id: string)
    ensures DeletePermanently(DeletePermanently(ws, id), id) == DeletePermanently(ws, id)
  {
    var once := DeletePermanently(ws, id).bank;
    forall k | 0 <= k < |once| ensures once[k].id() != id {
      assert once[k] in once;
    }
    RemoveByIdAbsent(once, id);
  }

  /** Trashing an entry and then deleting it leaves the same bank as deleting it straight away. */
  lemma {:induction false} TrashThenDelete(bank: seq<BankSentence>, id: string)
    ensures RemoveById(TrashById(bank, id), id) == RemoveById(bank, id)
  {
    if |bank| > 0 {
      TrashThenDelete(bank[1..], id);
      assert TrashById(bank, id)[1..] == TrashById(bank[1..], id);
    }
  }

  /** Trashing twice is trashing once. */
  lemma TrashIdempotent(ws: Workspace, id: string)
    ensures MoveToTrash(MoveToTrash(ws, id), id) == MoveToTrash(ws, id)
  {
  }

  /** Pressing an entry's delete button twice removes every entry with its id: trash, then delete. */
  lemma PressDeleteTwice(ws: Workspace, k: nat)
    requires k < |ws.bank| && ws.bank[k].section != TRASH
    ensures var once := PressDelete(ws, k);
            && k < |once.bank| && once.bank[k].section == TRASH
            && PressDelete(once, k) == DeletePermanently(ws, ws.bank[k].id())
            && forall j :: 0 <= j < |PressDelete(once, k).bank| ==> PressDelete(once, k).bank[j].id() != ws.bank[k].id()
  {
    var id := ws.bank[k].id();
    var once := PressDelete(ws, k);
    TrashThenDelete(ws.bank, id);
    var twice := PressDelete(once, k);
    forall j | 0 <= j < |twice.bank| ensures twice.bank[j].id() != id {
      assert twice.bank[j] in twice.bank;
    }
  }

  /** Escape during a bank edit writes back the text saved when the edit began, restoring the bank. */
  lemma BankEditRestore(ws: Workspace, id: string, typed: string, saved: string)
    requires forall k :: 0 <= k < |ws.bank| && ws.bank[k].id() == id ==> ws.bank[k].sentence.currentText == saved
    ensures UpdateBankSentence(UpdateBankSentence(ws, id, typed), id, saved) == ws
  {
    var r := UpdateBankSentence(UpdateBankSentence(ws, id, typed), id, saved);
    assert r.bank == ws.bank;
  }

  /** Of two successive edits of one entry only the later one is visible. */
  lemma BankEditLastWins(ws: Workspace, id: string, a: string, b: string)
    ensures UpdateBankSentence(UpdateBankSentence(ws, id, a), id, b) == UpdateBankSentence(ws, id, b)
  {
    assert UpdateBankSentence(UpdateBankSentence(ws, id, a), id, b).bank == UpdateBankSentence(ws, id, b).bank;
  }

  /** Trashing and deleting keep every bank sentence's chunks in step with its text; they never edit text. */
  lemma TrashAndDeleteKeepConsistency(ws: Workspace, id: string)
    requires AllChunksConsistent(ws)
    ensures AllChunksConsistent(MoveToTrash(ws, id))
    ensures AllChunksConsistent(DeletePermanently(ws, id))
  {
    var d := DeletePermanently(ws, id);
    forall k | 0 <= k < |d.bank| ensures ChunksConsistent(d.bank[k].sentence) {
      assert d.bank[k] in ws.bank;
    }
  }
}
