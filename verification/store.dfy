/**
 * The entity store (sentences by id, the bank, the paragraphs) and the
 * invariants the transfer handlers are meant to keep.
 */
module Store {
  import opened Wrappers
  import opened Seqs
  import opened Types

  datatype Workspace = Workspace(
    sentences: map<string, Sentence>,
    bank: seq<BankSentence>,
    paragraphs: seq<Paragraph>)

  /** How many times `x` is listed across all paragraphs. */
  function Occurrences(ps: seq<Paragraph>, x: string): nat
  {
    if |ps| == 0 then 0 else Count(ps[0].sentenceIds, x) + Occurrences(ps[1..], x)
  }

  /** Every sentence id appears at most once across all paragraphs. */
  ghost predicate NoDuplicates(ps: seq<Paragraph>)
  {
    forall x :: Occurrences(ps, x) <= 1
  }

  /** Paragraph ids are distinct, so a container id names at most one paragraph. */
  predicate UniqueParagraphIds(ps: seq<Paragraph>)
  {
    forall i, j :: 0 <= i < j < |ps| ==> ps[i].id != ps[j].id
  }

  /** `paragraphs.find(p => p.sentenceIds.includes(x))` found something. */
  predicate InAnyParagraph(ps: seq<Paragraph>, x: string)
  {
    exists i :: 0 <= i < |ps| && x in ps[i].sentenceIds
  }

  /** Every id listed in a paragraph names a sentence of the map. */
  predicate AllReferenced(ws: Workspace)
  {
    forall i :: 0 <= i < |ws.paragraphs| ==>
      forall id :: id in ws.paragraphs[i].sentenceIds ==> id in ws.sentences
  }

  /** `bank.findIndex(b => b.id === id)`. */
  function FindBankIndex(bank: seq<BankSentence>, id: string): (i: int)
    ensures -1 <= i < |bank|
    ensures i == -1 <==> forall k :: 0 <= k < |bank| ==> bank[k].id() != id
    ensures 0 <= i ==> bank[i].id() == id && forall k :: 0 <= k < i ==> bank[k].id() != id
  {
    if |bank| == 0 then -1
    else if bank[0].id() == id then 0
    else
      var j := FindBankIndex(bank[1..], id);
      if j == -1 then -1 else j + 1
  }

  /** `bank.find(b => b.id === id)`. */
  function FindBank(bank: seq<BankSentence>, id: string): (r: Option<BankSentence>)
    ensures r.None? <==> forall k :: 0 <= k < |bank| ==> bank[k].id() != id
    ensures r.Some? ==> r.value in bank && r.value.id() == id
  {
    var i := FindBankIndex(bank, id);
    if i == -1 then None else Some(bank[i])
  }

  /** An id nothing in the workspace uses yet (the source mints these from the clock). */
  predicate Fresh(ws: Workspace, id: string)
  {
    && id !in ws.sentences
    && !InAnyParagraph(ws.paragraphs, id)
    && forall k :: 0 <= k < |ws.bank| ==> ws.bank[k].id() != id
  }

  function ChunkTexts(cs: seq<Chunk>): (r: seq<string>)
    ensures |r| == |cs| && forall i :: 0 <= i < |cs| ==> r[i] == cs[i].text
  {
    seq(|cs|, i requires 0 <= i < |cs| => cs[i].text)
  }

  /** A sentence's chunks, when it has any, concatenate to its current text. */
  predicate ChunksConsistent(s: Sentence)
  {
    s.chunks.None? || Join("", ChunkTexts(s.chunks.value)) == s.currentText
  }

  predicate AllChunksConsistent(ws: Workspace)
  {
    && (forall id :: id in ws.sentences ==> ChunksConsistent(ws.sentences[id]))
    && (forall k :: 0 <= k < |ws.bank| ==> ChunksConsistent(ws.bank[k].sentence))
  }

  // ---- Occurrence counting ----

  /** Paragraph sequences whose lists agree on the count of `x` agree on its total. */
  lemma {:induction false} OccurrencesPointwise(a: seq<Paragraph>, b: seq<Paragraph>, x: string)
    requires |a| == |b|
    requires forall i :: 0 <= i < |a| ==> Count(a[i].sentenceIds, x) == Count(b[i].sentenceIds, x)
    ensures Occurrences(a, x) == Occurrences(b, x)
  {
    if |a| > 0 {
      OccurrencesPointwise(a[1..], b[1..], x);
    }
  }

  /** `x` occurs nowhere exactly when no paragraph lists it. */
  lemma {:induction false} OccurrencesZero(ps: seq<Paragraph>, x: string)
    ensures Occurrences(ps, x) == 0 <==> !InAnyParagraph(ps, x)
  {
    if |ps| > 0 {
      OccurrencesZero(ps[1..], x);
      if x in ps[0].sentenceIds {
        assert Count(ps[0].sentenceIds, x) > 0;
      }
      if InAnyParagraph(ps[1..], x) {
        var i :| 0 <= i < |ps| - 1 && x in ps[1..][i].sentenceIds;
        assert x in ps[i + 1].sentenceIds;
      }
      if InAnyParagraph(ps, x) && x !in ps[0].sentenceIds {
        var i :| 0 <= i < |ps| && x in ps[i].sentenceIds;
        assert i != 0 && x in ps[1..][i - 1].sentenceIds;
      }
    }
  }

  /** One paragraph's count of `x` never exceeds the total. */
  lemma {:induction false} OccurrencesAtLeast(ps: seq<Paragraph>, x: string, k: nat)
    requires k < |ps|
    ensures Count(ps[k].sentenceIds, x) <= Occurrences(ps, x)
  {
    if k > 0 {
      OccurrencesAtLeast(ps[1..], x, k - 1);
    }
  }

  /**
   * When `x` is listed exactly once in each paragraph whose id is `pid` and
   * nowhere else, and paragraph ids are distinct, `x` occurs once if such a
   * paragraph exists and not at all otherwise.
   */
  lemma {:induction false} OccurrencesIndicator(ps: seq<Paragraph>, x: string, pid: string)
    requires UniqueParagraphIds(ps)
    requires forall i :: 0 <= i < |ps| ==> Count(ps[i].sentenceIds, x) == if ps[i].id == pid then 1 else 0
    ensures Occurrences(ps, x) == if exists i :: 0 <= i < |ps| && ps[i].id == pid then 1 else 0
  {
    if |ps| > 0 {
      var rest := ps[1..];
      assert UniqueParagraphIds(rest) by {
        forall i, j | 0 <= i < j < |rest| ensures rest[i].id != rest[j].id {
          assert rest[i] == ps[i + 1] && rest[j] == ps[j + 1];
        }
      }
      OccurrencesIndicator(rest, x, pid);
      if ps[0].id == pid {
        forall i | 0 <= i < |rest| ensures rest[i].id != pid {
          assert rest[i] == ps[i + 1];
        }
      } else {
        if exists i :: 0 <= i < |ps| && ps[i].id == pid {
          var i :| 0 <= i < |ps| && ps[i].id == pid;
          assert rest[i - 1].id == pid;
        }
      }
    }
  }

  /** Every listed id, paragraph by paragraph. */
  function AllIds(ps: seq<Paragraph>): seq<string>
  {
    if |ps| == 0 then [] else ps[0].sentenceIds + AllIds(ps[1..])
  }

  /** `Occurrences` counts in the concatenation of all paragraphs. */
  lemma {:induction false} OccurrencesAllIds(ps: seq<Paragraph>, x: string)
    ensures Occurrences(ps, x) == Count(AllIds(ps), x)
  {
    if |ps| > 0 {
      OccurrencesAllIds(ps[1..], x);
    }
  }

  /** Paragraphs whose concatenated ids are pairwise distinct list no id twice. */
  lemma DistinctNoDuplicates(ps: seq<Paragraph>)
    requires forall i, j :: 0 <= i < j < |AllIds(ps)| ==> AllIds(ps)[i] != AllIds(ps)[j]
    ensures NoDuplicates(ps)
  {
    forall x ensures Occurrences(ps, x) <= 1 {
      OccurrencesAllIds(ps, x);
      DistinctCount(AllIds(ps), x);
    }
  }

  /** Under `NoDuplicates`, a paragraph lists an id at most once. */
  lemma CountAtMostOne(ps: seq<Paragraph>, x: string, k: nat)
    requires NoDuplicates(ps) && k < |ps|
    ensures Count(ps[k].sentenceIds, x) <= 1
  {
    OccurrencesAtLeast(ps, x, k);
  }
}
