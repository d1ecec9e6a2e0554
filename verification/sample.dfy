/**
 * The sample content of `src/data.ts` (`MENTOR_CONTENT` and `DEFAULT_BANK`,
 * "How Weathering and Erosion Shape the Earth"), transcribed as a concrete
 * lesson: four paragraphs over eighteen mentor sentences, and six starter
 * sentences in the bank. Loaded as a lesson, it gives a store in which every
 * invariant the handlers rely on holds. The component itself loads its
 * lessons from JSON files, which are not part of this model.
 */
module Sample {
  import opened Wrappers
  import opened Seqs
  import opened Types
  import opened Store
  import opened Export
  import opened Session

  /** A mentor sentence as the lesson data writes it: original and current text equal, no chunks. */
  function Mentor(id: string, text: string, f: SentenceFunction): Sentence
  {
    Sentence(id, text, text, f, None, None)
  }

  /** A starter entry of the bank. */
  function Starter(id: string, text: string, f: SentenceFunction): BankSentence
  {
    BankSentence(Sentence(id, text, text, f, None, None), STARTERS)
  }

  const Title: string := "How Weathering and Erosion Shape the Earth"

  const MentorParagraphs: seq<Paragraph> := [
    Paragraph("p1", ["s1", "s2", "s3"]),
    Paragraph("p2", ["s4", "s5", "s6", "s7", "s8", "s9"]),
    Paragraph("p3", ["s10", "s11", "s12", "s13", "s14"]),
    Paragraph("p4", ["s15", "s16", "s17", "s18"])
  ]

  const MentorSentences: map<string, Sentence> := map[
    "s1" := Mentor("s1", "Weathering and erosion are two natural processes that slowly change Earth\U{2019}s surface.", INTRO),
    "s2" := Mentor("s2", "While weathering means breaking down rocks into smaller pieces, erosion is the movement of those pieces to new places.", INTRO),
    "s3" := Mentor("s3", "Together, weathering and erosion explain how huge rocks can turn into tiny grains of sand over time.", INTRO),
    "s4" := Mentor("s4", "First, weathering cracks and wears down rock.", SEQ),
    "s5" := Mentor("s5", "For example, water can seep into cracks in a boulder.", EXAMPLE_DETAIL),
    "s6" := Mentor("s6", "When the temperature drops, the water freezes and expands, so the rock splits apart.", CAUSE_EFFECT),
    "s7" := Mentor("s7", "Similarly, wind can blow sand against rock and slowly grind it down.", EXAMPLE_DETAIL),
    "s8" := Mentor("s8", "Even plant roots can grow into cracks and pry rocks apart.", EXAMPLE_DETAIL),
    "s9" := Mentor("s9", "As a result of weathering, even hard rock breaks into smaller pieces after many years.", CAUSE_EFFECT),
    "s10" := Mentor("s10", "Next, erosion carries the broken pieces away.", SEQ),
    "s11" := Mentor("s11", "First, flowing water washes small rock pieces into streams and rivers.", SEQ),
    "s12" := Mentor("s12", "Then the wind picks up dust and sand and blows it to new places.", SEQ),
    "s13" := Mentor("s13", "Finally, gravity can cause rocks and soil to roll downhill.", SEQ),
    "s14" := Mentor("s14", "As a result, bits of rock that started on a mountain might end up far away from where they began.", CAUSE_EFFECT),
    "s15" := Mentor("s15", "In conclusion, weathering and erosion work together to slowly reshape the land.", CONCLUSION),
    "s16" := Mentor("s16", "Over a long time, mountains become smaller while valleys get deeper.", EXAMPLE_DETAIL),
    "s17" := Mentor("s17", "Because of these processes, even a tall, jagged mountain can turn into a lower, rounded hill.", CAUSE_EFFECT),
    "s18" := Mentor("s18", "Weathering and erosion are always changing the Earth\U{2019}s surface little by little each day.", CONCLUSION)
  ]

  const StarterBank: seq<BankSentence> := [
    Starter("bank1", "Water flows over rocks and carries them away.", EXAMPLE_DETAIL),
    Starter("bank2", "Ice can split huge boulders apart over time.", CAUSE_EFFECT),
    Starter("bank3", "First, the rain washes minerals out of the rocks.", SEQ),
    Starter("bank4", "Strong winds grind mountains down into sand.", EXAMPLE_DETAIL),
    Starter("bank5", "As a result, the landscape changes slowly each day.", CAUSE_EFFECT),
    Starter("bank6", "In conclusion, weathering and erosion reshape our world.", CONCLUSION)
  ]

  /** The lesson as the loader receives it. */
  const Weathering: Lesson := Lesson("weathering", Title, Title, MentorParagraphs, MentorSentences, StarterBank)

  /** Every sentence id of the lesson, paragraph by paragraph. */
  const MentorIds: seq<string> := [
    "s1", "s2", "s3", "s4", "s5", "s6", "s7", "s8", "s9",
    "s10", "s11", "s12", "s13", "s14", "s15", "s16", "s17", "s18"
  ]

  // ---- Properties ----

  /** The spelling of mentor sentence id `n`: "s" and its decimal digits. */
  function SampleId(n: nat): string
    requires 1 <= n <= 19
  {
    if n < 10 then ['s', ('0' as int + n) as char] else ['s', '1', ('0' as int + n - 10) as char]
  }

  /** Distinct numbers spell distinct ids. */
  lemma SampleIdInjective(m: nat, n: nat)
    requires 1 <= m <= 19 && 1 <= n <= 19 && m != n
    ensures SampleId(m) != SampleId(n)
  {
    if |SampleId(m)| == |SampleId(n)| {
      assert SampleId(m)[|SampleId(m)| - 1] != SampleId(n)[|SampleId(n)| - 1];
    }
  }

  /** The `i`-th mentor id is `SampleId(i + 1)`. */
  lemma MentorIdsSpelled()
    ensures forall i :: 0 <= i < |MentorIds| ==> MentorIds[i] == SampleId(i + 1)
  {
  }

  /** The paragraphs list the eighteen ids in order, each once. */
  lemma SampleIdsDistinct()
    ensures AllIds(MentorParagraphs) == MentorIds
    ensures forall i, j :: 0 <= i < j < |MentorIds| ==> MentorIds[i] != MentorIds[j]
  {
    var ps := MentorParagraphs;
    assert AllIds(ps[3..]) == ps[3].sentenceIds;
    assert AllIds(ps[2..]) == ps[2].sentenceIds + ps[3].sentenceIds;
    assert AllIds(ps[1..]) == ps[1].sentenceIds + ps[2].sentenceIds + ps[3].sentenceIds;
    MentorIdsSpelled();
    forall i, j | 0 <= i < j < |MentorIds| ensures MentorIds[i] != MentorIds[j] {
      SampleIdInjective(i + 1, j + 1);
    }
  }

  /** Every id the paragraphs list has a mentor sentence. */
  lemma SampleReferenced()
    ensures AllReferenced(LessonWorkspace(Weathering))
  {
    var ps := MentorParagraphs;
    forall i, id | 0 <= i < |ps| && id in ps[i].sentenceIds ensures id in MentorSentences {
    }
  }

  /** Holds vacuously: every mentor sentence and starter has an absent chunk list, so none can disagree with its text. */
  lemma SampleChunksConsistent()
    ensures AllChunksConsistent(LessonWorkspace(Weathering))
  {
    forall id | id in MentorSentences ensures MentorSentences[id].chunks.None? {
    }
  }

  /**
   * Loading the sample lesson gives a store in which no id is listed twice,
   * paragraph ids are distinct, every listed id names a sentence, every
   * sentence's chunks agree with its text, and the document can be exported.
   */
  lemma SampleLoadInvariants()
    ensures var st := LoadLesson(Initial(), Weathering);
            && NoDuplicates(st.ws.paragraphs)
            && UniqueParagraphIds(st.ws.paragraphs)
            && AllReferenced(st.ws)
            && AllChunksConsistent(st.ws)
            && ExportDocument(st).Some?
  {
    var st := LoadLesson(Initial(), Weathering);
    assert st.ws == LessonWorkspace(Weathering);
    SampleIdsDistinct();
    DistinctNoDuplicates(MentorParagraphs);
    SampleReferenced();
    SampleChunksConsistent();
  }
}
