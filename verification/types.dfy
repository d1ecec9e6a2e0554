/**
 * The entities of the workspace: sentences with their optional phrase chunks,
 * bank entries tagged with a section, and paragraphs as ordered sentence ids.
 */
module Types {
  import opened Wrappers

  /** The rhetorical function a sentence is authored with. */
  datatype SentenceFunction = INTRO | SEQ | CAUSE_EFFECT | EXAMPLE_DETAIL | CONCLUSION

  datatype ChunkCategory = Participant | Process | Detail

  /** A labelled sub-span of a sentence (`labelText` is the source's `label`); `text` carries its own padding spaces. */
  datatype Chunk = Chunk(id: string, text: string, functionalCategory: ChunkCategory, labelText: string)

  /**
   * A workspace sentence. `func` is the source's `function` field (a reserved
   * word here); `currentFunction` is the optional override read when choosing
   * a colour; `chunks` is absent for sentences authored without a phrase split.
   */
  datatype Sentence = Sentence(
    id: string,
    originalText: string,
    currentText: string,
    func: SentenceFunction,
    currentFunction: Option<SentenceFunction>,
    chunks: Option<seq<Chunk>>)
  {
    /** `currentFunction || function`: the function whose colour the sentence is shown in. */
    function DisplayFunction(): SentenceFunction
    {
      currentFunction.GetOr(func)
    }
  }

  datatype BankSection = STARTERS | MY_SENTENCES | MENTOR_SENTENCES | TRASH

  /** A bank entry: a sentence value plus the section it is listed under. */
  datatype BankSentence = BankSentence(sentence: Sentence, section: BankSection)
  {
    function id(): string { sentence.id }
  }

  datatype Paragraph = Paragraph(id: string, sentenceIds: seq<string>)
}
