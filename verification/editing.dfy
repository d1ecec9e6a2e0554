/**
 * In-place text editing of workspace sentences: `updateChunkText` (phrase
 * mode, one chunk at a time, rebuilding the sentence's text from its chunks)
 * and `updateMentorSentence` (sentence mode, the whole text at once).
 */
module Editing {
  import opened Wrappers
  import opened Seqs
  import opened Text
  import opened Types
  import opened Store

  /** How an edited chunk text is stored: trimmed and padded with one space each side; blank becomes one space. */
  function FormatChunkText(text: string): (r: string)
    ensures |r| >= 1 && r[0] == ' ' && r[|r| - 1] == ' '
    ensures Trim(r) == Trim(text)
    ensures r == " " <==> Trim(text) == ""
    ensures Trim(text) != "" ==> |r| == |Trim(text)| + 2
  {
    var t := Trim(text);
    if t != "" then
      assert Trim(" " + t + " ") == t by {
        TrimIdempotent(text);
        TrimEnds(text);
        TrimPadded(t);
      }
      " " + t + " "
    else
      assert Trim(" ") == "" by {
        assert TrimStart(" ") == TrimStart(" "[1..]);
      }
      " "
  }

  /** A trimmed string starts and ends with a non-whitespace character. */
  lemma TrimEnds(s: string)
    ensures Trim(s) == [] || (!IsJsWhitespace(Trim(s)[0]) && !IsJsWhitespace(Trim(s)[|Trim(s)| - 1]))
  {
    var t := TrimStart(s);
    if TrimEnd(t) != [] {
      assert TrimEnd(t)[0] == t[0];
    }
  }

  /** Formatting is a fixpoint of trim-then-format: re-committing a stored chunk text unchanged keeps it. */
  lemma FormatChunkTextFixpoint(text: string)
    ensures FormatChunkText(Trim(FormatChunkText(text))) == FormatChunkText(text)
  {
    TrimIdempotent(text);
  }

  /** The chunk list with every chunk whose id is `chunkId` given the text `formatted`. */
  function EditChunks(cs: seq<Chunk>, chunkId: string, formatted: string): (r: seq<Chunk>)
    ensures |r| == |cs|
    ensures forall i :: 0 <= i < |cs| ==>
      && r[i].id == cs[i].id
      && r[i].functionalCategory == cs[i].functionalCategory
      && r[i].labelText == cs[i].labelText
      && r[i].text == if cs[i].id == chunkId then formatted else cs[i].text
  {
    seq(|cs|, i requires 0 <= i < |cs| => if cs[i].id == chunkId then cs[i].(text := formatted) else cs[i])
  }

  /**
   * `updateChunkText`: the chunk `chunkId` of sentence `sid` gets the formatted
   * text and the sentence's text is rebuilt as the concatenation of its
   * chunks. A missing sentence or one without chunks leaves the store as it
   * was; an empty chunk list, being present, still rebuilds the text (to "").
   */
  function UpdateChunkText(ws: Workspace, sid: string, chunkId: string, text: string): (r: Workspace)
    ensures sid !in ws.sentences || ws.sentences[sid].chunks.None? ==> r == ws
    ensures r.bank == ws.bank && r.paragraphs == ws.paragraphs && r.sentences.Keys == ws.sentences.Keys
    ensures forall k :: k in ws.sentences && k != sid ==> r.sentences[k] == ws.sentences[k]
    ensures sid in ws.sentences && ws.sentences[sid].chunks.Some? ==>
      var s := ws.sentences[sid];
      var t := r.sentences[sid];
      && ChunksConsistent(t)
      && t.id == s.id && t.originalText == s.originalText
      && t.func == s.func && t.currentFunction == s.currentFunction
      && t.chunks.Some? && |t.chunks.value| == |s.chunks.value|
      && forall i :: 0 <= i < |s.chunks.value| ==>
           && t.chunks.value[i].id == s.chunks.value[i].id
           && t.chunks.value[i].functionalCategory == s.chunks.value[i].functionalCategory
           && t.chunks.value[i].labelText == s.chunks.value[i].labelText
           && t.chunks.value[i].text == if s.chunks.value[i].id == chunkId then FormatChunkText(text) else s.chunks.value[i].text
  {
    if sid !in ws.sentences || ws.sentences[sid].chunks.None? then ws
    else
      var s := ws.sentences[sid];
      var cs := EditChunks(s.chunks.value, chunkId, FormatChunkText(text));
      ws.(sentences := ws.sentences[sid := s.(chunks := Some(cs), currentText := Join("", ChunkTexts(cs)))])
  }

  /** `updateMentorSentence`: the sentence's text is replaced; its chunks are left as they were. */
  function UpdateMentorSentence(ws: Workspace, id: string, text: string): (r: Workspace)
    requires id in ws.sentences
    ensures r.bank == ws.bank && r.paragraphs == ws.paragraphs && r.sentences.Keys == ws.sentences.Keys
    ensures forall k :: k in ws.sentences && k != id ==> r.sentences[k] == ws.sentences[k]
    ensures r.sentences[id].currentText == text
    ensures r.sentences[id].(currentText := ws.sentences[id].currentText) == ws.sentences[id]
  {
    ws.(sentences := ws.sentences[id := ws.sentences[id].(currentText := text)])
  }

  // ---- Properties ----

  /** A chunk edit keeps every sentence's chunks in step with its text, and repairs the edited one. */
  lemma UpdateChunkTextKeepsConsistency(ws: Workspace, sid: string, chunkId: string, text: string)
    requires forall id :: id in ws.sentences && id != sid ==> ChunksConsistent(ws.sentences[id])
    ensures forall id :: id in ws.sentences ==> ChunksConsistent(UpdateChunkText(ws, sid, chunkId, text).sentences[id])
  {
  }

  /** Committing the same chunk edit twice is the same as committing it once. */
  lemma UpdateChunkTextIdempotent(ws: Workspace, sid: string, chunkId: string, text: string)
    ensures var once := UpdateChunkText(ws, sid, chunkId, text);
            UpdateChunkText(once, sid, chunkId, text) == once
  {
    var once := UpdateChunkText(ws, sid, chunkId, text);
    if sid in ws.sentences && ws.sentences[sid].chunks.Some? {
      var cs := once.sentences[sid].chunks.value;
      assert EditChunks(cs, chunkId, FormatChunkText(text)) == cs;
    }
  }

  /**
   * Opening a chunk's editor (which shows the trimmed text) and committing it
   * unchanged leaves the store as it was, when the chunk's text is in stored
   * form, its id is unique in the sentence and the sentence is consistent.
   */
  lemma RecommitUnchanged(ws: Workspace, sid: string, j: nat, typed: string)
    requires sid in ws.sentences && ws.sentences[sid].chunks.Some?
    requires ChunksConsistent(ws.sentences[sid])
    requires j < |ws.sentences[sid].chunks.value|
    requires var cs := ws.sentences[sid].chunks.value;
             forall i :: 0 <= i < |cs| && cs[i].id == cs[j].id ==> i == j
    requires ws.sentences[sid].chunks.value[j].text == FormatChunkText(typed)
    ensures var c := ws.sentences[sid].chunks.value[j];
            UpdateChunkText(ws, sid, c.id, Trim(c.text)) == ws
  {
    var s := ws.sentences[sid];
    var cs := s.chunks.value;
    FormatChunkTextFixpoint(typed);
    EditChunksUnchanged(cs, j, FormatChunkText(Trim(cs[j].text)));
    assert s.(chunks := Some(cs), currentText := Join("", ChunkTexts(cs))) == s;
    assert ws.sentences[sid := s] == ws.sentences;
  }

  /** Giving the chunk at `j`, the only one with its id, the text it already has changes nothing. */
  lemma EditChunksUnchanged(cs: seq<Chunk>, j: nat, formatted: string)
    requires j < |cs| && cs[j].text == formatted
    requires forall i :: 0 <= i < |cs| && cs[i].id == cs[j].id ==> i == j
    ensures EditChunks(cs, cs[j].id, formatted) == cs
  {
    var es := EditChunks(cs, cs[j].id, formatted);
    forall i | 0 <= i < |cs| ensures es[i] == cs[i] {
    }
  }

  /** Editing the chunk at `j`, the only one with its id, replaces its text and no other. */
  lemma EditedChunkTexts(cs: seq<Chunk>, j: nat, formatted: string)
    requires j < |cs| && forall i :: 0 <= i < |cs| && cs[i].id == cs[j].id ==> i == j
    ensures ChunkTexts(EditChunks(cs, cs[j].id, formatted)) == ChunkTexts(cs[..j]) + [formatted] + ChunkTexts(cs[j + 1..])
  {
    var texts := ChunkTexts(EditChunks(cs, cs[j].id, formatted));
    var spliced := ChunkTexts(cs[..j]) + [formatted] + ChunkTexts(cs[j + 1..]);
    forall i | 0 <= i < |cs| ensures texts[i] == spliced[i] {
      if i < j {
        assert spliced[i] == cs[..j][i].text;
      } else if i > j {
        assert spliced[i] == cs[j + 1..][i - j - 1].text;
      }
    }
  }

  /** After editing chunk `j`, the sentence reads as the text before it, the padded edit, and the text after it. */
  lemma EditedTextSplices(ws: Workspace, sid: string, j: nat, text: string)
    requires sid in ws.sentences && ws.sentences[sid].chunks.Some?
    requires j < |ws.sentences[sid].chunks.value|
    requires var cs := ws.sentences[sid].chunks.value;
             forall i :: 0 <= i < |cs| && cs[i].id == cs[j].id ==> i == j
    ensures var cs := ws.sentences[sid].chunks.value;
            UpdateChunkText(ws, sid, cs[j].id, text).sentences[sid].currentText ==
              Join("", ChunkTexts(cs[..j])) + FormatChunkText(text) + Join("", ChunkTexts(cs[j + 1..]))
  {
    var cs := ws.sentences[sid].chunks.value;
    var before, after := ChunkTexts(cs[..j]), ChunkTexts(cs[j + 1..]);
    EditedChunkTexts(cs, j, FormatChunkText(text));
    JoinEmptyAppend(before + [FormatChunkText(text)], after);
    JoinEmptyAppend(before, [FormatChunkText(text)]);
  }

  /** A whole-sentence edit keeps the sentence consistent exactly when its chunks are absent or spell the new text. */
  lemma MentorEditConsistency(ws: Workspace, id: string, text: string)
    requires id in ws.sentences
    ensures var s := ws.sentences[id];
            ChunksConsistent(UpdateMentorSentence(ws, id, text).sentences[id]) <==>
              (s.chunks.None? || Join("", ChunkTexts(s.chunks.value)) == text)
  {
  }

  /** Escape during a sentence edit writes back the text saved when the edit began, restoring the store. */
  lemma MentorEditEscape(ws: Workspace, id: string, typed: string)
    requires id in ws.sentences
    ensures UpdateMentorSentence(UpdateMentorSentence(ws, id, typed), id, ws.sentences[id].currentText) == ws
  {
    assert ws.sentences[id := ws.sentences[id]] == ws.sentences;
  }

  /** Of two successive edits of one sentence only the later one is visible. */
  lemma MentorEditLastWins(ws: Workspace, id: string, a: string, b: string)
    requires id in ws.sentences
    ensures UpdateMentorSentence(UpdateMentorSentence(ws, id, a), id, b) == UpdateMentorSentence(ws, id, b)
  {
  }
}
