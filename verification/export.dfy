/**
 * The plain-text serialisation shared by "download" and "copy to clipboard":
 * the title, a blank line, then the paragraphs separated by blank lines, each
 * paragraph being its sentences' current texts joined by single spaces.
 * Looking up an id with no sentence makes the source's expression throw; the
 * model answers `None` there.
 */
module Export {
  import opened Wrappers
  import opened Seqs
  import opened Text
  import opened Types
  import opened Store

  /** The current texts of the listed sentences, in order; `None` at the first id the map lacks. */
  function Lookup(sentences: map<string, Sentence>, ids: seq<string>): (r: Option<seq<string>>)
    ensures r.Some? <==> forall i :: 0 <= i < |ids| ==> ids[i] in sentences
    ensures r.Some? ==> |r.value| == |ids| && forall i :: 0 <= i < |ids| ==> r.value[i] == sentences[ids[i]].currentText
  {
    if |ids| == 0 then Some([])
    else if ids[0] !in sentences then None
    else
      match Lookup(sentences, ids[1..])
      case None => None
      case Some(rest) => Some([sentences[ids[0]].currentText] + rest)
  }

  /** One text per paragraph, its sentences joined by a single space; `None` if any paragraph lists an unknown id. */
  function ParagraphTexts(sentences: map<string, Sentence>, ps: seq<Paragraph>): (r: Option<seq<string>>)
    ensures r.Some? <==> forall i :: 0 <= i < |ps| ==> Lookup(sentences, ps[i].sentenceIds).Some?
    ensures r.Some? ==> |r.value| == |ps| && forall i :: 0 <= i < |ps| ==> r.value[i] == Join(" ", Lookup(sentences, ps[i].sentenceIds).value)
  {
    if |ps| == 0 then Some([])
    else
      match Lookup(sentences, ps[0].sentenceIds)
      case None => None
      case Some(texts) =>
        match ParagraphTexts(sentences, ps[1..])
        case None => None
        case Some(rest) => Some([Join(" ", texts)] + rest)
  }

  /** The exported document; defined exactly when every listed id names a sentence, and headed by the title. */
  function ExportText(title: string, ws: Workspace): (r: Option<string>)
    ensures r.Some? <==> AllReferenced(ws)
    ensures r.Some? ==> StartsWith(r.value, title + "\n\n")
  {
    match ParagraphTexts(ws.sentences, ws.paragraphs)
    case None =>
      assert !AllReferenced(ws) by {
        var i :| 0 <= i < |ws.paragraphs| && Lookup(ws.sentences, ws.paragraphs[i].sentenceIds).None?;
        var k :| 0 <= k < |ws.paragraphs[i].sentenceIds| && ws.paragraphs[i].sentenceIds[k] !in ws.sentences;
        assert ws.paragraphs[i].sentenceIds[k] in ws.paragraphs[i].sentenceIds;
      }
      None
    case Some(texts) =>
      var doc := title + "\n\n" + Join("\n\n", texts);
      assert doc[..|title + "\n\n"|] == title + "\n\n";
      Some(doc)
  }

  // ---- Properties ----

  /**
   * Appending a paragraph to a non-empty composition appends a blank line and
   * that paragraph's text to the document.
   */
  lemma ExportAppendParagraph(title: string, ws: Workspace, p: Paragraph)
    requires |ws.paragraphs| > 0 && AllReferenced(ws)
    requires forall id :: id in p.sentenceIds ==> id in ws.sentences
    ensures var r := ExportText(title, ws.(paragraphs := ws.paragraphs + [p]));
            && r.Some?
            && r.value == ExportText(title, ws).value + "\n\n" + Join(" ", Lookup(ws.sentences, p.sentenceIds).value)
  {
    var ps := ws.paragraphs + [p];
    var ws' := ws.(paragraphs := ps);
    assert Lookup(ws.sentences, p.sentenceIds).Some? by {
      forall k | 0 <= k < |p.sentenceIds| ensures p.sentenceIds[k] in ws.sentences {
        assert p.sentenceIds[k] in p.sentenceIds;
      }
    }
    var line := Join(" ", Lookup(ws.sentences, p.sentenceIds).value);
    var texts := ParagraphTexts(ws.sentences, ws.paragraphs).value;
    ParagraphTextsSnoc(ws.sentences, ws.paragraphs, p);
    ExportTextValue(title, ws);
    ExportTextValue(title, ws');
    DocumentSnoc(title, texts, line);
  }

  /** The document text grows by a blank line and the new line when a paragraph text is appended. */
  lemma DocumentSnoc(title: string, texts: seq<string>, line: string)
    requires |texts| > 0
    ensures title + "\n\n" + Join("\n\n", texts + [line]) == title + "\n\n" + Join("\n\n", texts) + "\n\n" + line
  {
    JoinSnoc("\n\n", texts, line);
    var head, body := title + "\n\n", Join("\n\n", texts);
    AppendAssoc(head, body + "\n\n", line);
    AppendAssoc(head, body, "\n\n");
  }

  /** A defined export is the title, a blank line and the paragraph texts separated by blank lines. */
  lemma ExportTextValue(title: string, ws: Workspace)
    requires ParagraphTexts(ws.sentences, ws.paragraphs).Some?
    ensures ExportText(title, ws) == Some(title + "\n\n" + Join("\n\n", ParagraphTexts(ws.sentences, ws.paragraphs).value))
  {
  }

  /** Appending a paragraph whose ids are all known appends its line to the paragraph texts. */
  lemma ParagraphTextsSnoc(sentences: map<string, Sentence>, ps: seq<Paragraph>, p: Paragraph)
    requires ParagraphTexts(sentences, ps).Some? && Lookup(sentences, p.sentenceIds).Some?
    ensures ParagraphTexts(sentences, ps + [p]).Some?
    ensures ParagraphTexts(sentences, ps + [p]).value ==
              ParagraphTexts(sentences, ps).value + [Join(" ", Lookup(sentences, p.sentenceIds).value)]
  {
    var qs := ps + [p];
    forall i | 0 <= i < |qs| ensures Lookup(sentences, qs[i].sentenceIds).Some? {
      if i < |ps| {
        assert qs[i] == ps[i];
      }
    }
    var texts := ParagraphTexts(sentences, ps).value;
    var texts' := ParagraphTexts(sentences, qs).value;
    forall i | 0 <= i < |qs| ensures texts'[i] == (texts + [Join(" ", Lookup(sentences, p.sentenceIds).value)])[i] {
      if i < |ps| {
        assert qs[i] == ps[i];
      }
    }
  }

  /**
   * The document depends only on the paragraphs and on the current texts of
   * the sentences they list: the bank, unlisted sentences and every other
   * field are irrelevant to it.
   */
  lemma ExportFrame(title: string, a: Workspace, b: Workspace)
    requires a.paragraphs == b.paragraphs && AllReferenced(a) && AllReferenced(b)
    requires forall i, id :: 0 <= i < |a.paragraphs| && id in a.paragraphs[i].sentenceIds ==>
               a.sentences[id].currentText == b.sentences[id].currentText
    ensures ExportText(title, a) == ExportText(title, b)
  {
    var ps := a.paragraphs;
    forall i | 0 <= i < |ps| ensures Lookup(a.sentences, ps[i].sentenceIds) == Lookup(b.sentences, ps[i].sentenceIds) {
      var ids := ps[i].sentenceIds;
      forall k | 0 <= k < |ids| ensures ids[k] in a.sentences && ids[k] in b.sentences {
        assert ids[k] in ids;
      }
      var la := Lookup(a.sentences, ids);
      var lb := Lookup(b.sentences, ids);
      forall k | 0 <= k < |ids| ensures la.value[k] == lb.value[k] {
        assert ids[k] in ids;
      }
      assert la.value == lb.value;
    }
    assert ParagraphTexts(a.sentences, ps).value == ParagraphTexts(b.sentences, ps).value;
  }

  /** A lone paragraph holding a lone sentence exports as the title, a blank line and that sentence's text. */
  lemma ExportSingle(title: string, ws: Workspace, pid: string, id: string)
    requires ws.paragraphs == [Paragraph(pid, [id])] && id in ws.sentences
    ensures ExportText(title, ws) == Some(title + "\n\n" + ws.sentences[id].currentText)
  {
    assert AllReferenced(ws);
  }
}
