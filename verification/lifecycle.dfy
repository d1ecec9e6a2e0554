/**
 * Whole-gesture properties: how a hover followed by a drop (or by a cancelled
 * drop) affects the guarantee the export depends on, that every id listed in
 * a paragraph names a sentence of the map.
 */
module Lifecycle {
  import opened Wrappers
  import opened Seqs
  import opened Types
  import opened Store
  import opened Events
  import opened Hover
  import opened Transfer
  import opened Export

  /** Every listed id outside `skip` names a sentence. */
  predicate ReferencedExcept(ws: Workspace, skip: set<string>)
  {
    forall i :: 0 <= i < |ws.paragraphs| ==>
      forall id :: id in ws.paragraphs[i].sentenceIds && id !in skip ==> id in ws.sentences
  }

  /**
   * Referencing carries over to a workspace whose paragraphs list no id outside
   * `skip` more often than before, whose map only grew, and in which every id
   * of `skip` is either unlisted or known.
   */
  lemma ReferencedCarry(a: Workspace, b: Workspace, skip: set<string>)
    requires ReferencedExcept(a, skip)
    requires a.sentences.Keys <= b.sentences.Keys
    requires forall x :: x !in skip ==> Occurrences(b.paragraphs, x) <= Occurrences(a.paragraphs, x)
    requires forall x :: x in skip ==> Occurrences(b.paragraphs, x) == 0 || x in b.sentences
    ensures AllReferenced(b)
  {
    forall i, id | 0 <= i < |b.paragraphs| && id in b.paragraphs[i].sentenceIds ensures id in b.sentences {
      assert InAnyParagraph(b.paragraphs, id);
      OccurrencesZero(b.paragraphs, id);
      if id !in skip {
        OccurrencesZero(a.paragraphs, id);
        var j :| 0 <= j < |a.paragraphs| && id in a.paragraphs[j].sentenceIds;
      }
    }
  }

  /** A hover never changes how often an id other than the dragged one is listed. */
  lemma DragOverOtherCounts(ws: Workspace, ev: DragEvent)
    ensures forall x :: x != ev.activeId ==> Occurrences(DragOver(ws, ev).paragraphs, x) == Occurrences(ws.paragraphs, x)
  {
    var r := DragOver(ws, ev);
    if ev.over.None? || ev.activeId == ev.over.value.id {
    } else if ActiveContainer(ev) == OverContainer(ev.over.value) && IsParagraphContainer(ActiveContainer(ev)) {
      DragOverReorder(ws, ev);
    } else if ActiveContainer(ev) != OverContainer(ev.over.value) && IsParagraphContainer(OverContainer(ev.over.value)) {
      var ps := ws.paragraphs;
      var pid := ParagraphIdOf(OverContainer(ev.over.value));
      if InAnyParagraph(ps, ev.activeId) || ActiveContainer(ev) == BankDroppable {
        MoveAcrossCounts(ps, pid, ev.activeId, ev.over.value.id, ActiveContainer(ev));
        forall x | x != ev.activeId ensures Occurrences(r.paragraphs, x) == Occurrences(ps, x) {
          OccurrencesPointwise(r.paragraphs, ps, x);
        }
      }
    }
  }

  /** Hovering with a sentence of the map keeps every listed id known. */
  lemma DragOverKeepsReferenced(ws: Workspace, ev: DragEvent)
    requires AllReferenced(ws) && ev.activeId in ws.sentences
    ensures AllReferenced(DragOver(ws, ev))
  {
    DragOverOtherCounts(ws, ev);
    ReferencedCarry(ws, DragOver(ws, ev), {ev.activeId});
  }

  /**
   * Hovering a bank item over a paragraph lists its raw bank id, which names
   * no sentence: mid-drag the composition cannot be exported.
   */
  lemma PreviewUnreferenced(ws: Workspace, ev: DragEvent, k: nat, title: string)
    requires ev.over.Some? && ev.activeId != ev.over.value.id
    requires ActiveContainer(ev) == BankDroppable && IsParagraphContainer(OverContainer(ev.over.value))
    requires ev.activeId !in ws.sentences
    requires UniqueParagraphIds(ws.paragraphs)
    requires k < |ws.paragraphs| && ws.paragraphs[k].id == ParagraphIdOf(OverContainer(ev.over.value))
    ensures !AllReferenced(DragOver(ws, ev))
    ensures ExportText(title, DragOver(ws, ev)).None?
  {
    ContainerNaming("");
    DragOverAcross(ws, ev, k);
    var r := DragOver(ws, ev);
    OccurrencesZero(r.paragraphs, ev.activeId);
    var i :| 0 <= i < |r.paragraphs| && ev.activeId in r.paragraphs[i].sentenceIds;
  }

  /**
   * A bank item hovered over a paragraph and then released outside any drop
   * target: the drop handler returns early, the raw bank id stays listed, and
   * the export is undefined from then on.
   */
  lemma CancelledPreviewDangles(ws: Workspace, ev: DragEvent, k: nat, title: string, newId: string)
    requires ev.over.Some? && ev.activeId != ev.over.value.id
    requires ActiveContainer(ev) == BankDroppable && IsParagraphContainer(OverContainer(ev.over.value))
    requires ev.activeId !in ws.sentences
    requires UniqueParagraphIds(ws.paragraphs)
    requires k < |ws.paragraphs| && ws.paragraphs[k].id == ParagraphIdOf(OverContainer(ev.over.value))
    ensures var hovered := DragOver(ws, ev);
            var cancelled := ev.(over := None);
            && DragEnd(hovered, cancelled, newId) == hovered
            && ExportText(title, DragEnd(hovered, cancelled, newId)).None?
  {
    PreviewUnreferenced(ws, ev, k, title);
  }

  /**
   * A bank item hovered over a paragraph and then dropped on a bank entry: the
   * bank-reorder branch moves the entry but never withdraws the preview, so
   * the raw bank id stays listed and the export is undefined from then on.
   */
  lemma PreviewThenBankDropDangles(ws: Workspace, ev: DragEvent, drop: DragEvent, k: nat, title: string, newId: string)
    requires ev.over.Some? && ev.activeId != ev.over.value.id
    requires ActiveContainer(ev) == BankDroppable && IsParagraphContainer(OverContainer(ev.over.value))
    requires ev.activeId !in ws.sentences
    requires UniqueParagraphIds(ws.paragraphs)
    requires k < |ws.paragraphs| && ws.paragraphs[k].id == ParagraphIdOf(OverContainer(ev.over.value))
    requires drop.activeId == ev.activeId && IsBankReorder(drop) && BankReorderResolvable(DragOver(ws, ev), drop)
    ensures var r := DragEnd(DragOver(ws, ev), drop, newId);
            && r.paragraphs == DragOver(ws, ev).paragraphs
            && !AllReferenced(r)
            && ExportText(title, r).None?
  {
    var hovered := DragOver(ws, ev);
    PreviewUnreferenced(ws, ev, k, title);
    DragEndBankReorder(hovered, drop, newId);
  }

  /**
   * A drop that must withdraw a hover preview: the dragged item comes from
   * the bank (its id names no sentence) and the drop does not end on a
   * paragraph, whether it ends nowhere, on the bank, or elsewhere.
   */
  predicate WithdrawsPreview(ws: Workspace, ev: DragEvent)
  {
    && ActiveContainer(ev) == BankDroppable
    && ev.activeId !in ws.sentences
    && !(ev.over.Some? && IsParagraphContainer(OverContainer(ev.over.value)))
  }

  /**
   * The drop handler with the hover preview withdrawn: a bank item whose drop
   * does not end on a paragraph is filtered out of every paragraph, on top of
   * whatever the original handler does with the bank; every other drop is
   * `DragEnd`.
   */
  function DragEndCorrected(ws: Workspace, ev: DragEvent, newId: string): (r: Workspace)
    requires BankReorderResolvable(ws, ev)
    ensures !WithdrawsPreview(ws, ev) ==> r == DragEnd(ws, ev, newId)
    ensures WithdrawsPreview(ws, ev) ==>
      && r.sentences == ws.sentences
      && r.bank == DragEnd(ws, ev, newId).bank
      && |r.paragraphs| == |ws.paragraphs|
      && (forall i :: 0 <= i < |ws.paragraphs| ==>
            r.paragraphs[i].id == ws.paragraphs[i].id
            && r.paragraphs[i].sentenceIds == Filter(ws.paragraphs[i].sentenceIds, ev.activeId))
      && Occurrences(r.paragraphs, ev.activeId) == 0
      && forall x :: x != ev.activeId ==> Occurrences(r.paragraphs, x) == Occurrences(ws.paragraphs, x)
  {
    var d := DragEnd(ws, ev, newId);
    if WithdrawsPreview(ws, ev) then
      assert d.sentences == ws.sentences by {
        ContainerNaming("");
      }
      d.(paragraphs := RemoveEverywhere(ws.paragraphs, ev.activeId))
    else d
  }

  /**
   * With the correction, every drop of a bank item leaves every listed id
   * known when only the item's raw id was unknown before: a drop on a
   * paragraph mints it, any other drop withdraws it.
   */
  lemma DragEndCorrectedReferenced(ws: Workspace, ev: DragEvent, newId: string)
    requires BankReorderResolvable(ws, ev) && Fresh(ws, newId)
    requires ActiveContainer(ev) == BankDroppable && FindBank(ws.bank, ev.activeId).Some? && ev.activeId !in ws.sentences
    requires ReferencedExcept(ws, {ev.activeId}) && NoDuplicates(ws.paragraphs) && UniqueParagraphIds(ws.paragraphs)
    ensures AllReferenced(DragEndCorrected(ws, ev, newId))
    ensures Occurrences(DragEndCorrected(ws, ev, newId).paragraphs, ev.activeId) == 0
  {
    var r := DragEndCorrected(ws, ev, newId);
    if WithdrawsPreview(ws, ev) {
      ReferencedCarry(ws, r, {ev.activeId});
    } else {
      DropRepairsReferenced(ws, ev, newId);
    }
  }

  /**
   * With the correction, the whole gesture from an exportable store: a bank
   * item hovered anywhere and then dropped anywhere (on a paragraph, on the
   * bank, or nowhere) leaves every listed id known, and the document can be
   * exported.
   */
  lemma PreviewThenAnyDrop(ws: Workspace, ev: DragEvent, drop: DragEvent, newId: string, title: string)
    requires AllReferenced(ws) && NoDuplicates(ws.paragraphs) && UniqueParagraphIds(ws.paragraphs) && Fresh(ws, newId)
    requires drop.activeId == ev.activeId && ActiveContainer(drop) == BankDroppable
    requires FindBank(ws.bank, ev.activeId).Some? && ev.activeId !in ws.sentences
    requires BankReorderResolvable(DragOver(ws, ev), drop)
    ensures var r := DragEndCorrected(DragOver(ws, ev), drop, newId);
            && AllReferenced(r)
            && ExportText(title, r).Some?
  {
    var hovered := DragOver(ws, ev);
    DragOverOtherCounts(ws, ev);
    DragOverKeepsNoDuplicates(ws, ev);
    assert ReferencedExcept(hovered, {ev.activeId}) by {
      forall i, id | 0 <= i < |hovered.paragraphs| && id in hovered.paragraphs[i].sentenceIds && id != ev.activeId
        ensures id in hovered.sentences
      {
        OccurrencesZero(hovered.paragraphs, id);
        OccurrencesZero(ws.paragraphs, id);
        var j :| 0 <= j < |ws.paragraphs| && id in ws.paragraphs[j].sentenceIds;
      }
    }
    assert Fresh(hovered, newId) by {
      OccurrencesZero(ws.paragraphs, newId);
      OccurrencesZero(hovered.paragraphs, newId);
    }
    DragEndCorrectedReferenced(hovered, drop, newId);
  }

  /**
   * The full gesture: a bank item hovered over a paragraph and dropped there
   * leaves every listed id known again (the preview's raw id is replaced by the
   * minted one) and every id listed at most once.
   */
  lemma PreviewThenDrop(ws: Workspace, ev: DragEvent, newId: string)
    requires ev.over.Some? && ActiveContainer(ev) == BankDroppable && IsParagraphContainer(OverContainer(ev.over.value))
    requires FindBank(ws.bank, ev.activeId).Some? && ev.activeId !in ws.sentences
    requires AllReferenced(ws) && NoDuplicates(ws.paragraphs) && UniqueParagraphIds(ws.paragraphs)
    requires Fresh(ws, newId)
    ensures var dropped := DragEnd(DragOver(ws, ev), ev, newId);
            && AllReferenced(dropped)
            && NoDuplicates(dropped.paragraphs)
            && Occurrences(dropped.paragraphs, ev.activeId) == 0
  {
    var hovered := DragOver(ws, ev);
    DragOverOtherCounts(ws, ev);
    DragOverKeepsNoDuplicates(ws, ev);
    assert ReferencedExcept(hovered, {ev.activeId}) by {
      ReferencedCarry(ws, hovered.(sentences := hovered.sentences[ev.activeId := FindBank(ws.bank, ev.activeId).value.sentence]), {ev.activeId});
    }
    assert Fresh(hovered, newId) by {
      OccurrencesZero(ws.paragraphs, newId);
      OccurrencesZero(hovered.paragraphs, newId);
    }
    DropRepairsReferenced(hovered, ev, newId);
    DragEndKeepsNoDuplicates(hovered, ev, newId);
  }

  /**
   * The whole round trip from the store before the gesture: a bank item that
   * no paragraph lists is hovered over a paragraph (the preview lists its raw
   * id), dropped there (the raw id becomes a new sentence), and the new
   * sentence is removed again. Every paragraph is as it was, the bank has
   * gained one MENTOR_SENTENCES copy of the item, and the sentence map keeps
   * the minted sentence.
   */
  lemma DropThenRemove(ws: Workspace, ev: DragEvent, newId: string, bankId: string)
    requires ev.over.Some? && ActiveContainer(ev) == BankDroppable
    requires IsParagraphContainer(OverContainer(ev.over.value))
    requires FindBank(ws.bank, ev.activeId).Some?
    requires !InAnyParagraph(ws.paragraphs, ev.activeId)
    requires Fresh(ws, newId)
    ensures var item := FindBank(ws.bank, ev.activeId).value;
            var r := HandleRemoveSentence(DragEnd(DragOver(ws, ev), ev, newId), newId, bankId);
            && r.paragraphs == ws.paragraphs
            && r.bank == ws.bank + [BankSentence(item.sentence.(id := bankId), MENTOR_SENTENCES)]
            && r.sentences == ws.sentences[newId := item.sentence.(id := newId)]
  {
    var a := ev.activeId;
    var o := ev.over.value.id;
    var pid := ParagraphIdOf(OverContainer(ev.over.value));
    var ps := ws.paragraphs;
    var hovered := DragOver(ws, ev);
    if a == o {
      DragOverIgnored(ws, ev);
      DropUnpreviewedThenRemove(ws, ev, newId, bankId);
    } else {
      assert hovered.paragraphs == PreviewInsert(ps, pid, a, o) by {
        ContainerNaming("");
      }
      assert a != newId;
      var mid := DragEnd(hovered, ev, newId);
      assert mid.paragraphs == MintInto(PreviewInsert(ps, pid, a, o), pid, a, o, newId);
      assert newId in mid.sentences;
      var r := HandleRemoveSentence(mid, newId, bankId);
      forall i | 0 <= i < |ps| ensures r.paragraphs[i] == ps[i] {
        PreviewUnmintAt(ps, pid, a, o, newId, i);
      }
    }
  }

  /** One paragraph through preview, mint and removal of the minted id comes back unchanged. */
  lemma PreviewUnmintAt(ps: seq<Paragraph>, pid: string, a: string, o: string, n: string, i: nat)
    requires a != n && !InAnyParagraph(ps, a) && !InAnyParagraph(ps, n) && i < |ps|
    ensures RemoveEverywhere(MintInto(PreviewInsert(ps, pid, a, o), pid, a, o, n), n)[i] == ps[i]
  {
    var ids := ps[i].sentenceIds;
    assert a !in ids && n !in ids;
    var r := RemoveEverywhere(MintInto(PreviewInsert(ps, pid, a, o), pid, a, o, n), n);
    if ps[i].id == pid {
      assert r[i].sentenceIds == Filter(MintIds(PlaceIds(ids, a, o), a, o, n), n);
      PreviewUnmintIds(ids, a, o, n);
    } else {
      assert r[i].sentenceIds == Filter(Filter(ids, a), n);
      FilterAbsent(ids, a);
      FilterAbsent(ids, n);
    }
  }

  /** A list through preview, mint and removal of the minted id comes back unchanged. */
  lemma PreviewUnmintIds(ids: seq<string>, a: string, o: string, n: string)
    requires a != n && a !in ids && n !in ids
    ensures Filter(MintIds(PlaceIds(ids, a, o), a, o, n), n) == ids
  {
    var idx := IndexOf(ids, o);
    var k: nat := if idx == -1 then |ids| else idx;
    FilterAbsent(ids, a);
    assert PlaceIds(ids, a, o) == Splice(ids, k, a);
    ReplaceSplice(ids, k, a, n);
    assert n in Splice(ids, k, n);
    FilterSplice(ids, k, n);
  }

  /** A drop of a bank item on a paragraph makes every id known when only the item's raw id was unknown. */
  lemma DropRepairsReferenced(ws: Workspace, ev: DragEvent, newId: string)
    requires ev.over.Some? && ActiveContainer(ev) == BankDroppable && IsParagraphContainer(OverContainer(ev.over.value))
    requires FindBank(ws.bank, ev.activeId).Some?
    requires ReferencedExcept(ws, {ev.activeId}) && NoDuplicates(ws.paragraphs) && UniqueParagraphIds(ws.paragraphs)
    requires Fresh(ws, newId)
    ensures AllReferenced(DragEnd(ws, ev, newId))
    ensures Occurrences(DragEnd(ws, ev, newId).paragraphs, ev.activeId) == 0
  {
    var r := DragEnd(ws, ev, newId);
    var pid := ParagraphIdOf(OverContainer(ev.over.value));
    assert ev.activeId != newId;
    assert r.paragraphs == MintInto(ws.paragraphs, pid, ev.activeId, ev.over.value.id, newId);
    MintIntoCounts(ws.paragraphs, pid, ev.activeId, ev.over.value.id, newId);
    ReferencedCarry(ws, r, {ev.activeId, newId});
  }

  /** Removing a sentence from the composition keeps every listed id known. */
  lemma RemoveKeepsReferenced(ws: Workspace, id: string, bankId: string)
    requires AllReferenced(ws)
    ensures AllReferenced(HandleRemoveSentence(ws, id, bankId))
  {
    ReferencedCarry(ws, HandleRemoveSentence(ws, id, bankId), {});
  }

  /** Every drop of an id the map knows keeps every listed id known. */
  lemma DragEndKeepsReferenced(ws: Workspace, ev: DragEvent, newId: string)
    requires BankReorderResolvable(ws, ev) && Fresh(ws, newId)
    requires AllReferenced(ws) && NoDuplicates(ws.paragraphs) && UniqueParagraphIds(ws.paragraphs)
    ensures AllReferenced(DragEnd(ws, ev, newId))
  {
    var r := DragEnd(ws, ev, newId);
    if ev.over.Some? {
      var ac := ActiveContainer(ev);
      var oc := OverContainer(ev.over.value);
      if ac == BankDroppable && IsParagraphContainer(oc) {
        if FindBank(ws.bank, ev.activeId).Some? {
          DropRepairsReferenced(ws, ev, newId);
        }
      } else if IsParagraphContainer(ac) && oc == BankDroppable {
        RemoveKeepsReferenced(ws, ev.activeId, newId);
      } else {
        assert r.paragraphs == ws.paragraphs by {
          ContainerNaming("");
        }
      }
    }
  }
}
