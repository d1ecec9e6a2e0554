/**
 * `handleDragEnd` and `handleRemoveSentence`: the drop-time transfers that
 * change identities. A bank item dropped on a paragraph becomes a new
 * sentence with a fresh id (taking the place of the raw bank id the hover
 * preview inserted); a paragraph sentence dropped on the bank, or removed with
 * its delete button, becomes a new bank entry and leaves every paragraph;
 * within the bank a drop is an `arrayMove` over the whole bank.
 */
module Transfer {
  import opened Wrappers
  import opened Seqs
  import opened Types
  import opened Store
  import opened Events

  /** Every paragraph with `x` filtered out of it. */
  function RemoveEverywhere(ps: seq<Paragraph>, x: string): (r: seq<Paragraph>)
    ensures |r| == |ps| && forall i :: 0 <= i < |ps| ==> r[i].id == ps[i].id
    ensures forall i :: 0 <= i < |ps| ==> r[i].sentenceIds == Filter(ps[i].sentenceIds, x)
    ensures Occurrences(r, x) == 0
    ensures forall y :: y != x ==> Occurrences(r, y) == Occurrences(ps, y)
  {
    var r := seq(|ps|, i requires 0 <= i < |ps| => ps[i].(sentenceIds := Filter(ps[i].sentenceIds, x)));
    assert !InAnyParagraph(r, x) by {
      forall i | 0 <= i < |r| ensures x !in r[i].sentenceIds {
        assert multiset(r[i].sentenceIds)[x] == 0;
      }
    }
    OccurrencesZero(r, x);
    assert forall y :: y != x ==> Occurrences(r, y) == Occurrences(ps, y) by {
      forall y | y != x ensures Occurrences(r, y) == Occurrences(ps, y) {
        OccurrencesPointwise(r, ps, y);
      }
    }
    r
  }

  /**
   * `handleRemoveSentence`: a sentence of the map is cloned onto the end of the
   * bank under MENTOR_SENTENCES with the id `bankId`, and its id is removed from
   * every paragraph; the sentence map itself is untouched. An unknown id changes
   * nothing.
   */
  function HandleRemoveSentence(ws: Workspace, id: string, bankId: string): (r: Workspace)
    ensures id !in ws.sentences ==> r == ws
    ensures id in ws.sentences ==>
      && r.sentences == ws.sentences
      && |r.bank| == |ws.bank| + 1
      && r.bank[..|ws.bank|] == ws.bank
      && r.bank[|ws.bank|].section == MENTOR_SENTENCES
      && r.bank[|ws.bank|].sentence == ws.sentences[id].(id := bankId)
      && |r.paragraphs| == |ws.paragraphs|
      && (forall i :: 0 <= i < |ws.paragraphs| ==> r.paragraphs[i].id == ws.paragraphs[i].id)
      && (forall i :: 0 <= i < |ws.paragraphs| ==> r.paragraphs[i].sentenceIds == Filter(ws.paragraphs[i].sentenceIds, id))
      && Occurrences(r.paragraphs, id) == 0
      && (forall x :: x != id ==> Occurrences(r.paragraphs, x) == Occurrences(ws.paragraphs, x))
  {
    if id !in ws.sentences then ws
    else
      var sentence := ws.sentences[id];
      ws.(bank := ws.bank + [BankSentence(sentence.(id := bankId), MENTOR_SENTENCES)],
          paragraphs := RemoveEverywhere(ws.paragraphs, id))
  }

  /**
   * The destination paragraph at drop time: the raw bank id becomes `newId`;
   * if it was not there, `newId` goes where `overId` is, or at the end.
   */
  function MintIds<T(==,!new)>(ids: seq<T>, activeId: T, overId: T, newId: T): seq<T>
  {
    var newIds := Replace(ids, activeId, newId);
    if newId in newIds then newIds
    else
      var idx := IndexOf(ids, overId);
      if idx == -1 then newIds + [newId] else Splice(newIds, idx, newId)
  }

  /** Where `MintIds` leaves the new id: the preview's slot, `overId`'s index, or the end. */
  function MintedIndex<T(==)>(ids: seq<T>, activeId: T, overId: T): int
  {
    if activeId in ids then IndexOf(ids, activeId)
    else if IndexOf(ids, overId) == -1 then |ids|
    else IndexOf(ids, overId)
  }

  function MintInto(ps: seq<Paragraph>, pid: string, activeId: string, overId: string, newId: string): seq<Paragraph>
  {
    seq(|ps|, i requires 0 <= i < |ps| =>
      if ps[i].id == pid then ps[i].(sentenceIds := MintIds(ps[i].sentenceIds, activeId, overId, newId))
      else ps[i].(sentenceIds := Filter(ps[i].sentenceIds, activeId)))
  }

  predicate IsBankReorder(ev: DragEvent)
  {
    ev.over.Some? && ActiveContainer(ev) == BankDroppable && OverContainer(ev.over.value) == BankDroppable
  }

  /**
   * Whether a drop takes one of the three branches of `handleDragEnd`: bank to
   * paragraph, paragraph to bank, or within the bank. Every other drop, notably
   * paragraph to paragraph (already applied while hovering), changes nothing.
   */
  predicate IsTransfer(ev: DragEvent)
    requires ev.over.Some?
  {
    var ac := ActiveContainer(ev);
    var oc := OverContainer(ev.over.value);
    || (ac == BankDroppable && IsParagraphContainer(oc))
    || (IsParagraphContainer(ac) && oc == BankDroppable)
    || (ac == oc && ac == BankDroppable)
  }

  /** The bank reorder is only defined when both ids are bank entries. */
  predicate BankReorderResolvable(ws: Workspace, ev: DragEvent)
  {
    IsBankReorder(ev) ==>
      FindBankIndex(ws.bank, ev.activeId) != -1 && FindBankIndex(ws.bank, ev.over.value.id) != -1
  }

  /**
   * `handleDragEnd` on the entity store; `newId` stands for the clock-derived id
   * the branch taken mints (`custom-…` for a sentence, `bank-…` for a bank entry).
   * Existing sentences are never changed, the bank only gains or reorders
   * entries, and paragraphs keep their ids.
   */
  function DragEnd(ws: Workspace, ev: DragEvent, newId: string): (r: Workspace)
    requires BankReorderResolvable(ws, ev)
    ensures ev.over.None? ==> r == ws
    ensures |r.paragraphs| == |ws.paragraphs|
    ensures forall i :: 0 <= i < |ws.paragraphs| ==> r.paragraphs[i].id == ws.paragraphs[i].id
    ensures forall k :: k in ws.sentences && k != newId ==> k in r.sentences && r.sentences[k] == ws.sentences[k]
    ensures r.sentences.Keys <= ws.sentences.Keys + {newId}
    ensures multiset(ws.bank) <= multiset(r.bank) && |r.bank| <= |ws.bank| + 1
    ensures ev.over.Some? && !IsTransfer(ev) ==> r == ws
  {
    if ev.over.None? then ws
    else
      var activeId := ev.activeId;
      var overId := ev.over.value.id;
      var activeContainer := ActiveContainer(ev);
      var overContainer := OverContainer(ev.over.value);
      if activeContainer == BankDroppable && IsParagraphContainer(overContainer) then
        var pid := ParagraphIdOf(overContainer);
        match FindBank(ws.bank, activeId)
        case None => ws
        case Some(bankItem) =>
          ws.(sentences := ws.sentences[newId := bankItem.sentence.(id := newId)],
              paragraphs := MintInto(ws.paragraphs, pid, activeId, overId, newId))
      else if IsParagraphContainer(activeContainer) && overContainer == BankDroppable then
        HandleRemoveSentence(ws, activeId, newId)
      else if activeContainer == overContainer && activeContainer == BankDroppable then
        ws.(bank := ArrayMove(ws.bank, FindBankIndex(ws.bank, activeId), FindBankIndex(ws.bank, overId)))
      else ws
  }

  // ---- Properties ----

  /** Counts and placement of the destination list at a bank-to-paragraph drop. */
  lemma MintIdsFacts<T(!new)>(ids: seq<T>, activeId: T, overId: T, newId: T)
    requires activeId != newId && newId !in ids && Count(ids, activeId) <= 1
    ensures var r := MintIds(ids, activeId, overId, newId);
            && Count(r, newId) == 1
            && Count(r, activeId) == 0
            && (forall y :: y != activeId && y != newId ==> Count(r, y) == Count(ids, y))
            && 0 <= MintedIndex(ids, activeId, overId) < |r|
            && r[MintedIndex(ids, activeId, overId)] == newId
  {
    if activeId !in ids {
      MintIdsInserted(ids, activeId, overId, newId);
    } else {
      MintIdsReplaced(ids, activeId, overId, newId);
    }
  }

  /** Without a preview entry, the new id is inserted at `overId`'s index or at the end. */
  lemma MintIdsInserted<T(!new)>(ids: seq<T>, activeId: T, overId: T, newId: T)
    requires activeId != newId && newId !in ids && activeId !in ids
    ensures var r := MintIds(ids, activeId, overId, newId);
            var at := MintedIndex(ids, activeId, overId);
            && r == Splice(ids, at, newId)
            && Count(r, newId) == 1
            && Count(r, activeId) == 0
            && (forall y :: y != activeId && y != newId ==> Count(r, y) == Count(ids, y))
            && 0 <= at < |r| && r[at] == newId
  {
    var r := MintIds(ids, activeId, overId, newId);
    var at := MintedIndex(ids, activeId, overId);
    assert r == Splice(ids, at, newId) && 0 <= at <= |ids| by {
      ReplaceAbsent(ids, activeId, newId);
      assert newId !in Replace(ids, activeId, newId);
      if IndexOf(ids, overId) == -1 {
        SpliceEnd(ids, newId);
      }
    }
    SpliceCounts(ids, at, newId);
    assert Min(at, |ids|) == at;
  }

  /** With a preview entry, the new id takes the preview's place. */
  lemma MintIdsReplaced<T(!new)>(ids: seq<T>, activeId: T, overId: T, newId: T)
    requires activeId != newId && newId !in ids && Count(ids, activeId) == 1
    ensures var r := MintIds(ids, activeId, overId, newId);
            var at := MintedIndex(ids, activeId, overId);
            && r == Replace(ids, activeId, newId)
            && Count(r, newId) == 1
            && Count(r, activeId) == 0
            && (forall y :: y != activeId && y != newId ==> Count(r, y) == Count(ids, y))
            && 0 <= at < |r| && r[at] == newId
  {
    var newIds := Replace(ids, activeId, newId);
    ReplaceCountNew(ids, activeId, newId);
    ReplaceCountOld(ids, activeId, newId);
    forall y | y != activeId && y != newId ensures Count(newIds, y) == Count(ids, y) {
      ReplaceCountOther(ids, activeId, newId, y);
    }
    assert newId in newIds;
    assert MintedIndex(ids, activeId, overId) == IndexOf(ids, activeId);
  }

  /** Per-paragraph counts after a bank-to-paragraph drop. */
  lemma MintIntoAt(ps: seq<Paragraph>, pid: string, activeId: string, overId: string, newId: string, i: nat)
    requires activeId != newId && !InAnyParagraph(ps, newId) && NoDuplicates(ps) && i < |ps|
    ensures var r := MintInto(ps, pid, activeId, overId, newId);
            && Count(r[i].sentenceIds, newId) == (if ps[i].id == pid then 1 else 0)
            && Count(r[i].sentenceIds, activeId) == 0
            && (forall y :: y != activeId && y != newId ==> Count(r[i].sentenceIds, y) == Count(ps[i].sentenceIds, y))
  {
    assert newId !in ps[i].sentenceIds;
    CountAtMostOne(ps, activeId, i);
    if ps[i].id == pid {
      MintIdsFacts(ps[i].sentenceIds, activeId, overId, newId);
    }
  }

  lemma MintIntoCounts(ps: seq<Paragraph>, pid: string, activeId: string, overId: string, newId: string)
    requires activeId != newId && !InAnyParagraph(ps, newId) && NoDuplicates(ps) && UniqueParagraphIds(ps)
    ensures var r := MintInto(ps, pid, activeId, overId, newId);
            && Occurrences(r, newId) == (if exists i :: 0 <= i < |ps| && ps[i].id == pid then 1 else 0)
            && Occurrences(r, activeId) == 0
            && (forall y :: y != activeId && y != newId ==> Occurrences(r, y) == Occurrences(ps, y))
  {
    var r := MintInto(ps, pid, activeId, overId, newId);
    forall i | 0 <= i < |ps|
      ensures Count(r[i].sentenceIds, newId) == (if ps[i].id == pid then 1 else 0)
      ensures Count(r[i].sentenceIds, activeId) == 0
      ensures forall y :: y != activeId && y != newId ==> Count(r[i].sentenceIds, y) == Count(ps[i].sentenceIds, y)
    {
      MintIntoAt(ps, pid, activeId, overId, newId, i);
    }
    assert UniqueParagraphIds(r);
    OccurrencesIndicator(r, newId, pid);
    assert !InAnyParagraph(r, activeId);
    OccurrencesZero(r, activeId);
    forall y | y != activeId && y != newId ensures Occurrences(r, y) == Occurrences(ps, y) {
      OccurrencesPointwise(r, ps, y);
    }
  }

  /**
   * A bank item dropped on a paragraph: the sentence map gains `newId` as a
   * copy of the item (same text), the bank is unchanged, the raw bank id is in
   * no paragraph, and `newId` is listed exactly once, in the destination, where
   * the preview put the raw id (or at `overId`'s index, or the end).
   */
  lemma DragEndMint(ws: Workspace, ev: DragEvent, newId: string, k: nat)
    requires ev.over.Some? && ActiveContainer(ev) == BankDroppable
    requires IsParagraphContainer(OverContainer(ev.over.value))
    requires FindBank(ws.bank, ev.activeId).Some?
    requires Fresh(ws, newId)
    requires NoDuplicates(ws.paragraphs) && UniqueParagraphIds(ws.paragraphs)
    requires k < |ws.paragraphs| && ws.paragraphs[k].id == ParagraphIdOf(OverContainer(ev.over.value))
    ensures var item := FindBank(ws.bank, ev.activeId).value;
            var r := DragEnd(ws, ev, newId);
            var ids := ws.paragraphs[k].sentenceIds;
            && r.sentences == ws.sentences[newId := item.sentence.(id := newId)]
            && r.sentences[newId].currentText == item.sentence.currentText
            && r.bank == ws.bank
            && Occurrences(r.paragraphs, ev.activeId) == 0
            && Occurrences(r.paragraphs, newId) == 1
            && 0 <= MintedIndex(ids, ev.activeId, ev.over.value.id) < |r.paragraphs[k].sentenceIds|
            && r.paragraphs[k].sentenceIds[MintedIndex(ids, ev.activeId, ev.over.value.id)] == newId
            && (forall i :: 0 <= i < |ws.paragraphs| && i != k ==>
                  r.paragraphs[i].sentenceIds == Filter(ws.paragraphs[i].sentenceIds, ev.activeId))
            && (forall x :: x != ev.activeId && x != newId ==> Occurrences(r.paragraphs, x) == Occurrences(ws.paragraphs, x))
  {
    var ps := ws.paragraphs;
    var pid := ParagraphIdOf(OverContainer(ev.over.value));
    var item := FindBank(ws.bank, ev.activeId).value;
    assert ev.activeId != newId;
    MintIntoCounts(ps, pid, ev.activeId, ev.over.value.id, newId);
    assert newId !in ps[k].sentenceIds;
    CountAtMostOne(ps, ev.activeId, k);
    MintIdsFacts(ps[k].sentenceIds, ev.activeId, ev.over.value.id, newId);
    forall i | 0 <= i < |ps| && i != k ensures ps[i].id != pid {
      assert ps[i].id != ps[k].id;
    }
  }

  /** A bank-to-paragraph drop whose item is not in the bank changes nothing. */
  lemma DragEndMintMissing(ws: Workspace, ev: DragEvent, newId: string)
    requires ev.over.Some? && ActiveContainer(ev) == BankDroppable
    requires IsParagraphContainer(OverContainer(ev.over.value))
    requires FindBank(ws.bank, ev.activeId).None?
    ensures DragEnd(ws, ev, newId) == ws
  {
  }

  /** A paragraph sentence dropped on the bank is exactly `handleRemoveSentence`. */
  lemma DragEndToBank(ws: Workspace, ev: DragEvent, newId: string)
    requires ev.over.Some? && IsParagraphContainer(ActiveContainer(ev))
    requires OverContainer(ev.over.value) == BankDroppable
    ensures DragEnd(ws, ev, newId) == HandleRemoveSentence(ws, ev.activeId, newId)
  {
    ContainerNaming("");
  }

  /**
   * A drop inside the bank moves the dragged entry to the hovered entry's
   * index across the whole bank, sections included: every entry is kept whole,
   * only positions change, and dropping an entry on itself changes nothing.
   */
  lemma DragEndBankReorder(ws: Workspace, ev: DragEvent, newId: string)
    requires IsBankReorder(ev) && BankReorderResolvable(ws, ev)
    ensures var from := FindBankIndex(ws.bank, ev.activeId);
            var to := FindBankIndex(ws.bank, ev.over.value.id);
            var r := DragEnd(ws, ev, newId);
            && r.sentences == ws.sentences && r.paragraphs == ws.paragraphs
            && multiset(r.bank) == multiset(ws.bank)
            && r.bank[to] == ws.bank[from]
            && (forall i :: 0 <= i < |ws.bank| ==> MovedFrom(from, to, i) < |ws.bank| && r.bank[i] == ws.bank[MovedFrom(from, to, i)])
            && (ev.activeId == ev.over.value.id ==> r == ws)
  {
    var from := FindBankIndex(ws.bank, ev.activeId);
    var to := FindBankIndex(ws.bank, ev.over.value.id);
    var r := DragEnd(ws, ev, newId);
    assert r == ws.(bank := ArrayMove(ws.bank, from, to)) by {
      ContainerNaming("");
    }
    forall i | 0 <= i < |ws.bank| ensures MovedFrom(from, to, i) < |ws.bank| && r.bank[i] == ws.bank[MovedFrom(from, to, i)] {
      ArrayMoveSource(ws.bank, from, to, i);
    }
    if ev.activeId == ev.over.value.id {
      ArrayMoveSelf(ws.bank, from);
    }
  }

  /** Every drop keeps each sentence id in at most one paragraph, given a fresh id to mint. */
  lemma DragEndKeepsNoDuplicates(ws: Workspace, ev: DragEvent, newId: string)
    requires BankReorderResolvable(ws, ev) && Fresh(ws, newId)
    requires NoDuplicates(ws.paragraphs) && UniqueParagraphIds(ws.paragraphs)
    ensures NoDuplicates(DragEnd(ws, ev, newId).paragraphs) && UniqueParagraphIds(DragEnd(ws, ev, newId).paragraphs)
  {
    var ps := DragEnd(ws, ev, newId).paragraphs;
    assert UniqueParagraphIds(ps);
    if ev.over.Some? {
      var ac := ActiveContainer(ev);
      var oc := OverContainer(ev.over.value);
      if ac == BankDroppable && IsParagraphContainer(oc) {
        if FindBank(ws.bank, ev.activeId).Some? {
          var pid := ParagraphIdOf(oc);
          assert ev.activeId != newId;
          assert ps == MintInto(ws.paragraphs, pid, ev.activeId, ev.over.value.id, newId);
          MintIntoKeepsNoDuplicates(ws.paragraphs, pid, ev.activeId, ev.over.value.id, newId);
        }
      } else if IsParagraphContainer(ac) && oc == BankDroppable {
        assert ps == HandleRemoveSentence(ws, ev.activeId, newId).paragraphs;
      } else {
        assert ps == ws.paragraphs by {
          ContainerNaming("");
        }
      }
    }
  }

  lemma MintIntoKeepsNoDuplicates(ps: seq<Paragraph>, pid: string, activeId: string, overId: string, newId: string)
    requires activeId != newId && !InAnyParagraph(ps, newId) && NoDuplicates(ps) && UniqueParagraphIds(ps)
    ensures NoDuplicates(MintInto(ps, pid, activeId, overId, newId))
  {
    MintIntoCounts(ps, pid, activeId, overId, newId);
  }

  /** Removing a sentence keeps every chunk list in step with its text: the new bank entry is a copy of a consistent sentence. */
  lemma RemoveKeepsChunks(ws: Workspace, id: string, bankId: string)
    requires AllChunksConsistent(ws)
    ensures AllChunksConsistent(HandleRemoveSentence(ws, id, bankId))
  {
    var r := HandleRemoveSentence(ws, id, bankId);
    forall j | 0 <= j < |r.bank| ensures ChunksConsistent(r.bank[j].sentence) {
      if j < |ws.bank| {
        assert r.bank[j] == r.bank[..|ws.bank|][j];
      }
    }
  }

  /**
   * Every drop keeps every chunk list in step with its text: a minted sentence
   * copies a consistent bank entry, a returned sentence becomes a consistent
   * bank entry, and a reorder only moves entries.
   */
  lemma DragEndKeepsChunks(ws: Workspace, ev: DragEvent, newId: string)
    requires BankReorderResolvable(ws, ev) && AllChunksConsistent(ws)
    ensures AllChunksConsistent(DragEnd(ws, ev, newId))
  {
    var r := DragEnd(ws, ev, newId);
    if ev.over.Some? {
      var ac := ActiveContainer(ev);
      var oc := OverContainer(ev.over.value);
      if ac == BankDroppable && IsParagraphContainer(oc) {
        if FindBank(ws.bank, ev.activeId).Some? {
          var item := FindBank(ws.bank, ev.activeId).value;
          var j :| 0 <= j < |ws.bank| && ws.bank[j] == item;
          assert ChunksConsistent(item.sentence);
        }
      } else if IsParagraphContainer(ac) && oc == BankDroppable {
        RemoveKeepsChunks(ws, ev.activeId, newId);
      } else if ac == oc && ac == BankDroppable {
        forall j | 0 <= j < |r.bank| ensures ChunksConsistent(r.bank[j].sentence) {
          assert r.bank[j] in multiset(ws.bank);
        }
      }
    }
  }

  /**
   * Dropping a bank item into a paragraph that lists no preview of it (the
   * hover preview did not run, as when the item hovered over itself) and then
   * removing the new sentence again restores every paragraph, keeps the
   * original bank item, and appends one MENTOR_SENTENCES entry with the item's
   * text.
   */
  lemma DropUnpreviewedThenRemove(ws: Workspace, ev: DragEvent, newId: string, bankId: string)
    requires ev.over.Some? && ActiveContainer(ev) == BankDroppable
    requires IsParagraphContainer(OverContainer(ev.over.value))
    requires FindBank(ws.bank, ev.activeId).Some?
    requires !InAnyParagraph(ws.paragraphs, ev.activeId)
    requires Fresh(ws, newId)
    ensures var item := FindBank(ws.bank, ev.activeId).value;
            var r := HandleRemoveSentence(DragEnd(ws, ev, newId), newId, bankId);
            && r.paragraphs == ws.paragraphs
            && r.bank == ws.bank + [BankSentence(item.sentence.(id := bankId), MENTOR_SENTENCES)]
            && r.bank[|ws.bank|].sentence.currentText == item.sentence.currentText
  {
    var ps := ws.paragraphs;
    var a := ev.activeId;
    var o := ev.over.value.id;
    var pid := ParagraphIdOf(OverContainer(ev.over.value));
    var mid := DragEnd(ws, ev, newId);
    assert a != newId;
    var mp := MintInto(ps, pid, a, o, newId);
    assert mid.paragraphs == mp;
    assert newId in mid.sentences;
    var r := HandleRemoveSentence(mid, newId, bankId);
    assert r.paragraphs == RemoveEverywhere(mp, newId);
    forall i | 0 <= i < |ps| ensures RemoveEverywhere(mp, newId)[i] == ps[i] {
      UnmintAt(ps, pid, a, o, newId, i);
    }
  }

  lemma UnmintAt(ps: seq<Paragraph>, pid: string, a: string, o: string, n: string, i: nat)
    requires a != n && !InAnyParagraph(ps, a) && !InAnyParagraph(ps, n) && i < |ps|
    ensures RemoveEverywhere(MintInto(ps, pid, a, o, n), n)[i] == ps[i]
  {
    var ids := ps[i].sentenceIds;
    assert a !in ids && n !in ids;
    if ps[i].id == pid {
      UnmintIds(ids, a, o, n);
    } else {
      FilterAbsent(ids, a);
      FilterAbsent(ids, n);
    }
  }

  /** Removing a freshly minted id from a list it was minted into restores the list. */
  lemma UnmintIds(ids: seq<string>, a: string, o: string, n: string)
    requires a != n && a !in ids && n !in ids
    ensures Filter(MintIds(ids, a, o, n), n) == ids
  {
    var idx := IndexOf(ids, o);
    var k: nat := if idx == -1 then |ids| else idx;
    assert MintIds(ids, a, o, n) == Splice(ids, k, n) by {
      ReplaceAbsent(ids, a, n);
      assert Splice(ids, |ids|, n) == ids + [n];
    }
    FilterSplice(ids, k, n);
  }
}
