/**
 * `handleDragOver`: the live rearrangement applied on every hover tick.
 * Within one paragraph the hovered sentence swaps places by `arrayMove`;
 * across containers the dragged id is pulled out of every other paragraph and
 * inserted into the hovered one (a bank item being a preview of its raw id).
 */
module Hover {
  import opened Wrappers
  import opened Seqs
  import opened Types
  import opened Store
  import opened Events

  /** Move `activeId` to the index `overId` holds, when both are listed. */
  function ReorderIds(ids: seq<string>, activeId: string, overId: string): seq<string>
  {
    var oldIdx := IndexOf(ids, activeId);
    var newIdx := IndexOf(ids, overId);
    if oldIdx != -1 && newIdx != -1 then ArrayMove(ids, oldIdx, newIdx) else ids
  }

  /** Remove `activeId` from the list and insert it where `overId` was, or at the end. */
  function PlaceIds(ids: seq<string>, activeId: string, overId: string): (r: seq<string>)
    ensures multiset(r) == multiset(ids)[activeId := 0] + multiset{activeId}
  {
    var overIdx := IndexOf(ids, overId);
    var newIds := Filter(ids, activeId);
    var newIdx := if overIdx == -1 then |newIds| else overIdx;
    Splice(newIds, newIdx, activeId)
  }

  /** The index `PlaceIds` puts the dragged id at: `overId`'s old index, or the end. */
  function PlacedIndex(ids: seq<string>, activeId: string, overId: string): int
  {
    var overIdx := IndexOf(ids, overId);
    if overIdx == -1 then |ids| - Count(ids, activeId) else overIdx
  }

  function ReorderWithin(ps: seq<Paragraph>, pid: string, activeId: string, overId: string): seq<Paragraph>
  {
    seq(|ps|, i requires 0 <= i < |ps| =>
      if ps[i].id == pid then ps[i].(sentenceIds := ReorderIds(ps[i].sentenceIds, activeId, overId)) else ps[i])
  }

  /** First drag of a bank item into a paragraph: only the destination changes. */
  function PreviewInsert(ps: seq<Paragraph>, pid: string, activeId: string, overId: string): seq<Paragraph>
  {
    seq(|ps|, i requires 0 <= i < |ps| =>
      if ps[i].id == pid then ps[i].(sentenceIds := PlaceIds(ps[i].sentenceIds, activeId, overId)) else ps[i])
  }

  /** Paragraph to paragraph: insert into the destination, filter out of every other paragraph. */
  function MoveBetween(ps: seq<Paragraph>, pid: string, activeId: string, overId: string): seq<Paragraph>
  {
    seq(|ps|, i requires 0 <= i < |ps| =>
      if ps[i].id == pid then ps[i].(sentenceIds := PlaceIds(ps[i].sentenceIds, activeId, overId))
      else ps[i].(sentenceIds := Filter(ps[i].sentenceIds, activeId)))
  }

  function MoveAcross(ps: seq<Paragraph>, pid: string, activeId: string, overId: string, activeContainer: string): seq<Paragraph>
  {
    var activeInAnyP := InAnyParagraph(ps, activeId);
    if !activeInAnyP && activeContainer == BankDroppable then PreviewInsert(ps, pid, activeId, overId)
    else if !activeInAnyP then ps
    else MoveBetween(ps, pid, activeId, overId)
  }

  /** `handleDragOver`. Only the paragraphs can change, and never their ids or number. */
  function DragOver(ws: Workspace, ev: DragEvent): (r: Workspace)
    ensures r.sentences == ws.sentences && r.bank == ws.bank
    ensures |r.paragraphs| == |ws.paragraphs|
    ensures forall i :: 0 <= i < |ws.paragraphs| ==> r.paragraphs[i].id == ws.paragraphs[i].id
  {
    if ev.over.None? then ws
    else
      var activeId := ev.activeId;
      var overId := ev.over.value.id;
      var activeContainer := ActiveContainer(ev);
      var overContainer := OverContainer(ev.over.value);
      if activeId == overId then ws
      else if activeContainer == overContainer && IsParagraphContainer(activeContainer) then
        ws.(paragraphs := ReorderWithin(ws.paragraphs, ParagraphIdOf(activeContainer), activeId, overId))
      else if activeContainer != overContainer && IsParagraphContainer(overContainer) then
        ws.(paragraphs := MoveAcross(ws.paragraphs, ParagraphIdOf(overContainer), activeId, overId, activeContainer))
      else ws
  }

  // ---- Properties ----

  /** `PlaceIds` puts the dragged id at `overId`'s original index, or at the end when `overId` is not listed. */
  lemma PlaceIdsPosition(ids: seq<string>, activeId: string, overId: string)
    requires activeId != overId && Count(ids, activeId) <= 1
    ensures 0 <= PlacedIndex(ids, activeId, overId) < |PlaceIds(ids, activeId, overId)|
    ensures PlaceIds(ids, activeId, overId)[PlacedIndex(ids, activeId, overId)] == activeId
  {
    var newIds := Filter(ids, activeId);
    assert |newIds| == |ids| - Count(ids, activeId);
  }

  /** Within one paragraph, the sentences other than the dragged one keep their relative order. */
  lemma ReorderIdsKeepsOthers(ids: seq<string>, activeId: string, overId: string)
    ensures Filter(ReorderIds(ids, activeId, overId), activeId) == Filter(ids, activeId)
  {
    var oldIdx := IndexOf(ids, activeId);
    var newIdx := IndexOf(ids, overId);
    if oldIdx != -1 && newIdx != -1 {
      ArrayMoveKeepsOthers(ids, oldIdx, newIdx);
    }
  }

  /** Placing the dragged id keeps the destination's other sentences in their relative order. */
  lemma PlaceIdsKeepsOthers(ids: seq<string>, activeId: string, overId: string)
    ensures Filter(PlaceIds(ids, activeId, overId), activeId) == Filter(ids, activeId)
  {
    var newIds := Filter(ids, activeId);
    var overIdx := IndexOf(ids, overId);
    var newIdx := if overIdx == -1 then |newIds| else overIdx;
    FilterSpliceSame(newIds, newIdx, activeId);
    assert activeId !in newIds by {
      assert multiset(newIds)[activeId] == 0;
    }
    FilterAbsent(newIds, activeId);
  }

  /** No drop candidate, or hovering over itself: nothing changes. */
  lemma DragOverIgnored(ws: Workspace, ev: DragEvent)
    requires ev.over.None? || ev.activeId == ev.over.value.id
    ensures DragOver(ws, ev) == ws
  {
  }

  /**
   * Hovering inside the paragraph the item is in moves it to the hovered
   * sentence's index in that paragraph only; the list stays a permutation
   * whose other sentences keep their relative order, and it is left alone
   * unless both ids are listed.
   */
  lemma DragOverReorder(ws: Workspace, ev: DragEvent)
    requires ev.over.Some? && ev.activeId != ev.over.value.id
    requires ActiveContainer(ev) == OverContainer(ev.over.value)
    requires IsParagraphContainer(ActiveContainer(ev))
    ensures var pid := ParagraphIdOf(ActiveContainer(ev));
            var ps := ws.paragraphs;
            var r := DragOver(ws, ev).paragraphs;
            forall i :: 0 <= i < |ps| ==>
              && (ps[i].id != pid ==> r[i] == ps[i])
              && (ps[i].id == pid ==> multiset(r[i].sentenceIds) == multiset(ps[i].sentenceIds))
              && (ps[i].id == pid ==> Filter(r[i].sentenceIds, ev.activeId) == Filter(ps[i].sentenceIds, ev.activeId))
              && (ps[i].id == pid && ev.activeId in ps[i].sentenceIds && ev.over.value.id in ps[i].sentenceIds ==>
                    r[i].sentenceIds[IndexOf(ps[i].sentenceIds, ev.over.value.id)] == ev.activeId)
              && (ps[i].id == pid && !(ev.activeId in ps[i].sentenceIds && ev.over.value.id in ps[i].sentenceIds) ==>
                    r[i] == ps[i])
    ensures forall x :: Occurrences(DragOver(ws, ev).paragraphs, x) == Occurrences(ws.paragraphs, x)
  {
    var r := DragOver(ws, ev).paragraphs;
    forall i | 0 <= i < |ws.paragraphs|
      ensures Filter(ReorderIds(ws.paragraphs[i].sentenceIds, ev.activeId, ev.over.value.id), ev.activeId)
              == Filter(ws.paragraphs[i].sentenceIds, ev.activeId)
    {
      ReorderIdsKeepsOthers(ws.paragraphs[i].sentenceIds, ev.activeId, ev.over.value.id);
    }
    forall x ensures Occurrences(r, x) == Occurrences(ws.paragraphs, x) {
      OccurrencesPointwise(r, ws.paragraphs, x);
    }
  }

  /** Per-paragraph counts after a cross-container hover that changes something. */
  lemma MoveAcrossCounts(ps: seq<Paragraph>, pid: string, activeId: string, overId: string, activeContainer: string)
    requires InAnyParagraph(ps, activeId) || activeContainer == BankDroppable
    ensures var r := MoveAcross(ps, pid, activeId, overId, activeContainer);
            && |r| == |ps|
            && (forall i :: 0 <= i < |ps| ==> r[i].id == ps[i].id)
            && (forall i :: 0 <= i < |ps| ==> Count(r[i].sentenceIds, activeId) == if ps[i].id == pid then 1 else 0)
            && (forall i :: 0 <= i < |ps| && ps[i].id == pid ==> r[i].sentenceIds == PlaceIds(ps[i].sentenceIds, activeId, overId))
            && (forall i :: 0 <= i < |ps| && ps[i].id != pid ==> r[i].sentenceIds == Filter(ps[i].sentenceIds, activeId))
            && (forall i, y :: 0 <= i < |ps| && y != activeId ==> Count(r[i].sentenceIds, y) == Count(ps[i].sentenceIds, y))
  {
    var r := MoveAcross(ps, pid, activeId, overId, activeContainer);
    forall i | 0 <= i < |ps|
      ensures Count(r[i].sentenceIds, activeId) == (if ps[i].id == pid then 1 else 0)
      ensures ps[i].id != pid ==> r[i].sentenceIds == Filter(ps[i].sentenceIds, activeId)
      ensures forall y :: y != activeId ==> Count(r[i].sentenceIds, y) == Count(ps[i].sentenceIds, y)
    {
      MoveAcrossAt(ps, pid, activeId, overId, activeContainer, i);
    }
  }

  lemma MoveAcrossAt(ps: seq<Paragraph>, pid: string, activeId: string, overId: string, activeContainer: string, i: nat)
    requires InAnyParagraph(ps, activeId) || activeContainer == BankDroppable
    requires i < |ps|
    ensures var r := MoveAcross(ps, pid, activeId, overId, activeContainer);
            && |r| == |ps|
            && Count(r[i].sentenceIds, activeId) == (if ps[i].id == pid then 1 else 0)
            && (ps[i].id != pid ==> r[i].sentenceIds == Filter(ps[i].sentenceIds, activeId))
            && (forall y :: y != activeId ==> Count(r[i].sentenceIds, y) == Count(ps[i].sentenceIds, y))
  {
    var ids := ps[i].sentenceIds;
    if !InAnyParagraph(ps, activeId) {
      assert activeId !in ids;
      assert Count(ids, activeId) == 0;
      FilterAbsent(ids, activeId);
    }
  }

  /**
   * Hovering a paragraph from another container: afterwards the dragged id is
   * listed exactly once, in the hovered paragraph, at the hovered sentence's
   * index (or at the end), with the hovered paragraph's other sentences in
   * their old order; every other paragraph has only lost that id, and every
   * other id keeps its count.
   */
  lemma DragOverAcross(ws: Workspace, ev: DragEvent, k: nat)
    requires ev.over.Some? && ev.activeId != ev.over.value.id
    requires ActiveContainer(ev) != OverContainer(ev.over.value)
    requires IsParagraphContainer(OverContainer(ev.over.value))
    requires InAnyParagraph(ws.paragraphs, ev.activeId) || ActiveContainer(ev) == BankDroppable
    requires UniqueParagraphIds(ws.paragraphs)
    requires k < |ws.paragraphs| && ws.paragraphs[k].id == ParagraphIdOf(OverContainer(ev.over.value))
    ensures var r := DragOver(ws, ev).paragraphs;
            && Occurrences(r, ev.activeId) == 1
            && (forall i :: 0 <= i < |r| && i != k ==> r[i].sentenceIds == Filter(ws.paragraphs[i].sentenceIds, ev.activeId))
            && (Count(ws.paragraphs[k].sentenceIds, ev.activeId) <= 1 ==>
                  var at := PlacedIndex(ws.paragraphs[k].sentenceIds, ev.activeId, ev.over.value.id);
                  0 <= at < |r[k].sentenceIds| && r[k].sentenceIds[at] == ev.activeId)
            && Filter(r[k].sentenceIds, ev.activeId) == Filter(ws.paragraphs[k].sentenceIds, ev.activeId)
            && (forall x :: x != ev.activeId ==> Occurrences(r, x) == Occurrences(ws.paragraphs, x))
  {
    var pid := ParagraphIdOf(OverContainer(ev.over.value));
    assert DragOver(ws, ev).paragraphs == MoveAcross(ws.paragraphs, pid, ev.activeId, ev.over.value.id, ActiveContainer(ev));
    MoveAcrossPlaced(ws.paragraphs, pid, ev.activeId, ev.over.value.id, ActiveContainer(ev), k);
  }

  /** `DragOverAcross` stated on the paragraph list alone. */
  lemma MoveAcrossPlaced(ps: seq<Paragraph>, pid: string, a: string, o: string, activeContainer: string, k: nat)
    requires a != o
    requires InAnyParagraph(ps, a) || activeContainer == BankDroppable
    requires UniqueParagraphIds(ps)
    requires k < |ps| && ps[k].id == pid
    ensures var r := MoveAcross(ps, pid, a, o, activeContainer);
            && Occurrences(r, a) == 1
            && (forall i :: 0 <= i < |r| && i != k ==> r[i].sentenceIds == Filter(ps[i].sentenceIds, a))
            && (Count(ps[k].sentenceIds, a) <= 1 ==>
                  var at := PlacedIndex(ps[k].sentenceIds, a, o);
                  0 <= at < |r[k].sentenceIds| && r[k].sentenceIds[at] == a)
            && Filter(r[k].sentenceIds, a) == Filter(ps[k].sentenceIds, a)
            && (forall x :: x != a ==> Occurrences(r, x) == Occurrences(ps, x))
  {
    var r := MoveAcross(ps, pid, a, o, activeContainer);
    MoveAcrossCounts(ps, pid, a, o, activeContainer);
    forall i | 0 <= i < |r| && i != k ensures ps[i].id != pid {
      assert ps[i].id != ps[k].id;
    }
    assert Occurrences(r, a) == 1 by {
      assert UniqueParagraphIds(r);
      OccurrencesIndicator(r, a, pid);
      assert r[k].id == pid;
    }
    assert forall x :: x != a ==> Occurrences(r, x) == Occurrences(ps, x) by {
      forall x | x != a ensures Occurrences(r, x) == Occurrences(ps, x) {
        OccurrencesPointwise(r, ps, x);
      }
    }
    if Count(ps[k].sentenceIds, a) <= 1 {
      PlaceIdsPosition(ps[k].sentenceIds, a, o);
    }
    PlaceIdsKeepsOthers(ps[k].sentenceIds, a, o);
  }

  /** A hover from outside the bank with an id no paragraph lists changes nothing. */
  lemma DragOverUntracked(ws: Workspace, ev: DragEvent)
    requires ev.over.Some?
    requires ActiveContainer(ev) != OverContainer(ev.over.value)
    requires !InAnyParagraph(ws.paragraphs, ev.activeId) && ActiveContainer(ev) != BankDroppable
    ensures DragOver(ws, ev) == ws
  {
  }

  /** A hover keeps every sentence's chunks in step with its text: it edits no sentence and no bank entry. */
  lemma DragOverKeepsChunks(ws: Workspace, ev: DragEvent)
    requires AllChunksConsistent(ws)
    ensures AllChunksConsistent(DragOver(ws, ev))
  {
  }

  /** Every hover keeps each sentence id in at most one paragraph. */
  lemma DragOverKeepsNoDuplicates(ws: Workspace, ev: DragEvent)
    requires NoDuplicates(ws.paragraphs) && UniqueParagraphIds(ws.paragraphs)
    ensures NoDuplicates(DragOver(ws, ev).paragraphs) && UniqueParagraphIds(DragOver(ws, ev).paragraphs)
  {
    var r := DragOver(ws, ev);
    if ev.over.None? || ev.activeId == ev.over.value.id {
    } else if ActiveContainer(ev) == OverContainer(ev.over.value) && IsParagraphContainer(ActiveContainer(ev)) {
      DragOverReorder(ws, ev);
    } else if ActiveContainer(ev) != OverContainer(ev.over.value) && IsParagraphContainer(OverContainer(ev.over.value)) {
      var ps := ws.paragraphs;
      var pid := ParagraphIdOf(OverContainer(ev.over.value));
      var a := ev.activeId;
      if InAnyParagraph(ps, a) || ActiveContainer(ev) == BankDroppable {
        MoveAcrossCounts(ps, pid, a, ev.over.value.id, ActiveContainer(ev));
        assert UniqueParagraphIds(r.paragraphs);
        OccurrencesIndicator(r.paragraphs, a, pid);
        forall x ensures Occurrences(r.paragraphs, x) <= 1 {
          if x != a {
            OccurrencesPointwise(r.paragraphs, ps, x);
          }
        }
      }
    }
  }
}
