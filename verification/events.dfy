/**
 * Drag events as the handlers see them. dnd-kit reports the dragged item
 * (`active`) and the drop candidate (`over`, possibly null); each may carry the
 * id of the sortable list it belongs to. The handlers turn these into container
 * ids with JavaScript's `||`, so a missing or empty list id falls back.
 */
module Events {
  import opened Wrappers
  import opened Text

  /** The bank's sortable list id. */
  const BankDroppable: string := "bank-droppable"

  /** Paragraph lists are named `"p-" + paragraph id`. */
  const ParagraphPrefix: string := "p-"

  /** The drop candidate: its id and the id of the sortable list it sits in, if any. */
  datatype Over = Over(id: string, sortableContainer: Option<string>)

  datatype DragEvent = DragEvent(activeId: string, activeSortableContainer: Option<string>, over: Option<Over>)

  /** `sortable?.containerId || fallback`. */
  function ResolveContainer(sortable: Option<string>, fallback: string): string
  {
    if sortable.Some? && sortable.value != "" then sortable.value else fallback
  }

  /** The dragged item's container: its list, or the bank when it has none. */
  function ActiveContainer(ev: DragEvent): string
  {
    ResolveContainer(ev.activeSortableContainer, BankDroppable)
  }

  /** The drop candidate's container: its list, or the candidate itself when it has none. */
  function OverContainer(o: Over): string
  {
    ResolveContainer(o.sortableContainer, o.id)
  }

  /** `c.startsWith('p-')`. */
  predicate IsParagraphContainer(c: string)
  {
    |c| >= 2 && c[0] == 'p' && c[1] == '-'
  }

  /** `c.replace('p-', '')`: the first occurrence is the prefix, so this drops it. */
  function ParagraphIdOf(c: string): string
    requires IsParagraphContainer(c)
  {
    c[|ParagraphPrefix|..]
  }

  /** The list id a paragraph's sentences are rendered under. */
  function ParagraphContainer(pid: string): string
  {
    ParagraphPrefix + pid
  }

  /** Paragraph list ids decode back to their paragraph, and the bank's id is not one of them. */
  lemma ContainerNaming(pid: string)
    ensures IsParagraphContainer(ParagraphContainer(pid))
    ensures ParagraphIdOf(ParagraphContainer(pid)) == pid
    ensures !IsParagraphContainer(BankDroppable)
  {
    assert ParagraphContainer(pid)[..2] == "p-";
  }

  /** The character test is `startsWith('p-')`. */
  lemma ParagraphContainerIsPrefixed(c: string)
    ensures IsParagraphContainer(c) <==> StartsWith(c, ParagraphPrefix)
  {
    if |c| >= 2 {
      assert c[..2] == [c[0], c[1]];
    }
  }
}
