/**
  The drag-and-drop hook (`useDragAndDrop`): it owns the block list and
  the id of the block being dragged, and reorders the list on a drop.
 */
module DragAndDrop {
  import opened Blocks
  import opened Edits

  /**
    The list with the element at `from` taken out and put back so that it
    ends at index `to`: `splice(from, 1)` followed by `splice(to, 0, x)`.
   */
  function Move(s: seq<Block>, from: nat, to: nat): (r: seq<Block>)
    requires from < |s| && to < |s|
    ensures |r| == |s|
    ensures r[to] == s[from]
  {
    var rest := s[..from] + s[from + 1..];
    rest[..to] + [s[from]] + rest[to..]
  }

  /** A move only reorders: the same blocks, each as often as before. */
  lemma MoveIsPermutation(s: seq<Block>, from: nat, to: nat)
    requires from < |s| && to < |s|
    ensures multiset(Move(s, from, to)) == multiset(s)
  {
    var rest := s[..from] + s[from + 1..];
    assert s == s[..from] + [s[from]] + s[from + 1..];
    assert multiset(s) == multiset(rest) + multiset{s[from]};
    assert rest == rest[..to] + rest[to..];
    assert multiset(rest) == multiset(rest[..to]) + multiset(rest[to..]);
  }

  /** Where each element of the moved list comes from: the blocks between
      the two positions shift by one towards `from`, all others stay. */
  lemma MoveAt(s: seq<Block>, from: nat, to: nat, i: nat)
    requires from < |s| && to < |s| && i < |s|
    ensures Move(s, from, to)[i] ==
      if i == to then s[from]
      else if from <= i < to then s[i + 1]
      else if to < i <= from then s[i - 1]
      else s[i]
  {
  }

  /** Taking the moved block out of the result leaves the other blocks in
      the order they had: their relative order is unchanged. */
  lemma MoveKeepsOthersInOrder(s: seq<Block>, from: nat, to: nat)
    requires from < |s| && to < |s|
    ensures var r := Move(s, from, to); r[..to] + r[to + 1..] == s[..from] + s[from + 1..]
  {
    var r := Move(s, from, to);
    var rest := s[..from] + s[from + 1..];
    assert r == rest[..to] + [s[from]] + rest[to..];
    assert r[..to] == rest[..to];
    assert r[to + 1..] == rest[to..];
  }

  /** Dropping a block onto its own position changes nothing. */
  lemma MoveOntoItself(s: seq<Block>, i: nat)
    requires i < |s|
    ensures Move(s, i, i) == s
  {
    forall j | 0 <= j < |s|
      ensures Move(s, i, i)[j] == s[j]
    {
      MoveAt(s, i, i, j);
    }
  }

  /** Moving back restores the list. */
  lemma MoveBack(s: seq<Block>, from: nat, to: nat)
    requires from < |s| && to < |s|
    ensures Move(Move(s, from, to), to, from) == s
  {
    var r := Move(s, from, to);
    var rest := s[..from] + s[from + 1..];
    var rest2 := r[..to] + r[to + 1..];
    MoveKeepsOthersInOrder(s, from, to);
    assert rest2 == rest;
    assert Move(r, to, from) == rest2[..from] + [r[to]] + rest2[from..];
    assert rest[..from] == s[..from];
    assert rest[from..] == s[from + 1..];
    assert s == s[..from] + [s[from]] + s[from + 1..];
  }

  /** Reordering keeps the ids unique. */
  lemma MoveKeepsIdsUnique(s: seq<Block>, from: nat, to: nat)
    requires UniqueIds(s) && from < |s| && to < |s|
    ensures UniqueIds(Move(s, from, to))
  {
    var r := Move(s, from, to);
    forall i, j | 0 <= i < j < |r|
      ensures r[i].id != r[j].id
    {
      MoveAt(s, from, to, i);
      MoveAt(s, from, to, j);
    }
  }

  /**
    A drop does not keep the indentation bound: dragging the parent to-do
    below its indented child leaves the child indented at the top.
   */
  lemma MoveBreaksIndentBound()
    ensures var s := [Block("a", Todo, "", None, Some(false), Some(0)),
                      Block("b", Todo, "", None, Some(false), Some(1)),
                      Block("c", Text, "", None, None, None)];
      IndentBounded(s) && !IndentBounded(Move(s, 0, 2))
  {
    var s := [Block("a", Todo, "", None, Some(false), Some(0)),
              Block("b", Todo, "", None, Some(false), Some(1)),
              Block("c", Text, "", None, None, None)];
    MoveAt(s, 0, 2, 0);
    assert IndentOf(Move(s, 0, 2)[0]) == 1;
  }

  /** JavaScript truthiness of the dragged id: `null` and `''` are falsy. */
  predicate Truthy(draggedId: Option<string>)
  {
    draggedId.Some? && draggedId.value != ""
  }

  /** The state the hook keeps: the list and the id being dragged. */
  class DragAndDropState {
    var blocks: seq<Block>
    var draggedBlockId: Option<string>

    constructor (initialBlocks: seq<Block>)
      ensures blocks == initialBlocks && draggedBlockId == None
    {
      blocks := initialBlocks;
      draggedBlockId := None;
    }

    /** `handleDragStart`: remember which block is dragged. */
    method HandleDragStart(blockId: string)
      modifies this
      ensures draggedBlockId == Some(blockId) && blocks == old(blocks)
    {
      draggedBlockId := Some(blockId);
    }

    /**
      `handleDrop`: without a dragged id, or when either id is not in the
      list, nothing changes (the dragged id is not cleared either);
      otherwise the dragged block moves to the index the target had and
      the dragged id is cleared.
     */
    method HandleDrop(dropTargetId: string)
      modifies this
      ensures !Truthy(old(draggedBlockId)) ==>
        blocks == old(blocks) && draggedBlockId == old(draggedBlockId)
      ensures Truthy(old(draggedBlockId)) ==>
        var from := FindIndex(old(blocks), old(draggedBlockId).value);
        var to := FindIndex(old(blocks), dropTargetId);
        if from == -1 || to == -1 then
          blocks == old(blocks) && draggedBlockId == old(draggedBlockId)
        else
          blocks == Move(old(blocks), from, to) && draggedBlockId == None
      ensures Truthy(old(draggedBlockId)) && old(draggedBlockId).value == dropTargetId ==>
        blocks == old(blocks)
    {
      if !Truthy(draggedBlockId) {
        return;
      }
      var draggedIndex := FindIndex(blocks, draggedBlockId.value);
      var dropIndex := FindIndex(blocks, dropTargetId);
      if draggedIndex == -1 || dropIndex == -1 {
        return;
      }
      var updated := blocks;
      var draggedBlock := updated[draggedIndex];
      updated := updated[..draggedIndex] + updated[draggedIndex + 1..];
      updated := updated[..dropIndex] + [draggedBlock] + updated[dropIndex..];
      if draggedIndex == dropIndex {
        MoveOntoItself(blocks, draggedIndex);
      }
      blocks := updated;
      draggedBlockId := None;
    }

    /** `setBlocks`: the editor's handlers replace the whole list. */
    method SetBlocks(newBlocks: seq<Block>)
      modifies this
      ensures blocks == newBlocks && draggedBlockId == old(draggedBlockId)
    {
      blocks := newBlocks;
    }
  }
}
