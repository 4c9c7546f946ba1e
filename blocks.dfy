/**
  The block record of the editor and the lookups by id that every
  handler performs (`find`, `findIndex`).
 */
module Blocks {

  datatype Option<+T> = None | Some(value: T)

  /** The three block types the editor renders. */
  datatype BlockType = Text | Heading | Todo

  /**
    One editable block. The record fields the source leaves `undefined`
    are `None` here: `headingLevel` is only meaningful for headings,
    `completed` and `indentation` only for to-dos.
   */
  datatype Block = Block(
    id: string,
    kind: BlockType,
    content: string,
    headingLevel: Option<nat>,
    completed: Option<bool>,
    indentation: Option<int>)

  /** `block.indentation || 0`: an absent indentation reads as zero. */
  function IndentOf(b: Block): int
  {
    match b.indentation
    case Some(n) => n
    case None => 0
  }

  predicate HasId(s: seq<Block>, id: string)
  {
    exists i :: 0 <= i < |s| && s[i].id == id
  }

  /** No two blocks of the list share an id. */
  predicate UniqueIds(s: seq<Block>)
  {
    forall i, j :: 0 <= i < j < |s| ==> s[i].id != s[j].id
  }

  /** Two lists with the same length and the same id at every position. */
  predicate SameIds(s: seq<Block>, r: seq<Block>)
  {
    |r| == |s| && forall i :: 0 <= i < |s| ==> r[i].id == s[i].id
  }

  /** `blocks.findIndex(block => block.id === id)`: the first position, or -1. */
  function FindIndex(s: seq<Block>, id: string): (k: int)
    ensures -1 <= k < |s|
    ensures k == -1 <==> !HasId(s, id)
    ensures k >= 0 ==> s[k].id == id && forall j :: 0 <= j < k ==> s[j].id != id
  {
    if |s| == 0 then -1
    else if s[0].id == id then 0
    else
      var k := FindIndex(s[1..], id);
      if k == -1 then
        assert forall i :: 1 <= i < |s| ==> s[i] == s[1..][i - 1];
        -1
      else
        assert s[1..][k] == s[k + 1];
        k + 1
  }

  /** `blocks.find(block => block.id === id)`: the first block carrying the
      id. The source dereferences the result, so callers must pass an id
      that is present. */
  function Find(s: seq<Block>, id: string): (b: Block)
    requires HasId(s, id)
    ensures b in s && b.id == id
  {
    s[FindIndex(s, id)]
  }

  /** The block `find` returns is the first one carrying the id. */
  lemma FindIsFirst(s: seq<Block>, id: string)
    requires HasId(s, id)
    ensures exists k :: 0 <= k < |s| && s[k] == Find(s, id) && forall j :: 0 <= j < k ==> s[j].id != id
  {
    var k := FindIndex(s, id);
    assert s[k] == Find(s, id);
  }

  /** With unique ids, the block carrying `s[i].id` is at position i. */
  lemma FindIndexUnique(s: seq<Block>, i: int)
    requires UniqueIds(s)
    requires 0 <= i < |s|
    ensures FindIndex(s, s[i].id) == i
  {
  }

  /**
    `blocks.map(block => block.id === id ? f(block) : block)`: every block
    carrying the id is rewritten by f, the others are kept.
   */
  function MapWhere(s: seq<Block>, id: string, f: Block -> Block): (r: seq<Block>)
    ensures |r| == |s|
    ensures forall i :: 0 <= i < |s| ==> r[i] == if s[i].id == id then f(s[i]) else s[i]
  {
    seq(|s|, i requires 0 <= i < |s| => if s[i].id == id then f(s[i]) else s[i])
  }

  /** With unique ids, the map over the list rewrites exactly one slot. */
  lemma MapWhereUnique(s: seq<Block>, id: string, f: Block -> Block)
    requires UniqueIds(s) && HasId(s, id)
    ensures MapWhere(s, id, f) == s[FindIndex(s, id) := f(s[FindIndex(s, id)])]
  {
  }

  /** With unique ids, the id of the block at position k occurs neither
      before nor after it. */
  lemma NoIdAround(s: seq<Block>, k: int)
    requires UniqueIds(s) && 0 <= k < |s|
    ensures !HasId(s[..k], s[k].id) && !HasId(s[k + 1..], s[k].id)
  {
  }

  /** An id absent from a list is absent from both sides of any cut. */
  lemma NoIdInSlices(s: seq<Block>, id: string, k: int)
    requires !HasId(s, id) && 0 <= k <= |s|
    ensures !HasId(s[..k], id) && !HasId(s[k..], id)
  {
  }
}
