/**
  The block-list edits of the editor component: each takes the current
  list and returns the list the component stores with `setBlocks`.
 */
module Edits {
  import opened Blocks

  /**
    The second argument of `changeBlockType`: a type name (the menu's
    "Text" and "To-Do", the `#`, `-` and `[]` shortcuts) or a
    `{ type, level }` object (the menu's "Heading 1" to "Heading 3").
   */
  datatype NewType = Kind(t: BlockType) | Leveled(t: BlockType, level: nat)

  /** The three blocks the editor starts with. Their ids are distinct and
      none is indented, so the list invariants hold from the start. */
  function InitialBlocks(): (r: seq<Block>)
    ensures |r| == 3 && UniqueIds(r) && IndentBounded(r)
    ensures forall i :: 0 <= i < |r| ==> Disciplined(r[i])
  {
    [ Block("1", Text, "This is a text block.", None, None, None),
      Block("2", Heading, "This is a heading block.", None, None, None),
      Block("3", Todo, "This is a to-do block.", None, Some(false), None) ]
  }

  /** The record a block becomes under `changeBlockType`. */
  function Retyped(b: Block, nt: NewType): Block
  {
    match nt
    case Kind(t) =>
      b.(kind := t, headingLevel := None,
         content := if t == Todo then "New to-do item" else b.content,
         completed := if t == Todo then Some(false) else None)
    case Leveled(t, level) =>
      b.(kind := t, headingLevel := Some(level), completed := None)
  }

  /**
    `changeBlockType`: every block with the id takes the new type; a
    to-do starts over as an unchecked "New to-do item", a heading chosen
    with a level keeps its text and records the level, any other type
    name keeps the text and drops the level and the check mark.
    Indentation is never touched.
   */
  function ChangeBlockType(s: seq<Block>, id: string, nt: NewType): (r: seq<Block>)
    ensures SameIds(s, r)
    ensures forall i :: 0 <= i < |s| && s[i].id != id ==> r[i] == s[i]
    ensures forall i :: 0 <= i < |s| && s[i].id == id ==>
      && r[i].kind == nt.t
      && r[i].indentation == s[i].indentation
      && (nt == Kind(Todo) ==>
            r[i].content == "New to-do item" && r[i].completed == Some(false) && r[i].headingLevel == None)
      && (nt.Kind? && nt.t != Todo ==>
            r[i].content == s[i].content && r[i].completed == None && r[i].headingLevel == None)
      && (nt.Leveled? ==>
            r[i].content == s[i].content && r[i].completed == None && r[i].headingLevel == Some(nt.level))
  {
    MapWhere(s, id, b => Retyped(b, nt))
  }

  /** Choosing the same type twice is the same as choosing it once. */
  lemma ChangeBlockTypeIdempotent(s: seq<Block>, id: string, nt: NewType)
    ensures ChangeBlockType(ChangeBlockType(s, id, nt), id, nt) == ChangeBlockType(s, id, nt)
  {
    var r := ChangeBlockType(s, id, nt);
    var r2 := ChangeBlockType(r, id, nt);
    assert forall i :: 0 <= i < |s| ==> r2[i] == r[i];
  }

  /** A block carries a heading level only as a heading and a check mark
      only as a to-do. */
  predicate Disciplined(b: Block)
  {
    (b.headingLevel.Some? ==> b.kind == Heading) && (b.completed.Some? ==> b.kind == Todo)
  }

  /** Every type change the editor offers leaves the retyped blocks
      disciplined, whatever fields they carried before. */
  lemma ChangeBlockTypeDisciplines(s: seq<Block>, id: string, nt: NewType)
    requires nt.Kind? || nt.t == Heading
    ensures forall i :: 0 <= i < |s| && s[i].id == id ==> Disciplined(ChangeBlockType(s, id, nt)[i])
  {
  }

  /** `deleteBlock`: `blocks.filter(block => block.id !== id)`. */
  function DeleteBlock(s: seq<Block>, id: string): (r: seq<Block>)
    ensures |r| <= |s|
    ensures |r| == |s| <==> !HasId(s, id)
    ensures !HasId(r, id)
  {
    if s == [] then []
    else (if s[0].id == id then [] else [s[0]]) + DeleteBlock(s[1..], id)
  }

  /** The survivors are exactly the blocks whose id differs. */
  lemma {:induction false} DeleteBlockMembers(s: seq<Block>, id: string)
    ensures forall b :: b in DeleteBlock(s, id) <==> b in s && b.id != id
  {
    if s != [] {
      DeleteBlockMembers(s[1..], id);
      assert forall b :: b in s <==> b == s[0] || b in s[1..];
    }
  }

  /** The filter works block by block: it distributes over concatenation,
      so the survivors keep their relative order. */
  lemma {:induction false} DeleteBlockAppend(s1: seq<Block>, s2: seq<Block>, id: string)
    ensures DeleteBlock(s1 + s2, id) == DeleteBlock(s1, id) + DeleteBlock(s2, id)
  {
    if s1 == [] {
      assert s1 + s2 == s2;
    } else {
      assert (s1 + s2)[1..] == s1[1..] + s2;
      DeleteBlockAppend(s1[1..], s2, id);
    }
  }

  /** Deleting an id that is not there changes nothing. */
  lemma {:induction false} DeleteBlockAbsent(s: seq<Block>, id: string)
    requires !HasId(s, id)
    ensures DeleteBlock(s, id) == s
  {
    if s != [] {
      assert forall i :: 0 <= i < |s| - 1 ==> s[1..][i] == s[i + 1];
      DeleteBlockAbsent(s[1..], id);
    }
  }

  /** A single block is kept exactly when its id differs. */
  lemma DeleteBlockSingle(b: Block, id: string)
    ensures DeleteBlock([b], id) == if b.id == id then [] else [b]
  {
    assert DeleteBlock([b], id) == (if b.id == id then [] else [b]) + DeleteBlock([], id);
  }

  /** Deleting the id of the one block between two stretches that lack it
      joins the two stretches. */
  lemma DeleteBlockSplice(front: seq<Block>, b: Block, back: seq<Block>, id: string)
    requires !HasId(front, id) && !HasId(back, id)
    ensures DeleteBlock(front + [b] + back, id) == front + (if b.id == id then [] else [b]) + back
  {
    DeleteBlockAppend(front + [b], back, id);
    DeleteBlockAppend(front, [b], id);
    DeleteBlockSingle(b, id);
    DeleteBlockAbsent(front, id);
    DeleteBlockAbsent(back, id);
  }

  /** With unique ids, deleting a present id removes exactly its slot. */
  lemma DeleteBlockUnique(s: seq<Block>, id: string)
    requires UniqueIds(s) && HasId(s, id)
    ensures DeleteBlock(s, id) == s[..FindIndex(s, id)] + s[FindIndex(s, id) + 1..]
    ensures |DeleteBlock(s, id)| == |s| - 1
  {
    var k := FindIndex(s, id);
    var front, back := s[..k], s[k + 1..];
    NoIdAround(s, k);
    assert s == front + [s[k]] + back;
    DeleteBlockSplice(front, s[k], back, id);
    assert front + [] + back == front + back;
  }

  /** Deleting keeps the ids unique. */
  lemma DeleteBlockKeepsIdsUnique(s: seq<Block>, id: string)
    requires UniqueIds(s)
    ensures UniqueIds(DeleteBlock(s, id))
  {
    if HasId(s, id) {
      DeleteBlockUnique(s, id);
      var k := FindIndex(s, id);
      var r := DeleteBlock(s, id);
      assert forall i :: 0 <= i < |r| ==> r[i] == s[if i < k then i else i + 1];
    } else {
      DeleteBlockAbsent(s, id);
    }
  }

  /** `updateBlockContent`: the blur handler commits the live text. */
  function UpdateBlockContent(s: seq<Block>, id: string, newContent: string): (r: seq<Block>)
    ensures SameIds(s, r)
    ensures forall i :: 0 <= i < |s| && s[i].id != id ==> r[i] == s[i]
    ensures forall i :: 0 <= i < |s| && s[i].id == id ==>
      r[i].content == newContent && r[i] == s[i].(content := newContent)
  {
    MapWhere(s, id, (b: Block) => b.(content := newContent))
  }

  /** Of two commits to the same block, the later one wins. */
  lemma UpdateBlockContentLastWins(s: seq<Block>, id: string, c1: string, c2: string)
    ensures UpdateBlockContent(UpdateBlockContent(s, id, c1), id, c2) == UpdateBlockContent(s, id, c2)
  {
    var r := UpdateBlockContent(UpdateBlockContent(s, id, c1), id, c2);
    assert forall i :: 0 <= i < |s| ==> r[i] == UpdateBlockContent(s, id, c2)[i];
  }

  /** Committing the text a block already holds changes nothing. */
  lemma UpdateBlockContentUnchanged(s: seq<Block>, id: string)
    requires UniqueIds(s) && HasId(s, id)
    ensures UpdateBlockContent(s, id, Find(s, id).content) == s
  {
    var r := UpdateBlockContent(s, id, Find(s, id).content);
    forall i | 0 <= i < |s|
      ensures r[i] == s[i]
    {
      if s[i].id == id {
        FindIndexUnique(s, i);
      }
    }
  }

  /** JavaScript truthiness of `block.completed`: only `true` counts. */
  predicate IsCompleted(b: Block)
  {
    b.completed == Some(true)
  }

  /** `{ ...block, completed: !block.completed }`. */
  function Toggled(b: Block): Block
  {
    b.(completed := Some(!IsCompleted(b)))
  }

  /**
    `toggleTodoCompletion`: the check mark of every block with the id
    becomes a boolean opposite to its old truthiness; nothing else moves.
   */
  function ToggleTodoCompletion(s: seq<Block>, id: string): (r: seq<Block>)
    ensures SameIds(s, r)
    ensures forall i :: 0 <= i < |s| && s[i].id != id ==> r[i] == s[i]
    ensures forall i :: 0 <= i < |s| && s[i].id == id ==>
      && r[i].completed.Some?
      && (IsCompleted(r[i]) <==> !IsCompleted(s[i]))
      && r[i] == s[i].(completed := r[i].completed)
  {
    MapWhere(s, id, Toggled)
  }

  /** Toggling twice restores every block whose check mark was a boolean;
      an absent one comes back as `false`. */
  lemma ToggleTodoCompletionTwice(s: seq<Block>, id: string)
    ensures var r := ToggleTodoCompletion(ToggleTodoCompletion(s, id), id);
      forall i :: 0 <= i < |s| ==>
        if s[i].id == id && s[i].completed == None then r[i] == s[i].(completed := Some(false))
        else r[i] == s[i]
  {
    var t := ToggleTodoCompletion(s, id);
    var r := ToggleTodoCompletion(t, id);
    forall i | 0 <= i < |s|
      ensures if s[i].id == id && s[i].completed == None then r[i] == s[i].(completed := Some(false))
              else r[i] == s[i]
    {
      if s[i].id == id {
        assert t[i] == Toggled(s[i]) && r[i] == Toggled(t[i]);
        if s[i].completed.Some? {
          var c := s[i].completed.value;
          assert s[i].completed == Some(c);
        }
      }
    }
  }

  /** Toggling twice is the identity when every targeted block has a
      boolean check mark, as every to-do the editor creates has. */
  lemma ToggleTodoCompletionInvolution(s: seq<Block>, id: string)
    requires forall i :: 0 <= i < |s| && s[i].id == id ==> s[i].completed.Some?
    ensures ToggleTodoCompletion(ToggleTodoCompletion(s, id), id) == s
  {
    var r := ToggleTodoCompletion(ToggleTodoCompletion(s, id), id);
    ToggleTodoCompletionTwice(s, id);
    assert forall i :: 0 <= i < |s| ==> r[i] == s[i];
  }

  /**
    The deepest indentation the block at position k may take: one more
    than its predecessor when that predecessor is a to-do, otherwise 0
    (also for the first block, and for k == -1, an id not found).
   */
  function AllowedIndent(s: seq<Block>, k: int): int
    requires -1 <= k < |s|
  {
    if k > 0 && s[k - 1].kind == Todo then IndentOf(s[k - 1]) + 1 else 0
  }

  /** Every block's indentation lies between 0 and what its position allows. */
  predicate IndentBounded(s: seq<Block>)
  {
    forall i :: 0 <= i < |s| ==> 0 <= IndentOf(s[i]) <= AllowedIndent(s, i)
  }

  function Indented(b: Block, max: int): Block
  {
    if IndentOf(b) < max then b.(indentation := Some(IndentOf(b) + 1)) else b
  }

  /**
    `addIndentation`: the block found at position k rises by exactly one
    level when it is strictly below AllowedIndent(s, k) and stays put
    otherwise; only its indentation can change.
   */
  function AddIndentation(s: seq<Block>, id: string): (r: seq<Block>)
    ensures SameIds(s, r)
    ensures forall i :: 0 <= i < |s| && s[i].id != id ==> r[i] == s[i]
    ensures forall i :: 0 <= i < |s| && s[i].id == id ==> r[i] == s[i].(indentation := r[i].indentation)
    ensures var k := FindIndex(s, id);
      k >= 0 ==>
        && IndentOf(r[k]) == (if IndentOf(s[k]) < AllowedIndent(s, k) then IndentOf(s[k]) + 1 else IndentOf(s[k]))
        && (IndentOf(s[k]) >= AllowedIndent(s, k) ==> r[k].indentation == s[k].indentation)
  {
    var max := AllowedIndent(s, FindIndex(s, id));
    MapWhere(s, id, b => Indented(b, max))
  }

  /** Indenting keeps every block within its bound. */
  lemma AddIndentationKeepsIndentBounded(s: seq<Block>, id: string)
    requires UniqueIds(s) && IndentBounded(s)
    ensures IndentBounded(AddIndentation(s, id))
  {
    var r := AddIndentation(s, id);
    var k := FindIndex(s, id);
    forall i | 0 <= i < |r|
      ensures 0 <= IndentOf(r[i]) <= AllowedIndent(r, i)
    {
      if i > 0 {
        assert r[i - 1].kind == s[i - 1].kind;
        assert IndentOf(r[i - 1]) >= IndentOf(s[i - 1]);
      }
      if s[i].id == id {
        FindIndexUnique(s, i);
      }
    }
  }

  /** The block `addBlockBelow` inserts after `cur`. */
  function NewBlockBelow(cur: Block, freshId: string): Block
  {
    if cur.kind == Todo then Block(freshId, Todo, "", None, Some(false), Some(IndentOf(cur)))
    else Block(freshId, Text, "", None, None, None)
  }

  /**
    `addBlockBelow`: a fresh empty block right after the first block with
    the id; an unchecked to-do at the same indentation below a to-do, a
    text block below anything else. The id comes from the caller (the
    source reads the clock).
   */
  function AddBlockBelow(s: seq<Block>, id: string, freshId: string): (r: seq<Block>)
    requires HasId(s, id)
    ensures var k := FindIndex(s, id);
      && |r| == |s| + 1
      && r[..k + 1] == s[..k + 1] && r[k + 2..] == s[k + 1..]
      && r[k + 1].id == freshId && r[k + 1].content == "" && r[k + 1].headingLevel == None
      && (s[k].kind == Todo ==>
            r[k + 1].kind == Todo && r[k + 1].completed == Some(false) && r[k + 1].indentation == Some(IndentOf(s[k])))
      && (s[k].kind != Todo ==>
            r[k + 1].kind == Text && r[k + 1].completed == None && r[k + 1].indentation == None)
  {
    var k := FindIndex(s, id);
    s[..k + 1] + [NewBlockBelow(s[k], freshId)] + s[k + 1..]
  }

  /** Deleting the inserted block gives back the original list. */
  lemma AddBlockBelowThenDelete(s: seq<Block>, id: string, freshId: string)
    requires HasId(s, id) && !HasId(s, freshId)
    ensures DeleteBlock(AddBlockBelow(s, id, freshId), freshId) == s
  {
    var k := FindIndex(s, id);
    var front, back := s[..k + 1], s[k + 1..];
    var n := NewBlockBelow(s[k], freshId);
    assert AddBlockBelow(s, id, freshId) == front + [n] + back;
    assert s == front + back;
    NoIdInSlices(s, freshId, k + 1);
    DeleteBlockSplice(front, n, back, freshId);
    assert front + [] + back == front + back;
  }

  /** With a fresh id, inserting keeps the ids unique. */
  lemma AddBlockBelowKeepsIdsUnique(s: seq<Block>, id: string, freshId: string)
    requires UniqueIds(s) && HasId(s, id) && !HasId(s, freshId)
    ensures UniqueIds(AddBlockBelow(s, id, freshId))
  {
    var k := FindIndex(s, id);
    var r := AddBlockBelow(s, id, freshId);
    assert forall i :: 0 <= i < |r| && i != k + 1 ==> r[i] == s[if i <= k then i else i - 1];
  }

  /** Inserting below keeps every block within its indentation bound. */
  lemma AddBlockBelowKeepsIndentBounded(s: seq<Block>, id: string, freshId: string)
    requires HasId(s, id) && IndentBounded(s)
    ensures IndentBounded(AddBlockBelow(s, id, freshId))
  {
    var k := FindIndex(s, id);
    var n := NewBlockBelow(s[k], freshId);
    var r := AddBlockBelow(s, id, freshId);
    assert r == s[..k + 1] + [n] + s[k + 1..];
    forall i | 0 <= i < |r|
      ensures 0 <= IndentOf(r[i]) <= AllowedIndent(r, i)
    {
      if i <= k {
        assert r[i] == s[i];
        if i > 0 { assert r[i - 1] == s[i - 1]; }
      } else if i == k + 1 {
        assert r[i] == n && r[i - 1] == s[k];
      } else if i == k + 2 {
        assert r[i] == s[i - 1] && r[i - 1] == n;
      } else {
        assert r[i] == s[i - 1] && r[i - 1] == s[i - 2];
      }
    }
  }
}
