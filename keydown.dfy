/**
  The keystroke handler of a block (`handleKeyDown`) as a step function:
  from the current list, the id of the focused block, the key and the
  block's live text to the list the handler stores and the block it asks
  to focus once the list has been rendered.
 */
module KeyDown {
  import opened Blocks
  import opened LiveText
  import opened Edits

  /** The keys the handler reacts to; every other key leaves the list alone. */
  datatype Key = Enter | Backspace | Tab | Space | OtherKey

  /** What one keystroke leaves behind: the new list and, when the handler
      defers a focus change, the id of the block to focus. */
  datatype Outcome = Outcome(blocks: seq<Block>, focus: Option<string>)

  /**
    Enter on an empty indented to-do: one level out, `block.indentation - 1`
    on every block carrying the id. A block with the same id but no
    indentation gets `undefined - 1`, which is NaN; every reader of the
    field sees NaN through `indentation || 0` as 0, exactly as it sees
    `undefined`, so it stays `None` here.
   */
  function Outdented(b: Block): Block
  {
    match b.indentation
    case Some(n) => b.(indentation := Some(n - 1))
    case None => b
  }

  /** Enter on an empty to-do at the root: it becomes an empty text block;
      its other fields stay as they were. */
  function Demoted(b: Block): Block
  {
    b.(kind := Text, content := "")
  }

  /** The `##` and `###` shortcuts. */
  function AsHeading(b: Block, level: nat): Block
  {
    b.(kind := Heading, headingLevel := Some(level), content := "")
  }

  /**
    The markdown shortcut typed before a space, on the trimmed live text:
    `#`, `-` and `[]` go through `changeBlockType`, `##` and `###` set the
    heading level and clear the content, anything else changes nothing.
   */
  function Shortcut(s: seq<Block>, id: string, marker: string): (r: seq<Block>)
    ensures SameIds(s, r)
  {
    if marker == "#" then ChangeBlockType(s, id, Kind(Heading))
    else if marker == "-" then ChangeBlockType(s, id, Kind(Text))
    else if marker == "[]" then ChangeBlockType(s, id, Kind(Todo))
    else if marker == "##" then MapWhere(s, id, b => AsHeading(b, 2))
    else if marker == "###" then MapWhere(s, id, b => AsHeading(b, 3))
    else s
  }

  /**
    `handleKeyDown`. Enter and Tab look the focused block up and need it
    to be present; Backspace and Space never dereference it. A focus
    request is made exactly when the list changes length, and it always
    names a block of the new list. Tab, Space and other keys never add,
    remove or reorder blocks.
   */
  function HandleKeyDown(s: seq<Block>, id: string, key: Key, liveText: string, freshId: string): (o: Outcome)
    requires key == Enter || key == Tab ==> HasId(s, id)
    ensures o.focus.Some? ==> HasId(o.blocks, o.focus.value)
    ensures o.focus.Some? <==> |o.blocks| != |s|
    ensures key == Enter ==> |s| <= |o.blocks| <= |s| + 1
    ensures key == Backspace ==> |o.blocks| <= |s|
    ensures key != Enter && key != Backspace ==> o.focus == None
    ensures o.focus == None ==> SameIds(s, o.blocks)
  {
    match key
    case Enter =>
      var cur := Find(s, id);
      if cur.kind == Todo && IsBlank(liveText) then
        if IndentOf(cur) > 0 then Outcome(MapWhere(s, id, Outdented), None)
        else Outcome(MapWhere(s, id, Demoted), None)
      else
        var r := AddBlockBelow(s, id, freshId);
        assert r[FindIndex(s, id) + 1].id == freshId;
        Outcome(r, Some(freshId))
    case Backspace =>
      var k := FindIndex(s, id);
      if IsBlank(liveText) && k > 0 then
        var r := DeleteBlock(s, id);
        DeleteBlockMembers(s, id);
        assert s[k - 1] in r;
        Outcome(r, Some(s[k - 1].id))
      else Outcome(s, None)
    case Tab =>
      if Find(s, id).kind == Todo then Outcome(AddIndentation(s, id), None)
      else Outcome(s, None)
    case Space =>
      Outcome(Shortcut(s, id, Trim(liveText)), None)
    case OtherKey =>
      Outcome(s, None)
  }

  /**
    Enter on an indented to-do whose live text is blank adds no block and
    moves that to-do out by exactly one level; every other block stays.
   */
  lemma EnterOnBlankIndentedTodo(s: seq<Block>, id: string, liveText: string, freshId: string)
    requires UniqueIds(s) && HasId(s, id)
    requires Find(s, id).kind == Todo && IsBlank(liveText) && IndentOf(Find(s, id)) > 0
    ensures var k := FindIndex(s, id);
      HandleKeyDown(s, id, Enter, liveText, freshId)
        == Outcome(s[k := s[k].(indentation := Some(IndentOf(s[k]) - 1))], None)
  {
    var k := FindIndex(s, id);
    assert Find(s, id) == s[k];
    OutdentedLevel(s[k]);
    EnterOnBlankTodoMaps(s, id, liveText, freshId);
    MapWhereUnique(s, id, Outdented);
  }

  /** A block with an indentation moves out by exactly one level; one
      without keeps reading as level 0. */
  lemma OutdentedLevel(b: Block)
    ensures b.indentation.Some? ==> Outdented(b) == b.(indentation := Some(IndentOf(b) - 1))
    ensures b.indentation.None? ==> Outdented(b) == b && IndentOf(Outdented(b)) == 0
  {
  }

  /**
    Enter on a to-do at the root whose live text is blank adds no block and
    turns that to-do into an empty text block keeping its other fields;
    every other block stays.
   */
  lemma EnterOnBlankRootTodo(s: seq<Block>, id: string, liveText: string, freshId: string)
    requires UniqueIds(s) && HasId(s, id)
    requires Find(s, id).kind == Todo && IsBlank(liveText) && IndentOf(Find(s, id)) <= 0
    ensures var k := FindIndex(s, id);
      HandleKeyDown(s, id, Enter, liveText, freshId)
        == Outcome(s[k := s[k].(kind := Text, content := "")], None)
  {
    EnterOnBlankTodoMaps(s, id, liveText, freshId);
    MapWhereUnique(s, id, Demoted);
  }

  /**
    Enter on a to-do whose live text is blank rewrites every block that
    carries the id: one level out when the first of them is indented,
    into an empty text block otherwise.
   */
  lemma EnterOnBlankTodoMaps(s: seq<Block>, id: string, liveText: string, freshId: string)
    requires HasId(s, id)
    requires Find(s, id).kind == Todo && IsBlank(liveText)
    ensures var o := HandleKeyDown(s, id, Enter, liveText, freshId);
      && o.focus == None
      && (IndentOf(s[FindIndex(s, id)]) > 0 ==> o.blocks == MapWhere(s, id, Outdented))
      && (IndentOf(s[FindIndex(s, id)]) <= 0 ==> o.blocks == MapWhere(s, id, Demoted))
  {
  }

  /** Every other Enter inserts a block below and asks to focus it. */
  lemma EnterInsertsBelow(s: seq<Block>, id: string, liveText: string, freshId: string)
    requires HasId(s, id)
    requires Find(s, id).kind != Todo || !IsBlank(liveText)
    ensures HandleKeyDown(s, id, Enter, liveText, freshId) == Outcome(AddBlockBelow(s, id, freshId), Some(freshId))
  {
  }

  /**
    Backspace on a blank block that is not the first removes exactly that
    block and asks to focus the block that preceded it, which stays in
    place.
   */
  lemma BackspaceOnBlank(s: seq<Block>, id: string, liveText: string, freshId: string)
    requires UniqueIds(s) && HasId(s, id)
    requires IsBlank(liveText) && FindIndex(s, id) > 0
    ensures var k := FindIndex(s, id);
      var o := HandleKeyDown(s, id, Backspace, liveText, freshId);
      && o.blocks == s[..k] + s[k + 1..]
      && o.focus == Some(s[k - 1].id)
      && o.blocks[k - 1] == s[k - 1]
  {
    DeleteBlockUnique(s, id);
  }

  /** Backspace on the first block, on an id not in the list, or with
      text left in the block changes nothing. */
  lemma BackspaceNoop(s: seq<Block>, id: string, liveText: string, freshId: string)
    requires !IsBlank(liveText) || FindIndex(s, id) <= 0
    ensures HandleKeyDown(s, id, Backspace, liveText, freshId) == Outcome(s, None)
  {
  }

  /** Tab on a to-do is `addIndentation`; on any other block it does nothing. */
  lemma TabIndents(s: seq<Block>, id: string, liveText: string, freshId: string)
    requires HasId(s, id)
    ensures var o := HandleKeyDown(s, id, Tab, liveText, freshId);
      && o.focus == None
      && (Find(s, id).kind == Todo ==> o.blocks == AddIndentation(s, id))
      && (Find(s, id).kind != Todo ==> o.blocks == s)
  {
  }

  /** On a list with unique ids that keeps the indentation bound, Tab keeps it. */
  lemma TabKeepsIndentBounded(s: seq<Block>, id: string, liveText: string, freshId: string)
    requires UniqueIds(s) && HasId(s, id) && IndentBounded(s)
    ensures IndentBounded(HandleKeyDown(s, id, Tab, liveText, freshId).blocks)
  {
    TabIndents(s, id, liveText, freshId);
    AddIndentationKeepsIndentBounded(s, id);
  }

  /**
    The markdown shortcuts on the focused block, read on the trimmed live
    text: `##` and `###` make an empty heading of level 2 and 3; `#` makes
    a heading without a level (rendered as level 1) that keeps the stored
    text; `[]` makes a fresh unchecked to-do; `-` makes a text block;
    anything else changes nothing. Other blocks never change.
   */
  lemma SpaceShortcuts(s: seq<Block>, id: string, liveText: string, freshId: string)
    requires UniqueIds(s) && HasId(s, id)
    ensures var k := FindIndex(s, id);
      var t := Trim(liveText);
      var o := HandleKeyDown(s, id, Space, liveText, freshId);
      && o.focus == None && |o.blocks| == |s|
      && (forall i :: 0 <= i < |s| && i != k ==> o.blocks[i] == s[i])
      && (t == "##" ==> o.blocks[k] == s[k].(kind := Heading, headingLevel := Some(2), content := ""))
      && (t == "###" ==> o.blocks[k] == s[k].(kind := Heading, headingLevel := Some(3), content := ""))
      && (t == "#" ==>
            o.blocks[k] == s[k].(kind := Heading, headingLevel := None, completed := None))
      && (t == "[]" ==>
            o.blocks[k] == s[k].(kind := Todo, headingLevel := None, content := "New to-do item", completed := Some(false)))
      && (t == "-" ==>
            o.blocks[k] == s[k].(kind := Text, headingLevel := None, completed := None))
      && (t !in ["#", "##", "###", "-", "[]"] ==> o.blocks == s)
  {
    var k := FindIndex(s, id);
    forall i | 0 <= i < |s| && i != k
      ensures s[i].id != id
    {
      FindIndexUnique(s, i);
    }
  }

  /** White space around the typed text does not matter: a shortcut acts
      on the trimmed text, so a padded marker works like the bare one. */
  lemma SpaceShortcutIgnoresPadding(s: seq<Block>, id: string, w1: string, marker: string, w2: string, freshId: string)
    requires AllWhitespace(w1) && AllWhitespace(w2)
    requires marker != [] && !IsWhitespace(marker[0]) && !IsWhitespace(marker[|marker| - 1])
    ensures HandleKeyDown(s, id, Space, w1 + marker + w2, freshId) == HandleKeyDown(s, id, Space, marker, freshId)
  {
    var padded := w1 + marker + w2;
    TrimPadded(w1, marker, w2);
    TrimPadded([], marker, []);
    assert [] + marker + [] == marker;
    SpaceIsShortcut(s, id, padded, freshId);
    SpaceIsShortcut(s, id, marker, freshId);
  }

  /** Space applies the shortcut named by the trimmed live text. */
  lemma SpaceIsShortcut(s: seq<Block>, id: string, liveText: string, freshId: string)
    ensures HandleKeyDown(s, id, Space, liveText, freshId) == Outcome(Shortcut(s, id, Trim(liveText)), None)
  {
  }

  /**
    The editor does not keep the indentation bound on every path: moving
    a to-do out with Enter leaves the to-do below it one level too deep
    for its new predecessor.
   */
  lemma OutdentBreaksIndentBound()
    ensures var s := [Block("a", Todo, "", None, Some(false), Some(0)),
                      Block("b", Todo, "", None, Some(false), Some(1)),
                      Block("c", Todo, "", None, Some(false), Some(2))];
      && IndentBounded(s) && s[1].id == "b" && HasId(s, "b")
      && !IndentBounded(HandleKeyDown(s, "b", Enter, "", "z").blocks)
  {
    var s := [Block("a", Todo, "", None, Some(false), Some(0)),
              Block("b", Todo, "", None, Some(false), Some(1)),
              Block("c", Todo, "", None, Some(false), Some(2))];
    assert FindIndex(s, "b") == 1;
    assert IsBlank("");
    EnterOnBlankIndentedTodo(s, "b", "", "z");
    var r := HandleKeyDown(s, "b", Enter, "", "z").blocks;
    assert IndentOf(r[2]) == 2 && AllowedIndent(r, 2) == 1;
  }

  /** With a fresh id for a possible new block, no keystroke creates two
      blocks with the same id. */
  lemma HandleKeyDownKeepsIdsUnique(s: seq<Block>, id: string, key: Key, liveText: string, freshId: string)
    requires key == Enter || key == Tab ==> HasId(s, id)
    requires UniqueIds(s) && !HasId(s, freshId)
    ensures UniqueIds(HandleKeyDown(s, id, key, liveText, freshId).blocks)
  {
    var o := HandleKeyDown(s, id, key, liveText, freshId);
    if o.focus.Some? {
      if key == Enter {
        assert !(Find(s, id).kind == Todo && IsBlank(liveText));
        EnterInsertsBelow(s, id, liveText, freshId);
        AddBlockBelowKeepsIdsUnique(s, id, freshId);
      } else {
        assert o.blocks == DeleteBlock(s, id);
        DeleteBlockKeepsIdsUnique(s, id);
      }
    }
  }
}
