# Block-list editing logic of a Notion-style document editor

This project models the block-list editing core of a React document editor.
The document is an ordered list of blocks. Each block has an id, a type
(`text`, `heading` or `todo`), a content string, and optional
`headingLevel`, `completed` and `indentation` fields. Every handler in the
editor takes the current list and stores a new one with `setBlocks`. The
model is written as functions from list to list, with the properties
proved about them.

- `blocks.dfy` (module `Blocks`): the block record and the id lookups
  (`find`, `findIndex`, the `map` over blocks that rewrites one id).
  Fields the source leaves `undefined` are `Option` values. `indentation || 0`
  is `IndentOf`. The field `type` is named `kind` because `type` is a Dafny
  keyword.
- `trim.dfy` (module `LiveText`): `String.prototype.trim` on the live text
  of a block. It uses the WhiteSpace and LineTerminator sets of ECMA-262.
- `edits.dfy` (module `Edits`): `changeBlockType`, `deleteBlock`,
  `updateBlockContent`, `toggleTodoCompletion`, `addIndentation` and
  `addBlockBelow`, plus the seed list. It also defines two list
  properties: unique ids, and the indentation bound (`IndentBounded`). The
  bound says a block is never deeper than one level below a preceding
  to-do, and never indented after anything else. The editor enforces the
  bound only when indenting (Tab) and when inserting below. Moving a to-do
  out with Enter, demoting it, deleting a block, retyping the to-do above
  an indented one, and a drop can all break it.
  `KeyDown.OutdentBreaksIndentBound` and `DragAndDrop.MoveBreaksIndentBound`
  give concrete lists for two of these cases.
- `keydown.dfy` (module `KeyDown`): `handleKeyDown` as a step function.
  Its inputs are the list, the focused id, the key, the live text of the
  block and an id for a possible new block. Its output is the new list
  plus the id to focus once the list is rendered, if any.
- `drag_and_drop.dfy` (module `DragAndDrop`): the `useDragAndDrop` hook as
  a class. The class holds the `blocks` and `draggedBlockId` state.
  `HandleDrop` is specified by the function `Move`. `Move` puts the
  dragged block at the target's index and is proved to be a permutation.

The model follows the code in these details, some of which differ from
what the editor's intended behaviour suggests:
- The `#` and `-` shortcuts keep the stored content. They only overwrite
  the DOM text. The `[]` shortcut goes through `changeBlockType('todo')`,
  which stores "New to-do item". So not every shortcut clears the stored
  content.
- `#` leaves `headingLevel` undefined. The block is rendered as level 1
  (`src/components/Editor.js:533`).
- Backspace on a blank block deletes it. No text is merged into the
  previous block.
- `completed` is meant only for to-dos. Enter on an
  empty root to-do keeps `completed` on the resulting text block, and the
  `##`/`###` shortcuts keep it as well. `ChangeBlockTypeDisciplines`
  proves the type changes offered through `changeBlockType` do clear it.
- Toggling a block whose `completed` is undefined sets it to `true`
  (`!undefined`).
- A dragged id of `''` counts as "nothing dragged" (`!draggedBlockId`).
- Enter on an empty indented to-do computes `block.indentation - 1` on
  every block carrying the id. A block with that id but no indentation
  gets NaN. Every reader of the field turns NaN into 0 through
  `indentation || 0`, as it does `undefined`, so the model leaves such a
  block unchanged (`KeyDown.OutdentedLevel`).

## Model

| member | source | states |
|---|---|---|
| Blocks.FindIndex | src/hooks/useDragAndDrop.js:19-22 | -1 exactly when no block has the id; otherwise the first position holding it |
| Blocks.Find | src/components/Editor.js:236 | for a present id, returns a block of the list carrying that id |
| Blocks.FindIsFirst | src/components/Editor.js:236 | the block `find` returns is the first one carrying the id: no earlier block has it |
| Blocks.MapWhere | src/components/Editor.js:102-106 | the per-id `map` behind every single-block edit (also lines 53-67, 77-80, 85-87, 180-199, 211-231): same length, every block carrying the id is rewritten by the given function, every other block is kept |
| Blocks.MapWhereUnique | src/components/Editor.js:102-106 | with unique ids, the per-id `map` rewrites exactly the one slot holding the id |
| LiveText.TrimStart | src/components/Editor.js:124 | result is a suffix of the text; everything removed is white space; the result does not start with white space |
| LiveText.TrimEnd | src/components/Editor.js:124 | result is a prefix of the text; everything removed is white space; the result does not end with white space |
| LiveText.Trim | src/components/Editor.js:159 | `trim()` is no longer than its input and neither starts nor ends with white space |
| LiveText.TrimIsSlice | src/components/Editor.js:159 | `trim()` is a slice of the input with only white space outside it |
| LiveText.BlankIffAllWhitespace | src/components/Editor.js:97 | `trim() === ''` holds exactly when the text is all white space |
| LiveText.TrimPadded | src/components/Editor.js:159 | white space on either side of a word is removed by `trim()` |
| Edits.InitialBlocks | src/components/Editor.js:4-8 | the seed list has three blocks, unique ids, respects the indentation bound, and no block carries fields of another type |
| Edits.ChangeBlockType | src/components/Editor.js:51-69 | length, order and ids kept; other ids untouched; the retyped block takes the new type; `'todo'` gives "New to-do item", `completed=false` and no level; a leveled heading keeps the content and records the level; any other type name keeps the content and clears level and `completed`; indentation untouched |
| Edits.ChangeBlockTypeIdempotent | src/components/Editor.js:51-69 | choosing the same type twice equals choosing it once |
| Edits.ChangeBlockTypeDisciplines | src/components/Editor.js:57-64 | after any type name or a heading level, the block carries a level only as a heading and `completed` only as a to-do |
| Edits.DeleteBlock | src/components/Editor.js:71-73 | no block with the id is left; the list is no longer than before, and keeps its length exactly when the id was absent |
| Edits.DeleteBlockMembers | src/components/Editor.js:72 | the survivors are exactly the blocks of the input whose id differs |
| Edits.DeleteBlockAppend | src/components/Editor.js:72 | the filter distributes over concatenation, so the survivors keep their relative order |
| Edits.DeleteBlockAbsent | src/components/Editor.js:72 | deleting an absent id returns the list unchanged |
| Edits.DeleteBlockUnique | src/components/Editor.js:71-73 | with unique ids and the id present, the result is the list without that one slot, one shorter |
| Edits.DeleteBlockKeepsIdsUnique | src/components/Editor.js:71-73 | deleting keeps ids unique |
| Edits.UpdateBlockContent | src/components/Editor.js:75-81 | length, order and ids kept; only the content of blocks with the id changes, to the new text |
| Edits.UpdateBlockContentLastWins | src/components/Editor.js:75-81 | of two commits to one block, the later wins |
| Edits.UpdateBlockContentUnchanged | src/components/Editor.js:75-81 | committing the stored text again changes nothing |
| Edits.ToggleTodoCompletion | src/components/Editor.js:83-89 | length, order and ids kept; only `completed` of blocks with the id changes; it becomes a boolean opposite to its old truthiness |
| Edits.ToggleTodoCompletionTwice | src/components/Editor.js:83-89 | toggling twice restores every block, except that an undefined `completed` comes back as `false` |
| Edits.ToggleTodoCompletionInvolution | src/components/Editor.js:83-89 | toggling twice is the identity when the targeted blocks carry a boolean `completed` |
| Edits.AddIndentation | src/components/Editor.js:205-233 | only indentation changes, only on blocks with the id; the found block rises by exactly one when below the allowed maximum (predecessor to-do's indentation + 1, else 0) and is returned unchanged otherwise |
| Edits.AddIndentationKeepsIndentBounded | src/components/Editor.js:205-233 | with unique ids, indenting preserves the indentation bound over the whole list |
| Edits.AddBlockBelow | src/components/Editor.js:235-257 | one block longer; every original block keeps its position relative to the others; the new block sits right after the found one with the given id and empty content; it is an unchecked to-do with the same indentation below a to-do, a text block otherwise |
| Edits.AddBlockBelowThenDelete | src/components/Editor.js:235-254 | deleting the inserted block (fresh id) gives back the original list |
| Edits.AddBlockBelowKeepsIdsUnique | src/components/Editor.js:237-238 | with a fresh id, inserting keeps ids unique |
| Edits.AddBlockBelowKeepsIndentBounded | src/components/Editor.js:239-245 | inserting below preserves the indentation bound |
| KeyDown.HandleKeyDown | src/components/Editor.js:91-203 | focus is requested exactly when the list changes length, and always names a block of the new list; Enter adds at most one block, Backspace never adds; other keys never add, remove or reorder blocks |
| KeyDown.EnterOnBlankTodoMaps | src/components/Editor.js:92-115 | for any list, Enter on a to-do with blank live text adds nothing and requests no focus; it rewrites every block carrying the id, one level out when the first of them is indented, into an empty text block otherwise |
| KeyDown.OutdentedLevel | src/components/Editor.js:102-106 | moving out lowers a stored indentation by exactly one; a block without one keeps reading as level 0 |
| KeyDown.EnterOnBlankIndentedTodo | src/components/Editor.js:101-106 | with unique ids, Enter on an indented blank to-do replaces exactly its slot with the block one level out |
| KeyDown.EnterOnBlankRootTodo | src/components/Editor.js:108-114 | with unique ids, Enter on a blank to-do at the root replaces exactly its slot with an empty text block keeping its other fields |
| KeyDown.OutdentBreaksIndentBound | src/components/Editor.js:101-106 | a concrete list that keeps the indentation bound and loses it after Enter moves a to-do out |
| KeyDown.EnterInsertsBelow | src/components/Editor.js:116-118 | every other Enter is `addBlockBelow` with a focus request on the new block |
| KeyDown.BackspaceOnBlank | src/components/Editor.js:119-146 | blank live text on a non-first block removes exactly that block and requests focus on its predecessor, which stays at its index |
| KeyDown.BackspaceNoop | src/components/Editor.js:124-128 | non-blank live text, the first block or an absent id: nothing changes and no focus is requested |
| KeyDown.TabIndents | src/components/Editor.js:148-153 | for any list holding the id, Tab on a to-do is `addIndentation`, on any other block a no-op, and requests no focus |
| KeyDown.TabKeepsIndentBounded | src/components/Editor.js:148-153 | with unique ids, Tab keeps the indentation bound of a list that has it |
| KeyDown.SpaceShortcuts | src/components/Editor.js:154-201 | on trimmed live text: `##`/`###` give an empty heading of level 2/3; `#` a heading with no level keeping its content; `[]` an unchecked "New to-do item"; `-` a text block; anything else no change; other blocks unchanged |
| KeyDown.Shortcut | src/components/Editor.js:159-200 | no shortcut adds, removes or reorders blocks, and every block keeps its id |
| KeyDown.SpaceIsShortcut | src/components/Editor.js:154-159 | Space applies the shortcut named by the trimmed live text and requests no focus |
| KeyDown.SpaceShortcutIgnoresPadding | src/components/Editor.js:156-159 | white space around a word whose ends are not white space gives the same result as the bare word |
| KeyDown.HandleKeyDownKeepsIdsUnique | src/components/Editor.js:91-203 | with a fresh id for Enter, no keystroke breaks id uniqueness |
| DragAndDrop.Move | src/hooks/useDragAndDrop.js:24-26 | same length, and the moved block lands at the target index |
| DragAndDrop.MoveIsPermutation | src/hooks/useDragAndDrop.js:24-26 | the result holds the same multiset of blocks: a move only reorders |
| DragAndDrop.MoveAt | src/hooks/useDragAndDrop.js:24-26 | the blocks between the two positions shift one place towards the source; all others keep their index |
| DragAndDrop.MoveKeepsOthersInOrder | src/hooks/useDragAndDrop.js:24-26 | removing the moved block from the result leaves the other blocks in their original relative order |
| DragAndDrop.MoveOntoItself | src/hooks/useDragAndDrop.js:19-26 | dropping a block onto itself leaves the list unchanged |
| DragAndDrop.MoveBack | src/hooks/useDragAndDrop.js:24-26 | moving back from the target index to the source index restores the list |
| DragAndDrop.MoveKeepsIdsUnique | src/hooks/useDragAndDrop.js:24-26 | reordering keeps ids unique |
| DragAndDrop.MoveBreaksIndentBound | src/hooks/useDragAndDrop.js:24-26 | a concrete list that keeps the indentation bound and loses it when its first to-do is dropped at the end |
| DragAndDrop.DragAndDropState.constructor | src/hooks/useDragAndDrop.js:3-5 | the state starts with the given blocks and no dragged id |
| DragAndDrop.DragAndDropState.HandleDragStart | src/hooks/useDragAndDrop.js:7-9 | records the dragged id and leaves the blocks alone |
| DragAndDrop.DragAndDropState.HandleDrop | src/hooks/useDragAndDrop.js:15-32 | no dragged id (null or `''`), or either id missing: nothing changes and the dragged id is not cleared; otherwise blocks become `Move(old, draggedIndex, dropIndex)` and the dragged id is cleared; dropping onto itself keeps the list |
| DragAndDrop.DragAndDropState.SetBlocks | src/hooks/useDragAndDrop.js:39 | replaces the list and keeps the dragged id |

## Left out

- Toolbar, selection and formatting-state logic (`src/components/Editor.js:30-49`, `274-324`). It reads the browser's live selection, bounding boxes and `queryCommandState`.
- Inline formatting (`src/components/Editor.js:326-384`). It rewrites DOM nodes and calls `document.execCommand`, whose behaviour the browser defines.
- Links (`src/components/Editor.js:386-445`). They depend on `prompt`, `window.open` and DOM `href` writes.
- Focus and caret placement (`src/components/Editor.js:133-145`, `256`, `259-272`). These are deferred with `setTimeout`. Only the id of the block to focus is modelled, as the `focus` field of `KeyDown.Outcome`.
- The DOM `textContent` writes of the Space shortcuts (`src/components/Editor.js:163`, `169`, `175`). They do not touch the block list.
- Menu bookkeeping and rendering (`src/components/Editor.js:447-460`, `462-644`). The live text of a block (`blockRefs.current[id]?.textContent || ''`) is an input string of `HandleKeyDown`.
- `handleDragOver` (`src/hooks/useDragAndDrop.js:11-13`). It only calls `preventDefault`.
- `Date.now()` ids (`src/components/Editor.js:238`). This is a clock read, so the new id is a parameter. The functions do not require it to be fresh. The lemmas that need freshness assume it.
- React's asynchronous state updates. Each `setBlocks` is modelled as an immediate assignment. Each handler calls `setBlocks` at most once, so nothing depends on batching.
- DragAndDrop.DragAndDropState.HandleDrop: the source copies `blocks` and runs two in-place `splice` calls on the copy. The model builds the same list with sequence slices. The copy is fresh, so no aliasing is lost.
- KeyDown.HandleKeyDown: requires the focused id to be present for Enter and Tab. The source dereferences `find(...)` there and would throw otherwise. Every caller passes the id of a rendered block.
- KeyDown.EnterOnBlankIndentedTodo, KeyDown.EnterOnBlankRootTodo, KeyDown.SpaceShortcuts: these are stated for lists with unique ids. With duplicate ids, the source rewrites every block carrying the id. The list functions model that too (`Edits.ChangeBlockType`, `KeyDown.EnterOnBlankTodoMaps` and their siblings), but these lemmas only describe the unique case.
