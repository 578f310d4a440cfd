# Sort the paragraphs — a verified model

H5P's "Sort the paragraphs" question shows a list of paragraphs in shuffled
order. The learner puts them back in the right order using:
- the move buttons;
- the keyboard (grab, arrows, drop or cancel);
- a click on one paragraph and then another, to swap them;
- drag and drop.

"Check" scores the answer. Scoring is by positions (each paragraph at its own
index) or by transitions (each adjacent pair as in the solution). Paragraphs
with the same text may count as interchangeable, and wrong positions may cost
points. The question can:
- show the solution;
- reset the task;
- save its state for the next session;
- report its answer as an xAPI response string.

The model follows the source's own structure:

- `wrappers.dfy` (`Wrappers`): `Option` and `Result`.
- `js.dfy` (`Js`): the JavaScript values the code inspects, with `typeof`,
  truthiness and the two errors the code can throw.
- `util.dfy` (`Util`): `swapDOMElements`, `shuffleDOMElements`,
  `formatLanguageCode`, `createArray` and `extend`.
  - A parent's child list is an array of element ids.
  - The random draws of the shuffle are a supplied sequence of choices.
- `order.dfy` (`Order`): the order of the list, as the paragraphs' solution
  indices by position; permutations; the restore loop of `reorderDraggables`.
- `scoring.dfy` (`Scoring`): the content's options and `computeResults` in
  both modes.
- `button.dfy` (`Buttons`): the `Button` class, with active and disabled
  flags, labels and class names.
- `paragraph.dfy` (`Paragraphs`): the `Paragraph` class, with the selected
  and disabled flags, the effects, the two move buttons and the guards of
  its event handlers.
- `interaction.dfy` (`Interaction`): the content's handlers as step functions
  on an abstract state, and the properties they keep. The state is the
  order, each paragraph's flags, `answerGiven`, the `onInteracted` count,
  the undo state, the selected, dragged and drop-zone paragraphs, `oldOrder`
  and `enabled`.
- `content.dfy` (`Content`): the `SortContent` class.
  - The list is an `array<nat>` changed in place.
  - Each handler is a method proved to move the object's state exactly as
    its step function in `Interaction` does.
- `host.dfy` (`Host`): the question type `SortParagraphs`.
  - Functions: the maximum score, the cached score, the pass test, the view
    states, the saved state, and the xAPI response strings.
  - Class methods: `getScore`, `isPassed`, `getCurrentState`,
    `setViewState`, `showSolutions`, `resetTask` and `checkAnswer`.

One might expect a malformed saved order to fall back to a fresh shuffle,
and interaction with a disabled list to be ignored. The code does neither,
and the model follows the code:
- `reorderDraggables` throws on an id that is not in the list, and can
  leave the list partly reordered (`Order.ReorderRejectsForeignId`).
- `disable()` does not stop the arrow keys on a paragraph that was already
  grabbed (`Interaction.DisabledGrabbedStillMoves`).

## Model

| member | source | states |
|---|---|---|
| `Util.IndexOf` | src/scripts/h5p-sort-paragraphs-content.js:95 | `indexOf`: -1 exactly when absent, otherwise the first position holding the value |
| `Util.IndexOfDistinct` | src/scripts/h5p-sort-paragraphs-content.js:734-736 | in a list without repeats, the index of the entry at k is k |
| `Util.SwapAt` | src/scripts/h5p-sort-paragraphs-util.js:69-84 | the positional swap: entries i and j exchanged, every other entry and the length kept |
| `Util.SwapAtSymmetric` | src/scripts/h5p-sort-paragraphs-util.js:69-84 | exchanging positions i and j is the same as exchanging j and i |
| `Util.SwapAtMultiset` | src/scripts/h5p-sort-paragraphs-util.js:69-84 | a swap of two positions keeps the multiset of entries |
| `Util.SwapElements` | src/scripts/h5p-sort-paragraphs-util.js:69-84 | `swapDOMElements`: the two elements exchange places and every other entry stays; nothing changes when either element has no parent |
| `Util.SwapElementsAt` | src/scripts/h5p-sort-paragraphs-util.js:69-84 | swapping the elements at positions i and j is the positional swap of i and j |
| `Util.SwapDOMElements` | src/scripts/h5p-sort-paragraphs-util.js:69-84 | the in-place method leaves the child array as `SwapElements` of the old one |
| `Util.ShuffleStep` | src/scripts/h5p-sort-paragraphs-util.js:92-95 | one iteration of the shuffle keeps the list free of repeats and its length |
| `Util.ShuffleSteps` | src/scripts/h5p-sort-paragraphs-util.js:90-97 | the iterations from i down to 1 keep the list free of repeats and its length |
| `Util.Shuffled` | src/scripts/h5p-sort-paragraphs-util.js:90-97 | `shuffleDOMElements`: the length is kept and no repeat appears; with at most one element nothing moves |
| `Util.ShuffleStepsPermutes` | src/scripts/h5p-sort-paragraphs-util.js:90-97 | the shuffle iterations keep the multiset of the children |
| `Util.ShuffledIsPermutation` | src/scripts/h5p-sort-paragraphs-util.js:90-97 | `shuffleDOMElements` yields a permutation of the children, with no repeats |
| `Util.ShuffleIteration` | src/scripts/h5p-sort-paragraphs-util.js:92-95 | element i is swapped with the drawn element j, only when i != j |
| `Util.ShuffleDOMElements` | src/scripts/h5p-sort-paragraphs-util.js:90-97 | the descending loop leaves the children as `Shuffled` of the old children with the supplied draws |
| `Util.Split` | src/scripts/h5p-sort-paragraphs-util.js:114 | `split('-')`: at least one segment, none containing '-', and joining them gives the string back |
| `Util.SplitJoin` | src/scripts/h5p-sort-paragraphs-util.js:114-119 | splitting joined segments that contain no '-' gives the segments back |
| `Util.CaseMapKeepsDash` | src/scripts/h5p-sort-paragraphs-util.js:115-117 | case mapping neither adds nor removes a '-', so the segment count is kept |
| `Util.FormatLanguageCode` | src/scripts/h5p-sort-paragraphs-util.js:105-122 | non-strings are returned unchanged; a string keeps its segment count, its first segment is lower-cased, its second upper-cased and the others kept |
| `Util.CaseMapIdempotent` | src/scripts/h5p-sort-paragraphs-util.js:115-117 | lower-casing and upper-casing twice is the same as once |
| `Util.FormatLanguageCodeIdempotent` | src/scripts/h5p-sort-paragraphs-util.js:105-122 | formatting a language code twice is the same as once |
| `Util.CreateArray` | src/scripts/h5p-sort-paragraphs-util.js:50-62 | `createArray` succeeds exactly when no reached length is negative, and its result has the requested dimensions with empty innermost slots |
| `Util.MergeObjectIsObject` | src/scripts/h5p-sort-paragraphs-util.js:8-22 | merging into an object gives an object |
| `Util.Merge` | src/scripts/h5p-sort-paragraphs-util.js:8-22 | one source merged into an object or `null`: a source that is not an object (a string included, see Left out) changes nothing; it fails only for a non-empty object source; merging into an object keeps its keys |
| `Util.MergeKey` | src/scripts/h5p-sort-paragraphs-util.js:12-17 | one key: copied unless both values are of type object; only a nested merge of an object can fail |
| `Util.MergeFields` | src/scripts/h5p-sort-paragraphs-util.js:10-19 | all own keys of the source: the result has the keys of both, keys only in the target keep their values, and only a non-empty source can fail |
| `Util.ExtendAll` | src/scripts/h5p-sort-paragraphs-util.js:9-21 | the sources merged from left to right: the target keeps its keys, and sources that are not objects (strings included, see Left out) change nothing |
| `Util.ExtendWith` | src/scripts/h5p-sort-paragraphs-util.js:10-20 | one argument of `extend` merged in: the result of `Merge` |
| `Util.ExtendFields` | src/scripts/h5p-sort-paragraphs-util.js:11-19 | the loop over the source's keys yields `MergeFields` |
| `Util.ExtendKey` | src/scripts/h5p-sort-paragraphs-util.js:12-18 | one key: recursive merge when both values are objects, a copy otherwise |
| `Util.MergeFieldsFrom` | src/scripts/h5p-sort-paragraphs-util.js:11-19 | a map with the merged keys and the untouched target keys is the merge |
| `Util.Extend` | src/scripts/h5p-sort-paragraphs-util.js:8-22 | `extend(target, ...sources)` merges the sources left to right: `ExtendAll` |
| `Util.MergeFieldsKeys` | src/scripts/h5p-sort-paragraphs-util.js:8-22 | the merged object has the keys of both; later keys overwrite unless both are objects; keys missing from the source are untouched |
| `Util.MergeFailsIffNullClash` | src/scripts/h5p-sort-paragraphs-util.js:12-16 | `extend` throws exactly when a non-empty object is merged into a `null` at some depth |
| `Util.MergeSelf` | src/scripts/h5p-sort-paragraphs-util.js:8-22 | extending an object with itself changes nothing |
| `Util.MergeIdempotent` | src/scripts/h5p-sort-paragraphs-util.js:8-22 | extending twice with the same source is the same as once |
| `Order.Identity` | src/scripts/h5p-sort-paragraphs-content.js:150-170 | the solution order puts paragraph p at position p |
| `Order.IdentityIsPermutation` | src/scripts/h5p-sort-paragraphs-content.js:724-727 | the solution order is an order of the paragraphs |
| `Order.PermutationContainsAll` | src/scripts/h5p-sort-paragraphs-content.js:734-736 | every paragraph is somewhere in an order of the paragraphs, so `getDraggableIndex` finds it |
| `Order.SwapAtPermutation` | src/scripts/h5p-sort-paragraphs-content.js:95 | swapping two positions keeps an order a permutation |
| `Order.SwapElementsPermutation` | src/scripts/h5p-sort-paragraphs-util.js:69-84 | swapping two elements keeps an order a permutation |
| `Order.SameIdsPermutation` | src/scripts/h5p-sort-paragraphs-util.js:90-97 | a rearrangement of an order of the paragraphs is again one |
| `Order.ReorderStep` | src/scripts/h5p-sort-paragraphs-content.js:92-96 | one iteration of `reorderDraggables` keeps the entries and has no repeats, or throws |
| `Order.ReorderFrom` | src/scripts/h5p-sort-paragraphs-content.js:91-97 | the iterations from i on keep the length and leave no repeats |
| `Order.ReorderFromPermutes` | src/scripts/h5p-sort-paragraphs-content.js:89-98 | restoring an order only rearranges the list, even when it throws |
| `Order.Reorder` | src/scripts/h5p-sort-paragraphs-content.js:89-98 | `reorderDraggables`: the list keeps its length and entries and has no repeats, whatever the target |
| `Order.TargetIds` | src/scripts/h5p-sort-paragraphs-content.js:89-98 | a target of non-negative numbers read as paragraph ids |
| `Order.ReorderStepProgress` | src/scripts/h5p-sort-paragraphs-content.js:92-96 | with positions before i already right, iteration i puts the target's entry at i and keeps the earlier ones |
| `Order.ReorderFromReaches` | src/scripts/h5p-sort-paragraphs-content.js:89-98 | with a target that is an order of the paragraphs, the loop ends exactly at the target without throwing |
| `Order.AsNumbers` | src/scripts/h5p-sort-paragraphs-content.js:724-727 | the order as the numbers that are saved and restored |
| `Order.ReorderToPermutation` | src/scripts/h5p-sort-paragraphs-content.js:89-98 | `reorderDraggables` of a saved order of the paragraphs restores exactly that order |
| `Order.ReorderRejectsForeignId` | src/scripts/h5p-sort-paragraphs-content.js:94-95 | a target with an id that is not in the list makes the restore throw a TypeError |
| `Order.ReorderPrefixKept` | src/scripts/h5p-sort-paragraphs-content.js:93-94 | iterations whose position already holds the target's entry change nothing |
| `Scoring.OptionsFrom` | src/scripts/h5p-sort-paragraphs-content.js:36-41 | the scoring mode defaults to 'transitions' when falsy; penalties default to true unless a boolean is given; duplicates are used by truthiness |
| `Scoring.Count` | src/scripts/h5p-sort-paragraphs-content.js:292 | the number of correct entries is at most the number of entries |
| `Scoring.CountAllTrue` | src/scripts/h5p-sort-paragraphs-content.js:292 | the count is the length exactly when every entry is correct |
| `Scoring.PositionsCorrect` | src/scripts/h5p-sort-paragraphs-content.js:240-254 | one entry per position: right when the paragraph is the solution's, or, with duplicates interchangeable, has the same text |
| `Scoring.PositionCorrect` | src/scripts/h5p-sort-paragraphs-content.js:245-246 | without interchangeable duplicates a position is right exactly when it holds its own paragraph; with them, exactly when it shows the same text |
| `Scoring.PositionsTallyCounts` | src/scripts/h5p-sort-paragraphs-content.js:240-254 | the reduce's running score is the right ones minus, with penalties, the wrong ones |
| `Scoring.PositionsTally` | src/scripts/h5p-sort-paragraphs-content.js:244-254 | the running score after k positions lies between -k and k, and is never negative without penalties |
| `Scoring.MatchPlainFromFinds` | src/scripts/h5p-sort-paragraphs-content.js:267-279 | the loop over the solution finds the pair exactly when it stands adjacent there |
| `Scoring.MatchPlainFrom` | src/scripts/h5p-sort-paragraphs-content.js:267-277 | once the pair is found the reduce stays true; at the last element it adds nothing |
| `Scoring.MatchPlainIsAdjacent` | src/scripts/h5p-sort-paragraphs-content.js:267-279 | a text pair counts exactly when it occurs adjacent, in that order, in the solution texts |
| `Scoring.TransitionsCorrect` | src/scripts/h5p-sort-paragraphs-content.js:256-287 | one entry per adjacent pair: right when the ids are consecutive or, with duplicates interchangeable, the texts are adjacent in the solution |
| `Scoring.TransitionCorrect` | src/scripts/h5p-sort-paragraphs-content.js:279 | without interchangeable duplicates a pair is right exactly when the second paragraph follows the first in the solution; with them, exactly when their texts stand adjacent in the solution |
| `Scoring.ComputeResults` | src/scripts/h5p-sort-paragraphs-content.js:231-294 | `computeResults` throws (a RangeError) exactly in transitions mode with no paragraphs |
| `Scoring.MaxPoints` | src/scripts/h5p-sort-paragraphs-content.js:240-257 | the most points: N in positions mode, N-1 in any other mode |
| `Scoring.PositionsResults` | src/scripts/h5p-sort-paragraphs-content.js:240-254 | positions mode: N entries, entry p as `PositionCorrect`, score max(0, right - wrong) with penalties, right without |
| `Scoring.TransitionsResults` | src/scripts/h5p-sort-paragraphs-content.js:256-292 | transitions mode: N-1 entries, pair p as `TransitionCorrect`, and the score is their count with no penalties |
| `Scoring.ScoreBounds` | src/scripts/h5p-sort-paragraphs-content.js:231-294 | the score is at most the maximum of its mode, and 0 in any other mode |
| `Scoring.SolutionScoresMax` | src/scripts/h5p-sort-paragraphs-content.js:231-294 | the solution order scores the maximum |
| `Scoring.PositionsMaxIffSolution` | src/scripts/h5p-sort-paragraphs-content.js:240-254 | without interchangeable duplicates, positions mode scores N exactly for the solution order |
| `Scoring.TransitionsMaxIffSolution` | src/scripts/h5p-sort-paragraphs-content.js:256-292 | without interchangeable duplicates, transitions mode scores N-1 exactly for the solution order |
| `Scoring.ConsecutiveFromStart` | src/scripts/h5p-sort-paragraphs-content.js:262 | when every pair is consecutive, entry k is the first plus k |
| `Scoring.ExampleSolvedPositions` | src/scripts/h5p-sort-paragraphs-content.js:240-254 | A,B,C in order with penalties: all right, score 3 |
| `Scoring.ExampleSwappedPositions` | src/scripts/h5p-sort-paragraphs-content.js:240-254 | B,A,C with penalties: one right, two wrong, score floored at 0 |
| `Scoring.ExampleSwappedTransitions` | src/scripts/h5p-sort-paragraphs-content.js:256-292 | B,A,C by transitions: both pairs wrong, score 0 |
| `Scoring.ExampleDuplicatesPositions` | src/scripts/h5p-sort-paragraphs-content.js:243-247 | X,Y,X with interchangeable duplicates: the two X count at each other's place |
| `Buttons.Defaulted` | src/scripts/h5p-sort-paragraphs-button.js:13-27 | `extend` of the defaults: missing labels empty, not active, not disabled, type 'pulse', a single class wrapped into a list |
| `Buttons.PulseLabels` | src/scripts/h5p-sort-paragraphs-button.js:29-36 | pulse type: an empty inactive label takes the active one, and an empty active label then takes the inactive one |
| `Buttons.PulseLabelsEmpty` | src/scripts/h5p-sort-paragraphs-button.js:29-36 | after the fallback a label is empty only when both were |
| `Buttons.PulseLabelsIdempotent` | src/scripts/h5p-sort-paragraphs-button.js:29-36 | applying the fallback twice is the same as once |
| `Buttons.ButtonLabels` | src/scripts/h5p-sort-paragraphs-button.js:29-36 | the labels in use: the fallback only for pulse buttons, leaving neither label empty unless both were; the disabled label untouched |
| `Buttons.ClassSet` | src/scripts/h5p-sort-paragraphs-button.js:48-52 | the class list holds exactly the given names |
| `Buttons.Button.constructor` | src/scripts/h5p-sort-paragraphs-button.js:11-68 | labels after the fallback; disabled exactly when the parameter is `true`; active per activate/deactivate unless the disabled parameter is truthy |
| `Buttons.Button.Activate` | src/scripts/h5p-sort-paragraphs-button.js:138-152 | a no-op while disabled; otherwise active, with the active label and, for toggles, the active class |
| `Buttons.Button.Deactivate` | src/scripts/h5p-sort-paragraphs-button.js:157-171 | a no-op while disabled; otherwise inactive, with the inactive label and without the class activate adds |
| `Buttons.Button.DeactivateAsWritten` | src/scripts/h5p-sort-paragraphs-button.js:157-171 | as written: removes a class name that activate never adds |
| `Buttons.Button.Enable` | src/scripts/h5p-sort-paragraphs-button.js:111-122 | not disabled, with the active flag kept and the label and classes of that flag |
| `Buttons.Button.Disable` | src/scripts/h5p-sort-paragraphs-button.js:127-133 | disabled, with the active flag kept and the disabled label and class |
| `Buttons.Button.Toggle` | src/scripts/h5p-sort-paragraphs-button.js:176-187 | flips the active flag when enabled and does nothing when disabled |
| `Buttons.Button.Click` | src/scripts/h5p-sort-paragraphs-button.js:70-83 | ignored while disabled; otherwise a toggle-type button flips and the callback fires |
| `Buttons.Button.Show` | src/scripts/h5p-sort-paragraphs-button.js:97-99 | removes the hidden class and changes no flag |
| `Buttons.Button.Hide` | src/scripts/h5p-sort-paragraphs-button.js:104-106 | adds the hidden class and changes no flag |
| `Buttons.ActiveClassLingers` | src/scripts/h5p-sort-paragraphs-button.js:138-171 | as written, a toggle button activated then deactivated is inactive but keeps the active class |
| `Buttons.ActiveClassFollows` | src/scripts/h5p-sort-paragraphs-button.js:138-171 | with the corrected deactivate, the class follows the flag |
| `Paragraphs.MoveButtonLabels` | src/scripts/h5p-sort-paragraphs-paragraph.js:124-139 | a move button reads its direction label whether active or not |
| `Paragraphs.MoveButtonParams` | src/scripts/h5p-sort-paragraphs-paragraph.js:124-139 | a move button is a pulse button, not active, not disabled, with the shared button class and its direction class |
| `Paragraphs.Paragraph.constructor` | src/scripts/h5p-sort-paragraphs-paragraph.js:28-57 | not selected, not disabled, draggable, with two distinct enabled move buttons |
| `Paragraphs.Paragraph.ToggleEffect` | src/scripts/h5p-sort-paragraphs-paragraph.js:507-519 | names outside the seven effects and non-boolean flags are ignored; otherwise the effect is set or cleared |
| `Paragraphs.Paragraph.Select` | src/scripts/h5p-sort-paragraphs-paragraph.js:377-380 | selected, with the selected effect |
| `Paragraphs.Paragraph.Unselect` | src/scripts/h5p-sort-paragraphs-paragraph.js:385-388 | not selected, without the selected effect |
| `Paragraphs.Paragraph.Reset` | src/scripts/h5p-sort-paragraphs-paragraph.js:460-464 | not selected; the other effects stay |
| `Paragraphs.Paragraph.Enable` | src/scripts/h5p-sort-paragraphs-paragraph.js:393-402 | not disabled, draggable, both buttons enabled with their active flags kept |
| `Paragraphs.Paragraph.Disable` | src/scripts/h5p-sort-paragraphs-paragraph.js:407-416 | disabled, not draggable, both buttons disabled with their active flags kept |
| `Paragraphs.Paragraph.ToggleButton` | src/scripts/h5p-sort-paragraphs-paragraph.js:489-500 | only 'up' or 'down' with a boolean enables or disables that button; anything else leaves both buttons unchanged |
| `Paragraphs.Paragraph.SetTabIndex` | src/scripts/h5p-sort-paragraphs-paragraph.js:449-455 | only numbers are accepted |
| `Paragraphs.Paragraph.SetText` | src/scripts/h5p-sort-paragraphs-paragraph.js:437-443 | only strings are accepted |
| `Paragraphs.Paragraph.KeyAction` | src/scripts/h5p-sort-paragraphs-paragraph.js:211-256 | up and down are passed on except on the first and last paragraph; Enter, Space and Escape are passed on unless disabled; other keys are not |
| `Paragraphs.Paragraph.MouseDown` | src/scripts/h5p-sort-paragraphs-paragraph.js:264-278 | ignored while disabled; on a move button the paragraph stops being draggable and nothing is passed on |
| `Paragraphs.Paragraph.MouseUp` | src/scripts/h5p-sort-paragraphs-paragraph.js:281-295 | ignored while disabled; on a move button the paragraph is draggable again and nothing is passed on |
| `Paragraphs.Paragraph.FocusOut` | src/scripts/h5p-sort-paragraphs-paragraph.js:298-302 | clears the selected effect but not the selected flag |
| `Paragraphs.Paragraph.DragStart` | src/scripts/h5p-sort-paragraphs-paragraph.js:305-315 | ignored while disabled; otherwise shows the drag effects and is passed on |
| `Paragraphs.Paragraph.DragEnd` | src/scripts/h5p-sort-paragraphs-paragraph.js:340-345 | clears the drag effects |
| `Paragraphs.Paragraph.TouchStart` | src/scripts/h5p-sort-paragraphs-paragraph.js:348-354 | a cancelable touch on an enabled paragraph stops it being draggable |
| `Paragraphs.Paragraph.TouchEnd` | src/scripts/h5p-sort-paragraphs-paragraph.js:357-363 | an enabled paragraph becomes draggable again |
| `Paragraphs.Paragraph.ShowButtons` | src/scripts/h5p-sort-paragraphs-paragraph.js:469-473 | both buttons shown, their flags kept |
| `Paragraphs.Paragraph.HideButtons` | src/scripts/h5p-sort-paragraphs-paragraph.js:478-482 | both buttons hidden, their flags kept |
| `Paragraphs.DisabledPassesArrowsOnly` | src/scripts/h5p-sort-paragraphs-paragraph.js:211-256 | a disabled paragraph passes on only the arrows, which do not depend on the flag |
| `Interaction.Position` | src/scripts/h5p-sort-paragraphs-content.js:734-736 | `getDraggableIndex`: the position that holds the paragraph |
| `Interaction.DraggableAt` | src/scripts/h5p-sort-paragraphs-content.js:712-718 | `getDraggableAt`: the paragraph at a position inside the list, null outside |
| `Interaction.DraggableAtPosition` | src/scripts/h5p-sort-paragraphs-content.js:712-736 | the paragraph at a paragraph's position is that paragraph |
| `Interaction.Swap` | src/scripts/h5p-sort-paragraphs-util.js:69-84 | two paragraphs exchange positions and nothing else changes |
| `Interaction.Commit` | src/scripts/h5p-sort-paragraphs-content.js:393-394 | the answer is given and one more interaction is reported; the order, the paragraphs and the undo state stay, and the invariant is kept |
| `Interaction.SetSelected` | src/scripts/h5p-sort-paragraphs-paragraph.js:377-388 | one paragraph selected or unselected; every other paragraph, its disabled flag and the order stay, and the invariant is kept |
| `Interaction.ResetButtons` | src/scripts/h5p-sort-paragraphs-content.js:827-849 | `resetDraggables`: up disabled exactly at the top; down disabled exactly at the bottom of more than one paragraph; the flags stay |
| `Interaction.Initial` | src/scripts/h5p-sort-paragraphs-content.js:24-33 | the list in solution order, nothing selected or disabled, no answer, enabled |
| `Interaction.Start` | src/scripts/h5p-sort-paragraphs-content.js:71-82 | the constructor keeps an order of the paragraphs and no answer; it throws only from restoring a saved order |
| `Interaction.StartRestores` | src/scripts/h5p-sort-paragraphs-content.js:71-74 | a saved order of the paragraphs is restored exactly, with nothing selected or disabled |
| `Interaction.StartShuffles` | src/scripts/h5p-sort-paragraphs-content.js:75-77 | without a saved order the list is the shuffle of the solution order with the supplied draws |
| `Interaction.MoveUp` | src/scripts/h5p-sort-paragraphs-content.js:390-402 | at the top nothing changes; otherwise a swap with the paragraph above, the answer given and one interaction reported |
| `Interaction.MoveDownAsWritten` | src/scripts/h5p-sort-paragraphs-content.js:407-419 | as written: the guard `position < length` also lets the bottom paragraph through |
| `Interaction.MoveDown` | src/scripts/h5p-sort-paragraphs-content.js:407-419 | corrected: at the bottom nothing changes; otherwise a swap with the paragraph below, the answer given and one interaction reported |
| `Interaction.MoveDownAgreesAboveBottom` | src/scripts/h5p-sort-paragraphs-content.js:407-419 | above the bottom the code as written and the corrected one agree |
| `Interaction.MoveDownAsWrittenAtBottom` | src/scripts/h5p-sort-paragraphs-content.js:407-415 | at the bottom the code as written marks the answer given, reports an interaction and then throws, where the corrected one does nothing |
| `Interaction.SingleParagraphDownEnabled` | src/scripts/h5p-sort-paragraphs-content.js:836-846 | with one paragraph its down button stays enabled although it is at the bottom |
| `Interaction.BottomDownDisabled` | src/scripts/h5p-sort-paragraphs-content.js:836-846 | with two or more paragraphs the bottom one's down button is disabled |
| `Interaction.Carry` | src/scripts/h5p-sort-paragraphs-content.js:500-518 | a grabbed paragraph is swapped with a neighbour and stays selected; no answer is given |
| `Interaction.KeyboardUp` | src/scripts/h5p-sort-paragraphs-content.js:491-521 | at the top or when not selected nothing changes; a selected paragraph swaps with the one above and stays selected |
| `Interaction.KeyboardDown` | src/scripts/h5p-sort-paragraphs-content.js:527-557 | at the bottom or when not selected nothing changes; a selected paragraph swaps with the one below and stays selected |
| `Interaction.KeyboardSelect` | src/scripts/h5p-sort-paragraphs-content.js:563-590 | grab stores position and order for undo; drop gives the answer and reports one interaction only when the position changed, and clears the undo |
| `Interaction.KeyboardCancel` | src/scripts/h5p-sort-paragraphs-content.js:596-619 | restores the stored order, clears undo and selection, and never gives the answer |
| `Interaction.MouseDown` | src/scripts/h5p-sort-paragraphs-content.js:624-626 | only the mouse-down flag is set |
| `Interaction.MouseUp` | src/scripts/h5p-sort-paragraphs-content.js:632-668 | a selected paragraph is unselected; another paragraph while one is selected swaps with it and gives the answer; otherwise the paragraph becomes the selected one |
| `Interaction.ClickSwap` | src/scripts/h5p-sort-paragraphs-content.js:643-653 | the two paragraphs are swapped, the answer given and the selection cleared |
| `Interaction.Release` | src/scripts/h5p-sort-paragraphs-content.js:636-641 | a mouse-up on the selected paragraph unselects it and forgets the click-to-swap selection; the order and the answer stay |
| `Interaction.Pick` | src/scripts/h5p-sort-paragraphs-content.js:654-666 | a mouse-up with no other paragraph selected selects this one for click-to-swap; the order and the answer stay |
| `Interaction.FocusOut` | src/scripts/h5p-sort-paragraphs-content.js:424-432 | the paragraph is unselected; the selected paragraph is forgotten only when no mouse button is down |
| `Interaction.DragStart` | src/scripts/h5p-sort-paragraphs-content.js:437-440 | remembers the dragged paragraph and the order before the drag |
| `Interaction.DragEnter` | src/scripts/h5p-sort-paragraphs-content.js:451-459 | the entered paragraph is the drop zone; a different one swaps with the dragged one; with none dragged it throws |
| `Interaction.DragLeave` | src/scripts/h5p-sort-paragraphs-content.js:464-466 | only the drop zone is cleared |
| `Interaction.MovedIffDifferent` | src/scripts/h5p-sort-paragraphs-content.js:474-476 | the comparison loop finds a difference exactly when the orders differ |
| `Interaction.DragEnd` | src/scripts/h5p-sort-paragraphs-content.js:471-485 | the answer is given exactly when the order differs from before the drag; the drag state is cleared; with no drag started it throws |
| `Interaction.Enable` | src/scripts/h5p-sort-paragraphs-content.js:680-686 | every paragraph and both its buttons enabled; the selection flags stay |
| `Interaction.Disable` | src/scripts/h5p-sort-paragraphs-content.js:691-697 | every paragraph and both its buttons disabled; the selection flags stay |
| `Interaction.DisabledGrabbedStillMoves` | src/scripts/h5p-sort-paragraphs-content.js:491-521 | after disable, a grabbed paragraph still moves up with the arrow key |
| `Interaction.ShowSolutions` | src/scripts/h5p-sort-paragraphs-content.js:150-170 | every paragraph at its own index: the order becomes the solution order |
| `Interaction.Reset` | src/scripts/h5p-sort-paragraphs-content.js:854-873 | no answer and the same interaction count; the list shuffled with the supplied draws, the paragraphs taken in solution order, so a rearrangement of itself; every paragraph and the list enabled, selection kept; the move buttons set by the new positions |
| `Interaction.Arrows` | src/scripts/h5p-sort-paragraphs-content.js:491-557 | a sequence of arrow keys keeps the invariant |
| `Interaction.ArrowsKeepUndo` | src/scripts/h5p-sort-paragraphs-content.js:491-557 | arrow keys neither give the answer nor touch the undo state |
| `Interaction.CancelRestoresOrder` | src/scripts/h5p-sort-paragraphs-content.js:563-619 | grab, any arrow keys, then cancel: the order is as before and no answer is given |
| `Interaction.GrabMoveDownCancel` | src/scripts/h5p-sort-paragraphs-content.js:563-619 | a grabbed paragraph moved down changes the order, and cancel puts it back |
| `Content.ReorderEntry` | src/scripts/h5p-sort-paragraphs-content.js:92-96 | one iteration of `reorderDraggables` on the list in place, as `ReorderStep` |
| `Content.ReorderList` | src/scripts/h5p-sort-paragraphs-content.js:89-98 | the restore loop leaves the list, and throws, as `Reorder` |
| `Content.BuildParagraphs` | src/scripts/h5p-sort-paragraphs-content.js:53-54 | one fresh paragraph per text, each with its own two buttons, nothing selected or disabled |
| `Content.SortContent.Items` | src/scripts/h5p-sort-paragraphs-content.js:827-849 | the flags of each paragraph in solution order |
| `Content.SortContent.constructor` | src/scripts/h5p-sort-paragraphs-content.js:14-69 | the list in solution order and the handler state cleared |
| `Content.SortContent.Create` | src/scripts/h5p-sort-paragraphs-content.js:14-83 | the constructor's outcome is `Interaction.Start`, including when it throws |
| `Content.SortContent.GetDraggablesOrder` | src/scripts/h5p-sort-paragraphs-content.js:724-727 | the current order, always an order of the paragraphs |
| `Content.SortContent.GetDraggableIndex` | src/scripts/h5p-sort-paragraphs-content.js:734-736 | the position that holds the paragraph |
| `Content.SortContent.GetDraggableAt` | src/scripts/h5p-sort-paragraphs-content.js:712-718 | the paragraph at a numeric position inside the list, null otherwise |
| `Content.SortContent.ComputeResults` | src/scripts/h5p-sort-paragraphs-content.js:231-294 | the results of the current order; it throws exactly in transitions mode with no paragraphs |
| `Content.SortContent.Commit` | src/scripts/h5p-sort-paragraphs-content.js:393-394 | the answer given and one interaction reported |
| `Content.SortContent.SwapEntries` | src/scripts/h5p-sort-paragraphs-util.js:69-84 | the list after swapping two paragraphs in place |
| `Content.SortContent.Select` | src/scripts/h5p-sort-paragraphs-paragraph.js:377-388 | one paragraph selected or unselected |
| `Content.SortContent.ResetParagraph` | src/scripts/h5p-sort-paragraphs-content.js:830-846 | the if-chain of `resetDraggables` for one paragraph: up disabled at the top; down disabled at the bottom except at the top |
| `Content.SortContent.ResetDraggableAt` | src/scripts/h5p-sort-paragraphs-content.js:830-846 | the same through the list, with every other paragraph unchanged |
| `Content.SortContent.ResetDraggablesLoop` | src/scripts/h5p-sort-paragraphs-content.js:828-848 | the loop over the list sets every paragraph's buttons by its position |
| `Content.SortContent.ResetDraggables` | src/scripts/h5p-sort-paragraphs-content.js:827-849 | `resetDraggables` moves the state as `Interaction.ResetButtons` |
| `Content.SortContent.ReorderDraggables` | src/scripts/h5p-sort-paragraphs-content.js:89-98 | the list in place as `Reorder`, with nothing else changed |
| `Content.SortContent.Shuffle` | src/scripts/h5p-sort-paragraphs-content.js:76 | the list shuffled in place with the supplied draws, the paragraphs taken in solution order |
| `Content.SortContent.ToggleEffectAt` | src/scripts/h5p-sort-paragraphs-paragraph.js:507-519 | one paragraph's effect set or cleared; the handler state unchanged |
| `Content.SortContent.ShowButtonsAt` | src/scripts/h5p-sort-paragraphs-content.js:865 | one paragraph's buttons shown; the handler state unchanged |
| `Content.SortContent.MoveToIndex` | src/scripts/h5p-sort-paragraphs-content.js:156-167 | one iteration of `showSolutions`: positions up to the index hold their own paragraph |
| `Content.SortContent.ShowSolutions` | src/scripts/h5p-sort-paragraphs-content.js:150-170 | `showSolutions` moves the state as `Interaction.ShowSolutions`: the solution order |
| `Content.SortContent.EnableAt` | src/scripts/h5p-sort-paragraphs-content.js:680-697 | one paragraph enabled or disabled; every other paragraph unchanged |
| `Content.SortContent.SetEnabled` | src/scripts/h5p-sort-paragraphs-content.js:685 | only the enabled flag changes |
| `Content.SortContent.Enable` | src/scripts/h5p-sort-paragraphs-content.js:680-686 | `enable` moves the state as `Interaction.Enable` |
| `Content.SortContent.Disable` | src/scripts/h5p-sort-paragraphs-content.js:691-697 | `disable` moves the state as `Interaction.Disable` |
| `Content.SortContent.ClearResults` | src/scripts/h5p-sort-paragraphs-content.js:857-866 | clearing the result effects and showing the buttons leaves the handler state as it was |
| `Content.SortContent.Reset` | src/scripts/h5p-sort-paragraphs-content.js:854-873 | `reset` moves the state as `Interaction.Reset` |
| `Content.SortContent.CommitSwap` | src/scripts/h5p-sort-paragraphs-content.js:393-400 | a move button's swap: commit, swap, reset the buttons |
| `Content.SortContent.MoveUp` | src/scripts/h5p-sort-paragraphs-content.js:390-402 | `handleDraggableMoveUp` moves the state as `Interaction.MoveUp` |
| `Content.SortContent.MoveDown` | src/scripts/h5p-sort-paragraphs-content.js:407-419 | `handleDraggableMoveDown`, with the corrected guard, moves the state as `Interaction.MoveDown` |
| `Content.SortContent.Carry` | src/scripts/h5p-sort-paragraphs-content.js:500-518 | the swap of a grabbed paragraph, as `Interaction.Carry` |
| `Content.SortContent.KeyboardUp` | src/scripts/h5p-sort-paragraphs-content.js:491-521 | `handleDraggableKeyboardUp` as `Interaction.KeyboardUp` |
| `Content.SortContent.KeyboardDown` | src/scripts/h5p-sort-paragraphs-content.js:527-557 | `handleDraggableKeyboardDown` as `Interaction.KeyboardDown` |
| `Content.SortContent.SetUndo` | src/scripts/h5p-sort-paragraphs-content.js:569-572 | only the undo state changes |
| `Content.SortContent.Grab` | src/scripts/h5p-sort-paragraphs-content.js:566-574 | the grab branch of `handleDraggableKeyboardSelect` |
| `Content.SortContent.Drop` | src/scripts/h5p-sort-paragraphs-content.js:575-588 | the drop branch of `handleDraggableKeyboardSelect` |
| `Content.SortContent.KeyboardSelect` | src/scripts/h5p-sort-paragraphs-content.js:563-590 | `handleDraggableKeyboardSelect` as `Interaction.KeyboardSelect` |
| `Content.SortContent.KeyboardCancel` | src/scripts/h5p-sort-paragraphs-content.js:596-619 | `handleDraggableKeyboardCancel` as `Interaction.KeyboardCancel` |
| `Content.SortContent.MouseDown` | src/scripts/h5p-sort-paragraphs-content.js:624-626 | `handleDraggableMouseDown` as `Interaction.MouseDown` |
| `Content.SortContent.ForgetClick` | src/scripts/h5p-sort-paragraphs-content.js:633-666 | only the selected paragraph and the mouse-down flag change |
| `Content.SortContent.ClickSwap` | src/scripts/h5p-sort-paragraphs-content.js:643-653 | click-to-swap as `Interaction.ClickSwap` |
| `Content.SortContent.Release` | src/scripts/h5p-sort-paragraphs-content.js:636-641 | a mouse-up on the selected paragraph, as `Interaction.MouseUp` |
| `Content.SortContent.Pick` | src/scripts/h5p-sort-paragraphs-content.js:654-666 | a mouse-up that selects the paragraph, as `Interaction.MouseUp` |
| `Content.SortContent.MouseUp` | src/scripts/h5p-sort-paragraphs-content.js:632-668 | `handleDraggableMouseUp` as `Interaction.MouseUp` |
| `Content.SortContent.FocusOut` | src/scripts/h5p-sort-paragraphs-content.js:424-432 | `handleDraggableFocusOut` as `Interaction.FocusOut` |
| `Content.SortContent.DragStart` | src/scripts/h5p-sort-paragraphs-content.js:437-440 | `handleDraggableDragStart` as `Interaction.DragStart` |
| `Content.SortContent.DragEnter` | src/scripts/h5p-sort-paragraphs-content.js:451-459 | `handleDraggableDragEnter` as `Interaction.DragEnter`, including the throw |
| `Content.SortContent.DragLeave` | src/scripts/h5p-sort-paragraphs-content.js:464-466 | `handleDraggableDragLeave` as `Interaction.DragLeave` |
| `Content.SortContent.OrderChanged` | src/scripts/h5p-sort-paragraphs-content.js:474-476 | the comparison loop reports whether the order moved |
| `Content.SortContent.ForgetDrag` | src/scripts/h5p-sort-paragraphs-content.js:480-484 | only the drag state and the selection are cleared |
| `Content.SortContent.DragEnd` | src/scripts/h5p-sort-paragraphs-content.js:471-485 | `handleDraggableDragEnd` as `Interaction.DragEnd`, including the throw |
| `Host.FromCode` | src/scripts/h5p-sort-paragraphs.js:528-531 | a number is a view state exactly when it is one of the codes 0, 1, 2 |
| `Host.NamedIffName` | src/scripts/h5p-sort-paragraphs.js:590 | each name looks up its own view state and no other; the codes are distinct |
| `Host.MaxScoreAgrees` | src/scripts/h5p-sort-paragraphs.js:281-285 | `getMaxScore` (N in positions mode, N-1 otherwise) is the maximum of the content's scoring mode |
| `Host.MaxScore` | src/scripts/h5p-sort-paragraphs.js:281-285 | `getMaxScore`: N exactly when the scoring mode is 'positions', N-1 otherwise |
| `Host.CachedScore` | src/scripts/h5p-sort-paragraphs.js:267 | the cached score when it is not 0; otherwise the saved score, or 0 when there is none |
| `Host.Score` | src/scripts/h5p-sort-paragraphs.js:258-274 | the cached score in the solutions view; otherwise the current order's score, throwing where `computeResults` does |
| `Host.ScoreWithinMax` | src/scripts/h5p-sort-paragraphs.js:258-285 | outside the solutions view the score lies between 0 and the maximum |
| `Host.PassedIffSolved` | src/scripts/h5p-sort-paragraphs.js:459-461 | without interchangeable duplicates the task is passed exactly when the paragraphs are in the solution order |
| `Host.SolutionOfferedIffUnsolved` | src/scripts/h5p-sort-paragraphs.js:418-424 | after a check the solution is offered exactly when enabled and the order is not the solution |
| `Host.KeptPrevious` | src/scripts/h5p-sort-paragraphs.js:91-93 | a previous state is kept only when it has an order |
| `Host.Registered` | src/scripts/h5p-sort-paragraphs.js:176-201 | no previous state becomes `{}` in the task view; a results or solutions view is kept as it is; any other view state becomes the task view, with the order and score kept |
| `Host.SnapshotRestores` | src/scripts/h5p-sort-paragraphs.js:490-508 | a saved order is restored in the next session without throwing |
| `Host.CurrentState` | src/scripts/h5p-sort-paragraphs.js:490-508 | `{}` exactly when no answer was given and no order was kept; it throws only outside the task view |
| `Host.SessionRoundTrip` | src/scripts/h5p-sort-paragraphs.js:490-508 | what a session saves, the next one starts from: the same order without throwing, the same view state, the score (0 in the task view); `{}` makes it shuffle |
| `Host.EmptySnapshotShuffles` | src/scripts/h5p-sort-paragraphs.js:91-93 | an empty saved state keeps no order |
| `Host.NatToString` | src/scripts/h5p-sort-paragraphs.js:331 | a number as `join` writes it: non-empty, all digits |
| `Host.DigitValue` | src/scripts/h5p-sort-paragraphs.js:331 | a digit's value is below 10 |
| `Host.ParseNatToString` | src/scripts/h5p-sort-paragraphs.js:331 | reading back a written number gives the number |
| `Host.Split` | src/scripts/h5p-sort-paragraphs.js:331 | splitting at '[,]' gives at least one part |
| `Host.SplitPrefix` | src/scripts/h5p-sort-paragraphs.js:331 | a prefix without '[' stays in the first part |
| `Host.SplitJoin` | src/scripts/h5p-sort-paragraphs.js:331 | parts without '[' joined by '[,]' split back into the same parts |
| `Host.Strings` | src/scripts/h5p-sort-paragraphs.js:331 | each id written as a number |
| `Host.Response` | src/scripts/h5p-sort-paragraphs.js:331 | the response splits at '[,]' back into one number per paragraph |
| `Host.CorrectResponsesPattern` | src/scripts/h5p-sort-paragraphs.js:365-369 | a single pattern, which reads back as the solution order 0, 1, …, N-1 |
| `Host.ResponseRoundTrip` | src/scripts/h5p-sort-paragraphs.js:331 | the xAPI response of a non-empty order reads back as that order |
| `Host.ResponseCorrectIffSolution` | src/scripts/h5p-sort-paragraphs.js:365-369 | the response equals the correct responses pattern "0[,]1[,]…[,]N-1" exactly when the order is the solution |
| `Host.SortParagraphs.constructor` | src/scripts/h5p-sort-paragraphs.js:88-93 | the task view, no cached score, and the given previous state |
| `Host.SortParagraphs.Create` | src/scripts/h5p-sort-paragraphs.js:88-201 | the content built from the kept previous order (throwing where the content's constructor does), the task view, the previous state as registered |
| `Host.SortParagraphs.GetScore` | src/scripts/h5p-sort-paragraphs.js:258-274 | returns `Score` and caches what it returns |
| `Host.SortParagraphs.IsPassed` | src/scripts/h5p-sort-paragraphs.js:459-461 | passed exactly when the score reaches `getMaxScore` |
| `Host.SortParagraphs.XAPIResponse` | src/scripts/h5p-sort-paragraphs.js:331 | the current order joined by '[,]' |
| `Host.SortParagraphs.GetCurrentState` | src/scripts/h5p-sort-paragraphs.js:490-508 | returns `CurrentState` of the content; a score outside the task view is computed and cached |
| `Host.SortParagraphs.SetViewState` | src/scripts/h5p-sort-paragraphs.js:521-538 | a string changes the view only for the three names; a code is set and then the name lookup throws a TypeError; other values change nothing |
| `Host.SortParagraphs.ShowSolutions` | src/scripts/h5p-sort-paragraphs.js:291-295 | the solutions view and the content in the solution order |
| `Host.SortParagraphs.ResetTask` | src/scripts/h5p-sort-paragraphs.js:301-310 | the content reset, the previous state forgotten, the task view |
| `Host.SortParagraphs.AnswerStatement` | src/scripts/h5p-sort-paragraphs.js:401-405 | from the task view the answer statement takes the score, and throws where it does |
| `Host.SortParagraphs.ShowResults` | src/scripts/h5p-sort-paragraphs.js:413-426 | the results view, the content disabled, the solution offered when enabled and the score is not the maximum |
| `Host.SortParagraphs.CheckAnswer` | src/scripts/h5p-sort-paragraphs.js:400-453 | throws exactly when the score cannot be computed; otherwise the results view, the content disabled, the score cached and the solution offered as `SolutionOffered` |
| `Host.CheckOffersUnsolved` | src/scripts/h5p-sort-paragraphs.js:418-424 | for the question's own options, the check offers the solution exactly when enabled and unsolved |

## Left out

- The DOM itself is left out: element construction, CSS effects beyond the effect set, the score explanation widgets, ARIA labels and their templates, tab index and focus side effects, and the separators between paragraphs (`h5p-sort-paragraphs-separator.js` is not part of this model).
- `htmlDecode` and `stripHTML` are left out because they are calls into the browser's parser. Paragraph texts are opaque strings, and `innerText` equality is string equality.
- `Math.random` is left out: the shuffle takes its draws as a parameter (`choices`).
- Timing is left out: the `setTimeout` in `checkAnswer` and the button click delay. The deferred part of `checkAnswer` runs at once, and focus-out is an explicit event rather than one fired by moving elements.
- H5P host plumbing is left out: media, `H5P.setUserData`, the external dispatcher, the state provider, `H5PIntegration`, xAPI event objects apart from the response strings, and the question buttons.
- Host.SortParagraphs.Create: the replay of a saved results or solutions view is left out, because the question's `initialized` handler runs it later.
- Host.SortParagraphs.CheckAnswer: when the score cannot be computed, the state the code leaves behind is not stated.
- Host.SortParagraphs.SetViewState: names of `Object.prototype` members (such as 'toString') are not modelled. The source would store that member as the view state.
- Host.Score: saved scores are integers; a non-number saved score is not modelled.
- Host.SortParagraphs: `getAnswerGiven`, `getTitle`, `getDescription` and the rest of `getxAPIDefinition` (names, choices, extensions) are left out. They only pass strings through.
- Content.SortContent.Abs: the abstract state leaves out the effects, the tab index and focus. The methods still change the effects as the source does, except as listed below.
- Content.SortContent.MoveDown: it uses the corrected guard; the code as written is `Interaction.MoveDownAsWritten` (see Findings).
- Content.SortContent.ShowSolutions: the `skipFocus` option, the ARIA labels and the result effects are left out.
- Paragraphs.Paragraph.Reset: removing the CSS class names other than the selected effect is left out; those names are not effects.
- Buttons.Button.constructor, Enable, Toggle, Click: they use the corrected `Deactivate`, so for toggle buttons the active class follows the flag; the class left behind by the code as written is only in `Buttons.ActiveClassLingers`. Only pulse buttons are created in this widget, so no path of the widget reaches the difference.
- Paragraphs.Paragraph.ToggleButton: an id naming an `Object.prototype` member (such as 'toString') is treated as unknown; the source would find that member and throw when calling it. No caller passes such an id.
- Util.FormatLanguageCode: only ASCII letters change case; other characters are left as they are.
- Util.Merge, Util.ExtendWith, Util.ExtendAll, Util.Extend: a string source is treated as having no own keys, where `for...in` would copy its characters under the keys "0", "1", …; no caller passes a string.
- Util.Extend: objects are modelled as values, so the mutation of the first argument in place and any aliasing between arguments are left out. Arrays are objects whose keys are their indices.
- Js: NaN, fractions and numbers beyond the integers are left out; scores and positions are integers.
- Util.SwapDOMElements: swapping an element with itself would throw in the source; every caller avoids it, so it is a precondition.

## Findings

| source | as written | input that shows it | evidently intended | confidence | as-written member | corrected member |
|---|---|---|---|---|---|---|
| src/scripts/h5p-sort-paragraphs-content.js:409 | `handleDraggableMoveDown` guards with `position < this.paragraphs.length`, which also admits the bottom paragraph. `resetDraggables` (836-846) leaves the down button of a single paragraph enabled. | One paragraph, and its down button is clicked. The answer is marked as given and `onInteracted` fires; then `swapDOMElements` gets `null` and throws. | `position < this.paragraphs.length - 1`: the bottom paragraph does not move and nothing is reported. | not executed | `Interaction.MoveDownAsWritten`, `Interaction.MoveDownAsWrittenAtBottom`, `Interaction.SingleParagraphDownEnabled` | `Interaction.MoveDown`, `Content.SortContent.MoveDown` |
| src/scripts/h5p-sort-paragraphs-button.js:157-171 | `deactivate` removes the class `h5p-sort-paragraphs-active`; `activate` adds `h5p-sort-paragraphs-button-active`. | A toggle-type button activated and then deactivated. | `deactivate` removes the class `activate` adds, so the class follows the active flag. | not executed | `Buttons.Button.DeactivateAsWritten`, `Buttons.ActiveClassLingers` | `Buttons.Button.Deactivate`, `Buttons.ActiveClassFollows` |
