# Case-study page script: table of contents and rotators

A Dafny model of the two stateful components of the case-study page script
`script.js`:

- **The table-of-contents controller.** The page has:
  - a fixed two-level outline (`tocItems`);
  - its flattening into `flatIds`;
  - an optional select control that `buildSelect` fills with one option per outline entry;
  - the anchors that carry `data-toc-id`, and the `anchorMap` built from them.

  `setActive(id)` marks exactly the anchors whose id is `id`, plus the anchor of the section that owns a subsection `id`. It also sets the select's value. The select's `change` listener and every anchor's `click` listener call it. So does the intersection callback: it records each observed entry in an insertion-ordered map (`entriesRef`), then activates the topmost intersecting entry.
- **The rotator manager.** Seven configured rotators are registered at page load when their container, their controls and at least one frame are present. For each registered rotator there is:
  - a state `{index, paused}` in `rotatorState`;
  - a descriptor `{container, frames, controls, total}` in `rotatorMap`.

  One document-level click handler dispatches the controls' actions:
  - `toggle` flips `paused`. On resume it also leaves manual mode and clears the inline opacities.
  - Any other action pauses the rotator. It moves the index with wrap-around for `prev`/`next`, and shows exactly the frame at the index.

Modules:

- `Wrappers` holds `Option`.
- `Outline` holds the outline as data, `flatIds`, the option list, the parent lookup, and the facts about the shipped outline.
- `Visibility` holds the insertion-ordered entry map and the choice of the topmost intersecting entry.
- `Toc` holds the controller. It is a class over an `array<Anchor>`, with the select value as an `Option<string>` field and `entriesRef` as a `seq<Entry>` field.
- `Rotator` holds the frames and toggle buttons as values, and the containers and control panels as objects. Each rotator's frames are an `array<Frame>`.

  The class `RotatorManager` holds the two maps. Its invariant `Valid()` says:
  - both maps have the same keys;
  - every registered rotator has `total == |frames| >= 1` and `0 <= index < total`;
  - no two rotators share an element (`SeparatedApart` derives this from the ownership map `Valid()` keeps).

  The function `Act` says what one click does to one rotator, as a value. Every method that handles a click on a rotator (`Toggle`, `Step`, `ToggleKey`, `StepKey`, `Clicked`) is proved to do exactly what `Act` says. The frame helpers are proved against `ShowOnly`, `PauseFrames` and `ClearOpacity`, and registration (`Register`, `LoadAll`) against the page-load invariant `Loaded`.

The intersection callback activates `visible[0]`: the intersecting entries sorted by `top` with a stable sort. The model states this directly: `Topmost` is the entry with the least `top`, and the earliest in map order among those.

JavaScript's `%` and Dafny's `%` agree here, because both operands of every `%` in the rotator code are non-negative.

## Model

| member | source | states |
|---|---|---|
| Outline.TocItems | script.js:1-45 | the shipped outline: five sections, every section and subsection with a non-empty id and label; `TocItemsFlatIds` and `TocItemsUnique` give its ids |
| Outline.FlatIds | script.js:51 | `flatIds`: each section id followed by its subsection ids; its layout is stated by `FlatIdsLayout`, and its value on the shipped outline by `TocItemsFlatIds` |
| Outline.SelectOptions | script.js:58-70 | the options `buildSelect` appends, in order; their values are `flatIds` by `SelectValuesAreFlatIds`, and their texts are stated by `SelectTexts` |
| Outline.TocItemsFlatIds | script.js:1-51 | `flatIds` of the shipped outline is its twenty ids in page order |
| Outline.TocItemsUnique | script.js:1-45 | the shipped outline repeats no id, so the lemmas that assume unique ids apply to it |
| Outline.FlatIdsLayout | script.js:51 | section `s` sits at `Offset(s)` in `flatIds`, and its subsection ids follow it immediately, in order; the blocks fill the list |
| Outline.SelectValuesAreFlatIds | script.js:53-71 | the options `buildSelect` appends have exactly the values of `flatIds`, in the same order |
| Outline.SelectTexts | script.js:58-70 | a section's option text is its label; a subsection's text is `"<section label>: <sub label>"`, and its option sits right after its section's |
| Outline.ParentIndex | script.js:97 | `tocItems.find(...)`: the first section that is `id` or lists `id` as a subsection, or none when no section does |
| Outline.ParentOfSection | script.js:97 | with unique ids, the section found for a section id is that section itself |
| Outline.ParentOfSub | script.js:97 | with unique ids, the section found for a subsection id is the section that lists it, and its id differs from the subsection's |
| Outline.ParentOfUnknown | script.js:97 | an id outside `flatIds` has no parent section |
| Toc.AnchorMap | script.js:48-49 | `new Map(...)` over the anchors: its keys are the anchors' ids, and each maps to the last anchor with that id |
| Toc.SubsectionMarksParent | script.js:81-104 | `setActive` on a subsection marks the subsection's anchors and the anchor `anchorMap` holds for its section, and no other anchor |
| Toc.SubsectionWithoutParentAnchor | script.js:96-104 | when the owning section has no anchor, only the subsection's own anchors are marked |
| Toc.SectionMarksOnlyItself | script.js:81-104 | `setActive` on a section id marks only the anchors with that id |
| Toc.UnknownMarksOnlyItself | script.js:81-104 | `setActive` on an id outside the outline marks only the anchors with that id |
| Toc.Observed | script.js:128-132 | `elements`: the outline ids whose element is on the page, and no others |
| Toc.TocController.constructor | script.js:47-132 | the anchors, the ids and the optional select as found at load (lines 47-49); the observer flag is `elements.length > 0` (lines 128-132), so the observer exists iff some outline id is on the page |
| Toc.TocController.BuildSelect | script.js:53-71 | with a select control, the outline's options are appended in order; without one, nothing changes |
| Toc.TocController.MarkOnly | script.js:82-90 | after the `forEach`, exactly the anchors whose id is `id` carry `is-active` and `aria-current` |
| Toc.TocController.SetActive | script.js:81-105 | every anchor is marked iff `Marked` holds (its own id, or the parent section's anchor), ids unchanged, and the select, when present, holds `id` |
| Toc.TocController.SelectChanged | script.js:109-115 | a `change` of the select activates the chosen value |
| Toc.TocController.AnchorClicked | script.js:117-126 | a click on an anchor activates its id; an anchor with an empty id changes nothing |
| Toc.TocController.Intersected | script.js:136-147 | `entriesRef` becomes the map after setting the whole batch; the topmost intersecting entry is then shown active; with none intersecting, the anchors and the select are unchanged |
| Visibility.Lookup | script.js:133-138 | the entry the insertion-ordered map stores for a key, present exactly for the stored keys; `Put` and `BatchLastWriteWins` are stated through it |
| Visibility.Put | script.js:137-139 | `set(id, entry)`: the map now stores the entry for `id`, and every other id's stored entry is unchanged |
| Visibility.PutKeys | script.js:137-139 | `set` keeps the key order for an existing key and appends a new key at the end |
| Visibility.PutDistinct | script.js:137-139 | `set` never stores a key twice |
| Visibility.PutAll | script.js:137-139 | the batch `forEach` of `set`: every id of the batch and every id stored before is stored afterwards; `BatchLastWriteWins` says which entry each id holds |
| Visibility.BatchLastWriteWins | script.js:137-139 | after a batch, each id holds its last entry in the batch, or its earlier entry when the batch has none; earlier keys keep their order; keys stay distinct |
| Visibility.Topmost | script.js:141-146 | `visible[0]` exists iff some stored entry intersects; it intersects, has the least `top` among the intersecting entries, and comes first in map order among those with that `top` |
| Visibility.TopmostExample | script.js:141-146 | worked cases: tops 50 and 10 pick the one at 10; a non-intersecting entry is never picked; with none intersecting there is no pick |
| Rotator.Rotators | script.js:158-171 | the seven configured rotators, each with a non-empty key and a nominal count of at least 3, so the `count` fallback would never give an empty rotator; `RotatorKeysDistinct` shows the keys distinct |
| Rotator.RotatorKeysDistinct | script.js:158-171 | the seven configured keys are pairwise distinct |
| Rotator.Prev | script.js:283 | `(index - 1 + total) % total` is `index - 1`, or `total - 1` from the first frame |
| Rotator.Next | script.js:285 | `(index + 1) % total` is `index + 1`, or `0` from the last frame |
| Rotator.PrevNextInverse | script.js:282-285 | `prev` and `next` stay within `0 .. total - 1` and undo each other |
| Rotator.WrapAroundWithFour | script.js:282-285 | with four frames, `prev` from 0 gives 3 and `next` from 3 gives 0 |
| Rotator.Act | script.js:265-289 | one click on one rotator, as a value; the index stays within the frames |
| Rotator.NonToggleShowsOneFrame | script.js:281-289 | any action but `toggle` pauses, enters manual mode, moves the index only for `prev`/`next`, pauses every frame and leaves opacity `"1"` on exactly the frame at the index, `"0"` on the rest; the toggle button reads "Play" |
| Rotator.ToggleFlipsPaused | script.js:268-278 | `toggle` flips `paused` and keeps the index; resuming leaves manual mode and clears every opacity, pausing keeps them; frames and the toggle button follow the new `paused` |
| Rotator.ToggleTwiceResumes | script.js:268-278 | two toggles from a running rotator leave it running, at the same index, out of manual mode, with every frame running and no inline opacity |
| Rotator.TargetKey | script.js:250-263 | a click addresses a rotator iff it is on a controls button whose panel has a non-empty, registered `data-rotator` |
| Rotator.SetManualFrame | script.js:175-180 | the container enters manual mode, and the frame at `index` gets opacity `"1"`, every other frame `"0"`, nothing else changes |
| Rotator.SetPaused | script.js:182-192 | every frame's `rotator-paused` class and play state follow `paused`; the toggle button, if any, reads "Play"/"Pause" and carries `is-paused` accordingly |
| Rotator.ClearOpacities | script.js:272-274 | every frame's inline opacity becomes `""`, nothing else changes |
| Rotator.Toggle | script.js:268-278 | the toggle branch on one rotator's elements does exactly what `Act` says for `toggle` |
| Rotator.Step | script.js:281-289 | the other branch on one rotator's elements does exactly what `Act` says, and the new index is a frame |
| Rotator.LoadedRegistered | script.js:204-214 | registering the next configured rotator, whose elements were all found, extends the page-load invariant by one step |
| Rotator.LoadedSkipped | script.js:197-206 | skipping the next configured rotator, with some element missing, extends the page-load invariant by one step |
| Rotator.AddKeepsConsistent | script.js:212-214 | a new rotator at index 0 with `total == |frames| >= 1` keeps both maps consistent |
| Rotator.AddKeepsSeparated | script.js:212-214 | registering elements owned by no rotator keeps the rotators apart |
| Rotator.StateUpdate | script.js:277 | storing a state whose index is a frame keeps both maps consistent |
| Rotator.RotatorManager.constructor | script.js:173-194 | both maps start empty |
| Rotator.RotatorManager.LoadAll | script.js:196-247 | after the `forEach`, a rotator is registered iff its container, controls and some frame were found; each starts at `{index: 0, paused: false}` with `total` its frame count; nothing else is registered |
| Rotator.RotatorManager.Register | script.js:196-214 | one step of the `forEach`: registers iff container, controls and a frame exist, at `{0, false}` with `total == |frames|`; otherwise nothing changes; the invariant is kept |
| Rotator.RotatorManager.ToggleKey | script.js:265-278 | the toggle branch on a registered key: its view becomes `Act(old view, total, toggle)`, no other rotator's element or state changes |
| Rotator.RotatorManager.StepKey | script.js:280-289 | the other branch on a registered key: its view becomes `Act(old view, total, action)`, no other rotator's element or state changes |
| Rotator.RotatorManager.Clicked | script.js:249-290 | the default is prevented iff the click is on a controls button; the addressed rotator's view becomes `Act` of its old view, and every other rotator is unchanged (all rotators when the key is missing, empty or unregistered) |

## Left out

- `scrollToId` and `scrollIntoView` (script.js:73-79) are not modelled. `SelectChanged` and `AnchorClicked` model only the `setActive` call that follows the scroll.
- The intersection geometry is the browser's: `rootMargin`, `threshold` and the `observe` calls (script.js:149-155). The callback receives an abstract batch of `(id, isIntersecting, top)` entries.
- `boundingClientRect.top` is a floating-point number in the source. The model uses an integer, so NaN and rounding are not modelled.
- DOM lookups are parameters: `getElementById`, `querySelector(All)`, `closest`, `dataset`. These include:
  - the anchors and the select handed to the `TocController` constructor;
  - the elements on the page, given as a set of ids;
  - what each rotator's lookups found (`Found`);
  - the click as a `Click` value.
- Event registration is not modelled. The handlers are method calls.
- `preventDefault` is reported by `Clicked` as a returned flag. The anchor listener always calls it, so `AnchorClicked` does not report it.
- The `pointerEvents = "none"` write on frames (script.js:208-210) is cosmetic and is not modelled.
- The per-rotator `handleAction` closure (script.js:216-245) is never called. Only the document-level handler is modelled.
- CSS animation is not modelled, including which frame a running animation shows. The model keeps only the inline `animationPlayState`, the `rotator-paused` class and the inline opacity.
- `Toc.TocController.SetActive` records the assigned id as the select's value. A browser reads the value back as `""` when no option carries that id. The model does not track option matching.
- A section without `sub` is modelled with an empty subsection list. Every use in the source (`?.map ?? []`, `?.some`, `?.forEach`) treats the two alike.
- `Rotator.RotatorManager.ToggleKey` and `Rotator.RotatorManager.StepKey` drop the `rotatorState.get(key) || { index: 0, paused: false }` fallback (script.js:265). Under `Valid()`, every key in `rotatorMap` is also in `rotatorState`, so the fallback is never taken.
- `Rotator.RotatorManager.Register` keeps the `frames.length || count` expression (script.js:212). Registration requires at least one frame, so `count` is never used and `total` is always the frame count.
- `Rotator.RotatorManager.Register` requires a key not yet registered, and elements owned by no rotator. The source would overwrite a repeated key. The configured keys are distinct (`RotatorKeysDistinct`), and `LoadAll` establishes both conditions for the whole `forEach`.
- `Rotator.RotatorManager.LoadAll` requires that lookups for different rotators never return the same element (`FoundApart`). The model assumes that no element is found for two rotators. The controls lookups differ by `data-rotator`, and `Array.from` builds a fresh frame list for each rotator.
- The source mutates the state object it read from `rotatorState`, then stores it again. The model stores a new `State` value, which gives the same map contents.
- Controls are seen only through the toggle button each panel may hold. The `[data-action="toggle"]` lookup of `setPaused` (script.js:187) is modelled as that optional field.
