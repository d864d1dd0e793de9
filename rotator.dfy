/**
 * The rotator manager: per-key rotator state `{index, paused}` and the
 * descriptor `{container, frames, controls, total}` found at page load, the
 * helpers `setManualFrame` and `setPaused`, and the document-level click
 * handler that dispatches `prev`, `next` and `toggle`.
 */
module Rotator {
  import opened Wrappers

  /** The inline `animationPlayState` of a frame; `Unset` until the first write. */
  datatype PlayState = Unset | Running | Paused

  /** A frame element: its inline opacity, its `rotator-paused` class and its inline play state. */
  datatype Frame = Frame(opacity: string, pausedClass: bool, playState: PlayState)

  /** An entry of `rotatorState`. */
  datatype State = State(index: int, paused: bool)

  /** One entry of the `rotators` configuration list (its selectors are left to the host). */
  datatype Config = Config(key: string, count: int)

  /**
   * The rotators the page configures, with their nominal frame counts; every
   * count is positive, so the `count` fallback could never give an empty rotator.
   */
  function Rotators(): (r: seq<Config>)
    ensures |r| == 7
    ensures forall i :: 0 <= i < |r| ==> r[i].key != "" && r[i].count >= 3
  {
    [ Config("builder", 3), Config("wizard", 4), Config("onboarding", 16), Config("edit", 5),
      Config("evolution", 6), Config("understanding", 4), Config("flows", 4) ]
  }

  predicate DistinctConfigKeys(configs: seq<Config>)
  {
    forall i, j :: 0 <= i < j < |configs| ==> configs[i].key != configs[j].key
  }

  /** The configured keys are pairwise distinct (their lengths already differ). */
  lemma RotatorKeysDistinct()
    ensures DistinctConfigKeys(Rotators())
  {
    var lengths := [7, 6, 10, 4, 9, 13, 5];
    forall i, j | 0 <= i < j < |Rotators()|
      ensures Rotators()[i].key != Rotators()[j].key
    {
      assert |Rotators()[i].key| == lengths[i] && |Rotators()[j].key| == lengths[j];
    }
  }

  /** A rotator container; `manual` is its `rotator-manual` class. */
  class Container {
    var manual: bool

    constructor (manual: bool)
      ensures this.manual == manual
    {
      this.manual := manual;
    }
  }

  /** The `[data-action="toggle"]` button: its `aria-label` and its `is-paused` class. */
  datatype ToggleButton = ToggleButton(ariaLabel: string, isPaused: bool)

  /** A `.rotator-controls` panel, seen through the toggle button it may hold. */
  class Controls {
    var toggle: Option<ToggleButton>

    constructor (toggle: Option<ToggleButton>)
      ensures this.toggle == toggle
    {
      this.toggle := toggle;
    }
  }

  /** An entry of `rotatorMap`. */
  datatype Descriptor = Descriptor(container: Container, frames: array<Frame>, controls: Controls, total: int)
  {
    /** No element of this rotator belongs to `other`. */
    predicate Apart(other: Descriptor)
    {
      container != other.container && frames != other.frames && controls != other.controls
    }
  }

  /** What a click can change of one rotator, as a value. */
  datatype View = View(index: int, paused: bool, manual: bool, frames: seq<Frame>, toggle: Option<ToggleButton>)

  /** `prev`: one frame back, from the first frame to the last. */
  function Prev(index: int, total: int): (r: int)
    requires 0 <= index < total
    ensures r == if index == 0 then total - 1 else index - 1
  {
    WrapMod(index - 1 + total, total);
    (index - 1 + total) % total
  }

  /** `next`: one frame on, from the last frame to the first. */
  function Next(index: int, total: int): (r: int)
    requires 0 <= index < total
    ensures r == if index == total - 1 then 0 else index + 1
  {
    WrapMod(index + 1, total);
    (index + 1) % total
  }

  /** The remainder of a number below twice the divisor: at most one subtraction. */
  lemma WrapMod(a: int, n: int)
    requires 0 <= a < 2 * n
    ensures a % n == if a < n then a else a - n
  {
    if n <= a {
      ModBelow(a - n, n);
      assert (a - n) % n == a % n;
    } else {
      ModBelow(a, n);
    }
  }

  lemma ModBelow(a: int, n: int)
    requires 0 <= a < n
    ensures a % n == a
  {
  }

  /** `prev` and `next` undo each other and stay within the frames. */
  lemma PrevNextInverse(index: int, total: int)
    requires 0 <= index < total
    ensures 0 <= Prev(index, total) < total && 0 <= Next(index, total) < total
    ensures Next(Prev(index, total), total) == index
    ensures Prev(Next(index, total), total) == index
  {
  }

  /** With four frames, `prev` from the first gives the last and `next` from the last gives the first. */
  lemma WrapAroundWithFour()
    ensures Prev(0, 4) == 3 && Next(3, 4) == 0
    ensures Next(0, 4) == 1 && Prev(3, 4) == 2
  {
  }

  /** The `aria-label` `setPaused` gives the toggle button. */
  function AriaLabelFor(paused: bool): string
  {
    if paused then "Play" else "Pause"
  }

  /** What `setPaused` writes on every frame. */
  function PauseFrames(frames: seq<Frame>, paused: bool): seq<Frame>
  {
    seq(|frames|, j requires 0 <= j < |frames| =>
      frames[j].(pausedClass := paused, playState := if paused then Paused else Running))
  }

  /** What `setPaused` writes on the toggle button, when there is one. */
  function PauseToggle(toggle: Option<ToggleButton>, paused: bool): Option<ToggleButton>
  {
    if toggle.Some? then Some(ToggleButton(AriaLabelFor(paused), paused)) else None
  }

  /** What `setManualFrame` writes on the frames. */
  function ShowOnly(frames: seq<Frame>, index: int): seq<Frame>
  {
    seq(|frames|, j requires 0 <= j < |frames| =>
      frames[j].(opacity := if j == index then "1" else "0"))
  }

  /** The inline opacities cleared on resume. */
  function ClearOpacity(frames: seq<Frame>): seq<Frame>
  {
    seq(|frames|, j requires 0 <= j < |frames| => frames[j].(opacity := ""))
  }

  /** One click with `action` on a registered rotator, as the document handler performs it. */
  function Act(v: View, total: int, action: Option<string>): (r: View)
    requires 0 <= v.index < total
    ensures 0 <= r.index < total
  {
    if action == Some("toggle") then
      var paused := !v.paused;
      var frames := if !paused then ClearOpacity(v.frames) else v.frames;
      var manual := if !paused then false else v.manual;
      View(v.index, paused, manual, PauseFrames(frames, paused), PauseToggle(v.toggle, paused))
    else
      var index :=
        if action == Some("prev") then Prev(v.index, total)
        else if action == Some("next") then Next(v.index, total)
        else v.index;
      View(index, true, true, ShowOnly(PauseFrames(v.frames, true), index), PauseToggle(v.toggle, true))
  }

  /**
   * Any action other than `toggle` pauses the rotator, moves the index only
   * for `prev` and `next`, puts the container in manual mode, pauses every
   * frame and leaves exactly one frame, the one at the index, with opacity "1".
   */
  lemma NonToggleShowsOneFrame(v: View, total: int, action: Option<string>)
    requires 0 <= v.index < total && |v.frames| == total
    requires action != Some("toggle")
    ensures var r := Act(v, total, action);
      && r.paused && r.manual
      && r.index == (if action == Some("prev") then Prev(v.index, total)
                     else if action == Some("next") then Next(v.index, total)
                     else v.index)
      && |r.frames| == total
      && (forall j :: 0 <= j < total ==>
            r.frames[j] == Frame(if j == r.index then "1" else "0", true, Paused))
      && (forall j :: 0 <= j < total ==> (r.frames[j].opacity == "1" <==> j == r.index))
      && r.toggle == (if v.toggle.Some? then Some(ToggleButton("Play", true)) else None)
  {
  }

  /**
   * `toggle` flips `paused` and keeps the index; resuming leaves manual mode
   * and clears every opacity, pausing leaves the opacities alone; frames and
   * the toggle button follow the new `paused`.
   */
  lemma ToggleFlipsPaused(v: View, total: int)
    requires 0 <= v.index < total
    ensures var r := Act(v, total, Some("toggle"));
      && r.index == v.index && r.paused == !v.paused
      && r.manual == (v.manual && r.paused)
      && |r.frames| == |v.frames|
      && (forall j :: 0 <= j < |v.frames| ==>
            r.frames[j] == Frame(if r.paused then v.frames[j].opacity else "",
                                 r.paused, if r.paused then Paused else Running))
      && r.toggle == PauseToggle(v.toggle, r.paused)
  {
  }

  /**
   * Two toggles from a running rotator: running again, at the same index, out
   * of manual mode, with no inline opacity left and every frame running.
   */
  lemma ToggleTwiceResumes(v: View, total: int)
    requires 0 <= v.index < total && !v.paused
    ensures var r := Act(Act(v, total, Some("toggle")), total, Some("toggle"));
      && r.index == v.index && !r.paused && !r.manual
      && |r.frames| == |v.frames|
      && (forall j :: 0 <= j < |r.frames| ==> r.frames[j] == Frame("", false, Running))
      && r.toggle == (if v.toggle.Some? then Some(ToggleButton("Pause", false)) else None)
  {
    ToggleFlipsPaused(v, total);
    ToggleFlipsPaused(Act(v, total, Some("toggle")), total);
  }

  /** The rotator a click addresses: its controls' `data-rotator`, when non-empty and registered. */
  function TargetKey(click: Click, registered: set<string>): (r: Option<string>)
    ensures r.Some? <==> click.ControlButton? && click.rotator.Some? && click.rotator.value != "" && click.rotator.value in registered
    ensures r.Some? ==> r.value == click.rotator.value
  {
    if click.OutsideControls? then None
    else if click.rotator.None? || click.rotator.value == "" then None
    else if click.rotator.value !in registered then None
    else click.rotator
  }

  /**
   * A click as the document handler sees it: outside any `.rotator-controls`
   * button, or on one, with its panel's `data-rotator` and its `data-action`.
   */
  datatype Click = OutsideControls | ControlButton(rotator: Option<string>, action: Option<string>)

  /** `setManualFrame`. */
  method SetManualFrame(container: Container, frames: array<Frame>, index: int)
    modifies container, frames
    ensures container.manual
    ensures frames[..] == ShowOnly(old(frames[..]), index)
  {
    container.manual := true;
    for i := 0 to frames.Length
      modifies frames
      invariant forall k :: 0 <= k < i ==> frames[k] == old(frames[k]).(opacity := if k == index then "1" else "0")
      invariant forall k :: i <= k < frames.Length ==> frames[k] == old(frames[k])
    {
      frames[i] := frames[i].(opacity := if i == index then "1" else "0");
    }
  }

  /** `setPaused`. */
  method SetPaused(frames: array<Frame>, controls: Controls, paused: bool)
    modifies frames, controls
    ensures frames[..] == PauseFrames(old(frames[..]), paused)
    ensures controls.toggle == PauseToggle(old(controls.toggle), paused)
  {
    for i := 0 to frames.Length
      modifies frames
      invariant forall k :: 0 <= k < i ==>
        frames[k] == old(frames[k]).(pausedClass := paused, playState := if paused then Paused else Running)
      invariant forall k :: i <= k < frames.Length ==> frames[k] == old(frames[k])
    {
      frames[i] := frames[i].(pausedClass := paused, playState := if paused then Paused else Running);
    }
    if controls.toggle.Some? {
      controls.toggle := Some(ToggleButton(AriaLabelFor(paused), paused));
    }
  }

  /** The resume branch of `toggle`: clear every inline opacity. */
  method ClearOpacities(frames: array<Frame>)
    modifies frames
    ensures frames[..] == ClearOpacity(old(frames[..]))
  {
    for i := 0 to frames.Length
      modifies frames
      invariant forall k :: 0 <= k < i ==> frames[k] == old(frames[k]).(opacity := "")
      invariant forall k :: i <= k < frames.Length ==> frames[k] == old(frames[k])
    {
      frames[i] := frames[i].(opacity := "");
    }
  }

  /** The `toggle` branch of the click handler on one rotator; returns its new state. */
  method Toggle(d: Descriptor, s: State) returns (next: State)
    requires 0 <= s.index < d.total
    modifies d.container, d.frames, d.controls
    ensures next == s.(paused := !s.paused)
    ensures Snapshot(d, next) == Act(old(Snapshot(d, s)), d.total, Some("toggle"))
  {
    next := s.(paused := !s.paused);
    if !next.paused {
      d.container.manual := false;
      ClearOpacities(d.frames);
    }
    SetPaused(d.frames, d.controls, next.paused);
  }

  /** The other branch: pause, move for `prev`/`next`, show the one frame at the index. */
  method Step(d: Descriptor, s: State, action: Option<string>) returns (next: State)
    requires 0 <= s.index < d.total && action != Some("toggle")
    modifies d.container, d.frames, d.controls
    ensures 0 <= next.index < d.total && next.paused
    ensures Snapshot(d, next) == Act(old(Snapshot(d, s)), d.total, action)
  {
    next := s.(paused := true);
    if action == Some("prev") {
      next := next.(index := Prev(next.index, d.total));
    } else if action == Some("next") {
      next := next.(index := Next(next.index, d.total));
    }
    SetPaused(d.frames, d.controls, true);
    SetManualFrame(d.container, d.frames, next.index);
  }

  /** What the page-load lookups found for one configured rotator. */
  datatype Found = Found(container: Option<Container>, frames: array<Frame>, controls: Option<Controls>)
  {
    /** The container, the controls and at least one frame exist. */
    predicate Complete()
    {
      container.Some? && controls.Some? && frames.Length > 0
    }
  }

  /** Lookups for different rotators never return the same element. */
  predicate FoundApart(found: seq<Found>)
  {
    forall i, j :: 0 <= i < j < |found| ==>
      && found[i].frames != found[j].frames
      && (found[i].container.Some? && found[j].container.Some? ==> found[i].container.value != found[j].container.value)
      && (found[i].controls.Some? && found[j].controls.Some? ==> found[i].controls.value != found[j].controls.value)
  }

  /** None of the elements `f` found belongs to a registered rotator. */
  ghost predicate Unowned(f: Found, owner: map<object, string>)
  {
    f.frames !in owner &&
    (f.container.Some? ==> f.container.value !in owner) &&
    (f.controls.Some? ==> f.controls.value !in owner)
  }

  /**
   * The maps after the first `i` steps of the page-load `forEach`: exactly
   * the rotators whose elements were all found are registered, each at
   * index 0, running, with `total` its number of frames; the rotators still
   * to come are neither registered nor own an element.
   */
  ghost predicate Loaded(configs: seq<Config>, found: seq<Found>, i: nat,
                         rotatorState: map<string, State>, rotatorMap: map<string, Descriptor>,
                         owner: map<object, string>)
  {
    && i <= |configs| == |found|
    && (forall j :: 0 <= j < i ==> (configs[j].key in rotatorMap <==> found[j].Complete()))
    && (forall j :: 0 <= j < i && found[j].Complete() ==>
          && configs[j].key in rotatorState && rotatorState[configs[j].key] == State(0, false)
          && configs[j].key in rotatorMap
          && rotatorMap[configs[j].key]
             == Descriptor(found[j].container.value, found[j].frames, found[j].controls.value, found[j].frames.Length))
    && (forall j :: i <= j < |configs| ==> configs[j].key !in rotatorMap && Unowned(found[j], owner))
    && (forall k :: k in rotatorMap ==> exists j :: 0 <= j < i && configs[j].key == k)
  }

  /** Registering the `i`-th rotator takes `Loaded` from `i` to `i + 1`. */
  lemma LoadedRegistered(configs: seq<Config>, found: seq<Found>, i: nat,
                         rotatorState: map<string, State>, rotatorMap: map<string, Descriptor>,
                         owner: map<object, string>)
    requires DistinctConfigKeys(configs) && FoundApart(found)
    requires Loaded(configs, found, i, rotatorState, rotatorMap, owner) && i < |configs| && found[i].Complete()
    ensures
      var f := found[i];
      Loaded(configs, found, i + 1,
             rotatorState[configs[i].key := State(0, false)],
             rotatorMap[configs[i].key := Descriptor(f.container.value, f.frames, f.controls.value, f.frames.Length)],
             owner[f.container.value := configs[i].key][f.frames := configs[i].key][f.controls.value := configs[i].key])
  {
    var f := found[i];
    var key := configs[i].key;
    var rs := rotatorState[key := State(0, false)];
    var rm := rotatorMap[key := Descriptor(f.container.value, f.frames, f.controls.value, f.frames.Length)];
    var owner' := owner[f.container.value := key][f.frames := key][f.controls.value := key];
    forall j | i + 1 <= j < |configs|
      ensures configs[j].key !in rm && Unowned(found[j], owner')
    {
      assert configs[i].key != configs[j].key;
      assert found[i].frames != found[j].frames;
    }
    forall j | 0 <= j < i
      ensures configs[j].key in rm <==> found[j].Complete()
    {
      assert configs[j].key != key;
    }
    forall k | k in rm
      ensures exists j :: 0 <= j < i + 1 && configs[j].key == k
    {
      if k != key {
        var j :| 0 <= j < i && configs[j].key == k;
      }
    }
  }

  /** Skipping the `i`-th rotator takes `Loaded` from `i` to `i + 1`. */
  lemma LoadedSkipped(configs: seq<Config>, found: seq<Found>, i: nat,
                      rotatorState: map<string, State>, rotatorMap: map<string, Descriptor>,
                      owner: map<object, string>)
    requires Loaded(configs, found, i, rotatorState, rotatorMap, owner) && i < |configs| && !found[i].Complete()
    ensures Loaded(configs, found, i + 1, rotatorState, rotatorMap, owner)
  {
    forall k | k in rotatorMap
      ensures exists j :: 0 <= j < i + 1 && configs[j].key == k
    {
      var j :| 0 <= j < i && configs[j].key == k;
    }
  }

  /** The shape invariant of the two maps: same keys, `total == |frames| >= 1`, `0 <= index < total`. */
  predicate Consistent(rotatorState: map<string, State>, rotatorMap: map<string, Descriptor>)
  {
    rotatorState.Keys == rotatorMap.Keys &&
    forall k :: k in rotatorMap ==>
      rotatorMap[k].total == rotatorMap[k].frames.Length >= 1 &&
      0 <= rotatorState[k].index < rotatorMap[k].total
  }

  /** Replacing one rotator's state by one whose index is a frame keeps the maps consistent. */
  lemma StateUpdate(rotatorState: map<string, State>, rotatorMap: map<string, Descriptor>, key: string, s: State)
    requires Consistent(rotatorState, rotatorMap) && key in rotatorMap
    requires 0 <= s.index < rotatorMap[key].total
    ensures Consistent(rotatorState[key := s], rotatorMap)
  {
  }

  /** `owner` maps every registered element to the key of the rotator it belongs to. */
  ghost predicate Separated(rotatorMap: map<string, Descriptor>, owner: map<object, string>)
  {
    forall k :: k in rotatorMap ==>
      && rotatorMap[k].container in owner && owner[rotatorMap[k].container] == k
      && rotatorMap[k].frames in owner && owner[rotatorMap[k].frames] == k
      && rotatorMap[k].controls in owner && owner[rotatorMap[k].controls] == k
  }

  /** So no two rotators share a container, a frame list or a controls panel. */
  lemma SeparatedApart(rotatorMap: map<string, Descriptor>, owner: map<object, string>, k1: string, k2: string)
    requires Separated(rotatorMap, owner) && k1 in rotatorMap && k2 in rotatorMap && k1 != k2
    ensures rotatorMap[k1].Apart(rotatorMap[k2])
  {
  }

  /** Registering a fresh key with at least one frame, at index 0, keeps the maps consistent. */
  lemma AddKeepsConsistent(rotatorState: map<string, State>, rotatorMap: map<string, Descriptor>, key: string, d: Descriptor)
    requires Consistent(rotatorState, rotatorMap) && key !in rotatorMap
    requires d.total == d.frames.Length >= 1
    ensures Consistent(rotatorState[key := State(0, false)], rotatorMap[key := d])
  {
  }

  /** Registering elements that belong to no rotator yet keeps the rotators apart. */
  lemma AddKeepsSeparated(rotatorMap: map<string, Descriptor>, owner: map<object, string>, key: string, d: Descriptor)
    requires Separated(rotatorMap, owner) && key !in rotatorMap
    requires d.container !in owner && d.frames !in owner && d.controls !in owner
    ensures Separated(rotatorMap[key := d], owner[d.container := key][d.frames := key][d.controls := key])
  {
    var owner' := owner[d.container := key][d.frames := key][d.controls := key];
    forall k | k in rotatorMap
      ensures owner'[rotatorMap[k].container] == k && owner'[rotatorMap[k].frames] == k
      ensures owner'[rotatorMap[k].controls] == k
    {
      assert rotatorMap[k].container != d.container;
      assert rotatorMap[k].frames != d.frames;
      assert rotatorMap[k].controls != d.controls;
    }
  }

  /** A rotator's state and the parts of its elements a click can change, as a value. */
  ghost function Snapshot(d: Descriptor, s: State): View
    reads d.container, d.frames, d.controls
  {
    View(s.index, s.paused, d.container.manual, d.frames[..], d.controls.toggle)
  }

  class RotatorManager {
    var rotatorState: map<string, State>
    var rotatorMap: map<string, Descriptor>
    /** The registered elements, each with the key of its rotator. */
    ghost var Owner: map<object, string>

    /** Both maps have the same keys, every index is a frame, and no two rotators share an element. */
    ghost predicate Valid()
      reads this
    {
      Consistent(rotatorState, rotatorMap) && Separated(rotatorMap, Owner) && this !in Owner
    }

    /** The registered rotator `key`, as a value. */
    ghost function ViewOf(key: string): View
      reads this
      reads if key in rotatorMap then {rotatorMap[key].container, rotatorMap[key].frames, rotatorMap[key].controls} else {}
      requires key in rotatorMap && key in rotatorState
    {
      Snapshot(rotatorMap[key], rotatorState[key])
    }

    constructor ()
      ensures Valid() && rotatorState == map[] && rotatorMap == map[] && Owner == map[]
    {
      rotatorState := map[];
      rotatorMap := map[];
      Owner := map[];
    }

    /**
     * The `rotators.forEach` at page load, on a fresh manager: `found[i]` is
     * what the lookups returned for `configs[i]` (`Rotators()` on the page).
     */
    method LoadAll(configs: seq<Config>, found: seq<Found>)
      requires Valid() && rotatorMap == map[] && Owner == map[]
      requires DistinctConfigKeys(configs) && |found| == |configs| && FoundApart(found)
      modifies this`rotatorState, this`rotatorMap, this`Owner
      ensures Valid() && Loaded(configs, found, |configs|, rotatorState, rotatorMap, Owner)
    {
      for i := 0 to |configs|
        invariant Valid() && Loaded(configs, found, i, rotatorState, rotatorMap, Owner)
      {
        ghost var rs, rm, owner := rotatorState, rotatorMap, Owner;
        var f := found[i];
        var registered := Register(configs[i].key, configs[i].count, f.container, f.frames, f.controls);
        if registered {
          LoadedRegistered(configs, found, i, rs, rm, owner);
        } else {
          LoadedSkipped(configs, found, i, rs, rm, owner);
        }
      }
    }

    /**
     * One step of the `rotators.forEach` at page load: register `key` only
     * when its container, its controls and at least one frame were found.
     */
    method Register(key: string, count: int, container: Option<Container>, frames: array<Frame>,
                    controls: Option<Controls>) returns (registered: bool)
      requires Valid() && key !in rotatorMap
      requires container.Some? ==> container.value !in Owner
      requires frames !in Owner
      requires controls.Some? ==> controls.value !in Owner
      modifies this`rotatorState, this`rotatorMap, this`Owner
      ensures Valid()
      ensures registered <==> container.Some? && controls.Some? && frames.Length > 0
      ensures registered ==>
        && rotatorState == old(rotatorState)[key := State(0, false)]
        && rotatorMap == old(rotatorMap)[key := Descriptor(container.value, frames, controls.value, frames.Length)]
        && Owner == old(Owner)[container.value := key][frames := key][controls.value := key]
      ensures !registered ==> rotatorState == old(rotatorState) && rotatorMap == old(rotatorMap) && Owner == old(Owner)
    {
      if container.None? {
        return false;
      }
      if controls.None? || frames.Length == 0 {
        return false;
      }
      var total := if frames.Length != 0 then frames.Length else count;
      var d := Descriptor(container.value, frames, controls.value, total);
      AddKeepsConsistent(rotatorState, rotatorMap, key, d);
      AddKeepsSeparated(rotatorMap, Owner, key, d);
      rotatorState := rotatorState[key := State(0, false)];
      rotatorMap := rotatorMap[key := d];
      Owner := Owner[d.container := key][d.frames := key][d.controls := key];
      registered := true;
    }

    /** The `toggle` branch of the click handler, on the registered rotator `key`. */
    method ToggleKey(key: string)
      requires Valid() && key in rotatorMap
      modifies this`rotatorState, rotatorMap[key].container, rotatorMap[key].frames, rotatorMap[key].controls
      ensures Valid() && rotatorState == old(rotatorState)[key := rotatorState[key]]
      ensures rotatorMap == old(rotatorMap) && Owner == old(Owner)
      ensures ViewOf(key) == Act(old(ViewOf(key)), rotatorMap[key].total, Some("toggle"))
      ensures forall o :: o in Owner && Owner[o] != key ==> unchanged(o)
    {
      var data := rotatorMap[key];
      var state := Toggle(data, rotatorState[key]);
      StateUpdate(rotatorState, rotatorMap, key, state);
      rotatorState := rotatorState[key := state];
    }

    /** The other branch of the click handler, on the registered rotator `key`. */
    method StepKey(key: string, action: Option<string>)
      requires Valid() && key in rotatorMap && action != Some("toggle")
      modifies this`rotatorState, rotatorMap[key].container, rotatorMap[key].frames, rotatorMap[key].controls
      ensures Valid() && rotatorState == old(rotatorState)[key := rotatorState[key]]
      ensures rotatorMap == old(rotatorMap) && Owner == old(Owner)
      ensures ViewOf(key) == Act(old(ViewOf(key)), rotatorMap[key].total, action)
      ensures forall o :: o in Owner && Owner[o] != key ==> unchanged(o)
    {
      var data := rotatorMap[key];
      var state := Step(data, rotatorState[key], action);
      StateUpdate(rotatorState, rotatorMap, key, state);
      rotatorState := rotatorState[key := state];
    }

    /**
     * The document-level click handler. It returns whether the default action
     * was prevented; a click that does not address a registered rotator
     * changes nothing.
     */
    method Clicked(click: Click) returns (prevented: bool)
      requires Valid()
      modifies this`rotatorState, Owner.Keys
      ensures Valid() && rotatorMap == old(rotatorMap) && Owner == old(Owner)
      ensures prevented <==> click.ControlButton?
      ensures forall k :: k in rotatorMap && TargetKey(click, rotatorMap.Keys) != Some(k) ==>
                ViewOf(k) == old(ViewOf(k))
      ensures TargetKey(click, rotatorMap.Keys).Some? ==>
                var k := TargetKey(click, rotatorMap.Keys).value;
                ViewOf(k) == Act(old(ViewOf(k)), rotatorMap[k].total, click.action)
    {
      if click.OutsideControls? {
        return false;
      }
      prevented := true;
      var key := click.rotator;
      if key.None? || key.value == "" {
        return;
      }
      if key.value !in rotatorMap {
        return;
      }
      if click.action == Some("toggle") {
        ToggleKey(key.value);
      } else {
        StepKey(key.value, click.action);
      }
      forall k | k in rotatorMap && k != key.value
        ensures ViewOf(k) == old(ViewOf(k))
      {
        assert unchanged(rotatorMap[k].container, rotatorMap[k].frames, rotatorMap[k].controls);
      }
    }
  }
}
