/**
 * The table-of-contents controller: the anchors carrying `data-toc-id`, the
 * optional select control, `setActive`, the two navigation handlers and the
 * intersection callback.
 */
module Toc {
  import opened Wrappers
  import opened Outline
  import opened Visibility

  /** An anchor element: its `data-toc-id`, its `is-active` class and its `aria-current` attribute. */
  datatype Anchor = Anchor(tocId: string, active: bool, ariaCurrent: bool)

  function TocIds(anchors: seq<Anchor>): seq<string>
  {
    seq(|anchors|, i requires 0 <= i < |anchors| => anchors[i].tocId)
  }

  /**
   * `anchorMap`, built with `new Map(...)` from the anchors in document order:
   * when two anchors share an id, the later one wins.
   */
  function AnchorMap(ids: seq<string>): (m: map<string, nat>)
    ensures forall id :: id in m <==> id in ids
    ensures forall id :: id in m ==> m[id] < |ids| && ids[m[id]] == id
    ensures forall id, k :: id in m && m[id] < k < |ids| ==> ids[k] != id
  {
    if ids == [] then map[]
    else AnchorMap(ids[..|ids| - 1])[ids[|ids| - 1] := |ids| - 1]
  }

  /**
   * The anchor `setActive(id)` additionally highlights: the anchor that
   * `anchorMap` holds for the section owning `id`, when that section is not
   * `id` itself.
   */
  function ParentAnchor(items: seq<Section>, ids: seq<string>, id: string): Option<nat>
  {
    match ParentIndex(items, id)
    case None => None
    case Some(p) =>
      if items[p].id != id && items[p].id in AnchorMap(ids) then Some(AnchorMap(ids)[items[p].id]) else None
  }

  /** Whether anchor `i` carries `is-active` and `aria-current` after `setActive(id)`. */
  predicate Marked(items: seq<Section>, ids: seq<string>, id: string, i: nat)
    requires i < |ids|
  {
    ids[i] == id || ParentAnchor(items, ids, id) == Some(i)
  }

  /** Activating a subsection marks its anchors and the anchor `anchorMap` holds for its section, and nothing else. */
  lemma SubsectionMarksParent(items: seq<Section>, ids: seq<string>, s: nat, j: nat)
    requires UniqueIds(items) && s < |items| && j < |items[s].sub|
    requires items[s].id in ids
    ensures AnchorMap(ids)[items[s].id] < |ids| && ids[AnchorMap(ids)[items[s].id]] == items[s].id
    ensures forall i :: 0 <= i < |ids| ==>
              (Marked(items, ids, items[s].sub[j].id, i) <==> ids[i] == items[s].sub[j].id || i == AnchorMap(ids)[items[s].id])
  {
    ParentOfSub(items, s, j);
  }

  /** Activating a subsection whose section has no anchor marks only the subsection's anchors. */
  lemma SubsectionWithoutParentAnchor(items: seq<Section>, ids: seq<string>, s: nat, j: nat)
    requires UniqueIds(items) && s < |items| && j < |items[s].sub|
    requires items[s].id !in ids
    ensures forall i :: 0 <= i < |ids| ==> (Marked(items, ids, items[s].sub[j].id, i) <==> ids[i] == items[s].sub[j].id)
  {
    ParentOfSub(items, s, j);
  }

  /** Activating a section marks only the anchors that carry its own id. */
  lemma SectionMarksOnlyItself(items: seq<Section>, ids: seq<string>, s: nat)
    requires UniqueIds(items) && s < |items|
    ensures forall i :: 0 <= i < |ids| ==> (Marked(items, ids, items[s].id, i) <==> ids[i] == items[s].id)
  {
    ParentOfSection(items, s);
  }

  /** Activating an id that is not in the outline marks only the anchors that carry it. */
  lemma UnknownMarksOnlyItself(items: seq<Section>, ids: seq<string>, id: string)
    requires id !in FlatIds(items)
    ensures forall i :: 0 <= i < |ids| ==> (Marked(items, ids, id, i) <==> ids[i] == id)
  {
    ParentOfUnknown(items, id);
  }

  /** `elements`: the outline ids, in `flatIds` order, whose element exists on the page. */
  function Observed(flat: seq<string>, onPage: set<string>): (r: seq<string>)
    ensures forall id :: id in r <==> id in flat && id in onPage
    ensures |r| <= |flat|
  {
    if flat == [] then []
    else (if flat[0] in onPage then [flat[0]] else []) + Observed(flat[1..], onPage)
  }

  class TocController {
    const items: seq<Section>
    const anchors: array<Anchor>
    /** The `data-toc-id` of each anchor; they never change. */
    const ids: seq<string>
    const anchorMap: map<string, nat>
    const hasSelect: bool
    /** Whether the page has an element for some outline id, so that an observer exists. */
    const observing: bool
    /** The select control's value, `None` when the page has no select control. */
    var select: Option<string>
    /** The options appended to the select control. */
    var options: seq<SelectOption>
    /** `entriesRef`: the latest entry per observed id, in insertion order. */
    var entriesRef: seq<Entry>

    ghost predicate Valid()
      reads this, anchors
    {
      anchors.Length == |ids| &&
      (forall i :: 0 <= i < |ids| ==> anchors[i].tocId == ids[i]) &&
      anchorMap == AnchorMap(ids) &&
      select.Some? == hasSelect &&
      DistinctKeys(entriesRef)
    }

    /** Page load: the outline, the anchors in document order, the select control (if any) and the ids present on the page. */
    constructor (items: seq<Section>, anchors: array<Anchor>, select: Option<string>, onPage: set<string>)
      ensures Valid()
      ensures this.items == items && this.anchors == anchors && ids == TocIds(anchors[..])
      ensures this.select == select && options == [] && entriesRef == []
      ensures observing <==> exists id :: id in FlatIds(items) && id in onPage
    {
      this.items := items;
      this.anchors := anchors;
      ids := TocIds(anchors[..]);
      anchorMap := AnchorMap(TocIds(anchors[..]));
      hasSelect := select.Some?;
      var observed := Observed(FlatIds(items), onPage);
      observing := |observed| > 0;
      this.select := select;
      options := [];
      entriesRef := [];
      if |observed| > 0 {
        assert observed[0] in observed;
      }
    }

    /** The anchors and the select control show `id` as the active entry. */
    ghost predicate Shows(id: string)
      reads this, anchors
      requires Valid()
    {
      (forall i :: 0 <= i < anchors.Length ==>
         anchors[i] == Anchor(ids[i], Marked(items, ids, id, i), Marked(items, ids, id, i))) &&
      (hasSelect ==> select == Some(id))
    }

    /** `buildSelect`: append one option per outline entry, or nothing without a select control. */
    method BuildSelect()
      requires Valid()
      modifies this`options
      ensures Valid()
      ensures options == if hasSelect then old(options) + SelectOptions(items) else old(options)
    {
      if select.Some? {
        options := options + SelectOptions(items);
      }
    }

    /** The `forEach` of `setActive(id)`: exactly the anchors carrying `id` are marked. */
    method MarkOnly(id: string)
      requires Valid()
      modifies anchors
      ensures Valid()
      ensures forall k :: 0 <= k < anchors.Length ==> anchors[k] == Anchor(ids[k], ids[k] == id, ids[k] == id)
    {
      var i := 0;
      while i < anchors.Length
        invariant 0 <= i <= anchors.Length
        invariant forall k :: 0 <= k < i ==> anchors[k] == Anchor(ids[k], ids[k] == id, ids[k] == id)
        invariant forall k :: i <= k < anchors.Length ==> anchors[k] == old(anchors[k])
      {
        var isActive := anchors[i].tocId == id;
        anchors[i] := anchors[i].(active := isActive, ariaCurrent := isActive);
        i := i + 1;
      }
    }

    /** `setActive(id)`. */
    method SetActive(id: string)
      requires Valid()
      modifies anchors, this`select
      ensures Valid() && Shows(id)
    {
      MarkOnly(id);

      if select.Some? {
        select := Some(id);
      }

      var parent := ParentIndex(items, id);
      if parent.Some? && items[parent.value].id != id && items[parent.value].id in anchorMap {
        var j := anchorMap[items[parent.value].id];
        assert ParentAnchor(items, ids, id) == Some(j);
        anchors[j] := anchors[j].(active := true, ariaCurrent := true);
        MarkedWithParent(id, j);
      } else {
        assert ParentAnchor(items, ids, id) == None;
        MarkedWithoutParent(id);
      }
    }

    /** After the `forEach`, marking the parent anchor `j` gives the marks of `Marked`. */
    lemma MarkedWithParent(id: string, j: nat)
      requires j < |ids| && ParentAnchor(items, ids, id) == Some(j)
      ensures forall i :: 0 <= i < |ids| ==>
                (Marked(items, ids, id, i) <==> ids[i] == id || i == j)
    {
    }

    /** Without a parent anchor to mark, the `forEach` alone gives the marks of `Marked`. */
    lemma MarkedWithoutParent(id: string)
      requires ParentAnchor(items, ids, id) == None
      ensures forall i :: 0 <= i < |ids| ==> (Marked(items, ids, id, i) <==> ids[i] == id)
    {
    }

    /** The select control's `change` listener (the smooth scroll is not modelled). */
    method SelectChanged(value: string)
      requires Valid()
      modifies anchors, this`select
      ensures Valid() && Shows(value)
    {
      SetActive(value);
    }

    /** The `click` listener of anchor `i`: an empty `data-toc-id` does nothing. */
    method AnchorClicked(i: nat)
      requires Valid() && i < anchors.Length
      modifies anchors, this`select
      ensures Valid()
      ensures ids[i] != "" ==> Shows(ids[i])
      ensures ids[i] == "" ==> anchors[..] == old(anchors[..]) && select == old(select)
    {
      var id := anchors[i].tocId;
      if id != "" {
        SetActive(id);
      }
    }

    /**
     * The intersection callback: record the batch, then activate the topmost
     * intersecting entry; with none intersecting, nothing else changes.
     */
    method Intersected(batch: seq<Entry>)
      requires Valid() && observing
      modifies this`entriesRef, anchors, this`select
      ensures Valid()
      ensures entriesRef == PutAll(old(entriesRef), batch)
      ensures Topmost(entriesRef).Some? ==> Shows(entriesRef[Topmost(entriesRef).value].id)
      ensures Topmost(entriesRef).None? ==> anchors[..] == old(anchors[..]) && select == old(select)
    {
      for j := 0 to |batch|
        modifies this`entriesRef
        invariant entriesRef == PutAll(old(entriesRef), batch[..j])
        invariant DistinctKeys(entriesRef)
      {
        assert batch[..j + 1][..j] == batch[..j];
        PutDistinct(entriesRef, batch[j]);
        entriesRef := Put(entriesRef, batch[j]);
      }
      assert batch[..|batch|] == batch;

      var top := Topmost(entriesRef);
      if top.Some? {
        SetActive(entriesRef[top.value].id);
      }
    }
  }
}
