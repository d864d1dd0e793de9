/**
 * The static two-level outline of the case study (`tocItems`), its flattening
 * into `flatIds`, the option list that `buildSelect` appends to the select
 * control, and the parent lookup `setActive` performs.
 */
module Outline {
  import opened Wrappers

  /** A subsection of the outline. */
  datatype Sub = Sub(id: string, title: string)

  /** A top-level section; a section written without `sub` has no subsections. */
  datatype Section = Section(id: string, title: string, sub: seq<Sub>)

  /** One `<option>` element: its value and its text. */
  datatype SelectOption = SelectOption(value: string, text: string)

  /** The outline the page ships with; every entry has a non-empty id and label. */
  function TocItems(): (r: seq<Section>)
    ensures |r| == 5
    ensures forall s :: 0 <= s < |r| ==> r[s].id != "" && r[s].title != ""
    ensures forall s, j :: 0 <= s < |r| && 0 <= j < |r[s].sub| ==> r[s].sub[j].id != "" && r[s].sub[j].title != ""
  {
    [ Section("context", "CONTEXT",
        [ Sub("nutanix", "Nutanix"), Sub("self-service", "Self Service"),
          Sub("the-gap", "The Gap"), Sub("business-problem", "Problems and Goals") ]),
      Section("the-solution", "THE SOLUTION",
        [ Sub("custom-provider", "Custom Provider"), Sub("my-role", "My Role"),
          Sub("impact", "Impact") ]),
      Section("design", "DESIGN",
        [ Sub("ux-problems", "UX Problems"), Sub("evolutions", "Evolutions") ]),
      Section("process", "PROCESS",
        [ Sub("stakeholders", "Stakeholders"), Sub("understanding", "Understanding"),
          Sub("maps-to-flows", "Maps to Flows"), Sub("iterations", "Iterations"),
          Sub("feedback", "Feedback"), Sub("snippets", "Snippets") ]),
      Section("glossary", "GLOSSARY", []) ]
  }

  function SubIds(subs: seq<Sub>): seq<string>
  {
    seq(|subs|, j requires 0 <= j < |subs| => subs[j].id)
  }

  /** `flatIds`: each section id followed by the ids of its subsections. */
  function FlatIds(items: seq<Section>): seq<string>
  {
    if items == [] then [] else [items[0].id] + SubIds(items[0].sub) + FlatIds(items[1..])
  }

  /** Position in `FlatIds(items)` at which section `s` starts. */
  function Offset(items: seq<Section>, s: nat): nat
    requires s <= |items|
  {
    if s == 0 then 0 else Offset(items, s - 1) + 1 + |items[s - 1].sub|
  }

  lemma {:induction false} FlatIdsAppend(a: seq<Section>, b: seq<Section>)
    ensures FlatIds(a + b) == FlatIds(a) + FlatIds(b)
  {
    if a == [] {
      assert a + b == b;
    } else {
      assert (a + b)[1..] == a[1..] + b;
      FlatIdsAppend(a[1..], b);
    }
  }

  lemma {:induction false} FlatIdsPrefixLength(items: seq<Section>, s: nat)
    requires s <= |items|
    ensures |FlatIds(items[..s])| == Offset(items, s)
  {
    if s > 0 {
      FlatIdsPrefixLength(items, s - 1);
      assert items[..s] == items[..s - 1] + [items[s - 1]];
      FlatIdsAppend(items[..s - 1], [items[s - 1]]);
    }
  }

  /**
   * Outline order: section `s` occupies the positions `Offset(items, s)` to
   * `Offset(items, s + 1) - 1` of `flatIds`, its own id first, then its
   * subsection ids in order; the sections together fill the whole list.
   */
  lemma FlatIdsLayout(items: seq<Section>, s: nat)
    requires s < |items|
    ensures |FlatIds(items)| == Offset(items, |items|)
    ensures Offset(items, s + 1) == Offset(items, s) + 1 + |items[s].sub| <= |FlatIds(items)|
    ensures FlatIds(items)[Offset(items, s)] == items[s].id
    ensures forall j :: 0 <= j < |items[s].sub| ==>
              FlatIds(items)[Offset(items, s) + 1 + j] == items[s].sub[j].id
  {
    assert items == items[..s] + items[s..];
    FlatIdsAppend(items[..s], items[s..]);
    FlatIdsPrefixLength(items, s);
    FlatIdsPrefixLength(items, |items|);
    assert items[..|items|] == items;
    assert items[s..][1..] == items[s + 1..];
    OffsetMonotone(items, s + 1, |items|);
  }

  lemma {:induction false} OffsetMonotone(items: seq<Section>, s: nat, t: nat)
    requires s <= t <= |items|
    ensures Offset(items, s) <= Offset(items, t)
  {
    if s < t {
      OffsetMonotone(items, s, t - 1);
    }
  }

  function SubOptions(parentTitle: string, subs: seq<Sub>): seq<SelectOption>
  {
    seq(|subs|, j requires 0 <= j < |subs| =>
      SelectOption(subs[j].id, parentTitle + ": " + subs[j].title))
  }

  /** The options `buildSelect` appends, in the order it appends them. */
  function SelectOptions(items: seq<Section>): seq<SelectOption>
  {
    if items == [] then []
    else [SelectOption(items[0].id, items[0].title)]
         + SubOptions(items[0].title, items[0].sub)
         + SelectOptions(items[1..])
  }

  /** The option values are exactly `flatIds`, in the same order. */
  lemma {:induction false} SelectValuesAreFlatIds(items: seq<Section>)
    ensures |SelectOptions(items)| == |FlatIds(items)|
    ensures forall k :: 0 <= k < |FlatIds(items)| ==> SelectOptions(items)[k].value == FlatIds(items)[k]
  {
    if items != [] {
      SelectValuesAreFlatIds(items[1..]);
      var head := [SelectOption(items[0].id, items[0].title)] + SubOptions(items[0].title, items[0].sub);
      var headIds := [items[0].id] + SubIds(items[0].sub);
      forall k | 0 <= k < |FlatIds(items)|
        ensures SelectOptions(items)[k].value == FlatIds(items)[k]
      {
        if k >= |head| {
          assert SelectOptions(items)[k] == SelectOptions(items[1..])[k - |head|];
          assert FlatIds(items)[k] == FlatIds(items[1..])[k - |headIds|];
        }
      }
    }
  }

  /**
   * The text of a section's option is its label; the text of a
   * subsection's option is "<section label>: <subsection label>".
   */
  lemma {:induction false} SelectTexts(items: seq<Section>, s: nat)
    requires s < |items|
    ensures |SelectOptions(items)| == |FlatIds(items)|
    ensures Offset(items, s) + 1 + |items[s].sub| <= |SelectOptions(items)|
    ensures SelectOptions(items)[Offset(items, s)] == SelectOption(items[s].id, items[s].title)
    ensures forall j :: 0 <= j < |items[s].sub| ==>
              SelectOptions(items)[Offset(items, s) + 1 + j]
              == SelectOption(items[s].sub[j].id, items[s].title + ": " + items[s].sub[j].title)
  {
    SelectValuesAreFlatIds(items);
    FlatIdsLayout(items, s);
    SelectOptionsSplit(items, s);
    forall j | 0 <= j < |items[s].sub|
      ensures SelectOptions(items)[Offset(items, s) + 1 + j]
              == SelectOption(items[s].sub[j].id, items[s].title + ": " + items[s].sub[j].title)
    {
      SelectSubText(items, s, j);
    }
  }

  lemma SelectSubText(items: seq<Section>, s: nat, j: nat)
    requires s < |items| && j < |items[s].sub|
    ensures Offset(items, s) + 1 + j < |SelectOptions(items)|
    ensures SelectOptions(items)[Offset(items, s) + 1 + j]
            == SelectOption(items[s].sub[j].id, items[s].title + ": " + items[s].sub[j].title)
  {
    SelectOptionsSplit(items, s);
    var rest := SelectOptions(items[s..]);
    assert rest[1 + j] == SubOptions(items[s].title, items[s].sub)[j];
  }

  /** The options of the sections before `s` fill the first `Offset(items, s)` places. */
  lemma SelectOptionsSplit(items: seq<Section>, s: nat)
    requires s <= |items|
    ensures SelectOptions(items) == SelectOptions(items[..s]) + SelectOptions(items[s..])
    ensures |SelectOptions(items[..s])| == Offset(items, s)
  {
    assert items == items[..s] + items[s..];
    SelectOptionsAppend(items[..s], items[s..]);
    SelectValuesAreFlatIds(items[..s]);
    FlatIdsPrefixLength(items, s);
  }

  lemma {:induction false} SelectOptionsAppend(a: seq<Section>, b: seq<Section>)
    ensures SelectOptions(a + b) == SelectOptions(a) + SelectOptions(b)
  {
    if a == [] {
      assert a + b == b;
    } else {
      assert (a + b)[1..] == a[1..] + b;
      SelectOptionsAppend(a[1..], b);
    }
  }

  /** The lookup `tocItems.find(...)` matches: the section itself or one of its subsections. */
  predicate Owns(item: Section, id: string)
  {
    item.id == id || exists j :: 0 <= j < |item.sub| && item.sub[j].id == id
  }

  /** The index of the first section that owns `id` (the parent `setActive` highlights). */
  function ParentIndex(items: seq<Section>, id: string): (r: Option<nat>)
    ensures r.Some? ==> r.value < |items| && Owns(items[r.value], id)
    ensures r.Some? ==> forall k :: 0 <= k < r.value ==> !Owns(items[k], id)
    ensures r.None? ==> forall k :: 0 <= k < |items| ==> !Owns(items[k], id)
  {
    if items == [] then None
    else if Owns(items[0], id) then Some(0)
    else match ParentIndex(items[1..], id)
      case None => None
      case Some(k) => Some(k + 1)
  }

  /** No id appears twice in `flatIds`. */
  predicate UniqueIds(items: seq<Section>)
  {
    var f := FlatIds(items);
    forall p, q :: 0 <= p < q < |f| ==> f[p] != f[q]
  }

  /** An id owned by section `k` sits inside section `k`'s block of `flatIds`. */
  lemma OwnedPosition(items: seq<Section>, k: nat, id: string) returns (p: nat)
    requires k < |items| && Owns(items[k], id)
    ensures Offset(items, k) <= p < Offset(items, k + 1) <= |FlatIds(items)|
    ensures FlatIds(items)[p] == id
    ensures p == Offset(items, k) <==> items[k].id == id
  {
    FlatIdsLayout(items, k);
    if items[k].id == id {
      p := Offset(items, k);
    } else {
      var j :| 0 <= j < |items[k].sub| && items[k].sub[j].id == id;
      p := Offset(items, k) + 1 + j;
    }
  }

  /** With unique ids, at most one section owns a given id. */
  lemma OwnerUnique(items: seq<Section>, k: nat, s: nat, id: string)
    requires UniqueIds(items) && k < |items| && s < |items|
    requires Owns(items[k], id) && Owns(items[s], id)
    ensures k == s
  {
    var pk := OwnedPosition(items, k, id);
    var ps := OwnedPosition(items, s, id);
    if k < s {
      OffsetMonotone(items, k + 1, s);
    } else if s < k {
      OffsetMonotone(items, s + 1, k);
    }
  }

  /** With unique ids, a section is its own parent. */
  lemma ParentOfSection(items: seq<Section>, s: nat)
    requires UniqueIds(items) && s < |items|
    ensures ParentIndex(items, items[s].id) == Some(s)
  {
    var id := items[s].id;
    assert Owns(items[s], id);
    var r := ParentIndex(items, id);
    OwnerUnique(items, r.value, s, id);
  }

  /** With unique ids, the parent of a subsection is the section that lists it, and differs from it. */
  lemma ParentOfSub(items: seq<Section>, s: nat, j: nat)
    requires UniqueIds(items) && s < |items| && j < |items[s].sub|
    ensures ParentIndex(items, items[s].sub[j].id) == Some(s)
    ensures items[s].id != items[s].sub[j].id
  {
    var id := items[s].sub[j].id;
    assert Owns(items[s], id);
    var r := ParentIndex(items, id);
    OwnerUnique(items, r.value, s, id);
    FlatIdsLayout(items, s);
    assert FlatIds(items)[Offset(items, s)] == items[s].id;
    assert FlatIds(items)[Offset(items, s) + 1 + j] == id;
  }

  /** An id that is not in `flatIds` has no parent. */
  lemma ParentOfUnknown(items: seq<Section>, id: string)
    requires id !in FlatIds(items)
    ensures ParentIndex(items, id) == None
  {
    var r := ParentIndex(items, id);
    if r.Some? {
      var p := OwnedPosition(items, r.value, id);
      assert false;
    }
  }

  /** The ids of the shipped outline, in `flatIds` order, section by section. */
  function ShippedIds(): seq<string>
  {
    ["context", "nutanix", "self-service", "the-gap", "business-problem"]
    + (["the-solution", "custom-provider", "my-role", "impact"]
    + (["design", "ux-problems", "evolutions"]
    + (["process", "stakeholders", "understanding", "maps-to-flows", "iterations", "feedback", "snippets"]
    + ["glossary"])))
  }

  /** `flatIds` of the shipped outline lists its twenty ids in page order. */
  lemma TocItemsFlatIds()
    ensures FlatIds(TocItems()) == ShippedIds()
  {
    FlatIdsOfFive(TocItems());
  }

  /** `flatIds` of a five-section outline, one block per section. */
  lemma FlatIdsOfFive(items: seq<Section>)
    requires |items| == 5
    ensures FlatIds(items) ==
      ([items[0].id] + SubIds(items[0].sub))
      + (([items[1].id] + SubIds(items[1].sub))
      + (([items[2].id] + SubIds(items[2].sub))
      + (([items[3].id] + SubIds(items[3].sub))
      + ([items[4].id] + SubIds(items[4].sub)))))
  {
    FlatIdsFrom(items, 0);
    FlatIdsFrom(items, 1);
    FlatIdsFrom(items, 2);
    FlatIdsFrom(items, 3);
    FlatIdsFrom(items, 4);
    assert items[0..] == items && items[5..] == [];
  }

  lemma FlatIdsFrom(items: seq<Section>, k: nat)
    requires k < |items|
    ensures FlatIds(items[k..]) == [items[k].id] + SubIds(items[k].sub) + FlatIds(items[k + 1..])
  {
    assert items[k..][1..] == items[k + 1..];
  }

  lemma ShippedPositionAt(i: nat)
    requires i < |ShippedIds()|
    ensures ShippedPosition(ShippedIds()[i]) == i
  {
  }

  /** The shipped outline repeats no id. */
  lemma TocItemsUnique()
    ensures UniqueIds(TocItems())
  {
    TocItemsFlatIds();
    var f := ShippedIds();
    forall i | 0 <= i < |f|
      ensures ShippedPosition(f[i]) == i
    {
      ShippedPositionAt(i);
    }
  }

  /** Length and first two characters: enough to tell the shipped ids apart. */
  function Fingerprint(s: string): int
  {
    if |s| < 2 then 0 else |s| * 65536 + s[0] as int * 256 + s[1] as int
  }

  /**
   * The position of a shipped id in `flatIds`, recovered from its fingerprint.
   * The keys below are the fingerprints of `ShippedIds()` in order, so key
   * `k` belongs to the id at position `k`. For instance "context" has length 7
   * and starts with 'c' (99) and 'o' (111): 7 * 65536 + 99 * 256 + 111 = 484207;
   * "nutanix" gives 7 * 65536 + 110 * 256 + 117 = 487029.
   */
  function ShippedPosition(s: string): int
  {
    var positions := map[484207 := 0, 487029 := 1, 815973 := 2, 488552 := 3, 1073781 := 4, 816232 := 5, 1008501 := 6, 486777 := 7, 420205 := 8, 418917 := 9, 750968 := 10, 681334 := 11, 487538 := 12, 815988 := 13, 882030 := 14, 879969 := 15, 682356 := 16, 550501 := 17, 553838 := 18, 550764 := 19];
    if Fingerprint(s) in positions then positions[Fingerprint(s)] else -1
  }
}
