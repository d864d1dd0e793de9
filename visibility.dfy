/**
 * The bookkeeping of the intersection callback: `entriesRef`, a map from
 * element id to the latest visibility entry that keeps its keys in insertion
 * order, and the choice of the topmost intersecting entry.
 */
module Visibility {
  import opened Wrappers

  /** What the callback uses of an entry: the target's id, whether it intersects, and its top offset. */
  datatype Entry = Entry(id: string, isIntersecting: bool, top: int)

  /** The keys of an insertion-ordered map, in insertion order. */
  function Keys(es: seq<Entry>): seq<string>
  {
    seq(|es|, k requires 0 <= k < |es| => es[k].id)
  }

  predicate DistinctKeys(es: seq<Entry>)
  {
    forall p, q :: 0 <= p < q < |es| ==> es[p].id != es[q].id
  }

  /** The entry the map stores for `id`, if any: what `set` writes and `values()` later yields. */
  function Lookup(es: seq<Entry>, id: string): (r: Option<Entry>)
    ensures r.Some? ==> r.value in es && r.value.id == id
    ensures r.None? <==> id !in Keys(es)
  {
    if es == [] then None
    else
      assert Keys(es) == [es[0].id] + Keys(es[1..]);
      if es[0].id == id then Some(es[0]) else Lookup(es[1..], id)
  }

  /**
   * `map.set(e.id, e)`: an existing key keeps its place and gets the new
   * entry; a new key goes to the end.
   */
  function Put(es: seq<Entry>, e: Entry): (r: seq<Entry>)
    ensures Lookup(r, e.id) == Some(e)
    ensures forall id :: id != e.id ==> Lookup(r, id) == Lookup(es, id)
  {
    if es == [] then [e]
    else if es[0].id == e.id then [e] + es[1..]
    else [es[0]] + Put(es[1..], e)
  }

  lemma KeysCons(x: Entry, es: seq<Entry>)
    ensures Keys([x] + es) == [x.id] + Keys(es)
  {
  }

  /** `set` leaves the key order alone, or appends a new key. */
  lemma {:induction false} PutKeys(es: seq<Entry>, e: Entry)
    ensures Keys(Put(es, e)) == if e.id in Keys(es) then Keys(es) else Keys(es) + [e.id]
  {
    if es != [] {
      assert es == [es[0]] + es[1..];
      KeysCons(es[0], es[1..]);
      if es[0].id == e.id {
        KeysCons(e, es[1..]);
      } else {
        PutKeys(es[1..], e);
        KeysCons(es[0], Put(es[1..], e));
        assert e.id in Keys(es) <==> e.id in Keys(es[1..]);
        if e.id !in Keys(es[1..]) {
          assert [es[0].id] + (Keys(es[1..]) + [e.id]) == Keys(es) + [e.id];
        }
      }
    }
  }

  /** `set` never creates a second entry for a key. */
  lemma PutDistinct(es: seq<Entry>, e: Entry)
    requires DistinctKeys(es)
    ensures DistinctKeys(Put(es, e))
  {
    PutKeys(es, e);
    var r := Put(es, e);
    forall p, q | 0 <= p < q < |r| ensures r[p].id != r[q].id {
      assert r[p].id == Keys(r)[p] && r[q].id == Keys(r)[q];
      if q < |es| {
        assert Keys(es)[p] == es[p].id && Keys(es)[q] == es[q].id;
      } else {
        assert Keys(es)[p] == es[p].id;
      }
    }
  }

  /** The `forEach` over a batch: one `set` per entry, in batch order. */
  function PutAll(es: seq<Entry>, batch: seq<Entry>): (r: seq<Entry>)
    ensures forall k :: 0 <= k < |batch| ==> Lookup(r, batch[k].id).Some?
    ensures forall id :: Lookup(es, id).Some? ==> Lookup(r, id).Some?
  {
    if batch == [] then es else Put(PutAll(es, batch[..|batch| - 1]), batch[|batch| - 1])
  }

  /** The last entry of the batch for `id`, if any. */
  function LastFor(batch: seq<Entry>, id: string): (r: Option<Entry>)
    ensures r.Some? ==> r.value.id == id
  {
    if batch == [] then None
    else if batch[|batch| - 1].id == id then Some(batch[|batch| - 1])
    else LastFor(batch[..|batch| - 1], id)
  }

  /**
   * After a batch, the entry stored for an id is the batch's last entry for
   * it (last write wins), or the entry stored before when the batch has none;
   * keys already present keep their order and distinct keys stay distinct.
   */
  lemma {:induction false} BatchLastWriteWins(es: seq<Entry>, batch: seq<Entry>, id: string)
    ensures Lookup(PutAll(es, batch), id) == if LastFor(batch, id).Some? then LastFor(batch, id) else Lookup(es, id)
    ensures Keys(es) <= Keys(PutAll(es, batch))
    ensures DistinctKeys(es) ==> DistinctKeys(PutAll(es, batch))
  {
    if batch != [] {
      BatchLastWriteWins(es, batch[..|batch| - 1], id);
      var before := PutAll(es, batch[..|batch| - 1]);
      PutKeys(before, batch[|batch| - 1]);
      if DistinctKeys(es) {
        PutDistinct(before, batch[|batch| - 1]);
      }
    }
  }

  /**
   * The entry `visible[0]` names: among the intersecting entries, one with
   * the least top offset, and the earliest in insertion order among those
   * (the sort is stable, so ties keep map order).
   */
  function Topmost(es: seq<Entry>): (r: Option<nat>)
    ensures r.Some? <==> exists k :: 0 <= k < |es| && es[k].isIntersecting
    ensures r.Some? ==> r.value < |es| && es[r.value].isIntersecting
    ensures r.Some? ==> forall k :: 0 <= k < |es| && es[k].isIntersecting ==> es[r.value].top <= es[k].top
    ensures r.Some? ==> forall k :: 0 <= k < r.value && es[k].isIntersecting ==> es[r.value].top < es[k].top
  {
    if es == [] then None
    else
      var r := Topmost(es[..|es| - 1]);
      var last := es[|es| - 1];
      if last.isIntersecting && (r.None? || last.top < es[r.value].top) then Some(|es| - 1) else r
  }

  /** Two intersecting entries with tops 50 and 10: the one at 10 is chosen. */
  lemma TopmostExample()
    ensures Topmost([Entry("a", true, 50), Entry("b", true, 10)]) == Some(1)
    ensures Topmost([Entry("a", true, 50), Entry("b", false, 10)]) == Some(0)
    ensures Topmost([Entry("a", false, 50), Entry("b", false, 10)]) == None
  {
    var es := [Entry("a", true, 50), Entry("b", true, 10)];
    assert es[..1] == [Entry("a", true, 50)];
    var fs := [Entry("a", true, 50), Entry("b", false, 10)];
    assert fs[..1] == [Entry("a", true, 50)];
  }
}
