/** The dictionary shared under a lock, and the builder that collects the objects of one batch:
    dedup_state and action_dict_builder. */
module DedupState {
  import opened Common
  import opened DedupDict

  /** How often a batch uses each object. */
  type Used = map<ObjectId, nat>

  /** What a builder knows: its uses and the estimated size of its dictionary event. */
  datatype Tally = Tally(used: Used, size: nat)

  const EmptyTally := Tally(map[], 0)

  const SIZE_OF_SIZE_T := 8

  /** One more use of an object; nothing when the dictionary has no content for a new one. */
  function Take(d: Dict, t: Tally, id: ObjectId): Option<Tally> {
    if id in t.used then Some(t.(used := t.used[id := t.used[id] + 1]))
    else if Get(d, id) == "" then None
    else Some(Tally(t.used[id := 1], t.size + SIZE_OF_SIZE_T + |Get(d, id)|))
  }

  /** All ids are available, so that taking them one after the other succeeds. */
  predicate Available(d: Dict, t: Tally, ids: seq<ObjectId>) {
    forall id :: id in ids ==> id in t.used || Get(d, id) != ""
  }

  function TakeAll(d: Dict, t: Tally, ids: seq<ObjectId>): (r: Tally)
    requires Available(d, t, ids)
    ensures forall id :: id in t.used ==> id in r.used
    ensures forall id :: id in ids ==> id in r.used
  {
    if ids == [] then t
    else
      var r := TakeAll(d, t, ids[..|ids| - 1]);
      Take(d, r, ids[|ids| - 1]).value
  }

  /** The references of a finished batch, given back. */
  function RemoveAll(d: Dict, used: Used): Dict {
    map id | id in d && (id in used && used[id] >= 1 ==> used[id] < d[id].count) ::
      if id in used then d[id].(count := d[id].count - used[id]) else d[id]
  }

  function Restricted(used: Used, ids: set<ObjectId>): Used { map id | id in used && id in ids :: used[id] }

  lemma RemoveAllStep(d: Dict, used: Used, done: set<ObjectId>, id: ObjectId)
    requires id in used && id !in done && forall i :: i in d ==> d[i].count > 0
    ensures Remove(RemoveAll(d, Restricted(used, done)), id, used[id]) == RemoveAll(d, Restricted(used, done + {id}))
  {}

  lemma RestrictedEnds(d: Dict, used: Used)
    requires forall i :: i in d ==> d[i].count > 0
    ensures RemoveAll(d, Restricted(used, {})) == d && Restricted(used, used.Keys) == used
  {}

  lemma RemoveAllKeeps(d: Dict, used: Used, done: set<ObjectId>, id: ObjectId)
    requires id !in done
    ensures id in RemoveAll(d, Restricted(used, done)) <==> id in d
  {}

  lemma RemoveMissing(d: Dict, id: ObjectId, n: nat)
    ensures n < 1 || id !in d ==> Remove(d, id, n) == d
  {}

  // ---- The size of a set of objects ---------------------------------------------------------------

  ghost function SizeSum(d: Dict, ids: set<ObjectId>): nat {
    if ids == {} then 0
    else
      var id :| id in ids;
      SIZE_OF_SIZE_T + |Get(d, id)| + SizeSum(d, ids - {id})
  }

  lemma {:induction false} SizeSumTake(d: Dict, ids: set<ObjectId>, id: ObjectId)
    requires id in ids
    ensures SizeSum(d, ids) == SIZE_OF_SIZE_T + |Get(d, id)| + SizeSum(d, ids - {id})
  {
    var x :| x in ids && SizeSum(d, ids) == SIZE_OF_SIZE_T + |Get(d, x)| + SizeSum(d, ids - {x});
    if x != id {
      SizeSumTake(d, ids - {x}, id);
      SizeSumTake(d, ids - {id}, x);
      assert ids - {x} - {id} == ids - {id} - {x};
    }
  }

  lemma {:induction false} SizeSumSame(d: Dict, d': Dict, ids: set<ObjectId>)
    requires forall id :: id in ids ==> Get(d, id) == Get(d', id)
    ensures SizeSum(d, ids) == SizeSum(d', ids)
  {
    if ids != {} {
      var id :| id in ids;
      SizeSumTake(d, ids, id);
      SizeSumTake(d', ids, id);
      SizeSumSame(d, d', ids - {id});
    }
  }

  /** The estimate counts every distinct object once, whatever the number of its uses. */
  lemma TakeKeepsSize(d: Dict, t: Tally, id: ObjectId)
    requires t.size == SizeSum(d, t.used.Keys) && Take(d, t, id).Some?
    ensures var t' := Take(d, t, id).value; t'.size == SizeSum(d, t'.used.Keys)
  {
    var t' := Take(d, t, id).value;
    if id in t.used {
      assert t'.used.Keys == t.used.Keys;
    } else {
      SizeSumTake(d, t'.used.Keys, id);
      assert t'.used.Keys - {id} == t.used.Keys;
    }
  }

  /** An object of three characters counts for 8 + 3, once. */
  lemma SizeExample(count: nat, id: ObjectId)
    ensures var d: Dict := map[id := Entry(count, "abc")];
            var once := Take(d, EmptyTally, id);
            && once == Some(Tally(map[id := 1], 11))
            && Take(d, once.value, id) == Some(Tally(map[id := 2], 11))
  {
    var d: Dict := map[id := Entry(count, "abc")];
    assert Get(d, id) == "abc" && |Get(d, id)| == 3;
    var used: Used := map[id := 1];
    assert EmptyTally.used[id := 1] == used && used[id := 2] == map[id := 2];
  }

  // ---- The objects themselves ---------------------------------------------------------------------

  class DedupState {
    const dict: DedupDict
    const useDedup: bool

    constructor (hash: Hash, useDedup: bool)
      ensures fresh(dict) && dict.hash == hash && dict.entries == map[] && this.useDedup == useDedup
    {
      dict := new DedupDict(hash);
      this.useDedup := useDedup;
    }

    method GetObject(aid: ObjectId) returns (content: string)
      ensures content == Get(dict.entries, aid)
    {
      content := if aid in dict.entries then dict.entries[aid].content else "";
    }

    /** The contents of all used objects, in whatever order the map yields them. */
    method GetAllValues(used: Used) returns (ok: bool, ids: seq<ObjectId>, values: seq<string>)
      ensures ok <==> forall id :: id in used ==> Get(dict.entries, id) != ""
      ensures ok ==> Listing(ids, used.Keys) && |values| == |ids|
      ensures ok ==> forall i :: 0 <= i < |ids| ==> values[i] == Get(dict.entries, ids[i])
    {
      hide *;
      ghost var d := dict.entries;
      ids, values := [], [];
      var left := used.Keys;
      GatherStart(d, used);
      while left != {}
        invariant left <= used.Keys && dict.entries == d
        invariant Gathered(d, used.Keys - left, ids, values)
        decreases |left|
      {
        var id :| id in left;
        var content := if id in dict.entries then dict.entries[id].content else "";
        GetIs(d, id);
        if |content| == 0 { return false, ids, values; }
        GatherOne(d, used.Keys - left, ids, values, id);
        assert used.Keys - (left - {id}) == used.Keys - left + {id};
        left := left - {id};
        ids, values := ids + [id], values + [content];
      }
      assert used.Keys - left == used.Keys;
      GatherEnd(d, used, ids, values);
      ok := true;
    }

    /** Stops at the first object that is not there, with the ones before it already given back. */
    method RemoveAllValues(used: Used) returns (ok: bool)
      requires forall id :: id in dict.entries ==> dict.entries[id].count > 0
      modifies dict
      ensures ok <==> forall id :: id in used && used[id] >= 1 ==> id in old(dict.entries)
      ensures ok ==> dict.entries == RemoveAll(old(dict.entries), used)
      ensures exists done :: done <= used.Keys && dict.entries == RemoveAll(old(dict.entries), Restricted(used, done))
    {
      hide RemoveAll, Restricted, Remove;
      ghost var d := dict.entries;
      RestrictedEnds(d, used);
      var left := used.Keys;
      assert used.Keys - left == {};
      while left != {}
        invariant left <= used.Keys
        invariant dict.entries == RemoveAll(d, Restricted(used, used.Keys - left))
        invariant forall id :: id in used && id !in left && used[id] >= 1 ==> id in d
        decreases |left|
      {
        var id :| id in left;
        RemoveAllStep(d, used, used.Keys - left, id);
        assert used.Keys - (left - {id}) == used.Keys - left + {id};
        RemoveAllKeeps(d, used, used.Keys - left, id);
        var found := dict.RemoveObject(id, used[id]);
        RemoveMissing(RemoveAll(d, Restricted(used, used.Keys - left)), id, used[id]);
        if !found { return false; }
        left := left - {id};
      }
      assert used.Keys - left == used.Keys;
      ok := true;
    }

    /** Without deduplication the payload passes unchanged. */
    method TransformPayloadAndAddObjects(payload: string, info: Option<seq<Span>>)
      returns (ok: bool, edited: string, ids: seq<ObjectId>)
      requires info.Some? ==> ValidSpans(info.value, |payload|)
      requires info.Some? ==> Fits64(|payload|) && Fits64(|EditedText(dict.hash, payload, info.value)|)
      modifies dict
      ensures ok <==> !useDedup || info.Some?
      ensures !(useDedup && ok) ==> dict.entries == old(dict.entries) && ids == []
      ensures !useDedup ==> edited == payload
      ensures useDedup && ok ==> var objects := Objects(payload, info.value);
                     && ids == Ids(dict.hash, objects)
                     && edited == EditedText(dict.hash, payload, info.value)
                     && dict.entries == AddAll(dict.hash, old(dict.entries), objects)
    {
      if !useDedup { return true, payload, []; }
      ok, edited, ids := dict.TransformPayloadAndAddObjects(payload, info);
    }
  }

  lemma GetIs(d: Dict, id: ObjectId)
    ensures Get(d, id) == if id in d then d[id].content else ""
  {}

  /** The contents of some of the objects, listed so far. */
  ghost predicate Gathered(d: Dict, done: set<ObjectId>, ids: seq<ObjectId>, values: seq<string>) {
    && Listing(ids, done) && |values| == |ids|
    && (forall i :: 0 <= i < |ids| ==> values[i] == Get(d, ids[i]))
    && forall id :: id in done ==> Get(d, id) != ""
  }

  lemma GatherStart(d: Dict, used: Used)
    ensures Gathered(d, used.Keys - used.Keys, [], [])
  {}

  lemma GatherOne(d: Dict, done: set<ObjectId>, ids: seq<ObjectId>, values: seq<string>, id: ObjectId)
    requires Gathered(d, done, ids, values) && id !in done && Get(d, id) != ""
    ensures Gathered(d, done + {id}, ids + [id], values + [Get(d, id)])
  {
    hide Get;
    ListingAppend(ids, done, id);
    hide Listing;
  }

  lemma GatherEnd(d: Dict, used: Used, ids: seq<ObjectId>, values: seq<string>)
    requires Gathered(d, used.Keys, ids, values)
    ensures Listing(ids, used.Keys) && |values| == |ids| && forall i :: 0 <= i < |ids| ==> values[i] == Get(d, ids[i])
    ensures forall id :: id in used ==> Get(d, id) != ""
  {}

  /** ids lists the set, each member once. */
  ghost predicate Listing(ids: seq<ObjectId>, all: set<ObjectId>) {
    (forall id :: id in ids <==> id in all) && forall i, j :: 0 <= i < j < |ids| ==> ids[i] != ids[j]
  }

  lemma ListingAppend(ids: seq<ObjectId>, all: set<ObjectId>, id: ObjectId)
    requires Listing(ids, all) && id !in all
    ensures Listing(ids + [id], all + {id})
  {}

  class ActionDictBuilder {
    const state: DedupState
    var usedObjects: Used
    var sizeEstimate: nat

    ghost function View(): Tally reads this { Tally(usedObjects, sizeEstimate) }

    constructor (state: DedupState)
      ensures this.state == state && View() == EmptyTally
    {
      this.state, usedObjects, sizeEstimate := state, map[], 0;
    }

    /** One id; false when the dictionary has no content for it. */
    method AddOne(aid: ObjectId) returns (ok: bool)
      modifies this
      ensures ok <==> Take(state.dict.entries, old(View()), aid).Some?
      ensures View() == if ok then Take(state.dict.entries, old(View()), aid).value else old(View())
    {
      if aid !in usedObjects {
        var content := state.GetObject(aid);
        if |content| == 0 { return false; }
        usedObjects := usedObjects[aid := 1];
        sizeEstimate := sizeEstimate + SIZE_OF_SIZE_T + |content|;
      } else {
        usedObjects := usedObjects[aid := usedObjects[aid] + 1];
      }
      ok := true;
    }

    /** Takes ids until one is missing, and reports whether none was. */
    method Add(ids: seq<ObjectId>) returns (ok: bool)
      modifies this
      ensures ok <==> Available(state.dict.entries, old(View()), ids)
      ensures ok ==> View() == TakeAll(state.dict.entries, old(View()), ids)
      ensures !ok ==> exists n | 0 <= n < |ids| ::
                && Available(state.dict.entries, old(View()), ids[..n])
                && View() == TakeAll(state.dict.entries, old(View()), ids[..n])
                && Take(state.dict.entries, View(), ids[n]) == None
    {
      hide TakeAll, Available, Take;
      ghost var d, t := state.dict.entries, View();
      TakeNone(d, t, ids);
      for n := 0 to |ids|
        invariant Available(d, t, ids[..n]) && View() == TakeAll(d, t, ids[..n])
      {
        AvailableStep(d, t, ids, n);
        ok := AddOne(ids[n]);
        if !ok { return; }
      }
      assert ids[..|ids|] == ids;
      ok := true;
    }

    /** The batch's dictionary event, after which its references are given back, even when compressing the event
        then fails.  The lock is taken twice; others is what the other threads do to the dictionary between. */
    method Finalize(others: Dict -> Dict, compresses: bool) returns (ok: bool, ids: seq<ObjectId>, values: seq<string>)
      requires forall id :: id in others(state.dict.entries) ==> others(state.dict.entries)[id].count > 0
      modifies state.dict
      ensures var found := forall id :: id in usedObjects ==> Get(old(state.dict.entries), id) != "";
              var between := others(old(state.dict.entries));
              && (ok <==> found && (forall id :: id in usedObjects && usedObjects[id] >= 1 ==> id in between) && compresses)
              && (!found ==> state.dict.entries == old(state.dict.entries))
              && (ok ==> state.dict.entries == RemoveAll(between, usedObjects))
              && (found ==> exists done :: done <= usedObjects.Keys && state.dict.entries == RemoveAll(between, Restricted(usedObjects, done)))
      ensures ok ==> Listing(ids, usedObjects.Keys) && |values| == |ids|
      ensures ok ==> forall i :: 0 <= i < |ids| ==> values[i] == Get(old(state.dict.entries), ids[i])
    {
      hide RemoveAll, Restricted;
      ok, ids, values := state.GetAllValues(usedObjects);
      if ok {
        state.dict.entries := others(state.dict.entries);
        ok := state.RemoveAllValues(usedObjects);
        ok := ok && compresses;
      }
    }
  }

  lemma TakeNone(d: Dict, t: Tally, ids: seq<ObjectId>)
    ensures Available(d, t, ids[..0]) && TakeAll(d, t, ids[..0]) == t
  {}

  lemma AvailableStep(d: Dict, t: Tally, ids: seq<ObjectId>, n: nat)
    requires n < |ids| && Available(d, t, ids[..n])
    ensures var r, next := TakeAll(d, t, ids[..n]), Take(d, TakeAll(d, t, ids[..n]), ids[n]);
            && (next.Some? <==> Available(d, t, ids[..n + 1]))
            && (next.Some? ==> TakeAll(d, t, ids[..n + 1]) == next.value)
            && (next.None? ==> !Available(d, t, ids))
  {
    assert ids[..n + 1][..n] == ids[..n] && ids[..n + 1] == ids[..n] + [ids[n]];
    TakeAllKeys(d, t, ids[..n]);
  }

  lemma {:induction false} TakeAllKeys(d: Dict, t: Tally, ids: seq<ObjectId>)
    requires Available(d, t, ids)
    ensures forall id :: id in TakeAll(d, t, ids).used <==> id in t.used || id in ids
  {
    if ids != [] {
      TakeAllKeys(d, t, ids[..|ids| - 1]);
      assert ids == ids[..|ids| - 1] + [ids[|ids| - 1]];
    }
  }
}
