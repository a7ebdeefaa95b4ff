/** Slot attribution of a conditional contextual bandit event: ccb_joined_event of joined_event.h. */
module CcbEvent {
  import opened Rewards

  const APPRENTICE_MATCHING := 1.0
  const APPRENTICE_NOT_MATCHING := 0.0

  /** The slot an outcome names: a literal id known to the interaction stands for its position. */
  function SlotOf(slotIds: map<string, int>, o: Outcome): int {
    if o.indexType == Literal && o.sIndex != "" && o.sIndex in slotIds then slotIds[o.sIndex] else o.index
  }

  /** The outcomes with their slots written into the index field. */
  function Resolved(slotIds: map<string, int>, os: seq<Outcome>): (r: seq<Outcome>)
    ensures |r| == |os| && forall k :: 0 <= k < |os| ==> r[k] == os[k].(index := SlotOf(slotIds, os[k]))
  {
    seq(|os|, k requires 0 <= k < |os| => os[k].(index := SlotOf(slotIds, os[k])))
  }

  /** The outcomes of slot i, in arrival order. */
  function AtSlot(os: seq<Outcome>, i: int): seq<Outcome> {
    if os == [] then []
    else AtSlot(os[..|os| - 1], i) + (if os[|os| - 1].index == i then [os[|os| - 1]] else [])
  }

  ghost function SlotRewards(kind: RewardKind, os: seq<Outcome>, d: real, n: nat): (r: seq<real>)
    ensures |r| == n && forall i :: 0 <= i < n ==> r[i] == RewardOf(kind, AtSlot(os, i), d)
  {
    seq(n, i => RewardOf(kind, AtSlot(os, i), d))
  }

  function Lookup(m: map<int, seq<Outcome>>, i: int): seq<Outcome> { if i in m then m[i] else [] }

  class CcbJoinedEvent {
    /** Per slot, the actions chosen for it. */
    const slots: seq<seq<nat>>
    const baselineActions: seq<nat>
    const slotIds: map<string, int>
    var rewards: seq<real>
    var originalRewards: seq<real>
    var outcomesMap: map<int, seq<Outcome>>

    constructor (slots: seq<seq<nat>>, baselineActions: seq<nat>, slotIds: map<string, int>)
      ensures this.slots == slots && this.baselineActions == baselineActions && this.slotIds == slotIds
      ensures rewards == [] && originalRewards == [] && outcomesMap == map[]
    {
      this.slots, this.baselineActions, this.slotIds := slots, baselineActions, slotIds;
      rewards, originalRewards, outcomesMap := [], [], map[];
    }

    /** Reward 1 where the first action is the baseline's, 0 elsewhere. */
    predicate MatchesBaseline(i: nat)
      requires i < |slots| == |baselineActions|
    {
      slots[i] != [] && slots[i][0] == baselineActions[i]
    }

    method SetApprenticeReward()
      requires |slots| == |baselineActions| == |rewards|
      modifies this`rewards
      ensures |rewards| == |slots|
      ensures forall i :: 0 <= i < |slots| ==>
                rewards[i] == if MatchesBaseline(i) then APPRENTICE_MATCHING else APPRENTICE_NOT_MATCHING
    {
      for i := 0 to |slots|
        invariant |rewards| == |slots|
        invariant forall j :: 0 <= j < i ==>
                    rewards[j] == if MatchesBaseline(j) then APPRENTICE_MATCHING else APPRENTICE_NOT_MATCHING
      {
        rewards := rewards[i := if slots[i] != [] && slots[i][0] == baselineActions[i]
                                then APPRENTICE_MATCHING else APPRENTICE_NOT_MATCHING];
      }
    }

    /** Slot ids become positions, in place; unknown ids are left as they are. */
    method ResolveSlots(outcomes: seq<Outcome>) returns (resolved: seq<Outcome>)
      ensures resolved == Resolved(slotIds, outcomes)
    {
      resolved := outcomes;
      if slotIds != map[] {
        for k := 0 to |outcomes|
          invariant |resolved| == |outcomes|
          invariant forall j :: 0 <= j < k ==> resolved[j] == outcomes[j].(index := SlotOf(slotIds, outcomes[j]))
          invariant forall j :: k <= j < |outcomes| ==> resolved[j] == outcomes[j]
        {
          var o := resolved[k];
          if o.indexType == Literal && o.sIndex != "" && o.sIndex in slotIds {
            resolved := resolved[k := o.(index := slotIds[o.sIndex])];
          }
        }
      }
    }

    /** Outcomes with an index other than -1 are appended to the list of that index. */
    method GroupBySlot(outcomes: seq<Outcome>)
      modifies this`outcomesMap
      ensures forall i :: i != -1 ==> Lookup(outcomesMap, i) == Lookup(old(outcomesMap), i) + AtSlot(outcomes, i)
    {
      for k := 0 to |outcomes|
        invariant Grouped(outcomesMap, old(outcomesMap), outcomes[..k])
      {
        hide Grouped;
        GroupedStep(outcomesMap, old(outcomesMap), outcomes, k);
        var o := outcomes[k];
        if o.index != -1 {
          if o.index !in outcomesMap { outcomesMap := outcomesMap[o.index := []]; }
          outcomesMap := outcomesMap[o.index := outcomesMap[o.index] + [o]];
        }
      }
      assert outcomes[..|outcomes|] == outcomes;
    }

    /** The reward of every slot, from its list of outcomes. */
    method ScoreSlots(d: real, kind: RewardKind)
      modifies this`originalRewards
      ensures |originalRewards| == |slots|
      ensures forall i :: 0 <= i < |slots| ==> IsReward(kind, Lookup(outcomesMap, i), d, originalRewards[i])
    {
      hide IsReward;
      originalRewards := seq(|slots|, _ => d);
      DefaultOnNone(kind, d);
      for i := 0 to |slots|
        invariant |originalRewards| == |slots|
        invariant forall j :: 0 <= j < i ==> IsReward(kind, Lookup(outcomesMap, j), d, originalRewards[j])
        invariant forall j :: i <= j < |slots| ==> originalRewards[j] == d
      {
        if i in outcomesMap {
          var r := ComputeReward(kind, outcomesMap[i], d);
          originalRewards := originalRewards[i := r];
        }
      }
    }

    /** Fills the rewards of all slots; the outcomes come back with their slots resolved.  In Apprentice
        mode with a wrong number of baseline actions nothing is done. */
    method CalcCost(d: real, kind: RewardKind, apprentice: bool, outcomes: seq<Outcome>) returns (resolved: seq<Outcome>)
      modifies this
      ensures apprentice && |slots| != |baselineActions| ==> resolved == outcomes && unchanged(this)
      ensures !(apprentice && |slots| != |baselineActions|) ==>
                && resolved == Resolved(slotIds, outcomes)
                && |originalRewards| == |rewards| == |slots|
                && (forall i :: 0 <= i < |slots| ==>
                      IsReward(kind, Lookup(old(outcomesMap), i) + AtSlot(resolved, i), d, originalRewards[i]))
                && (old(outcomesMap) == map[] ==> originalRewards == SlotRewards(kind, Resolved(slotIds, outcomes), d, |slots|))
                && (!apprentice ==> rewards == originalRewards)
                && (apprentice ==> forall i :: 0 <= i < |slots| ==>
                      rewards[i] == if MatchesBaseline(i) then APPRENTICE_MATCHING else APPRENTICE_NOT_MATCHING)
    {
      hide IsReward, Resolved, AtSlot;
      if apprentice && |slots| != |baselineActions| { return outcomes; }
      resolved := ResolveSlots(outcomes);
      GroupBySlot(resolved);
      rewards := seq(|slots|, _ => d);
      ScoreSlots(d, kind);
      if old(outcomesMap) == map[] { AreSlotRewards(kind, resolved, d, originalRewards); }
      if apprentice {
        SetApprenticeReward();
      } else {
        rewards := originalRewards;
      }
    }

    method GetSumOriginalReward() returns (sum: real)
      ensures sum == Sum(originalRewards)
    {
      sum := 0.0;
      for k := 0 to |originalRewards|
        invariant sum == Sum(originalRewards[..k])
      {
        assert originalRewards[..k + 1][..k] == originalRewards[..k];
        sum := sum + originalRewards[k];
      }
      assert originalRewards[..|originalRewards|] == originalRewards;
    }
  }

  /** m is before with the outcomes appended, each to the list of its index. */
  ghost predicate Grouped(m: map<int, seq<Outcome>>, before: map<int, seq<Outcome>>, os: seq<Outcome>) {
    forall i :: i != -1 ==> Lookup(m, i) == Lookup(before, i) + AtSlot(os, i)
  }

  lemma GroupedStep(m: map<int, seq<Outcome>>, before: map<int, seq<Outcome>>, os: seq<Outcome>, k: nat)
    requires k < |os| && Grouped(m, before, os[..k])
    ensures var o := os[k];
            Grouped(if o.index == -1 then m else m[o.index := Lookup(m, o.index) + [o]], before, os[..k + 1])
  {
    hide AtSlot, Lookup;
    var o := os[k];
    var m' := if o.index == -1 then m else m[o.index := Lookup(m, o.index) + [o]];
    forall i | i != -1 ensures Lookup(m', i) == Lookup(before, i) + AtSlot(os[..k + 1], i) {
      AtSlotStep(os, k, i);
      if o.index != -1 { LookupUpdate(m, o.index, Lookup(m, o.index) + [o], i); }
      var a, b := Lookup(before, i), AtSlot(os[..k], i);
      assert a + (b + [o]) == a + b + [o] && b + [] == b;
    }
  }

  lemma LookupUpdate(m: map<int, seq<Outcome>>, j: int, v: seq<Outcome>, i: int)
    ensures Lookup(m[j := v], i) == if i == j then v else Lookup(m, i)
  {}

  lemma AtSlotStep(os: seq<Outcome>, k: nat, i: int)
    requires k < |os|
    ensures AtSlot(os[..k + 1], i) == AtSlot(os[..k], i) + (if os[k].index == i then [os[k]] else [])
  {
    assert os[..k + 1][..k] == os[..k];
  }

  lemma AreSlotRewards(kind: RewardKind, os: seq<Outcome>, d: real, rewards: seq<real>)
    requires forall i :: 0 <= i < |rewards| ==> IsReward(kind, [] + AtSlot(os, i), d, rewards[i])
    ensures rewards == SlotRewards(kind, os, d, |rewards|)
  {
    hide IsReward, AtSlot;
    forall i | 0 <= i < |rewards| ensures rewards[i] == RewardOf(kind, AtSlot(os, i), d) {
      assert [] + AtSlot(os, i) == AtSlot(os, i);
      RewardUnique(kind, AtSlot(os, i), d, rewards[i]);
    }
  }

  lemma DefaultOnNone(kind: RewardKind, d: real)
    ensures IsReward(kind, [], d, d)
  {}

  // ---- What attribution means ---------------------------------------------------------------------

  /** An outcome is listed for the slot it names, as often as it arrived, and for no other. */
  lemma {:induction false} AtSlotElements(os: seq<Outcome>, i: int, o: Outcome)
    ensures multiset(AtSlot(os, i))[o] == if o.index == i then multiset(os)[o] else 0
  {
    if os != [] {
      AtSlotElements(os[..|os| - 1], i, o);
      assert os == os[..|os| - 1] + [os[|os| - 1]];
    }
  }

  // ---- Slot ids stand for positions ---------------------------------------------------------------

  /** What a reward function looks at. */
  predicate Alike(a: Outcome, b: Outcome) { a.value == b.value && a.time == b.time && a.actionTaken == b.actionTaken }

  predicate AllAlike(a: seq<Outcome>, b: seq<Outcome>) {
    |a| == |b| && forall i :: 0 <= i < |a| ==> Alike(a[i], b[i])
  }

  lemma {:induction false} AlikeValues(a: seq<Outcome>, b: seq<Outcome>)
    requires AllAlike(a, b)
    ensures Values(a) == Values(b)
  {
    if a != [] {
      var n := |a| - 1;
      assert Alike(a[n], b[n]);
      AlikeValues(a[..n], b[..n]);
    }
  }

  lemma AlikeReward(kind: RewardKind, a: seq<Outcome>, b: seq<Outcome>, d: real)
    requires AllAlike(a, b)
    ensures RewardOf(kind, a, d) == RewardOf(kind, b, d)
  {
    hide Values, OfValues;
    var r := RewardOf(kind, a, d);
    AlikeValues(a, b);
    if kind == Earliest {
      assert forall i :: 0 <= i < |a| ==> Alike(a[i], b[i]);
      assert forall i :: 0 <= i < |a| ==> (Eligible(a[i]) <==> Eligible(b[i]));
      assert forall i: nat :: IsEarliest(a, i) <==> IsEarliest(b, i);
    }
    assert IsReward(kind, b, d, r);
    RewardUnique(kind, b, d, r);
  }

  lemma {:induction false} AtSlotAlike(a: seq<Outcome>, b: seq<Outcome>, i: int)
    requires AllAlike(a, b) && forall k :: 0 <= k < |a| ==> a[k].index == b[k].index
    ensures AllAlike(AtSlot(a, i), AtSlot(b, i))
  {
    if a != [] {
      var n := |a| - 1;
      assert Alike(a[n], b[n]);
      AtSlotAlike(a[..n], b[..n], i);
    }
  }

  /** An outcome that speaks of a slot by an id the interaction knows. */
  predicate Names(slotIds: map<string, int>, o: Outcome) { o.indexType == Literal && o.sIndex != "" && o.sIndex in slotIds }

  /** Naming a slot by its id is naming it by its position: the slots are scored the same. */
  lemma NamesAreNumbers(slotIds: map<string, int>, named: seq<Outcome>, numbered: seq<Outcome>, kind: RewardKind, d: real, n: nat)
    requires |named| == |numbered|
    requires forall k :: 0 <= k < |named| ==>
      numbered[k] == if Names(slotIds, named[k]) then named[k].(indexType := Numeric, index := slotIds[named[k].sIndex]) else named[k]
    ensures SlotRewards(kind, Resolved(slotIds, named), d, n) == SlotRewards(kind, Resolved(slotIds, numbered), d, n)
  {
    var a, b := Resolved(slotIds, named), Resolved(slotIds, numbered);
    forall k | 0 <= k < |a| ensures Alike(a[k], b[k]) && a[k].index == b[k].index {
      assert numbered[k] == if Names(slotIds, named[k]) then named[k].(indexType := Numeric, index := slotIds[named[k].sIndex]) else named[k];
    }
    hide Resolved, Alike, AtSlot;
    forall i | 0 <= i < n ensures RewardOf(kind, AtSlot(a, i), d) == RewardOf(kind, AtSlot(b, i), d) {
      AtSlotAlike(a, b, i);
      AlikeReward(kind, AtSlot(a, i), AtSlot(b, i), d);
    }
  }

  /** Outcomes that do not name a slot by an id score the same whatever ids the interaction has. */
  lemma NumbersNeedNoIds(slotIds: map<string, int>, os: seq<Outcome>)
    requires forall o :: o in os ==> o.indexType != Literal || o.sIndex == ""
    ensures Resolved(slotIds, os) == os
  {
    forall k | 0 <= k < |os| ensures Resolved(slotIds, os)[k] == os[k] { assert os[k] in os; }
  }

  /** With the sum function and default 0, one more literal outcome adds its value to the slot it names, and to no
      other. */
  lemma LiteralAdds(slotIds: map<string, int>, os: seq<Outcome>, o: Outcome, n: nat, i: nat)
    requires i < n && o.indexType == Literal && o.sIndex != "" && o.sIndex in slotIds && !o.actionTaken
    ensures SlotRewards(SumAll, Resolved(slotIds, os + [o]), 0.0, n)[i]
         == SlotRewards(SumAll, Resolved(slotIds, os), 0.0, n)[i] + (if i == slotIds[o.sIndex] then o.value else 0.0)
  {
    var rs, r := Resolved(slotIds, os), o.(index := slotIds[o.sIndex]);
    assert Resolved(slotIds, os + [o]) == rs + [r];
    hide Resolved, Sum, Values, IsReward;
    assert (rs + [r])[..|rs|] == rs;
    SumIs(AtSlot(rs, i));
    SumIs(AtSlot(rs + [r], i));
    ValuesAppend(AtSlot(rs, i), r);
  }

  lemma SumIs(os: seq<Outcome>)
    ensures RewardOf(SumAll, os, 0.0) == Sum(Values(os))
  {
    RewardUnique(SumAll, os, 0.0, Sum(Values(os)));
  }

  // ---- Totals ---------------------------------------------------------------------------------------

  /** Sum of the non-activation outcomes that name one of the slots 0 to n - 1. */
  function SlotTotal(os: seq<Outcome>, n: nat): real {
    if os == [] then 0.0
    else
      var o := os[|os| - 1];
      SlotTotal(os[..|os| - 1], n) + (if !o.actionTaken && 0 <= o.index < n then o.value else 0.0)
  }

  /** The slots below n that only activations, or nothing, name. */
  function EmptySlots(os: seq<Outcome>, n: nat): nat {
    if n == 0 then 0
    else EmptySlots(os, n - 1) + (if Values(AtSlot(os, n - 1)) == [] then 1 else 0)
  }

  lemma ValuesAppend(os: seq<Outcome>, o: Outcome)
    ensures Sum(Values(os + [o])) == Sum(Values(os)) + (if o.actionTaken then 0.0 else o.value)
    ensures os + [] == os
  {
    ValuesStep(os + [o], |os|);
    assert (os + [o])[..|os|] == os && (os + [o])[..|os| + 1] == os + [o];
  }

  lemma {:induction false} SlotTotalStep(os: seq<Outcome>, n: nat)
    ensures SlotTotal(os, n + 1) == SlotTotal(os, n) + Sum(Values(AtSlot(os, n)))
  {
    if os != [] {
      var m := |os| - 1;
      SlotTotalStep(os[..m], n);
      hide Sum, Values;
      ValuesAppend(AtSlot(os[..m], n), os[m]);
    }
  }

  function SlotShare(os: seq<Outcome>, d: real, i: int): real {
    Sum(Values(AtSlot(os, i))) + (if Values(AtSlot(os, i)) == [] then d else 0.0)
  }

  lemma {:induction false} ShareTotal(os: seq<Outcome>, d: real, rewards: seq<real>)
    requires forall i :: 0 <= i < |rewards| ==> rewards[i] == SlotShare(os, d, i)
    ensures Sum(rewards) == SlotTotal(os, |rewards|) + Defaults(os, d, |rewards|)
  {
    if rewards == [] {
      NoSlots(os);
    } else {
      hide SlotTotal, AtSlot, Values;
      var n := |rewards| - 1;
      ShareTotal(os, d, rewards[..n]);
      SlotTotalStep(os, n);
    }
  }

  function Defaults(os: seq<Outcome>, d: real, n: nat): real {
    if n == 0 then 0.0
    else Defaults(os, d, n - 1) + (if Values(AtSlot(os, n - 1)) == [] then d else 0.0)
  }

  lemma {:induction false} DefaultsProduct(os: seq<Outcome>, d: real, n: nat)
    ensures Defaults(os, d, n) == d * (EmptySlots(os, n) as real)
  {
    hide AtSlot, Values;
    if n > 0 {
      DefaultsProduct(os, d, n - 1);
      var e := EmptySlots(os, n - 1) as real;
      assert d * (e + 1.0) == d * e + d;
    }
  }

  /** With the sum reward the slots' total is every outcome's value once, plus the default for each slot
      that no outcome speaks for. */
  lemma SumAttribution(os: seq<Outcome>, d: real, rewards: seq<real>)
    requires forall i :: 0 <= i < |rewards| ==> IsReward(SumAll, AtSlot(os, i), d, rewards[i])
    ensures Sum(rewards) == SlotTotal(os, |rewards|) + d * (EmptySlots(os, |rewards|) as real)
  {
    hide IsReward, Sum, SlotTotal, AtSlot, Values, Defaults, EmptySlots;
    forall i | 0 <= i < |rewards| ensures rewards[i] == SlotShare(os, d, i) {
      SumRewardIs(AtSlot(os, i), d, rewards[i]);
    }
    ShareTotal(os, d, rewards);
    DefaultsProduct(os, d, |rewards|);
  }

  lemma SumRewardIs(os: seq<Outcome>, d: real, r: real)
    requires IsReward(SumAll, os, d, r)
    ensures r == Sum(Values(os)) + (if Values(os) == [] then d else 0.0)
  {}

  lemma {:induction false} NoSlots(os: seq<Outcome>)
    ensures SlotTotal(os, 0) == 0.0
  {
    if os != [] { NoSlots(os[..|os| - 1]); }
  }

  /** A fresh event, scored with the sum reward and default 0: get_sum_original_reward is the sum of all
      non-activation outcomes that resolve to a slot of the event. */
  method ScoreFreshEvent(event: CcbJoinedEvent, apprentice: bool, outcomes: seq<Outcome>) returns (total: real)
    requires event.outcomesMap == map[] && !(apprentice && |event.slots| != |event.baselineActions|)
    modifies event
    ensures total == SlotTotal(Resolved(event.slotIds, outcomes), |event.slots|)
  {
    var resolved := event.CalcCost(0.0, SumAll, apprentice, outcomes);
    assert forall i :: [] + AtSlot(resolved, i) == AtSlot(resolved, i);
    total := event.GetSumOriginalReward();
    SumAttribution(resolved, 0.0, event.originalRewards);
  }
}
