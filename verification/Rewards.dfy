/** The reward functions of reward.h, over reals: rounding is not modelled, the limits of float are. */
module Rewards {
  import opened Sequences

  const FLT_MAX: real := 340282346638528859811704183484516925440.0
  const FLT_MIN: real := 1.0 / 85070591730234615865843651857942052864.0  // the smallest positive normal float
  const TIME_MAX: int := 0x7FFF_FFFF_FFFF_FFFF

  datatype IndexType = NoIndex | Literal | Numeric

  datatype Outcome = Outcome(indexType: IndexType, sIndex: string, index: int, value: real, time: int, actionTaken: bool)

  /** The values the reward functions look at: those of events that only activate an action are skipped. */
  function Values(os: seq<Outcome>): seq<real> {
    if os == [] then [] else Values(os[..|os| - 1]) + ValueOf(os[|os| - 1])
  }

  function ValueOf(o: Outcome): seq<real> { if o.actionTaken then [] else [o.value] }

  function Sum(vs: seq<real>): real {
    if vs == [] then 0.0 else Sum(vs[..|vs| - 1]) + vs[|vs| - 1]
  }

  predicate Sorted(vs: seq<real>) {
    forall i, j :: 0 <= i < j < |vs| ==> vs[i] <= vs[j]
  }

  function Insert(vs: seq<real>, x: real): seq<real> {
    if vs == [] || x <= vs[0] then [x] + vs else [vs[0]] + Insert(vs[1..], x)
  }

  /** The sorted arrangement of vs; there is only one, by SortedUnique. */
  function Sort(vs: seq<real>): seq<real> {
    if vs == [] then [] else Insert(Sort(vs[1..]), vs[0])
  }

  lemma {:induction false} InsertElements(vs: seq<real>, x: real)
    ensures multiset(Insert(vs, x)) == multiset(vs) + multiset{x}
    ensures forall y :: y in Insert(vs, x) <==> y in vs || y == x
  {
    if vs != [] && x > vs[0] {
      InsertElements(vs[1..], x);
      assert vs == [vs[0]] + vs[1..];
    }
    Membership(Insert(vs, x));
    Membership(vs);
  }

  lemma {:induction false} InsertSorts(vs: seq<real>, x: real)
    requires Sorted(vs)
    ensures Sorted(Insert(vs, x))
  {
    hide Sorted;
    if vs == [] {
      assert Sorted(Insert(vs, x)) by { SortedCons(x, []); assert [x] + [] == [x] + vs; }
    } else {
      HeadIsLeast(vs);
      if x <= vs[0] {
        SortedCons(x, vs);
      } else {
        InsertSorts(vs[1..], x);
        InsertElements(vs[1..], x);
        SortedCons(vs[0], Insert(vs[1..], x));
      }
    }
  }

  lemma HeadIsLeast(vs: seq<real>)
    requires Sorted(vs) && vs != []
    ensures Sorted(vs[1..])
    ensures forall y :: y in vs ==> vs[0] <= y
    ensures forall y :: y in vs[1..] ==> vs[0] <= y
  {}

  lemma SortedCons(x: real, vs: seq<real>)
    requires Sorted(vs) && forall y :: y in vs ==> x <= y
    ensures Sorted([x] + vs)
  {
    var s := [x] + vs;
    forall i, j | 0 <= i < j < |s| ensures s[i] <= s[j] {
      assert s[j] == vs[j - 1] && vs[j - 1] in vs;
      if i > 0 { assert s[i] == vs[i - 1]; }
    }
  }

  lemma {:induction false} SortSorts(vs: seq<real>)
    ensures Sorted(Sort(vs)) && multiset(Sort(vs)) == multiset(vs)
    ensures |Sort(vs)| == |vs| && forall v :: v in Sort(vs) <==> v in vs
  {
    if vs != [] {
      SortSorts(vs[1..]);
      InsertSorts(Sort(vs[1..]), vs[0]);
      InsertElements(Sort(vs[1..]), vs[0]);
      assert vs == [vs[0]] + vs[1..];
    }
    Membership(Sort(vs));
    Membership(vs);
  }

  predicate IsLeast(x: real, vs: seq<real>) { x in vs && forall y :: y in vs ==> x <= y }

  predicate IsGreatest(x: real, vs: seq<real>) { x in vs && forall y :: y in vs ==> y <= x }

  /** An outcome earliest may pick. */
  predicate Eligible(o: Outcome) { !o.actionTaken && o.time < TIME_MAX }

  /** i is the first-listed of the eligible outcomes with the least time. */
  predicate IsEarliest(os: seq<Outcome>, i: nat) {
    && i < |os| && Eligible(os[i])
    && (forall j :: 0 <= j < |os| && Eligible(os[j]) ==> os[i].time <= os[j].time)
    && (forall j :: 0 <= j < i && Eligible(os[j]) ==> os[i].time < os[j].time)
  }

  datatype RewardKind = Earliest | Average | SumAll | Min | Max | Median

  /** r is what the reward functions other than earliest make of the values. */
  ghost predicate OfValues(kind: RewardKind, vs: seq<real>, d: real, r: real)
    requires kind != Earliest
  {
    match kind
    case Average => r == if vs == [] then d else Sum(vs) / (|vs| as real)
    case SumAll => r == if vs == [] then d else Sum(vs)
    case Min => if exists v :: v in vs && v < FLT_MAX then IsLeast(r, vs) else r == d
    case Max => if exists v :: v in vs && v > FLT_MIN then IsGreatest(r, vs) else r == d
    case Median => if vs == [] then r == d else IsMedian(r, vs)
  }

  ghost predicate IsMedian(r: real, vs: seq<real>)
    requires vs != []
  {
    SortSorts(vs);
    var s, n := Sort(vs), |vs|;
    r == if n % 2 == 0 then (s[n / 2 - 1] + s[n / 2]) / 2.0 else s[n / 2]
  }

  ghost predicate OfEarliest(os: seq<Outcome>, d: real, r: real) {
    if exists i :: 0 <= i < |os| && Eligible(os[i])
    then exists i: nat :: IsEarliest(os, i) && r == os[i].value
    else r == d
  }

  /** r is what reward function kind makes of the outcomes. */
  ghost predicate IsReward(kind: RewardKind, os: seq<Outcome>, d: real, r: real) {
    if kind == Earliest then OfEarliest(os, d, r) else OfValues(kind, Values(os), d, r)
  }

  // ---- The functions themselves -----------------------------------------------------------------

  method AverageReward(os: seq<Outcome>, d: real) returns (r: real)
    ensures IsReward(Average, os, d, r)
  {
    var sum, n := 0.0, 0;
    for k := 0 to |os|
      invariant sum == Sum(Values(os[..k])) && n == |Values(os[..k])|
    {
      ValuesStep(os, k);
      if !os[k].actionTaken {
        sum := sum + os[k].value;
        n := n + 1;
      }
    }
    assert os[..|os|] == os;
    r := if n == 0 then d else sum / (n as real);
  }

  method SumReward(os: seq<Outcome>, d: real) returns (r: real)
    ensures IsReward(SumAll, os, d, r)
  {
    var sum, n := 0.0, 0;
    for k := 0 to |os|
      invariant sum == Sum(Values(os[..k])) && n == |Values(os[..k])|
    {
      ValuesStep(os, k);
      if !os[k].actionTaken {
        sum := sum + os[k].value;
        n := n + 1;
      }
    }
    assert os[..|os|] == os;
    r := if n == 0 then d else sum;
  }

  method MinReward(os: seq<Outcome>, d: real) returns (r: real)
    ensures IsReward(Min, os, d, r)
  {
    hide *;
    var least := FLT_MAX;
    LowStart(os);
    for k := 0 to |os|
      invariant Low(Values(os[..k]), least)
    {
      ValuesStep(os, k);
      LowStep(Values(os[..k]), os[k], least);
      if !os[k].actionTaken && os[k].value < least { least := os[k].value; }
    }
    assert os[..|os|] == os;
    LowEnd(os, least, d);
    r := if least == FLT_MAX then d else least;
  }

  method MaxReward(os: seq<Outcome>, d: real) returns (r: real)
    ensures IsReward(Max, os, d, r)
  {
    hide *;
    var greatest := FLT_MIN;
    HighStart(os);
    for k := 0 to |os|
      invariant High(Values(os[..k]), greatest)
    {
      ValuesStep(os, k);
      HighStep(Values(os[..k]), os[k], greatest);
      if !os[k].actionTaken && os[k].value > greatest { greatest := os[k].value; }
    }
    assert os[..|os|] == os;
    HighEnd(os, greatest, d);
    r := if greatest == FLT_MIN then d else greatest;
  }

  /** least is the smaller of FLT_MAX and the least value. */
  ghost predicate Low(vs: seq<real>, least: real) {
    least <= FLT_MAX && (least < FLT_MAX ==> least in vs) && forall v :: v in vs ==> least <= v
  }

  /** greatest is the larger of FLT_MIN and the greatest value. */
  ghost predicate High(vs: seq<real>, greatest: real) {
    greatest >= FLT_MIN && (greatest > FLT_MIN ==> greatest in vs) && forall v :: v in vs ==> v <= greatest
  }

  lemma LowStart(os: seq<Outcome>)
    ensures Low(Values(os[..0]), FLT_MAX)
  {}

  lemma HighStart(os: seq<Outcome>)
    ensures High(Values(os[..0]), FLT_MIN)
  {}

  lemma LowStep(vs: seq<real>, o: Outcome, least: real)
    requires Low(vs, least)
    ensures Low(vs + ValueOf(o), if !o.actionTaken && o.value < least then o.value else least)
  {}

  lemma HighStep(vs: seq<real>, o: Outcome, greatest: real)
    requires High(vs, greatest)
    ensures High(vs + ValueOf(o), if !o.actionTaken && o.value > greatest then o.value else greatest)
  {}

  lemma LowEnd(os: seq<Outcome>, least: real, d: real)
    requires Low(Values(os), least)
    ensures IsReward(Min, os, d, if least == FLT_MAX then d else least)
  {
    hide Values;
  }

  lemma HighEnd(os: seq<Outcome>, greatest: real, d: real)
    requires High(Values(os), greatest)
    ensures IsReward(Max, os, d, if greatest == FLT_MIN then d else greatest)
  {
    hide Values;
  }

  method MedianReward(os: seq<Outcome>, d: real) returns (r: real)
    ensures IsReward(Median, os, d, r)
  {
    hide Sort, Sorted, Sum;
    var values: seq<real> := [];
    for k := 0 to |os|
      invariant values == Values(os[..k])
    {
      ValuesStep(os, k);
      if !os[k].actionTaken { values := values + [os[k].value]; }
    }
    assert os[..|os|] == os;
    var n := |values|;
    if n == 0 { return d; }
    SortSorts(values);
    values := Sort(values);
    r := if n % 2 == 0 then (values[n / 2 - 1] + values[n / 2]) / 2.0 else values[n / 2];
  }

  method EarliestReward(os: seq<Outcome>, d: real) returns (r: real)
    ensures IsReward(Earliest, os, d, r)
  {
    var oldest := TIME_MAX;
    r := d;
    ghost var pick := 0;
    for k := 0 to |os|
      invariant oldest <= TIME_MAX && forall j :: 0 <= j < k && Eligible(os[j]) ==> oldest <= os[j].time
      invariant oldest == TIME_MAX ==> r == d
      invariant oldest < TIME_MAX ==> pick < k && IsEarliest(os[..k], pick) && os[pick].time == oldest && r == os[pick].value
    {
      if !os[k].actionTaken && os[k].time < oldest {
        oldest, r, pick := os[k].time, os[k].value, k;
      }
    }
    assert os[..|os|] == os;
  }

  method ComputeReward(kind: RewardKind, os: seq<Outcome>, d: real) returns (r: real)
    ensures IsReward(kind, os, d, r)
  {
    match kind
    case Earliest => r := EarliestReward(os, d);
    case Average => r := AverageReward(os, d);
    case SumAll => r := SumReward(os, d);
    case Min => r := MinReward(os, d);
    case Max => r := MaxReward(os, d);
    case Median => r := MedianReward(os, d);
  }

  lemma ValuesStep(os: seq<Outcome>, k: nat)
    requires k < |os|
    ensures Values(os[..k + 1]) == Values(os[..k]) + ValueOf(os[k])
    ensures Sum(Values(os[..k + 1])) == Sum(Values(os[..k])) + (if os[k].actionTaken then 0.0 else os[k].value)
  {
    assert os[..k + 1][..k] == os[..k];
    var vs, x := Values(os[..k]), os[k].value;
    assert (vs + [x])[..|vs|] == vs && (vs + [x])[|vs|] == x && vs + [] == vs;
  }

  // ---- One result for every arrangement ---------------------------------------------------------

  lemma SameGreatest(a: seq<real>, b: seq<real>)
    requires Sorted(a) && Sorted(b) && a != [] && b != [] && multiset(a) == multiset(b)
    ensures a[|a| - 1] == b[|b| - 1]
  {
    Membership(a);
    Membership(b);
    assert a[|a| - 1] in b && b[|b| - 1] in a;
  }

  lemma {:induction false} SortedUnique(a: seq<real>, b: seq<real>)
    requires Sorted(a) && Sorted(b) && multiset(a) == multiset(b)
    ensures a == b
  {
    if a == [] {
      Membership(b);
    } else if b == [] {
      Membership(a);
    } else {
      var m, n := |a| - 1, |b| - 1;
      SameGreatest(a, b);
      ButLastMultiset(a);
      ButLastMultiset(b);
      SortedUnique(a[..m], b[..n]);
      assert a == a[..m] + [a[m]] && b == b[..n] + [b[n]];
    }
  }

  lemma {:induction false} SumDrop(vs: seq<real>, i: nat)
    requires i < |vs|
    ensures Sum(vs) == Sum(Without(vs, i)) + vs[i]
  {
    var n := |vs| - 1;
    if i == n {
      assert Without(vs, i) == vs[..n];
    } else {
      SumDrop(vs[..n], i);
      WithoutButLast(vs, i);
    }
  }

  lemma {:induction false} SumPermutation(a: seq<real>, b: seq<real>)
    requires multiset(a) == multiset(b)
    ensures Sum(a) == Sum(b)
  {
    if a == [] {
      Membership(b);
    } else {
      var i := MatchLast(a, b);
      SumPermutation(a[..|a| - 1], Without(b, i));
      SumDrop(b, i);
    }
  }

  lemma {:induction false} ValuesDrop(os: seq<Outcome>, i: nat)
    requires i < |os|
    ensures multiset(Values(os)) == multiset(Values(Without(os, i))) + multiset(ValueOf(os[i]))
  {
    hide *;
    var n := |os| - 1;
    if i == n {
      ValuesLast(os);
      assert Without(os, i) == os[..n] by { WithoutLast(os); }
    } else {
      ValuesDrop(os[..n], i);
      WithoutButLast(os, i);
      ValuesLast(os);
      ValuesLast(Without(os, i));
    }
  }

  lemma ValuesLast(os: seq<Outcome>)
    requires os != []
    ensures multiset(Values(os)) == multiset(Values(os[..|os| - 1])) + multiset(ValueOf(os[|os| - 1]))
  {}

  lemma {:induction false} ValuesPermutation(a: seq<Outcome>, b: seq<Outcome>)
    requires multiset(a) == multiset(b)
    ensures multiset(Values(a)) == multiset(Values(b))
  {
    if a == [] {
      Membership(b);
    } else {
      var i := MatchLast(a, b);
      ValuesPermutation(a[..|a| - 1], Without(b, i));
      ValuesDrop(b, i);
    }
  }

  /** The order of arrival does not matter, except to earliest when outcomes of the least time differ. */
  lemma RewardPermutation(kind: RewardKind, a: seq<Outcome>, b: seq<Outcome>, d: real, r: real, r': real)
    requires multiset(a) == multiset(b)
    requires kind == Earliest ==> LeastTiesAgree(a)
    requires IsReward(kind, a, d, r) && IsReward(kind, b, d, r')
    ensures r == r'
  {
    if kind == Earliest {
      EarliestPermutation(a, b, d, r, r');
    } else {
      ValuesPermutation(a, b);
      OfValuesPermutation(kind, Values(a), Values(b), d, r, r');
    }
  }

  lemma MedianPermutation(a: seq<real>, b: seq<real>, r: real, r': real)
    requires a != [] && b != [] && multiset(a) == multiset(b) && IsMedian(r, a) && IsMedian(r', b)
    ensures r == r'
  {
    hide Sort, Sorted;
    Membership(a);
    Membership(b);
    SortSorts(a);
    SortSorts(b);
    SortedUnique(Sort(a), Sort(b));
  }

  lemma OfValuesPermutation(kind: RewardKind, a: seq<real>, b: seq<real>, d: real, r: real, r': real)
    requires kind != Earliest && multiset(a) == multiset(b)
    requires OfValues(kind, a, d, r) && OfValues(kind, b, d, r')
    ensures r == r'
  {
    hide Sum, Sort, Sorted, IsMedian;
    Membership(a);
    Membership(b);
    assert a == [] <==> b == [];
    match kind
    case Average => SumPermutation(a, b);
    case SumAll => SumPermutation(a, b);
    case Min =>
    case Max =>
    case Median => if a != [] { MedianPermutation(a, b, r, r'); }
  }

  lemma EarliestPermutation(a: seq<Outcome>, b: seq<Outcome>, d: real, r: real, r': real)
    requires multiset(a) == multiset(b) && LeastTiesAgree(a)
    requires IsReward(Earliest, a, d, r) && IsReward(Earliest, b, d, r')
    ensures r == r'
  {
    Membership(a);
    Membership(b);
    if exists i :: 0 <= i < |a| && Eligible(a[i]) {
      var i: nat :| IsEarliest(a, i) && r == a[i].value;
      assert a[i] in b;
      var j: nat :| IsEarliest(b, j) && r' == b[j].value;
      assert b[j] in a;
    } else if exists i :: 0 <= i < |b| && Eligible(b[i]) {
      var i :| 0 <= i < |b| && Eligible(b[i]);
      assert b[i] in a;
    }
  }

  /** i holds an eligible outcome of the least time. */
  predicate IsOldest(os: seq<Outcome>, i: nat) {
    i < |os| && Eligible(os[i]) && forall j :: 0 <= j < |os| && Eligible(os[j]) ==> os[i].time <= os[j].time
  }

  /** The eligible outcomes of the least time have one value; later ties do not matter. */
  ghost predicate LeastTiesAgree(os: seq<Outcome>) {
    forall i: nat, j: nat :: IsOldest(os, i) && IsOldest(os, j) ==> os[i].value == os[j].value
  }

  lemma {:induction false} OldestExists(os: seq<Outcome>, i: nat) returns (p: nat)
    requires i < |os| && Eligible(os[i])
    ensures IsEarliest(os, p)
  {
    var n := |os| - 1;
    if !exists j :: 0 <= j < n && Eligible(os[j]) {
      p := i;
    } else {
      var j :| 0 <= j < n && Eligible(os[j]);
      p := OldestExists(os[..n], j);
      if Eligible(os[n]) && os[n].time < os[p].time { p := n; }
    }
  }

  lemma {:induction false} LeastExists(vs: seq<real>) returns (least: real, greatest: real)
    requires vs != []
    ensures IsLeast(least, vs) && IsGreatest(greatest, vs)
  {
    var n := |vs| - 1;
    if n == 0 { return vs[0], vs[0]; }
    least, greatest := LeastExists(vs[..n]);
    if vs[n] < least { least := vs[n]; }
    if vs[n] > greatest { greatest := vs[n]; }
    assert forall v :: v in vs ==> v in vs[..n] || v == vs[n];
    assert forall v :: v in vs[..n] ==> v in vs;
  }

  lemma SomeReward(kind: RewardKind, os: seq<Outcome>, d: real) returns (r: real)
    ensures IsReward(kind, os, d, r)
  {
    hide Values, OfValues;
    if kind != Earliest {
      r := SomeOfValues(kind, Values(os), d);
    } else if exists i :: 0 <= i < |os| && Eligible(os[i]) {
      var i :| 0 <= i < |os| && Eligible(os[i]);
      var p := OldestExists(os, i);
      r := os[p].value;
    } else {
      r := d;
    }
  }

  lemma SomeOfValues(kind: RewardKind, vs: seq<real>, d: real) returns (r: real)
    requires kind != Earliest
    ensures OfValues(kind, vs, d, r)
  {
    hide Sum, Sort, Sorted;
    if vs == [] { return d; }
    var least, greatest := LeastExists(vs);
    match kind
    case Average => r := Sum(vs) / (|vs| as real);
    case SumAll => r := Sum(vs);
    case Min => r := if exists v :: v in vs && v < FLT_MAX then least else d;
    case Max => r := if exists v :: v in vs && v > FLT_MIN then greatest else d;
    case Median =>
      SortSorts(vs);
      var s, n := Sort(vs), |vs|;
      r := if n % 2 == 0 then (s[n / 2 - 1] + s[n / 2]) / 2.0 else s[n / 2];
  }

  lemma RewardExists(kind: RewardKind, os: seq<Outcome>, d: real)
    ensures exists r :: IsReward(kind, os, d, r)
  {
    var r := SomeReward(kind, os, d);
  }

  /** The reward a function gives: there is one, and only one. */
  ghost function RewardOf(kind: RewardKind, os: seq<Outcome>, d: real): (r: real)
    ensures IsReward(kind, os, d, r)
  {
    RewardExists(kind, os, d);
    var r :| IsReward(kind, os, d, r);
    r
  }

  lemma RewardUnique(kind: RewardKind, os: seq<Outcome>, d: real, r: real)
    requires IsReward(kind, os, d, r)
    ensures r == RewardOf(kind, os, d)
  {
    var r' := RewardOf(kind, os, d);
    if kind == Earliest {
      assert forall i: nat, j: nat :: IsEarliest(os, i) && IsEarliest(os, j) ==> i == j;
    } else {
      OfValuesPermutation(kind, Values(os), Values(os), d, r, r');
    }
  }

  /** No permutation of the outcomes changes the reward: always, for every function but earliest; for earliest
      exactly when the outcomes of the least time agree. */
  lemma PermutationInvariantIff(kind: RewardKind, a: seq<Outcome>, d: real)
    ensures (forall b :: multiset(b) == multiset(a) ==> RewardOf(kind, b, d) == RewardOf(kind, a, d))
            <==> (kind == Earliest ==> LeastTiesAgree(a))
  {
    hide IsReward;
    var r := RewardOf(kind, a, d);
    if kind == Earliest ==> LeastTiesAgree(a) {
      forall b | multiset(b) == multiset(a) ensures RewardOf(kind, b, d) == r {
        RewardPermutation(kind, a, b, d, r, RewardOf(kind, b, d));
      }
    } else {
      var i: nat, j: nat :| IsOldest(a, i) && IsOldest(a, j) && a[i].value != a[j].value;
      ListedFirst(a, i, d);
      ListedFirst(a, j, d);
    }
  }

  /** An outcome of the least time, listed first, is the one earliest picks. */
  lemma ListedFirst(os: seq<Outcome>, i: nat, d: real)
    requires IsOldest(os, i)
    ensures var b := [os[i]] + Without(os, i);
            multiset(b) == multiset(os) && RewardOf(Earliest, b, d) == os[i].value
  {
    var b := [os[i]] + Without(os, i);
    WithoutMultiset(os, i);
    Membership(os);
    Membership(b);
    assert b[0] == os[i];
    forall j | 0 <= j < |b| && Eligible(b[j]) ensures b[0].time <= b[j].time {
      assert b[j] in os;
    }
    assert IsEarliest(b, 0);
    RewardUnique(Earliest, b, d, b[0].value);
  }

  /** Two outcomes at one time with different values: earliest keeps the one listed first. */
  lemma EarliestTieExample(o: Outcome, p: Outcome, d: real)
    requires Eligible(o) && Eligible(p) && o.time == p.time && o.value != p.value
    ensures multiset([o, p]) == multiset([p, o])
    ensures RewardOf(Earliest, [o, p], d) == o.value && RewardOf(Earliest, [p, o], d) == p.value
  {
    assert IsEarliest([o, p], 0) && IsEarliest([p, o], 0);
    assert Eligible([o, p][0]) && Eligible([p, o][0]);
    RewardUnique(Earliest, [o, p], d, [o, p][0].value);
    RewardUnique(Earliest, [p, o], d, [p, o][0].value);
  }

  lemma {:induction false} NoValues(os: seq<Outcome>)
    ensures Values(os) == [] <==> forall o :: o in os ==> o.actionTaken
  {
    if os != [] {
      NoValues(os[..|os| - 1]);
      assert os == os[..|os| - 1] + [os[|os| - 1]];
    }
  }

  /** With nothing but activations every reward function gives the default. */
  lemma OnlyActivations(kind: RewardKind, os: seq<Outcome>, d: real, r: real)
    requires IsReward(kind, os, d, r) && forall o :: o in os ==> o.actionTaken
    ensures r == d
  {
    NoValues(os);
  }

  // ---- Where the sentinels show -----------------------------------------------------------------

  /** Max returns the greatest value exactly when that exceeds the smallest positive float, or happens to be
      the default: a batch of negative rewards is lost. */
  lemma MaxIsGreatestIff(os: seq<Outcome>, d: real, r: real, g: real)
    requires IsReward(Max, os, d, r) && IsGreatest(g, Values(os))
    ensures r == g <==> g > FLT_MIN || g == d
  {}

  /** A single reward of -1: max gives the default 0. */
  lemma MaxLosesNegativeExample(o: Outcome)
    requires !o.actionTaken && o.value == -1.0
    ensures IsGreatest(-1.0, Values([o])) && RewardOf(Max, [o], 0.0) == 0.0
  {
    hide IsReward, Values;
    OneValue(o);
    MaxIgnores([o], 0.0);
    RewardUnique(Max, [o], 0.0, 0.0);
  }

  /** A single reward of the float maximum: min gives the default. */
  lemma MinLosesGreatestExample(o: Outcome, d: real)
    requires !o.actionTaken && o.value == FLT_MAX
    ensures IsLeast(FLT_MAX, Values([o])) && RewardOf(Min, [o], d) == d
  {
    hide IsReward, Values;
    OneValue(o);
    MinIgnores([o], d);
    RewardUnique(Min, [o], d, d);
  }

  lemma OneValue(o: Outcome)
    requires !o.actionTaken
    ensures Values([o]) == [o.value]
  {
    assert [o][..0] == [];
    assert Values([o]) == Values([]) + ValueOf(o);
  }

  lemma MaxIgnores(os: seq<Outcome>, d: real)
    requires forall v :: v in Values(os) ==> v <= 0.0
    ensures IsReward(Max, os, d, d)
  {
    hide Values;
  }

  lemma MinIgnores(os: seq<Outcome>, d: real)
    requires forall v :: v in Values(os) ==> v >= FLT_MAX
    ensures IsReward(Min, os, d, d)
  {
    hide Values;
  }

  lemma MinIsLeastIff(os: seq<Outcome>, d: real, r: real, l: real)
    requires IsReward(Min, os, d, r) && IsLeast(l, Values(os))
    ensures r == l <==> l < FLT_MAX || l == d
  {}

  lemma {:induction false} SumBounds(vs: seq<real>, lo: real, hi: real)
    requires forall v :: v in vs ==> lo <= v <= hi
    ensures lo * (|vs| as real) <= Sum(vs) <= hi * (|vs| as real)
  {
    if vs != [] {
      var n := |vs| - 1;
      assert forall v :: v in vs[..n] ==> v in vs;
      SumBounds(vs[..n], lo, hi);
      assert vs[n] in vs;
      assert |vs| as real == n as real + 1.0;
      assert lo * (|vs| as real) == lo * (n as real) + lo;
      assert hi * (|vs| as real) == hi * (n as real) + hi;
    }
  }

  lemma MulStrict(a: real, b: real, n: real)
    requires n > 0.0
    ensures a < b ==> a * n < b * n
  {
    assert b * n - a * n == (b - a) * n;
  }

  lemma AverageBounds(vs: seq<real>, lo: real, hi: real)
    requires vs != [] && forall v :: v in vs ==> lo <= v <= hi
    ensures lo <= Sum(vs) / (|vs| as real) <= hi
  {
    SumBounds(vs, lo, hi);
    var n := |vs| as real;
    var q := Sum(vs) / n;
    assert Sum(vs) == q * n;
    MulStrict(q, lo, n);
    MulStrict(hi, q, n);
  }

  lemma MedianBounds(vs: seq<real>, m: real, lo: real, hi: real)
    requires vs != [] && IsMedian(m, vs) && forall v :: v in vs ==> lo <= v <= hi
    ensures lo <= m <= hi
  {
    hide Sort, Sorted;
    SortSorts(vs);
    var s, n := Sort(vs), |vs|;
    assert s[n / 2] in s && (n % 2 == 0 ==> s[n / 2 - 1] in s);
  }

  /** min <= median <= max and min <= average <= max, once some value clears each sentinel. */
  lemma RewardsOrdered(os: seq<Outcome>, d: real, min: real, max: real, median: real, average: real)
    requires IsReward(Min, os, d, min) && IsReward(Max, os, d, max)
    requires IsReward(Median, os, d, median) && IsReward(Average, os, d, average)
    requires exists v :: v in Values(os) && v < FLT_MAX
    requires exists v :: v in Values(os) && v > FLT_MIN
    ensures min <= median <= max && min <= average <= max
  {
    hide Values, Sum, Sort, Sorted, IsMedian;
    AverageBounds(Values(os), min, max);
    MedianBounds(Values(os), median, min, max);
  }

  // ---- What average and median measure ----------------------------------------------------------

  /** The average, once for each value, is the sum. */
  lemma AverageTimesCount(os: seq<Outcome>, d: real)
    requires Values(os) != []
    ensures RewardOf(Average, os, d) * (|Values(os)| as real) == RewardOf(SumAll, os, d)
  {
    hide Values, Sum;
  }

  /** How many values are below x. */
  function CountBelow(vs: seq<real>, x: real): nat {
    if vs == [] then 0 else CountBelow(vs[..|vs| - 1], x) + (if vs[|vs| - 1] < x then 1 else 0)
  }

  lemma {:induction false} CountDrop(vs: seq<real>, i: nat, x: real)
    requires i < |vs|
    ensures CountBelow(vs, x) == CountBelow(Without(vs, i), x) + (if vs[i] < x then 1 else 0)
  {
    var n := |vs| - 1;
    if i == n {
      WithoutLast(vs);
    } else {
      CountDrop(vs[..n], i, x);
      WithoutButLast(vs, i);
    }
  }

  lemma {:induction false} CountPermutation(a: seq<real>, b: seq<real>, x: real)
    requires multiset(a) == multiset(b)
    ensures CountBelow(a, x) == CountBelow(b, x)
  {
    if a == [] {
      Membership(b);
    } else {
      var i := MatchLast(a, b);
      CountPermutation(a[..|a| - 1], Without(b, i), x);
      CountDrop(b, i, x);
    }
  }

  lemma {:induction false} CountSorted(s: seq<real>, m: nat, x: real)
    requires m <= |s| && forall i :: m <= i < |s| ==> s[i] >= x
    ensures CountBelow(s, x) <= m
  {
    if s != [] {
      var n := |s| - 1;
      CountSorted(s[..n], if m < n then m else n, x);
    }
  }

  function Negated(vs: seq<real>): (r: seq<real>)
    ensures |r| == |vs| && forall i :: 0 <= i < |vs| ==> r[i] == -vs[i]
  {
    seq(|vs|, i requires 0 <= i < |vs| => -vs[i])
  }

  function Backward(vs: seq<real>): (r: seq<real>)
    ensures |r| == |vs| && forall i :: 0 <= i < |vs| ==> r[i] == vs[|vs| - 1 - i]
  {
    seq(|vs|, i requires 0 <= i < |vs| => vs[|vs| - 1 - i])
  }

  lemma {:induction false} NegatedElements(vs: seq<real>, x: real)
    ensures multiset(Negated(vs))[x] == multiset(vs)[-x]
  {
    if vs != [] {
      var n := |vs| - 1;
      NegatedElements(vs[..n], x);
      assert vs == vs[..n] + [vs[n]] && Negated(vs) == Negated(vs[..n]) + [-vs[n]];
    }
  }

  lemma {:induction false} BackwardElements(vs: seq<real>)
    ensures multiset(Backward(vs)) == multiset(vs)
  {
    if vs != [] {
      var n := |vs| - 1;
      BackwardElements(vs[..n]);
      assert vs == vs[..n] + [vs[n]] && Backward(vs) == [vs[n]] + Backward(vs[..n]);
    }
  }

  lemma SortNegated(vs: seq<real>)
    ensures Sort(Negated(vs)) == Backward(Negated(Sort(vs)))
  {
    hide Sort;
    SortSorts(vs);
    SortSorts(Negated(vs));
    var s := Backward(Negated(Sort(vs)));
    forall x ensures multiset(s)[x] == multiset(Negated(vs))[x] {
      BackwardElements(Negated(Sort(vs)));
      NegatedElements(Sort(vs), x);
      NegatedElements(vs, x);
    }
    assert multiset(s) == multiset(Negated(vs));
    SortedUnique(Sort(Negated(vs)), s);
  }

  lemma MedianNegated(vs: seq<real>, r: real)
    requires vs != [] && IsMedian(r, vs)
    ensures IsMedian(-r, Negated(vs))
  {
    SortNegated(vs);
    SortSorts(vs);
    hide Sort, Sorted;
  }

  lemma HalfBelow(vs: seq<real>, r: real)
    requires vs != [] && IsMedian(r, vs)
    ensures CountBelow(vs, r) <= |vs| / 2
  {
    SortSorts(vs);
    var s, n := Sort(vs), |vs|;
    assert forall i :: n / 2 <= i < n ==> s[i] >= s[n / 2];
    assert n % 2 == 0 ==> s[n / 2 - 1] <= s[n / 2];
    CountPermutation(s, vs, r);
    CountSorted(s, n / 2, r);
  }

  /** The median has at most half of the values below it and at most half above, and mirroring the values mirrors it,
      so that between two middle values it is halfway. */
  lemma MedianIsMiddle(os: seq<Outcome>, mirrored: seq<Outcome>, d: real)
    requires Values(os) != [] && Values(mirrored) == Negated(Values(os))
    ensures RewardOf(Median, mirrored, d) == -RewardOf(Median, os, d)
    ensures CountBelow(Values(os), RewardOf(Median, os, d)) <= |Values(os)| / 2
    ensures CountBelow(Negated(Values(os)), -RewardOf(Median, os, d)) <= |Values(os)| / 2
  {
    hide Values, IsMedian, CountBelow;
    var r := RewardOf(Median, os, d);
    MedianNegated(Values(os), r);
    RewardUnique(Median, mirrored, d, -r);
    HalfBelow(Values(os), r);
    HalfBelow(Negated(Values(os)), -r);
  }

  /** The sentinels are 2^128 - 2^104 and 2^-126, the largest and the smallest positive normal float. */
  lemma FloatLimits()
    ensures var p := 18446744073709551616.0;  // 2^64
            FLT_MAX == p * p - 1099511627776.0 * p && FLT_MIN * (p * 4611686018427387904.0) == 1.0
  {}
}
