/** What the trainer makes of a batch's dictionary event: process_dedup of example_joiner.cc, as a function
    of the cache, the pool of example objects and the event. */
module DedupReplay {
  import opened Common
  import opened Sequences
  import opened LruDedupCache

  /** What read_line_json does with one value: how many further examples it draws, and whether it returns. */
  datatype Reading = Reading(extra: nat, ok: bool)

  type Reader = string -> Reading

  datatype Payload = Payload(ids: seq<ObjectId>, values: seq<string>)

  /** Example objects are numbered in order of allocation; text is what each was last parsed from. */
  datatype Trainer = Trainer(order: seq<ObjectId>, examples: map<ObjectId, Example>, pool: seq<Example>,
                             created: nat, text: map<Example, string>)

  const FreshTrainer := Trainer([], map[], [], 0, map[])

  function Acquired(t: Trainer): Example { if t.pool == [] then t.created else t.pool[|t.pool| - 1] }

  function Acquire(t: Trainer): Trainer {
    if t.pool == [] then t.(created := t.created + 1) else t.(pool := t.pool[..|t.pool| - 1])
  }

  /** n examples drawn by the parser, and never returned. */
  function Draw(t: Trainer, n: nat): Trainer {
    if n == 0 then t else Acquire(Draw(t, n - 1))
  }

  /** One id of the payload: whether to go on, and the state after it. */
  function Use(read: Reader, t: Trainer, id: ObjectId, value: string): (bool, Trainer) {
    if id in t.examples then (true, t.(order := MoveToFront(t.order, id)))
    else
      var ex, reading := Acquired(t), read(value);
      var t' := Draw(Acquire(t), reading.extra);
      if !reading.ok then (false, t')
      else (true, t'.(order := [id] + t'.order, examples := t'.examples[id := ex], text := t'.text[ex := value]))
  }

  /** The ids one after the other, up to the first that does not parse. */
  function UseAll(read: Reader, t: Trainer, ids: seq<ObjectId>, values: seq<string>): (bool, Trainer)
    requires |ids| == |values|
  {
    if ids == [] then (true, t)
    else
      var n := |ids| - 1;
      var (ok, t') := UseAll(read, t, ids[..n], values[..n]);
      if ok then Use(read, t', ids[n], values[n]) else (false, t')
  }

  /** Everything used longer ago than first goes back to the pool. */
  function Evict(t: Trainer, first: ObjectId): Trainer
    requires forall id :: id in t.order ==> id in t.examples
  {
    var kept := UpTo(t.order, first);
    UpToPrefix(t.order, first);
    var dropped := t.order[|kept|..];
    t.(order := kept, examples := t.examples - Elements(dropped), pool := t.pool + ValuesAt(t.examples, dropped))
  }

  lemma {:induction false} UpToPrefix(order: seq<ObjectId>, id: ObjectId)
    ensures UpTo(order, id) <= order
    ensures forall x :: x in order[|UpTo(order, id)|..] ==> x in order
  {
    if order != [] && order[0] != id { UpToPrefix(order[1..], id); }
  }

  function ProcessDedup(read: Reader, t: Trainer, payload: Option<Payload>): (bool, Trainer)
    requires TrainerSound(t)
  {
    if payload.None? || |payload.value.ids| != |payload.value.values| then (false, t)
    else
      var Payload(ids, values) := payload.value;
      var (ok, t') := UseAll(read, t, ids, values);
      if !ok then (false, t')
      else if ids == [] then (true, t')
      else
        UseAllSound(read, t, ids, values);
        (true, Evict(t', ids[0]))
  }

  // ---- What every call keeps ----------------------------------------------------------------------

  predicate Cached(examples: map<ObjectId, Example>, ex: Example) { exists id :: id in examples && examples[id] == ex }

  /** No example is held twice, in the cache, in the pool or across them. */
  ghost predicate Owned(examples: map<ObjectId, Example>, pool: seq<Example>, created: nat, text: map<Example, string>) {
    && (forall a, b :: a in examples && b in examples && a != b ==> examples[a] != examples[b])
    && Distinct(pool)
    && (forall id :: id in examples ==> examples[id] < created && examples[id] !in pool && examples[id] in text)
    && (forall ex :: ex in pool ==> ex < created)
  }

  /** The list holds the cached ids, each once. */
  ghost predicate Listed(order: seq<ObjectId>, examples: map<ObjectId, Example>) {
    Distinct(order) && Elements(order) == examples.Keys
  }

  ghost predicate TrainerSound(t: Trainer) {
    Listed(t.order, t.examples) && Owned(t.examples, t.pool, t.created, t.text)
  }

  lemma AcquireSound(t: Trainer)
    requires TrainerSound(t)
    ensures TrainerSound(Acquire(t))
    ensures var ex := Acquired(t); ex < Acquire(t).created && ex !in Acquire(t).pool && !Cached(t.examples, ex)
    ensures t.created <= Acquire(t).created && forall ex :: ex in Acquire(t).pool ==> ex in t.pool
  {
    if t.pool != [] {
      var n := |t.pool| - 1;
      assert forall ex :: ex in t.pool[..n] ==> ex in t.pool;
      assert t.pool[n] in t.pool;
    }
  }

  /** What parsing leaves alone: the cache; and the pool only shrinks. */
  lemma {:induction false} DrawSound(t: Trainer, n: nat)
    requires TrainerSound(t)
    ensures TrainerSound(Draw(t, n))
    ensures Draw(t, n).order == t.order && Draw(t, n).examples == t.examples && Draw(t, n).text == t.text
    ensures Draw(t, n).created >= t.created && forall ex :: ex in Draw(t, n).pool ==> ex in t.pool
  {
    hide TrainerSound;
    if n > 0 {
      DrawSound(t, n - 1);
      AcquireSound(Draw(t, n - 1));
    }
  }

  lemma OwnedAdd(examples: map<ObjectId, Example>, pool: seq<Example>, created: nat, text: map<Example, string>,
                 id: ObjectId, ex: Example, value: string)
    requires Owned(examples, pool, created, text) && ex < created && ex !in pool && !Cached(examples, ex)
    ensures Owned(examples[id := ex], pool, created, text[ex := value])
  {}

  lemma ListedAdd(order: seq<ObjectId>, examples: map<ObjectId, Example>, id: ObjectId, ex: Example)
    requires Listed(order, examples) && id !in examples
    ensures Listed([id] + order, examples[id := ex]) && MoveToFront(order, id) == [id] + order
  {
    assert id !in Elements(order);
    MinusAbsent(order, id);
    MoveToFrontElements(order, id);
  }

  lemma ListedMove(order: seq<ObjectId>, examples: map<ObjectId, Example>, id: ObjectId)
    requires Listed(order, examples) && id in examples
    ensures Listed(MoveToFront(order, id), examples)
  {
    assert id in Elements(order);
    MoveToFrontElements(order, id);
    assert Elements(order) + {id} == Elements(order);
  }

  lemma UseSound(read: Reader, t: Trainer, id: ObjectId, value: string)
    requires TrainerSound(t)
    ensures var (ok, t') := Use(read, t, id, value);
            && TrainerSound(t')
            && (ok ==> t'.order == MoveToFront(t.order, id) && t'.examples.Keys == t.examples.Keys + {id})
            && (!ok ==> t'.order == t.order && t'.examples == t.examples)
  {
    hide Listed, Owned, MoveToFront, Cached, Acquired;
    if id in t.examples {
      ListedMove(t.order, t.examples, id);
      assert t.examples.Keys + {id} == t.examples.Keys;
    } else {
      AcquireSound(t);
      AcquireKeeps(t);
      var ex, t1 := Acquired(t), Draw(Acquire(t), read(value).extra);
      DrawSound(Acquire(t), read(value).extra);
      ListedAdd(t.order, t.examples, id, ex);
      OwnedAdd(t1.examples, t1.pool, t1.created, t1.text, id, ex, value);
    }
  }

  lemma AcquireKeeps(t: Trainer)
    ensures Acquire(t).order == t.order && Acquire(t).examples == t.examples && Acquire(t).text == t.text
  {}

  /** The order after using ids in sequence. */
  function Touched(order: seq<ObjectId>, ids: seq<ObjectId>): seq<ObjectId> {
    if ids == [] then order else MoveToFront(Touched(order, ids[..|ids| - 1]), ids[|ids| - 1])
  }

  lemma {:induction false} UseAllSound(read: Reader, t: Trainer, ids: seq<ObjectId>, values: seq<string>)
    requires TrainerSound(t) && |ids| == |values|
    ensures var (ok, t') := UseAll(read, t, ids, values);
            && TrainerSound(t') && (forall id :: id in t'.order ==> id in t'.examples)
            && (ok ==> t'.order == Touched(t.order, ids) && forall id :: id in ids ==> id in t'.examples)
  {
    hide TrainerSound, Use, MoveToFront;
    if ids != [] {
      var n := |ids| - 1;
      UseAllSound(read, t, ids[..n], values[..n]);
      var (ok, t') := UseAll(read, t, ids[..n], values[..n]);
      if ok {
        UseSound(read, t', ids[n], values[n]);
        assert ids == ids[..n] + [ids[n]];
      }
    }
    SoundOrder(UseAll(read, t, ids, values).1);
  }

  lemma SoundOrder(t: Trainer)
    requires TrainerSound(t)
    ensures forall id :: id in t.order <==> id in t.examples
  {
    assert forall id :: id in t.order <==> id in Elements(t.order);
  }

  lemma OwnedRelease(examples: map<ObjectId, Example>, pool: seq<Example>, created: nat, text: map<Example, string>, dropped: seq<ObjectId>)
    requires Owned(examples, pool, created, text) && Distinct(dropped) && forall id :: id in dropped ==> id in examples
    ensures Owned(examples - Elements(dropped), pool + ValuesAt(examples, dropped), created, text)
  {
    var released := ValuesAt(examples, dropped);
    assert forall i :: 0 <= i < |dropped| ==> dropped[i] in dropped && released[i] !in pool;
    assert forall i, j :: 0 <= i < j < |dropped| ==> released[i] != released[j];
    var all := pool + released;
    forall i, j | 0 <= i < j < |all| ensures all[i] != all[j] {
      assert i < |pool| ==> all[i] == pool[i] && pool[i] in pool;
      assert j >= |pool| ==> all[j] == released[j - |pool|];
      assert i >= |pool| ==> all[i] == released[i - |pool|];
    }
    forall id | id in examples - Elements(dropped) ensures examples[id] !in released {
      assert forall i :: 0 <= i < |dropped| ==> dropped[i] in Elements(dropped) && dropped[i] != id;
    }
  }

  lemma EvictSound(t: Trainer, first: ObjectId)
    requires TrainerSound(t) && forall id :: id in t.order ==> id in t.examples
    ensures TrainerSound(Evict(t, first))
    ensures Evict(t, first).examples.Keys == Elements(UpTo(t.order, first))
  {
    UpToPrefix(t.order, first);
    var kept := UpTo(t.order, first);
    var dropped := t.order[|kept|..];
    assert t.order[..|kept|] == kept;
    DistinctSplit(t.order, |kept|);
    OwnedRelease(t.examples, t.pool, t.created, t.text, dropped);
    hide Owned, UpTo, Distinct, Elements;
    assert (t.examples - Elements(dropped)).Keys == t.examples.Keys - Elements(dropped);
  }

  /** The pool is a stack: the example returned last is the next one used. */
  lemma ReturnedIsNext(t: Trainer, ex: Example)
    ensures var t' := t.(pool := t.pool + [ex]); Acquired(t') == ex && Acquire(t') == t
  {
    assert (t.pool + [ex])[..|t.pool|] == t.pool;
  }

  /** Any dictionary event, good or bad, leaves a sound state. */
  lemma ProcessDedupSound(read: Reader, t: Trainer, payload: Option<Payload>)
    requires TrainerSound(t)
    ensures TrainerSound(ProcessDedup(read, t, payload).1)
  {
    hide TrainerSound, Use, Evict;
    if payload.Some? && |payload.value.ids| == |payload.value.values| {
      UseAllSound(read, t, payload.value.ids, payload.value.values);
      var (ok, t') := UseAll(read, t, payload.value.ids, payload.value.values);
      if ok && payload.value.ids != [] { EvictSound(t', payload.value.ids[0]); }
    }
  }

  // ---- What is left after a successful call -------------------------------------------------------

  function MinusAll(order: seq<ObjectId>, ids: seq<ObjectId>): seq<ObjectId> {
    if ids == [] then order else Minus(MinusAll(order, ids[..|ids| - 1]), ids[|ids| - 1])
  }

  lemma {:induction false} MinusConcat(a: seq<ObjectId>, b: seq<ObjectId>, id: ObjectId)
    ensures Minus(a + b, id) == Minus(a, id) + Minus(b, id)
  {
    hide Minus;
    if a == [] {
      MinusUnfold(a, id);
      assert a + b == b;
    } else {
      MinusConcat(a[1..], b, id);
      assert (a + b)[1..] == a[1..] + b;
      MinusUnfold(a, id);
      MinusUnfold(a + b, id);
    }
  }

  lemma MinusUnfold(order: seq<ObjectId>, id: ObjectId)
    ensures order == [] ==> Minus(order, id) == []
    ensures order != [] ==> Minus(order, id) == (if order[0] == id then [] else [order[0]]) + Minus(order[1..], id)
  {}

  /** The ids used come first, in an order of their own; the others follow as they were. */
  lemma {:induction false} TouchedOnto(order: seq<ObjectId>, ids: seq<ObjectId>)
    ensures Touched(order, ids) == Touched([], ids) + MinusAll(order, ids)
  {
    if ids != [] {
      var before, last := ids[..|ids| - 1], ids[|ids| - 1];
      TouchedOnto(order, before);
      MinusConcat(Touched([], before), MinusAll(order, before), last);
    }
  }

  lemma {:induction false} TouchedSplit(order: seq<ObjectId>, a: seq<ObjectId>, b: seq<ObjectId>)
    ensures Touched(order, a + b) == Touched(Touched(order, a), b)
  {
    if b == [] {
      assert a + b == a;
    } else {
      TouchedSplit(order, a, b[..|b| - 1]);
      assert (a + b)[..|a + b| - 1] == a + b[..|b| - 1];
    }
  }

  lemma {:induction false} MinusAllSingle(x: ObjectId, ids: seq<ObjectId>)
    requires x !in ids
    ensures MinusAll([x], ids) == [x]
  {
    if ids != [] {
      MinusAllSingle(x, ids[..|ids| - 1]);
      MinusAbsent([x], ids[|ids| - 1]);
    }
  }

  lemma {:induction false} TouchedElements(ids: seq<ObjectId>)
    ensures Distinct(Touched([], ids)) && Elements(Touched([], ids)) == Elements(ids)
  {
    if ids != [] {
      var n := |ids| - 1;
      TouchedElements(ids[..n]);
      MoveToFrontElements(Touched([], ids[..n]), ids[n]);
      assert ids == ids[..n] + [ids[n]];
    }
  }

  /** m is where ids holds its first element for the last time. */
  predicate LastOfFirst(ids: seq<ObjectId>, m: nat) {
    m < |ids| && ids[m] == ids[0] && ids[0] !in ids[m + 1..]
  }

  lemma {:induction false} UpToEnd(a: seq<ObjectId>, x: ObjectId, b: seq<ObjectId>)
    requires x !in a
    ensures UpTo(a + [x] + b, x) == a + [x]
  {
    if a == [] {
      assert a + [x] + b == [x] + b;
    } else {
      UpToEnd(a[1..], x, b);
      assert (a + [x] + b)[1..] == a[1..] + [x] + b;
    }
  }

  /** What the eviction leaves of any former order: the ids from the last use of the first one on. */
  lemma EvictionLeaves(order: seq<ObjectId>, ids: seq<ObjectId>, m: nat)
    requires LastOfFirst(ids, m)
    ensures UpTo(Touched(order, ids), ids[0]) == Touched([], ids[m..])
    ensures Touched([], ids[m..]) == Touched([], ids[m + 1..]) + [ids[0]]
  {
    hide MoveToFront;
    var x, rest := ids[0], ids[m + 1..];
    var before := Touched(order, ids[..m]);
    assert ids == ids[..m] + ids[m..];
    TouchedSplit(order, ids[..m], ids[m..]);
    TouchedOnto(before, ids[m..]);
    assert ids[m..] == [x] + rest;
    TouchedSplit([], [x], rest);
    TouchedSingle(x);
    TouchedOnto([x], rest);
    MinusAllSingle(x, rest);
    TouchedElements(rest);
    assert x !in Elements(rest) && x !in Touched([], rest);
    UpToEnd(Touched([], rest), x, MinusAll(before, ids[m..]));
  }

  lemma TouchedSingle(x: ObjectId)
    ensures Touched([], [x]) == [x]
  {
    assert [x][..0] == [];
  }

  function Reverse<T>(s: seq<T>): seq<T> { if s == [] then [] else [s[|s| - 1]] + Reverse(s[..|s| - 1]) }

  lemma {:induction false} TouchedDistinct(ids: seq<ObjectId>)
    requires Distinct(ids)
    ensures Touched([], ids) == Reverse(ids)
  {
    if ids != [] {
      var n := |ids| - 1;
      TouchedDistinct(ids[..n]);
      TouchedElements(ids[..n]);
      assert ids[n] !in Elements(ids[..n]);
      assert ids[n] !in Touched([], ids[..n]) by { assert Touched([], ids[..n]) == Reverse(ids[..n]); }
      MinusAbsent(Touched([], ids[..n]), ids[n]);
    }
  }

  /** A successful call leaves exactly the ids of the payload from the last use of its first id on,
      whatever the cache held before. */
  lemma ProcessDedupLeaves(read: Reader, t: Trainer, payload: Payload, m: nat)
    requires TrainerSound(t) && ProcessDedup(read, t, Some(payload)).0 && LastOfFirst(payload.ids, m)
    ensures var t' := ProcessDedup(read, t, Some(payload)).1;
            t'.order == Touched([], payload.ids[m..]) && t'.examples.Keys == Elements(payload.ids[m..])
  {
    hide TrainerSound, Use, Evict, Touched, UpTo;
    UseAllSound(read, t, payload.ids, payload.values);
    var t1 := UseAll(read, t, payload.ids, payload.values).1;
    EvictSound(t1, payload.ids[0]);
    EvictionLeaves(t.order, payload.ids, m);
    TouchedElements(payload.ids[m..]);
    EvictOrder(t1, payload.ids[0]);
  }

  lemma EvictOrder(t: Trainer, first: ObjectId)
    requires forall id :: id in t.order ==> id in t.examples
    ensures Evict(t, first).order == UpTo(t.order, first)
  {}

  /** With unique ids, as a dictionary has: the list is the payload reversed, and the cache is the payload. */
  lemma ProcessDedupReplaces(read: Reader, t: Trainer, payload: Payload)
    requires TrainerSound(t) && ProcessDedup(read, t, Some(payload)).0
    requires payload.ids != [] && Distinct(payload.ids)
    ensures var t' := ProcessDedup(read, t, Some(payload)).1;
            t'.order == Reverse(payload.ids) && t'.examples.Keys == Elements(payload.ids)
  {
    hide TrainerSound, ProcessDedup, Touched, Reverse;
    assert LastOfFirst(payload.ids, 0) && payload.ids[0..] == payload.ids;
    ProcessDedupLeaves(read, t, payload, 0);
    TouchedDistinct(payload.ids);
  }

  /** With repeated ids the payload survives whole exactly when every id is used again after, or is, the
      last use of the first one. */
  lemma ProcessDedupKeepsAllIff(read: Reader, t: Trainer, payload: Payload, m: nat)
    requires TrainerSound(t) && ProcessDedup(read, t, Some(payload)).0 && LastOfFirst(payload.ids, m)
    ensures ProcessDedup(read, t, Some(payload)).1.examples.Keys == Elements(payload.ids)
            <==> forall id :: id in payload.ids ==> id in payload.ids[m..]
  {
    hide TrainerSound, ProcessDedup, Touched;
    ProcessDedupLeaves(read, t, payload, m);
    assert forall id :: id in payload.ids[m..] ==> id in payload.ids;
    assert forall id :: id in Elements(payload.ids) <==> id in payload.ids;
    assert forall id :: id in Elements(payload.ids[m..]) <==> id in payload.ids[m..];
  }

  /** The ids 1, 2, 1: the second use of 1 puts 2 behind it, and 2 is evicted. */
  lemma RepeatedIdLost(read: Reader, t: Trainer, values: seq<string>)
    requires TrainerSound(t) && ProcessDedup(read, t, Some(Payload([1, 2, 1], values))).0
    ensures ProcessDedup(read, t, Some(Payload([1, 2, 1], values))).1.order == [1]
  {
    hide TrainerSound, ProcessDedup;
    var ids: seq<ObjectId> := [1, 2, 1];
    assert ids[2..] == [1] && ids[3..] == [];
    ProcessDedupLeaves(read, t, Payload(ids, values), 2);
    TouchedSingle(1);
  }

  /** An empty dictionary evicts nothing. */
  lemma EmptyPayloadKeepsCache(read: Reader, t: Trainer)
    requires TrainerSound(t)
    ensures ProcessDedup(read, t, Some(Payload([], []))) == (true, t)
  {}

  // ---- Where the example objects are --------------------------------------------------------------

  /** The examples created that neither the cache nor the pool holds. */
  ghost function Lost(t: Trainer): set<Example> {
    set ex: Example | 0 <= ex < t.created && !Cached(t.examples, ex) && ex !in t.pool
  }

  /** The examples that n draws take. */
  function Drawn(t: Trainer, n: nat): set<Example> {
    if n == 0 then {} else Drawn(t, n - 1) + {Acquired(Draw(t, n - 1))}
  }

  /** The examples one use loses: those the parser draws, and the one whose value does not parse. */
  function Waste(read: Reader, t: Trainer, id: ObjectId, value: string): set<Example> {
    if id in t.examples then {}
    else Drawn(Acquire(t), read(value).extra) + (if read(value).ok then {} else {Acquired(t)})
  }

  function WasteAll(read: Reader, t: Trainer, ids: seq<ObjectId>, values: seq<string>): set<Example>
    requires |ids| == |values|
  {
    if ids == [] then {}
    else
      var n := |ids| - 1;
      var (ok, t') := UseAll(read, t, ids[..n], values[..n]);
      WasteAll(read, t, ids[..n], values[..n]) + (if ok then Waste(read, t', ids[n], values[n]) else {})
  }

  lemma AcquireLoses(t: Trainer)
    requires TrainerSound(t)
    ensures Lost(Acquire(t)) == Lost(t) + {Acquired(t)} && Acquired(t) !in Lost(t)
  {
    AcquireSound(t);
    if t.pool != [] {
      var n := |t.pool| - 1;
      assert forall ex :: ex in t.pool <==> ex in t.pool[..n] || ex == t.pool[n];
    }
  }

  lemma {:induction false} DrawLoses(t: Trainer, n: nat)
    requires TrainerSound(t)
    ensures Lost(Draw(t, n)) == Lost(t) + Drawn(t, n) && Lost(t) !! Drawn(t, n)
  {
    hide TrainerSound, Lost;
    if n > 0 {
      DrawLoses(t, n - 1);
      DrawSound(t, n - 1);
      AcquireLoses(Draw(t, n - 1));
    }
  }

  /** A cached example is not lost. */
  lemma CacheFinds(t: Trainer, id: ObjectId, ex: Example, order: seq<ObjectId>, text: map<Example, string>)
    requires id !in t.examples
    ensures Lost(t.(order := order, examples := t.examples[id := ex], text := text)) == Lost(t) - {ex}
  {
    var m := t.examples[id := ex];
    forall x ensures Cached(m, x) <==> Cached(t.examples, x) || x == ex {
      assert id in m && m[id] == ex;
      if Cached(t.examples, x) {
        var i :| i in t.examples && t.examples[i] == x;
        assert m[i] == x;
      }
    }
  }

  lemma OrderAside(t: Trainer, order: seq<ObjectId>)
    ensures Lost(t.(order := order)) == Lost(t)
  {}

  lemma UseLoses(read: Reader, t: Trainer, id: ObjectId, value: string)
    requires TrainerSound(t)
    ensures Lost(Use(read, t, id, value).1) == Lost(t) + Waste(read, t, id, value)
    ensures Lost(t) !! Waste(read, t, id, value)
  {
    hide TrainerSound, Lost, Draw, Drawn, Acquire, Acquired, MoveToFront;
    if id in t.examples {
      OrderAside(t, MoveToFront(t.order, id));
    } else {
      AcquireSound(t);
      AcquireLoses(t);
      AcquireKeeps(t);
      DrawLoses(Acquire(t), read(value).extra);
      DrawSound(Acquire(t), read(value).extra);
      var ex, t1 := Acquired(t), Draw(Acquire(t), read(value).extra);
      CacheFinds(t1, id, ex, [id] + t1.order, t1.text[ex := value]);
    }
  }

  lemma {:induction false} UseAllLoses(read: Reader, t: Trainer, ids: seq<ObjectId>, values: seq<string>)
    requires TrainerSound(t) && |ids| == |values|
    ensures Lost(UseAll(read, t, ids, values).1) == Lost(t) + WasteAll(read, t, ids, values)
    ensures Lost(t) !! WasteAll(read, t, ids, values)
  {
    hide TrainerSound, Lost, Use, Waste;
    if ids != [] {
      var n := |ids| - 1;
      UseAllLoses(read, t, ids[..n], values[..n]);
      UseAllSound(read, t, ids[..n], values[..n]);
      UseLoses(read, UseAll(read, t, ids[..n], values[..n]).1, ids[n], values[n]);
    }
  }

  /** What leaves the cache for the pool is not lost. */
  lemma ReleaseLosesNothing(t: Trainer, order: seq<ObjectId>, dropped: seq<ObjectId>)
    requires forall id :: id in dropped ==> id in t.examples
    ensures Lost(t.(order := order, examples := t.examples - Elements(dropped), pool := t.pool + ValuesAt(t.examples, dropped))) == Lost(t)
  {
    var m, released := t.examples - Elements(dropped), ValuesAt(t.examples, dropped);
    forall x ensures Cached(m, x) || x in released <==> Cached(t.examples, x) {
      if x in released {
        var i :| 0 <= i < |released| && released[i] == x;
        assert dropped[i] in dropped && t.examples[dropped[i]] == x;
      }
      if Cached(t.examples, x) {
        var id :| id in t.examples && t.examples[id] == x;
        if id in dropped {
          var i :| 0 <= i < |dropped| && dropped[i] == id;
          assert released[i] == x;
        } else {
          assert m[id] == x;
        }
      }
    }
  }

  lemma EvictLosesNothing(t: Trainer, first: ObjectId)
    requires TrainerSound(t) && forall id :: id in t.order ==> id in t.examples
    ensures Lost(Evict(t, first)) == Lost(t)
  {
    hide TrainerSound, Lost;
    UpToPrefix(t.order, first);
    ReleaseLosesNothing(t, UpTo(t.order, first), t.order[|UpTo(t.order, first)|..]);
  }

  /** The examples a call loses are those its parser draws for itself and those of the values that do not parse;
      eviction returns every example it drops. */
  lemma ProcessDedupLoses(read: Reader, t: Trainer, payload: Payload)
    requires TrainerSound(t) && |payload.ids| == |payload.values|
    ensures Lost(ProcessDedup(read, t, Some(payload)).1) == Lost(t) + WasteAll(read, t, payload.ids, payload.values)
    ensures Lost(t) !! WasteAll(read, t, payload.ids, payload.values)
  {
    hide TrainerSound, Use, Evict, Lost, WasteAll;
    UseAllSound(read, t, payload.ids, payload.values);
    UseAllLoses(read, t, payload.ids, payload.values);
    var (ok, t') := UseAll(read, t, payload.ids, payload.values);
    if ok && payload.ids != [] { EvictLosesNothing(t', payload.ids[0]); }
  }

  /** So when every value parses into its one example, no example is lost, and the call gets through. */
  lemma {:induction false} CleanReadsLoseNothing(read: Reader, t: Trainer, ids: seq<ObjectId>, values: seq<string>)
    requires |ids| == |values| && forall v :: v in values ==> read(v) == Reading(0, true)
    ensures WasteAll(read, t, ids, values) == {} && UseAll(read, t, ids, values).0
  {
    if ids != [] {
      var n := |ids| - 1;
      assert forall v :: v in values[..n] ==> v in values;
      CleanReadsLoseNothing(read, t, ids[..n], values[..n]);
    }
  }

  // ---- A whole run --------------------------------------------------------------------------------

  /** The trainer after a series of dictionary events, each processed well or badly. */
  function Replay(read: Reader, payloads: seq<Option<Payload>>): (t: Trainer)
    ensures TrainerSound(t)
  {
    if payloads == [] then StartSound(); FreshTrainer
    else
      var t := Replay(read, payloads[..|payloads| - 1]);
      ProcessDedupSound(read, t, payloads[|payloads| - 1]);
      ProcessDedup(read, t, payloads[|payloads| - 1]).1
  }

  lemma StartSound()
    ensures TrainerSound(FreshTrainer)
  {
    EmptyListed();
  }

  predicate WellSized(payload: Option<Payload>) { payload.Some? && |payload.value.ids| == |payload.value.values| }

  /** All examples lost over a series of events. */
  function WasteOver(read: Reader, payloads: seq<Option<Payload>>): set<Example> {
    if payloads == [] then {}
    else
      var before, last := payloads[..|payloads| - 1], payloads[|payloads| - 1];
      WasteOver(read, before) + (if WellSized(last) then WasteAll(read, Replay(read, before), last.value.ids, last.value.values) else {})
  }

  lemma {:induction false} ReplayLoses(read: Reader, payloads: seq<Option<Payload>>)
    ensures Lost(Replay(read, payloads)) == WasteOver(read, payloads)
  {
    hide TrainerSound, ProcessDedup, WasteAll;
    if payloads != [] {
      var before, last := payloads[..|payloads| - 1], payloads[|payloads| - 1];
      ReplayLoses(read, before);
      hide Lost;
      if WellSized(last) {
        ProcessDedupLoses(read, Replay(read, before), last.value);
      } else {
        RejectedKeeps(read, Replay(read, before), last);
      }
    }
  }

  lemma RejectedKeeps(read: Reader, t: Trainer, payload: Option<Payload>)
    requires TrainerSound(t) && !WellSized(payload)
    ensures ProcessDedup(read, t, payload).1 == t
  {}

  // ---- When nothing is lost -----------------------------------------------------------------------

  lemma WasteIff(read: Reader, t: Trainer, id: ObjectId, value: string)
    ensures Waste(read, t, id, value) == {} <==> id in t.examples || read(value) == Reading(0, true)
  {
    hide Acquire, Acquired, Draw;
    if read(value).extra > 0 {
      assert Acquired(Draw(Acquire(t), read(value).extra - 1)) in Drawn(Acquire(t), read(value).extra);
    }
  }

  /** Every value that is read, for want of a cached example, parses into its one example. */
  predicate ReadsClean(read: Reader, cached: set<ObjectId>, ids: seq<ObjectId>, values: seq<string>)
    requires |ids| == |values|
  {
    forall i :: 0 <= i < |ids| ==> ids[i] in cached || ids[i] in ids[..i] || read(values[i]) == Reading(0, true)
  }

  lemma {:induction false} UsedKeys(read: Reader, t: Trainer, ids: seq<ObjectId>, values: seq<string>)
    requires TrainerSound(t) && |ids| == |values| && UseAll(read, t, ids, values).0
    ensures forall id :: id in UseAll(read, t, ids, values).1.examples <==> id in t.examples || id in ids
  {
    hide TrainerSound, Use, MoveToFront;
    if ids != [] {
      var n := |ids| - 1;
      UsedKeys(read, t, ids[..n], values[..n]);
      UseAllSound(read, t, ids[..n], values[..n]);
      UseSound(read, UseAll(read, t, ids[..n], values[..n]).1, ids[n], values[n]);
      assert ids == ids[..n] + [ids[n]];
    }
  }

  lemma ReadsCleanLast(read: Reader, cached: set<ObjectId>, ids: seq<ObjectId>, values: seq<string>)
    requires |ids| == |values| > 0
    ensures var n := |ids| - 1;
            ReadsClean(read, cached, ids, values) <==>
              && ReadsClean(read, cached, ids[..n], values[..n])
              && (ids[n] in cached || ids[n] in ids[..n] || read(values[n]) == Reading(0, true))
  {
    var n := |ids| - 1;
    assert forall i :: 0 <= i < n ==> ids[..n][i] == ids[i] && values[..n][i] == values[i] && ids[..n][..i] == ids[..i];
  }

  /** A call loses nothing exactly when it reads clean; and then it gets through. */
  lemma {:induction false} WasteAllIff(read: Reader, t: Trainer, ids: seq<ObjectId>, values: seq<string>)
    requires TrainerSound(t) && |ids| == |values|
    ensures WasteAll(read, t, ids, values) == {} <==> ReadsClean(read, t.examples.Keys, ids, values)
    ensures WasteAll(read, t, ids, values) == {} ==> UseAll(read, t, ids, values).0
  {
    hide TrainerSound, ReadsClean, Waste, Use;
    if ids == [] {
      ReadsNone(read, t.examples.Keys);
    } else {
      var n := |ids| - 1;
      WasteAllIff(read, t, ids[..n], values[..n]);
      ReadsCleanLast(read, t.examples.Keys, ids, values);
      var (ok, t') := UseAll(read, t, ids[..n], values[..n]);
      if ok {
        UsedKeys(read, t, ids[..n], values[..n]);
        WasteIff(read, t', ids[n], values[n]);
        UseOk(read, t', ids[n], values[n]);
      }
    }
  }

  /** Every value that is read, for want of a cached example, parses. */
  predicate ReadsParse(read: Reader, cached: set<ObjectId>, ids: seq<ObjectId>, values: seq<string>)
    requires |ids| == |values|
  {
    forall i :: 0 <= i < |ids| ==> ids[i] in cached || ids[i] in ids[..i] || read(values[i]).ok
  }

  lemma ReadsParseLast(read: Reader, cached: set<ObjectId>, ids: seq<ObjectId>, values: seq<string>)
    requires |ids| == |values| > 0
    ensures var n := |ids| - 1;
            ReadsParse(read, cached, ids, values) <==>
              && ReadsParse(read, cached, ids[..n], values[..n])
              && (ids[n] in cached || ids[n] in ids[..n] || read(values[n]).ok)
  {
    var n := |ids| - 1;
    assert forall i :: 0 <= i < n ==> ids[..n][i] == ids[i] && values[..n][i] == values[i] && ids[..n][..i] == ids[..i];
  }

  lemma ReadsParseNone(read: Reader, cached: set<ObjectId>)
    ensures ReadsParse(read, cached, [], [])
  {}

  /** When process_dedup gets through: ids and values pair up, and every value that is read parses. */
  lemma ProcessedIff(read: Reader, t: Trainer, payload: Option<Payload>)
    requires TrainerSound(t)
    ensures !WellSized(payload) ==> !ProcessDedup(read, t, payload).0
    ensures WellSized(payload) ==>
              (ProcessDedup(read, t, payload).0 <==> ReadsParse(read, t.examples.Keys, payload.value.ids, payload.value.values))
  {
    hide TrainerSound, UseAll, Evict, ReadsParse;
    if WellSized(payload) { UseAllIff(read, t, payload.value.ids, payload.value.values); }
  }

  lemma {:induction false} UseAllIff(read: Reader, t: Trainer, ids: seq<ObjectId>, values: seq<string>)
    requires TrainerSound(t) && |ids| == |values|
    ensures UseAll(read, t, ids, values).0 <==> ReadsParse(read, t.examples.Keys, ids, values)
  {
    hide TrainerSound, Use, ReadsParse;
    if ids == [] {
      ReadsParseNone(read, t.examples.Keys);
    } else {
      var n := |ids| - 1;
      UseAllIff(read, t, ids[..n], values[..n]);
      ReadsParseLast(read, t.examples.Keys, ids, values);
      var (ok, t') := UseAll(read, t, ids[..n], values[..n]);
      if ok {
        UsedKeys(read, t, ids[..n], values[..n]);
        UseOk(read, t', ids[n], values[n]);
      }
    }
  }

  lemma ReadsNone(read: Reader, cached: set<ObjectId>)
    ensures ReadsClean(read, cached, [], [])
  {}

  lemma UseOk(read: Reader, t: Trainer, id: ObjectId, value: string)
    ensures Use(read, t, id, value).0 <==> id in t.examples || read(value).ok
  {}

  /** Where ids holds its first element for the last time. */
  function LastUse(ids: seq<ObjectId>): (m: nat)
    requires ids != []
    ensures LastOfFirst(ids, m)
  {
    LastAt(ids, ids[0])
  }

  function LastAt(ids: seq<ObjectId>, x: ObjectId): (m: nat)
    requires x in ids
    ensures m < |ids| && ids[m] == x && x !in ids[m + 1..]
  {
    var n := |ids| - 1;
    if ids[n] == x then n
    else
      assert ids == ids[..n] + [ids[n]];
      var m := LastAt(ids[..n], x);
      assert ids[m + 1..] == ids[..n][m + 1..] + [ids[n]];
      m
  }

  /** The ids cached after a series of events that get through, or are rejected whole. */
  function CachedAfter(payloads: seq<Option<Payload>>): set<ObjectId> {
    if payloads == [] then {}
    else
      var last := payloads[|payloads| - 1];
      if WellSized(last) && last.value.ids != [] then Elements(last.value.ids[LastUse(last.value.ids)..])
      else CachedAfter(payloads[..|payloads| - 1])
  }

  /** Every event reads clean, given what the ones before it leave cached. */
  predicate RunReadsClean(read: Reader, payloads: seq<Option<Payload>>) {
    forall k :: 0 <= k < |payloads| && WellSized(payloads[k]) ==>
      ReadsClean(read, CachedAfter(payloads[..k]), payloads[k].value.ids, payloads[k].value.values)
  }

  lemma RunLast(read: Reader, payloads: seq<Option<Payload>>)
    requires payloads != []
    ensures var before, last := payloads[..|payloads| - 1], payloads[|payloads| - 1];
            RunReadsClean(read, payloads) <==>
              && RunReadsClean(read, before)
              && (WellSized(last) ==> ReadsClean(read, CachedAfter(before), last.value.ids, last.value.values))
  {
    hide ReadsClean, CachedAfter, WellSized;
    var n := |payloads| - 1;
    assert forall k :: 0 <= k < n ==> payloads[..n][k] == payloads[k] && payloads[..n][..k] == payloads[..k];
  }

  lemma CleanStepKeys(read: Reader, t: Trainer, payload: Option<Payload>)
    requires TrainerSound(t) && WellSized(payload) && WasteAll(read, t, payload.value.ids, payload.value.values) == {}
    ensures ProcessDedup(read, t, payload).1.examples.Keys
              == if payload.value.ids == [] then t.examples.Keys else Elements(payload.value.ids[LastUse(payload.value.ids)..])
  {
    var Payload(ids, values) := payload.value;
    WasteAllIff(read, t, ids, values);
    hide TrainerSound, WasteAll, Evict;
    if ids != [] {
      ProcessedOk(read, t, payload.value);
      ProcessDedupLeaves(read, t, payload.value, LastUse(ids));
    }
  }

  lemma ProcessedOk(read: Reader, t: Trainer, payload: Payload)
    requires TrainerSound(t) && |payload.ids| == |payload.values| && UseAll(read, t, payload.ids, payload.values).0
    ensures ProcessDedup(read, t, Some(payload)).0
  {
    hide TrainerSound, UseAll, Evict;
  }

  /** A run loses nothing exactly when every event of it reads clean. */
  lemma {:induction false} WasteOverIff(read: Reader, payloads: seq<Option<Payload>>)
    ensures WasteOver(read, payloads) == {} <==> RunReadsClean(read, payloads)
    ensures WasteOver(read, payloads) == {} ==> Replay(read, payloads).examples.Keys == CachedAfter(payloads)
  {
    hide ProcessDedup, WasteAll, ReadsClean, TrainerSound, LastUse, RunReadsClean;
    if payloads == [] {
      NoneRun(read);
    } else {
      var before, last := payloads[..|payloads| - 1], payloads[|payloads| - 1];
      WasteOverIff(read, before);
      RunLast(read, payloads);
      var t := Replay(read, before);
      if WellSized(last) {
        WasteAllIff(read, t, last.value.ids, last.value.values);
        if WasteOver(read, payloads) == {} { CleanStepKeys(read, t, last); }
      } else {
        RejectedKeeps(read, t, last);
      }
    }
  }

  lemma NoneRun(read: Reader)
    ensures RunReadsClean(read, [])
  {}

  /** Over any run, every example ever created is in exactly one place, the cache or the pool, if and only if every
      value that was read, its id being neither cached nor earlier in its event, parsed into its one example; and
      whatever was lost, the two never share an example. */
  lemma OwnershipIff(read: Reader, payloads: seq<Option<Payload>>)
    ensures var t := Replay(read, payloads);
            && (forall ex: Example :: !(Cached(t.examples, ex) && ex in t.pool))
            && (forall ex: Example :: Cached(t.examples, ex) || ex in t.pool ==> ex < t.created)
            && ((forall ex: Example :: ex < t.created ==> Cached(t.examples, ex) || ex in t.pool) <==> RunReadsClean(read, payloads))
  {
    hide WasteOver, Replay, Listed, RunReadsClean;
    var t := Replay(read, payloads);
    ReplayLoses(read, payloads);
    WasteOverIff(read, payloads);
    if ex: Example :| ex < t.created && !Cached(t.examples, ex) && ex !in t.pool {
      assert ex in Lost(t);
    }
  }

  /** One value that parses into two examples: the event gets through, and the second example is in neither place. */
  lemma ExampleLostExample(read: Reader, id: ObjectId, value: string)
    requires read(value) == Reading(1, true)
    ensures TrainerSound(FreshTrainer)
    ensures var (ok, t) := ProcessDedup(read, FreshTrainer, Some(Payload([id], [value])));
            ok && t.created == 2 && !Cached(t.examples, 1) && 1 !in t.pool
  {
    StartSound();
    var ids: seq<ObjectId>, values := [id], [value];
    assert ids[..0] == [] && values[..0] == [];
    var t := Draw(Acquire(FreshTrainer), 1);
    assert Draw(Acquire(FreshTrainer), 0) == Acquire(FreshTrainer);
    assert t.created == 2 && t.pool == [] && t.examples == map[];
    assert UseAll(read, FreshTrainer, ids, values) == Use(read, FreshTrainer, id, value);
  }

  predicate CleanPayload(read: Reader, payload: Option<Payload>) {
    payload.Some? ==> forall v :: v in payload.value.values ==> read(v) == Reading(0, true)
  }

  lemma {:induction false} CleanRunWastes(read: Reader, payloads: seq<Option<Payload>>)
    requires forall p :: p in payloads ==> CleanPayload(read, p)
    ensures WasteOver(read, payloads) == {}
  {
    hide CleanPayload, WasteAll;
    if payloads != [] {
      var before, last := payloads[..|payloads| - 1], payloads[|payloads| - 1];
      assert forall p :: p in before ==> p in payloads;
      CleanRunWastes(read, before);
      assert last in payloads;
      if WellSized(last) { CleanWaste(read, Replay(read, before), last); }
    }
  }

  /** In particular, over any run in which every value parses into its one example, every example ever created is
      in exactly one of cache and pool. */
  lemma CleanRunOwns(read: Reader, payloads: seq<Option<Payload>>)
    requires forall p :: p in payloads ==> CleanPayload(read, p)
    ensures var t := Replay(read, payloads);
            forall ex: Example :: ex < t.created ==> (Cached(t.examples, ex) <==> ex !in t.pool)
  {
    hide WasteOver, Replay, CleanPayload, RunReadsClean;
    CleanRunWastes(read, payloads);
    WasteOverIff(read, payloads);
    OwnershipIff(read, payloads);
  }

  lemma CleanWaste(read: Reader, t: Trainer, payload: Option<Payload>)
    requires WellSized(payload) && CleanPayload(read, payload)
    ensures WasteAll(read, t, payload.value.ids, payload.value.values) == {}
  {
    CleanReadsLoseNothing(read, t, payload.value.ids, payload.value.values);
  }

  /** The destructor's state: the cache cleared into the pool. */
  function Cleared(t: Trainer, released: seq<Example>): Trainer {
    t.(order := [], examples := map[], pool := t.pool + released)
  }

  /** Clearing returns every cached example to the pool, in whatever order the map yields them. */
  lemma ClearReturnsAll(t: Trainer, released: seq<Example>)
    requires TrainerSound(t) && Releases(t.examples, released)
    ensures TrainerSound(Cleared(t, released)) && Lost(Cleared(t, released)) == Lost(t)
    ensures forall id :: id in t.examples ==> t.examples[id] in Cleared(t, released).pool
  {
    hide *;
    var ids := ReleaseOrder(t.examples, released);
    TrainerParts(t);
    TrainerParts(Cleared(t, released));
    OwnedRelease(t.examples, t.pool, t.created, t.text, ids);
    EmptyListed();
    ClearedIs(t, released);
    ReleaseLosesNothing(t, [], ids);
    forall id | id in t.examples ensures t.examples[id] in released {
      assert id in ids;
      var i :| 0 <= i < |ids| && ids[i] == id;
      assert released[i] == t.examples[id];
    }
  }

  lemma ReleaseOrder(examples: map<ObjectId, Example>, released: seq<Example>) returns (ids: seq<ObjectId>)
    requires Releases(examples, released)
    ensures Distinct(ids) && (forall id :: id in ids <==> id in examples) && released == ValuesAt(examples, ids)
    ensures examples - Elements(ids) == map[]
  {
    ids :| Distinct(ids) && Elements(ids) == examples.Keys && released == ValuesAt(examples, ids);
    assert forall id :: id in ids <==> id in Elements(ids);
  }

  lemma TrainerParts(t: Trainer)
    ensures TrainerSound(t) <==> Listed(t.order, t.examples) && Owned(t.examples, t.pool, t.created, t.text)
  {}

  lemma ClearedIs(t: Trainer, released: seq<Example>)
    ensures Cleared(t, released) == Trainer([], map[], t.pool + released, t.created, t.text)
  {}

  lemma EmptyListed()
    ensures Listed([], map[])
  {
    var none: seq<ObjectId> := [];
    assert Elements(none) == {};
  }

  // ---- What the examples were parsed from ---------------------------------------------------------

  /** Every cached example was parsed from an object with the hash it is cached under. */
  ghost predicate TextsHash(hash: string -> ObjectId, objects: set<string>, t: Trainer) {
    forall id :: id in t.examples ==>
      t.examples[id] in t.text && t.text[t.examples[id]] in objects && hash(t.text[t.examples[id]]) == id
  }

  ghost predicate PayloadHashes(hash: string -> ObjectId, objects: set<string>, ids: seq<ObjectId>, values: seq<string>) {
    |ids| == |values| && forall i :: 0 <= i < |ids| ==> values[i] in objects && hash(values[i]) == ids[i]
  }

  lemma UseTexts(hash: string -> ObjectId, objects: set<string>, read: Reader, t: Trainer, id: ObjectId, value: string)
    requires TrainerSound(t) && TextsHash(hash, objects, t) && value in objects && hash(value) == id
    ensures TextsHash(hash, objects, Use(read, t, id, value).1)
  {
    hide Listed, Acquired, Acquire;
    if id !in t.examples {
      AcquireSound(t);
      AcquireKeeps(t);
      DrawSound(Acquire(t), read(value).extra);
      hide Draw;
      assert forall x :: x in t.examples ==> t.examples[x] != Acquired(t);
    }
  }

  lemma {:induction false} UseAllTexts(hash: string -> ObjectId, objects: set<string>, read: Reader, t: Trainer, ids: seq<ObjectId>, values: seq<string>)
    requires TrainerSound(t) && TextsHash(hash, objects, t) && PayloadHashes(hash, objects, ids, values)
    ensures TextsHash(hash, objects, UseAll(read, t, ids, values).1)
  {
    hide TrainerSound, TextsHash, Use;
    if ids != [] {
      var n := |ids| - 1;
      UseAllTexts(hash, objects, read, t, ids[..n], values[..n]);
      UseAllSound(read, t, ids[..n], values[..n]);
      UseTexts(hash, objects, read, UseAll(read, t, ids[..n], values[..n]).1, ids[n], values[n]);
    }
  }

  lemma EvictTexts(hash: string -> ObjectId, objects: set<string>, t: Trainer, first: ObjectId)
    requires TextsHash(hash, objects, t) && forall id :: id in t.order ==> id in t.examples
    ensures TextsHash(hash, objects, Evict(t, first))
  {}

  lemma ProcessDedupTexts(hash: string -> ObjectId, objects: set<string>, read: Reader, t: Trainer, payload: Payload)
    requires TrainerSound(t) && TextsHash(hash, objects, t) && PayloadHashes(hash, objects, payload.ids, payload.values)
    ensures TextsHash(hash, objects, ProcessDedup(read, t, Some(payload)).1)
  {
    hide TrainerSound, TextsHash, Use, Evict;
    UseAllSound(read, t, payload.ids, payload.values);
    UseAllTexts(hash, objects, read, t, payload.ids, payload.values);
    var (ok, t') := UseAll(read, t, payload.ids, payload.values);
    if ok && payload.ids != [] { EvictTexts(hash, objects, t', payload.ids[0]); }
  }
}
