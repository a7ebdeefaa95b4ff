/** Runs in which two different objects with one hash go wrong: at the client, when both are cut out before the
    first is given back; at the trainer, when the second arrives while the first is cached.  They are built from
    a fact of its own: from a state at rest any event can be batched and sent, and the client is at rest again. */
module Collisions {
  import opened Common
  import opened Sequences
  import opened DedupDict
  import opened DedupState
  import opened DedupProtocol
  import opened DedupSafety
  import opened DedupContents
  import LruDedupCache
  import opened DedupReplay
  import opened EndToEnd

  // ---- At rest --------------------------------------------------------------------------------------

  /** No event is under way, none was lost, and every batch has given its references back. */
  predicate AtRest(s: System) {
    s.queue == [] && s.dropped == [] && forall i :: 0 <= i < |s.builders| ==> s.builders[i].phase.Closed?
  }

  lemma {:induction false} NothingHeld(builders: seq<Builder>, id: ObjectId)
    requires forall i :: 0 <= i < |builders| ==> builders[i].phase.Closed?
    ensures HeldByAll(builders, id) == 0
  {
    if builders != [] { NothingHeld(builders[..|builders| - 1], id); }
  }

  /** At rest the dictionary is empty: nothing leaks. */
  lemma RestIsEmpty(hash: Hash, states: seq<System>, steps: seq<Step>, n: nat)
    requires Run(hash, states, steps) && n < |states| && AtRest(states[n])
    ensures states[n].dict == map[]
  {
    hide Run, HeldByAll;
    var s := states[n];
    forall id: ObjectId ensures id !in s.dict {
      CountsConserved(hash, states, steps, n, id);
      NothingHeld(s.builders, id);
    }
  }

  // ---- One more step --------------------------------------------------------------------------------

  lemma Extend(hash: Hash, states: seq<System>, steps: seq<Step>, step: Step)
    requires Run(hash, states, steps) && Enabled(states[|steps|], step)
    ensures Run(hash, states + [Next(hash, states[|steps|], step)], steps + [step])
    ensures Sound(hash, states[|steps|]) && Sound(hash, Next(hash, states[|steps|], step))
  {
    hide Next, Enabled, Sound;
    var states', steps' := states + [Next(hash, states[|steps|], step)], steps + [step];
    forall i | 0 <= i < |steps'| ensures Enabled(states'[i], steps'[i]) && states'[i + 1] == Next(hash, states'[i], steps'[i]) {
      if i < |steps| { RunStep(hash, states, steps, i); }
    }
    EveryRunIsSound(hash, states, steps, |steps|);
    EveryRunIsSound(hash, states', steps', |steps| + 1);
  }

  /** A run in the making: its states and steps, and its last state. */
  datatype Trace = Trace(states: seq<System>, steps: seq<Step>)

  ghost predicate IsRun(hash: Hash, r: Trace) { |r.states| == |r.steps| + 1 && Run(hash, r.states, r.steps) }

  function Last(r: Trace): System
    requires |r.states| == |r.steps| + 1
  {
    r.states[|r.steps|]
  }

  ghost predicate Continues(hash: Hash, r: Trace, r': Trace) {
    IsRun(hash, r) && IsRun(hash, r') && r.states <= r'.states && r.steps <= r'.steps
  }

  lemma Goes(hash: Hash, r: Trace, step: Step) returns (r': Trace)
    requires IsRun(hash, r) && Enabled(Last(r), step)
    ensures Continues(hash, r, r') && Last(r') == Next(hash, Last(r), step) && r'.steps == r.steps + [step]
    ensures Sound(hash, Last(r)) && Sound(hash, Last(r'))
  {
    hide Next, Enabled, Sound;
    Extend(hash, r.states, r.steps, step);
    r' := Trace(r.states + [Next(hash, Last(r), step)], r.steps + [step]);
  }

  // ---- One event sent ---------------------------------------------------------------------------------

  /** The last builder is c, and all else is at rest. */
  ghost predicate Busy(s: System, sent: seq<Batch>, c: Builder) {
    && s.queue == [] && s.dropped == [] && s.sent == sent
    && |s.builders| > 0 && s.builders[|s.builders| - 1] == c
    && forall i :: 0 <= i < |s.builders| - 1 ==> s.builders[i].phase.Closed?
  }

  /** c takes e's ids, and has used no others. */
  predicate Taking(c: Builder, e: Event) {
    c.phase.Filling? && c.event == Some(e) && c.batch == [] && c.done <= |e.ids| && forall id :: id in c.tally.used ==> id in e.ids
  }

  lemma BeginBusy(hash: Hash, s: System, e: Event) returns (s1: System, s2: System)
    requires AtRest(s.(queue := [])) && s.queue == [e]
    ensures Enabled(s, Open) && s1 == Next(hash, s, Open) && Enabled(s1, BeginAdd(|s.builders|, 0))
    ensures s2 == Next(hash, s1, BeginAdd(|s.builders|, 0)) && |s2.builders| == |s.builders| + 1
    ensures Busy(s2, s.sent, NewBuilder.(event := Some(e))) && Taking(NewBuilder.(event := Some(e)), e)
  {
    s1 := Next(hash, s, Open);
    s2 := Next(hash, s1, BeginAdd(|s.builders|, 0));
    assert Without(s.queue, 0) == [];
  }

  lemma TakeBusy(hash: Hash, s: System, sent: seq<Batch>, c: Builder, e: Event) returns (c': Builder)
    requires Busy(s, sent, c) && Taking(c, e) && c.done < |e.ids| && Sound(hash, s)
    ensures Enabled(s, TakeId(|s.builders| - 1))
    ensures var s' := Next(hash, s, TakeId(|s.builders| - 1));
            |s'.builders| == |s.builders| && Busy(s', sent, c') && Taking(c', e) && c'.done == c.done + 1
  {
    hide *;
    TakingBound(s, sent, c, e);
    var b := |s.builders| - 1;
    BuilderTakes(s, sent, c, e);
    TakeEnabled(s, b);
    TakeSucceeds(hash, s, b);
    TakeNext(hash, s, b);
    c' := c.(tally := Take(s.dict, c.tally, e.ids[c.done]).value, done := c.done + 1);
    BusyReplaced(s, sent, c, c');
    TakingStep(s.dict, c, e);
  }

  lemma BuilderTakes(s: System, sent: seq<Batch>, c: Builder, e: Event)
    requires Busy(s, sent, c) && Taking(c, e) && c.done < |e.ids|
    ensures IsFilling(s, |s.builders| - 1) && s.builders[|s.builders| - 1] == c && Current(c) == e.ids
  {}

  lemma BusyReplaced(s: System, sent: seq<Batch>, c: Builder, c': Builder)
    requires Busy(s, sent, c) && |s.builders| > 0
    ensures Busy(s.(builders := s.builders[|s.builders| - 1 := c']), sent, c')
  {}

  lemma TakingStep(d: Dict, c: Builder, e: Event)
    requires Taking(c, e) && c.done < |e.ids| && Take(d, c.tally, e.ids[c.done]).Some?
    ensures Taking(c.(tally := Take(d, c.tally, e.ids[c.done]).value, done := c.done + 1), e)
  {}

  lemma {:induction false} TakeRest(hash: Hash, r: Trace, sent: seq<Batch>, c: Builder, e: Event) returns (r': Trace, c': Builder)
    requires IsRun(hash, r) && Busy(Last(r), sent, c) && Taking(c, e)
    ensures Continues(hash, r, r') && Busy(Last(r'), sent, c') && Taking(c', e) && c'.done == |e.ids|
    ensures |Last(r').builders| == |Last(r).builders|
    decreases |e.ids| - c.done
  {
    hide Sound, Next, Enabled, Run, Busy, Taking;
    TakingBound(Last(r), sent, c, e);
    if c.done == |e.ids| {
      r', c' := r, c;
    } else {
      SoundLast(hash, r);
      var c1 := TakeBusy(hash, Last(r), sent, c, e);
      var r1 := Goes(hash, r, TakeId(|Last(r).builders| - 1));
      r', c' := TakeRest(hash, r1, sent, c1, e);
    }
  }

  lemma TakingBound(s: System, sent: seq<Batch>, c: Builder, e: Event)
    requires Busy(s, sent, c) && Taking(c, e)
    ensures c.done <= |e.ids| && |s.builders| > 0
  {}

  lemma SoundLast(hash: Hash, r: Trace)
    requires IsRun(hash, r)
    ensures Sound(hash, Last(r))
  {
    hide Sound;
    EveryRunIsSound(hash, r.states, r.steps, |r.steps|);
  }

  lemma {:induction false} SomeListing(all: set<ObjectId>) returns (ids: seq<ObjectId>)
    ensures Listing(ids, all)
  {
    if all == {} { return []; }
    var id :| id in all;
    ids := SomeListing(all - {id});
    ListingAppend(ids, all - {id}, id);
    ids := ids + [id];
    assert all - {id} + {id} == all;
  }

  /** The builder with its event added. */
  predicate Holds(c: Builder, e: Event) {
    c.event == None && c.batch == [e] && forall id :: id in c.tally.used ==> id in e.ids
  }

  lemma FinishBusy(hash: Hash, s: System, sent: seq<Batch>, c: Builder, e: Event) returns (c': Builder)
    requires Busy(s, sent, c) && Taking(c, e) && c.done == |e.ids|
    ensures Enabled(s, FinishAdd(|s.builders| - 1))
    ensures var s' := Next(hash, s, FinishAdd(|s.builders| - 1));
            |s'.builders| == |s.builders| && Busy(s', sent, c') && Holds(c', e) && c'.phase.Filling?
  {
    c' := c.(batch := c.batch + [e], event := None, done := 0);
  }

  lemma ReadBusy(hash: Hash, s: System, sent: seq<Batch>, c: Builder, e: Event, order: seq<ObjectId>) returns (c': Builder)
    requires Busy(s, sent, c) && Holds(c, e) && c.phase.Filling? && Listing(order, c.tally.used.Keys)
    ensures Enabled(s, FinalizeRead(|s.builders| - 1, order))
    ensures var s' := Next(hash, s, FinalizeRead(|s.builders| - 1, order));
            Sound(hash, s') ==>
              && |s'.builders| == |s.builders| && Busy(s', sent, c') && Holds(c', e)
              && c'.phase.Viewing? && c'.phase.ids == order
  {
    hide CountsAreClaims, DictSound, EventsSound, BuildersSound, BatchSound, Listing;
    c' := c.(phase := Viewing(order, Contents(s.dict, order)));
  }

  lemma SerializeBusy(hash: Hash, s: System, sent: seq<Batch>, c: Builder, e: Event) returns (c': Builder)
    requires Busy(s, sent, c) && Holds(c, e) && c.phase.Viewing?
    ensures Enabled(s, Serialize(|s.builders| - 1))
    ensures var s' := Next(hash, s, Serialize(|s.builders| - 1));
            Sound(hash, s') ==>
              && |s'.builders| == |s.builders| && Busy(s', sent, c') && Holds(c', e)
              && c'.phase.Serialized? && c'.phase.ids == c.phase.ids
  {
    hide CountsAreClaims, DictSound, EventsSound, BuildersSound, BatchSound;
    c' := c.(phase := Serialized(c.phase.ids, Contents(s.dict, c.phase.ids)));
  }

  lemma RemoveBusy(hash: Hash, s: System, sent: seq<Batch>, c: Builder, e: Event) returns (batch: Batch)
    requires Busy(s, sent, c) && Holds(c, e) && c.phase.Serialized?
    ensures Enabled(s, FinalizeRemove(|s.builders| - 1, true))
    ensures var s' := Next(hash, s, FinalizeRemove(|s.builders| - 1, true));
            Sound(hash, s') ==> AtRest(s') && s'.sent == sent + [batch]
    ensures batch == Batch(c.phase.ids, c.phase.values, [e])
  {
    hide CountsAreClaims, DictSound, EventsSound, BuildersSound, BatchSound, RemoveAll;
    batch := Batch(c.phase.ids, c.phase.values, c.batch);
  }

  /** From rest any event can be sent in a batch of its own, and the client is at rest again. */
  lemma SendOne(hash: Hash, r: Trace, payload: string, spans: seq<Span>) returns (r': Trace, batch: Batch)
    requires IsRun(hash, r) && AtRest(Last(r)) && ValidSpans(spans, |payload|)
    ensures Continues(hash, r, r') && AtRest(Last(r')) && Last(r').sent == Last(r).sent + [batch]
    ensures batch.events == [Transformed(hash, map[], payload, spans)]
    ensures forall id :: id in batch.ids ==> id in batch.events[0].ids
  {
    hide Sound, Next, Enabled, Run, Busy, Taking, Holds, AtRest, ValidSpans, Transformed, Listing;
    RestIsEmpty(hash, r.states, r.steps, |r.steps|);
    var e := Transformed(hash, map[], payload, spans);
    TransformRests(hash, Last(r), payload, spans);
    var r1 := Goes(hash, r, Transform(payload, spans));
    var s2, s3 := BeginBusy(hash, Last(r1), e);
    var b := |Last(r1).builders|;
    var r2 := Goes(hash, r1, Open);
    var r3 := Goes(hash, r2, BeginAdd(b, 0));
    var sent, c3 := Last(r).sent, NewBuilder.(event := Some(e));
    var r4, c4 := TakeRest(hash, r3, sent, c3, e);
    var c5 := FinishBusy(hash, Last(r4), sent, c4, e);
    var r5 := Goes(hash, r4, FinishAdd(b));
    var order := SomeListing(c5.tally.used.Keys);
    var c6 := ReadBusy(hash, Last(r5), sent, c5, e, order);
    var r6 := Goes(hash, r5, FinalizeRead(b, order));
    var c7 := SerializeBusy(hash, Last(r6), sent, c6, e);
    var r7 := Goes(hash, r6, Serialize(b));
    batch := RemoveBusy(hash, Last(r7), sent, c7, e);
    r' := Goes(hash, r7, FinalizeRemove(b, true));
    ListsOnly(c5, e, order);
  }

  lemma ListsOnly(c: Builder, e: Event, order: seq<ObjectId>)
    requires Holds(c, e) && Listing(order, c.tally.used.Keys)
    ensures forall id :: id in order ==> id in e.ids
  {}

  lemma TransformRests(hash: Hash, s: System, payload: string, spans: seq<Span>)
    requires AtRest(s) && ValidSpans(spans, |payload|) && s.dict == map[]
    ensures Enabled(s, Transform(payload, spans))
    ensures var s' := Next(hash, s, Transform(payload, spans));
            && AtRest(s'.(queue := [])) && s'.queue == [Transformed(hash, map[], payload, spans)]
            && s'.sent == s.sent && |s'.builders| == |s.builders|
  {
    hide Transformed, AddAll, ValidSpans;
  }

  const Beginning := Trace([Start], [])

  lemma BeginningRuns(hash: Hash)
    ensures IsRun(hash, Beginning) && AtRest(Start) && Last(Beginning) == Start
  {}

  // ---- At the client ----------------------------------------------------------------------------------

  /** The text of an object alone, or of two, and where they are. */
  lemma PairParts(hash: Hash, o: string, p: string)
    requires o != "" && p != ""
    ensures var spans := [Span(0, |o|), Span(|o|, |p|)];
            && ValidSpans(spans, |o + p|) && Objects(o + p, spans) == [o, p]
    ensures ValidSpans([Span(0, |o|)], |o|) && Objects(o, [Span(0, |o|)]) == [o]
  {
    assert (o + p)[0..|o|] == o && (o + p)[|o|..|o| + |p|] == p && o[0..|o|] == o;
  }

  /** Two objects with one hash in one payload: a run that sends a batch in which the reference to the second
      object is listed with the first. */
  lemma ClientCollisionExample(hash: Hash, o: string, p: string) returns (r: Trace, batch: Batch, e: Event)
    requires o != "" && p != "" && o != p && hash(o) == hash(p)
    ensures IsRun(hash, r) && batch in Last(r).sent && e in batch.events
    ensures ValidSpans(e.spans, |e.payload|) && Objects(e.payload, e.spans) == [o, p] && e.ids == [hash(o), hash(p)]
    ensures |batch.ids| == |batch.values| && hash(p) in batch.ids
    ensures forall i :: 0 <= i < |batch.ids| && batch.ids[i] == hash(p) ==> batch.values[i] == o
  {
    hide Run, Next, Enabled, Sound, AtRest, ValidSpans, Transformed, Objects, Replay, ProcessDedup, Known;
    PairParts(hash, o, p);
    BeginningRuns(hash);
    r, batch := SendOne(hash, Beginning, o + p, [Span(0, |o|), Span(|o|, |p|)]);
    e := batch.events[0];
    PairMade(hash, o, p);
    SentContents(hash, r.states, r.steps, |r.steps|, batch, e, 1);
  }

  lemma PairMade(hash: Hash, o: string, p: string)
    requires o != "" && p != "" && hash(o) == hash(p)
    requires var spans := [Span(0, |o|), Span(|o|, |p|)]; ValidSpans(spans, |o + p|) && Objects(o + p, spans) == [o, p]
    ensures var e := Transformed(hash, map[], o + p, [Span(0, |o|), Span(|o|, |p|)]);
            && e.payload == o + p && e.spans == [Span(0, |o|), Span(|o|, |p|)]
            && e.ids == [hash(o), hash(p)] && |e.stored| == 2 && e.stored[1] == o
  {
    hide EditedText, ValidSpans, AddAll;
    AddAllAnswers(hash, map[], [o, p], hash(p));
  }

  lemma OneMade(hash: Hash, o: string)
    requires o != "" && ValidSpans([Span(0, |o|)], |o|) && Objects(o, [Span(0, |o|)]) == [o]
    ensures var e := Transformed(hash, map[], o, [Span(0, |o|)]);
            e.payload == o && e.spans == [Span(0, |o|)] && e.ids == [hash(o)] && e.stored == [o]
  {
    hide EditedText, ValidSpans, AddAll;
    AddAllAnswers(hash, map[], [o], hash(o));
  }

  // ---- At the trainer ---------------------------------------------------------------------------------

  /** The dictionary event of a batch with one object. */
  lemma OneListed(hash: Hash, r: Trace, batch: Batch, o: string)
    requires IsRun(hash, r) && batch in Last(r).sent && o != ""
    requires batch.events == [Transformed(hash, map[], o, [Span(0, |o|)])] && ValidSpans([Span(0, |o|)], |o|)
    requires forall id :: id in batch.ids ==> id in batch.events[0].ids
    ensures batch.ids == [hash(o)] && batch.values == [o]
  {
    hide Run, Next, Enabled, Sound, AtRest, ValidSpans, Transformed, Objects, Replay, ProcessDedup, Known;
    PairParts(hash, o, o);
    OneMade(hash, o);
    var e := batch.events[0];
    SentContents(hash, r.states, r.steps, |r.steps|, batch, e, 0);
    var i :| 0 <= i < |batch.ids| && batch.ids[i] == hash(o);
    assert batch.values[i] == o;
    assert batch.ids[0] in batch.ids && batch.ids[|batch.ids| - 1] in batch.ids;
  }

  lemma OneUsed(read: Reader, t: Trainer, id: ObjectId, value: string)
    requires TrainerSound(t)
    ensures ProcessDedup(read, t, Some(Payload([id], [value]))).0 <==> id in t.examples || read(value).ok
    ensures LruDedupCache.Distinct([id])
  {
    hide TrainerSound, Evict;
    var ids, values := [id], [value];
    assert ids[..0] == [] && values[..0] == [];
    assert UseAll(read, t, ids, values) == Use(read, t, id, value);
  }

  /** One object sent, given back, and then another with the same hash: a run in which each batch lists its own
      object, and a trainer that reads the second reference as the first object. */
  lemma TrainerCollisionExample(hash: Hash, read: Reader, o: string, p: string)
    returns (r: Trace, first: Batch, second: Batch)
    requires o != "" && p != "" && o != p && hash(o) == hash(p) && read(o).ok
    ensures IsRun(hash, r) && Last(r).sent == [first, second]
    ensures DictionaryOf(first) == Payload([hash(o)], [o]) && DictionaryOf(second) == Payload([hash(p)], [p])
    ensures second.events == [Transformed(hash, map[], p, [Span(0, |p|)])]
    ensures var t := Replay(read, [Some(DictionaryOf(first))]);
            && ProcessDedup(read, t, Some(DictionaryOf(second))).0
            && hash(p) in Known(ProcessDedup(read, t, Some(DictionaryOf(second))).1)
            && Known(ProcessDedup(read, t, Some(DictionaryOf(second))).1)[hash(p)] == o
  {
    hide Run, Next, Enabled, Sound, AtRest, ValidSpans, Transformed, Objects, Replay, ProcessDedup, Known;
    PairParts(hash, o, p);
    PairParts(hash, p, o);
    BeginningRuns(hash);
    var r1;
    r1, first := SendOne(hash, Beginning, o, [Span(0, |o|)]);
    r, second := SendOne(hash, r1, p, [Span(0, |p|)]);
    StartSends();
    assert first in Last(r).sent && second in Last(r).sent;
    OneListed(hash, r, first, o);
    OneListed(hash, r, second, p);
    DictionaryParts(first);
    DictionaryParts(second);
    TrainerReadsFirst(read, hash(o), o, p);
  }

  lemma StartSends()
    ensures Start.sent == [] && Last(Beginning) == Start
  {}

  lemma TrainerReadsFirst(read: Reader, id: ObjectId, o: string, p: string)
    requires read(o).ok
    ensures var t := Replay(read, [Some(Payload([id], [o]))]);
            var (ok, t') := ProcessDedup(read, t, Some(Payload([id], [p])));
            ok && id in Known(t') && Known(t')[id] == o
  {
    hide *;
    StartSound();
    ReplayOne(read, Some(Payload([id], [o])));
    var t := Replay(read, [Some(Payload([id], [o]))]);
    OneUsed(read, FreshTrainer, id, o);
    TrainerKnows(read, FreshTrainer, Payload([id], [o]), 0);
    CacheIsPayload(read, FreshTrainer, Payload([id], [o]));
    assert id in [id];
    FreshHasNone(id);
    OneUsed(read, t, id, p);
    TrainerKnows(read, t, Payload([id], [p]), 0);
  }

  lemma FreshHasNone(id: ObjectId)
    ensures id !in FreshTrainer.examples
  {}

  lemma ReplayOne(read: Reader, payload: Option<Payload>)
    ensures TrainerSound(FreshTrainer) && Replay(read, [payload]) == ProcessDedup(read, FreshTrainer, payload).1
  {
    var ps := [payload];
    assert ps[..0] == [];
    StartSound();
  }
}
