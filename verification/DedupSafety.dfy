/** Safety of the deduplication protocol over every run: reference counts are conserved, no view goes stale and
    no key is missed. */
module DedupSafety {
  import opened Sequences
  import opened Common
  import opened DedupDict
  import opened DedupState
  import opened DedupProtocol

  // ---- What a change of the dictionary leaves alone -----------------------------------------------

  lemma EventsGrow(hash: Hash, events: seq<Event>, objects: set<string>, more: set<string>)
    requires EventsSound(hash, events, objects) && objects <= more
    ensures EventsSound(hash, events, more)
  {}

  lemma ConsistentGrow(hash: Hash, b: Builder, objects: set<string>, more: set<string>)
    requires Consistent(hash, b, objects) && objects <= more
    ensures Consistent(hash, b, more)
  {
    EventsGrow(hash, b.batch, objects, more);
  }

  lemma BatchGrow(hash: Hash, batch: Batch, objects: set<string>, more: set<string>)
    requires BatchSound(hash, batch, objects) && objects <= more
    ensures BatchSound(hash, batch, more)
  {
    EventsGrow(hash, batch.events, objects, more);
  }

  lemma InStepKept(b: Builder, d: Dict, d': Dict)
    requires InStep(b, d) && (b.phase.Closed? || forall id :: id in b.tally.used ==> Get(d, id) == Get(d', id))
    ensures InStep(b, d')
  {
    if !b.phase.Closed? {
      SizeSumSame(d, d', b.tally.used.Keys);
      if b.phase.Viewing? { assert Contents(d, b.phase.ids) == Contents(d', b.phase.ids); }
      if b.phase.Serialized? { assert Contents(d, b.phase.ids) == Contents(d', b.phase.ids); }
    }
  }

  /** A live builder holds a reference to everything it has used. */
  lemma HoldsUsed(hash: Hash, b: Builder, objects: set<string>, id: ObjectId)
    requires Consistent(hash, b, objects) && !b.phase.Closed? && id in b.tally.used
    ensures Held(b, id) >= b.tally.used[id] > 0
  {}

  /** So the entry is there. */
  lemma UsedInDict(hash: Hash, s: System, i: nat, id: ObjectId)
    requires Sound(hash, s) && i < |s.builders| && !s.builders[i].phase.Closed? && id in s.builders[i].tally.used
    ensures id in s.dict && Get(s.dict, id) != "" && s.dict[id].count >= s.builders[i].tally.used[id] > 0
  {
    hide HeldByAll, Held, Occurrences, InStep, EventsSound;
    HoldsUsed(hash, s.builders[i], s.objects, id);
    HeldOne(s.builders, i, id);
    assert Count(s.dict, id) == Claims(s, id);
  }

  // ---- One step at a time -------------------------------------------------------------------------

  lemma ObjectsNonEmpty(payload: string, spans: seq<Span>)
    requires ValidSpans(spans, |payload|)
    ensures forall o :: o in Objects(payload, spans) ==> o != ""
  {}

  lemma TransformCounts(hash: Hash, s: System, payload: string, spans: seq<Span>)
    requires CountsAreClaims(s) && ValidSpans(spans, |payload|)
    ensures CountsAreClaims(Next(hash, s, Transform(payload, spans)))
  {
    hide AddAll, HeldByAll, Occurrences, ValidSpans, Extends;
    var objects, s' := Objects(payload, spans), Next(hash, s, Transform(payload, spans));
    forall id: ObjectId ensures Count(s'.dict, id) == Claims(s', id) {
      AddAllCounts(hash, s.dict, objects, id);
      OccurrencesAppend(s.queue, Transformed(hash, s.dict, payload, spans), id);
    }
    AddAllContents(hash, s.dict, objects);
    ExtendsPositive(hash, s.dict, s'.dict, objects);
  }

  lemma ExtendsPositive(hash: Hash, d: Dict, d': Dict, objects: seq<string>)
    requires Extends(hash, d, d', objects) && forall id :: id in d ==> d[id].count > 0
    ensures forall id :: id in d' ==> d'[id].count > 0
    ensures forall id :: id in d ==> Get(d', id) == Get(d, id)
  {}

  lemma ExtendsSound(hash: Hash, d: Dict, d': Dict, objects: seq<string>, old_: set<string>, more: set<string>)
    requires Extends(hash, d, d', objects) && DictSound(hash, d, old_) && old_ <= more
    requires forall o :: o in objects ==> o != "" && o in more
    ensures DictSound(hash, d', more)
  {}

  lemma StepTransform(hash: Hash, s: System, payload: string, spans: seq<Span>)
    requires Sound(hash, s) && ValidSpans(spans, |payload|)
    ensures Sound(hash, Next(hash, s, Transform(payload, spans)))
  {
    hide CountsAreClaims, AddAll, DictSound, EventsSound, BatchSound, Consistent, InStep, ValidSpans, Extends;
    var objects, s' := Objects(payload, spans), Next(hash, s, Transform(payload, spans));
    TransformCounts(hash, s, payload, spans);
    AddAllContents(hash, s.dict, objects);
    ObjectsNonEmpty(payload, spans);
    ExtendsSound(hash, s.dict, s'.dict, objects, s.objects, s'.objects);
    EventsAppend(hash, s.queue, Transformed(hash, s.dict, payload, spans), s.objects, s'.objects);
    forall i | 0 <= i < |s.builders| ensures Consistent(hash, s.builders[i], s'.objects) && InStep(s.builders[i], s'.dict) {
      ConsistentGrow(hash, s.builders[i], s.objects, s'.objects);
      TransformInStep(hash, s, i, s'.dict, objects);
    }
    forall batch | batch in s.sent ensures BatchSound(hash, batch, s'.objects) {
      BatchGrow(hash, batch, s.objects, s'.objects);
    }
  }

  lemma EventsAppend(hash: Hash, events: seq<Event>, e: Event, objects: set<string>, more: set<string>)
    requires EventsSound(hash, events, objects) && objects <= more && EventSound(hash, e, more)
    ensures EventsSound(hash, events + [e], more)
  {}

  lemma TransformInStep(hash: Hash, s: System, i: nat, d': Dict, objects: seq<string>)
    requires Sound(hash, s) && i < |s.builders| && Extends(hash, s.dict, d', objects)
    ensures InStep(s.builders[i], d')
  {
    hide CountsAreClaims, EventsSound, BatchSound, Consistent, InStep, DictSound;
    var b := s.builders[i];
    if !b.phase.Closed? {
      forall id | id in b.tally.used ensures Get(s.dict, id) == Get(d', id) { UsedInDict(hash, s, i, id); }
    }
    InStepKept(b, s.dict, d');
  }

  /** The claims of s' are those of s, in other hands. */
  ghost predicate SameClaims(s: System, s': System) {
    s'.dict == s.dict && forall id: ObjectId :: Claims(s', id) == Claims(s, id)
  }

  lemma CountsKept(s: System, s': System)
    requires CountsAreClaims(s) && SameClaims(s, s')
    ensures CountsAreClaims(s')
  {
    hide Claims;
  }

  lemma EventsWithout(hash: Hash, events: seq<Event>, i: nat, objects: set<string>)
    requires EventsSound(hash, events, objects) && i < |events|
    ensures EventsSound(hash, Without(events, i), objects) && EventSound(hash, events[i], objects)
  {}

  lemma StepDrop(hash: Hash, s: System, i: nat)
    requires Sound(hash, s) && i < |s.queue|
    ensures Sound(hash, Next(hash, s, Drop(i)))
  {
    hide CountsAreClaims, DictSound, EventsSound, BatchSound, BuildersSound, Without, HeldByAll, Occurrences;
    var s' := Next(hash, s, Drop(i));
    forall id: ObjectId ensures Claims(s', id) == Claims(s, id) {
      OccurrencesWithout(s.queue, i, id);
      OccurrencesAppend(s.dropped, s.queue[i], id);
    }
    CountsKept(s, s');
    EventsWithout(hash, s.queue, i, s.objects);
  }

  lemma EmptyBuilder(hash: Hash, d: Dict, objects: set<string>)
    ensures Consistent(hash, NewBuilder, objects) && InStep(NewBuilder, d)
    ensures forall id: ObjectId :: Held(NewBuilder, id) == 0
  {}

  lemma StepOpen(hash: Hash, s: System)
    requires Sound(hash, s)
    ensures Sound(hash, Next(hash, s, Open))
  {
    hide CountsAreClaims, DictSound, EventsSound, BatchSound, HeldByAll, Occurrences, Consistent, InStep, Held;
    var s' := Next(hash, s, Open);
    EmptyBuilder(hash, s.dict, s.objects);
    forall id: ObjectId ensures Claims(s', id) == Claims(s, id) { HeldAppend(s.builders, NewBuilder, id); }
    CountsKept(s, s');
  }

  /** A builder is replaced by one that holds as much and is as sound. */
  lemma BuilderReplaced(hash: Hash, s: System, b: nat, c: Builder, s': System)
    requires Sound(hash, s) && b < |s.builders| && s' == s.(builders := s.builders[b := c])
    requires Consistent(hash, c, s.objects) && InStep(c, s.dict)
    requires forall id: ObjectId :: Held(c, id) == Held(s.builders[b], id)
    ensures Sound(hash, s')
  {
    hide CountsAreClaims, DictSound, EventsSound, BatchSound, HeldByAll, Occurrences, Consistent, InStep, Held;
    forall id: ObjectId ensures Claims(s', id) == Claims(s, id) { HeldUpdate(s.builders, b, c, id); }
    CountsKept(s, s');
  }

  lemma StepBeginAdd(hash: Hash, s: System, b: nat, i: nat)
    requires Sound(hash, s) && Enabled(s, BeginAdd(b, i))
    ensures Sound(hash, Next(hash, s, BeginAdd(b, i)))
  {
    hide CountsAreClaims, DictSound, EventsSound, BatchSound, HeldByAll, Occurrences, Without, Held, Consistent, InStep;
    var s' := Next(hash, s, BeginAdd(b, i));
    var c := s'.builders[b];
    EventsWithout(hash, s.queue, i, s.objects);
    BeginSound(hash, s.builders[b], s.queue[i], s.dict, s.objects);
    forall id: ObjectId ensures Claims(s', id) == Claims(s, id) {
      HeldUpdate(s.builders, b, c, id);
      HeldBegin(s.builders[b], c, id);
      OccurrencesWithout(s.queue, i, id);
    }
    CountsKept(s, s');
  }

  lemma BeginSound(hash: Hash, b: Builder, e: Event, d: Dict, objects: set<string>)
    requires Consistent(hash, b, objects) && InStep(b, d) && b.phase.Filling? && b.event == None && EventSound(hash, e, objects)
    ensures b.done == 0
    ensures Consistent(hash, b.(event := Some(e), done := 0), objects) && InStep(b.(event := Some(e), done := 0), d)
  {
    hide EventsSound, EventSound;
    assert e.ids[..0] == [];
  }

  lemma HeldBegin(b: Builder, c: Builder, id: ObjectId)
    requires b.event == None && b.done == 0 && b.phase.Filling? && c.event.Some? && c == b.(event := c.event)
    ensures Held(c, id) == Held(b, id) + multiset(c.event.value.ids)[id]
  {
    assert Current(c)[0..] == Current(c);
  }

  /** The key is there: the event being added holds a reference to it. */
  lemma TakeSucceeds(hash: Hash, s: System, b: nat)
    requires Sound(hash, s) && Enabled(s, TakeId(b))
    ensures var c := s.builders[b];
            Take(s.dict, c.tally, Current(c)[c.done]).Some?
  {
    hide HeldByAll, Occurrences, InStep, EventsSound, Consistent;
    var c := s.builders[b];
    var id := Current(c)[c.done];
    assert c.done < |Current(c)|;
    assert Current(c)[c.done..][0] == id;
    assert id in Current(c)[c.done..];
    Membership(Current(c)[c.done..]);
    assert Held(c, id) > 0;
    HeldOne(s.builders, b, id);
    assert Count(s.dict, id) == Claims(s, id);
  }

  /** Taking an id moves one reference from the event being added to the tally. */
  lemma TakeKeeps(hash: Hash, c: Builder, d: Dict, objects: set<string>, t: Tally)
    requires Consistent(hash, c, objects) && InStep(c, d) && c.phase.Filling? && c.done < |Current(c)|
    requires Take(d, c.tally, Current(c)[c.done]) == Some(t)
    ensures var c' := c.(tally := t, done := c.done + 1);
            && Consistent(hash, c', objects) && InStep(c', d)
            && forall id: ObjectId :: Held(c', id) == Held(c, id)
  {
    hide EventsSound, EventSound, SizeSum;
    var x, c' := Current(c)[c.done], c.(tally := t, done := c.done + 1);
    TakeKeepsSize(d, c.tally, x);
    assert Current(c)[..c.done + 1] == Current(c)[..c.done] + [x];
    forall id: ObjectId ensures Held(c', id) == Held(c, id) { TakeHolds(c, d, t, id); }
  }

  lemma TakeHolds(c: Builder, d: Dict, t: Tally, id: ObjectId)
    requires c.phase.Filling? && c.done < |Current(c)| && Take(d, c.tally, Current(c)[c.done]) == Some(t)
    ensures Held(c.(tally := t, done := c.done + 1), id) == Held(c, id)
  {
    assert Current(c)[c.done..] == [Current(c)[c.done]] + Current(c)[c.done + 1..];
  }

  lemma TakeEnabled(s: System, b: nat)
    requires IsFilling(s, b) && s.builders[b].done < |Current(s.builders[b])|
    ensures Enabled(s, TakeId(b))
  {}

  lemma TakeNext(hash: Hash, s: System, b: nat)
    requires Enabled(s, TakeId(b)) && Take(s.dict, s.builders[b].tally, Current(s.builders[b])[s.builders[b].done]).Some?
    ensures b < |s.builders| && s.builders[b].done < |Current(s.builders[b])|
    ensures var c := s.builders[b];
            Next(hash, s, TakeId(b)) ==
              s.(builders := s.builders[b := c.(tally := Take(s.dict, c.tally, Current(c)[c.done]).value, done := c.done + 1)])
  {
    hide Take;
  }

  lemma SoundBuilder(hash: Hash, s: System, b: nat)
    requires Sound(hash, s) && IsFilling(s, b)
    ensures b < |s.builders| && s.builders[b].phase.Filling?
    ensures Consistent(hash, s.builders[b], s.objects) && InStep(s.builders[b], s.dict)
  {
    hide CountsAreClaims, DictSound, EventsSound, BatchSound, Consistent, InStep;
  }

  lemma TakeReady(s: System, b: nat)
    requires Enabled(s, TakeId(b))
    ensures IsFilling(s, b) && b < |s.builders| && s.builders[b].done < |Current(s.builders[b])|
  {}

  lemma StepTakeId(hash: Hash, s: System, b: nat)
    requires Sound(hash, s) && Enabled(s, TakeId(b))
    ensures Sound(hash, Next(hash, s, TakeId(b)))
  {
    hide *;
    TakeReady(s, b);
    SoundBuilder(hash, s, b);
    TakeSucceeds(hash, s, b);
    TakeNext(hash, s, b);
    var c := s.builders[b];
    var t := Take(s.dict, c.tally, Current(c)[c.done]).value;
    TakeKeeps(hash, c, s.dict, s.objects, t);
    BuilderReplaced(hash, s, b, c.(tally := t, done := c.done + 1), Next(hash, s, TakeId(b)));
  }

  lemma StepFinishAdd(hash: Hash, s: System, b: nat)
    requires Sound(hash, s) && Enabled(s, FinishAdd(b))
    ensures Sound(hash, Next(hash, s, FinishAdd(b)))
  {
    hide CountsAreClaims, DictSound, BatchSound, EventSound;
    var c, s' := s.builders[b], Next(hash, s, FinishAdd(b));
    var c' := s'.builders[b];
    assert Current(c)[..c.done] == c.event.value.ids && Current(c)[c.done..] == [] && Current(c')[0..] == [];
    BuilderReplaced(hash, s, b, c', s');
  }

  lemma StepAbandon(hash: Hash, s: System, b: nat)
    requires Sound(hash, s) && Enabled(s, Abandon(b))
    ensures Sound(hash, Next(hash, s, Abandon(b)))
  {
    hide CountsAreClaims, DictSound, BatchSound, EventsSound, EventSound;
    var s' := Next(hash, s, Abandon(b));
    assert forall id: ObjectId :: Held(s'.builders[b], id) == Held(s.builders[b], id);
    BuilderReplaced(hash, s, b, s'.builders[b], s');
  }

  lemma StepFinalizeRead(hash: Hash, s: System, b: nat, order: seq<ObjectId>)
    requires Sound(hash, s) && Enabled(s, FinalizeRead(b, order))
    ensures Sound(hash, Next(hash, s, FinalizeRead(b, order)))
  {
    hide CountsAreClaims, DictSound, BatchSound, EventsSound, EventSound;
    var s' := Next(hash, s, FinalizeRead(b, order));
    forall id | id in order ensures Get(s.dict, id) != "" { UsedInDict(hash, s, b, id); }
    assert forall id: ObjectId :: Held(s'.builders[b], id) == Held(s.builders[b], id);
    BuilderReplaced(hash, s, b, s'.builders[b], s');
  }

  lemma StepSerialize(hash: Hash, s: System, b: nat)
    requires Sound(hash, s) && Enabled(s, Serialize(b))
    ensures Sound(hash, Next(hash, s, Serialize(b)))
  {
    hide CountsAreClaims, DictSound, BatchSound, EventsSound, EventSound;
    var s' := Next(hash, s, Serialize(b));
    forall id | id in s.builders[b].phase.ids ensures id in s.dict { UsedInDict(hash, s, b, id); }
    assert forall id: ObjectId :: Held(s'.builders[b], id) == Held(s.builders[b], id);
    BuilderReplaced(hash, s, b, s'.builders[b], s');
  }

  // ---- Giving the references back -----------------------------------------------------------------

  lemma RemoveAllCount(d: Dict, used: Used, id: ObjectId)
    requires id in used ==> id in d && used[id] <= d[id].count
    requires id in d ==> d[id].count > 0
    ensures Count(RemoveAll(d, used), id) == Count(d, id) - (if id in used then used[id] else 0)
  {}

  /** What another builder uses outlives the batch that is sent. */
  lemma OthersSurvive(hash: Hash, s: System, b: nat, i: nat, id: ObjectId)
    requires Sound(hash, s) && IsSerialized(s, b) && i < |s.builders| && i != b
    requires !s.builders[i].phase.Closed? && id in s.builders[i].tally.used
    ensures Get(RemoveAll(s.dict, s.builders[b].tally.used), id) == Get(s.dict, id)
  {
    hide HeldByAll, Held, Occurrences, InStep, EventsSound, Consistent;
    var used := s.builders[b].tally.used;
    UsedInDict(hash, s, i, id);
    HoldsUsed(hash, s.builders[i], s.objects, id);
    if id in used { HoldsUsed(hash, s.builders[b], s.objects, id); }
    HeldTwo(s.builders, b, i, id);
    assert Count(s.dict, id) == Claims(s, id);
  }

  lemma FinalizeCounts(hash: Hash, s: System, b: nat, sends: bool)
    requires Sound(hash, s) && IsSerialized(s, b)
    requires forall id :: id in s.builders[b].tally.used ==> id in s.dict
    ensures CountsAreClaims(Next(hash, s, FinalizeRemove(b, sends)))
  {
    hide HeldByAll, Occurrences, InStep, EventsSound, RemoveAll, DictSound, BatchSound;
    var c, s' := s.builders[b], Next(hash, s, FinalizeRemove(b, sends));
    var used := c.tally.used;
    forall id: ObjectId ensures Count(s'.dict, id) == Claims(s', id) {
      if id in used { UsedInDict(hash, s, b, id); }
      RemoveAllCount(s.dict, used, id);
      HeldUpdate(s.builders, b, s'.builders[b], id);
      HeldAtEnd(c, id);
      assert Count(s.dict, id) == Claims(s, id);
    }
    RemoveAllPositive(s.dict, used);
  }

  lemma RemoveAllPositive(d: Dict, used: Used)
    requires forall id :: id in d ==> d[id].count > 0
    ensures forall id :: id in RemoveAll(d, used) ==> RemoveAll(d, used)[id].count > 0
  {}

  /** A builder with no event in hand holds exactly its tally. */
  lemma HeldAtEnd(c: Builder, id: ObjectId)
    requires c.event == None && c.done == 0 && !c.phase.Closed?
    ensures Held(c, id) == if id in c.tally.used then c.tally.used[id] else 0
  {}

  lemma FinishedBatch(hash: Hash, s: System, b: nat)
    requires Sound(hash, s) && IsSerialized(s, b)
    ensures var c := s.builders[b]; BatchSound(hash, Batch(c.phase.ids, c.phase.values, c.batch), s.objects)
  {
    hide CountsAreClaims, EventsSound, SizeSum;
    var c := s.builders[b];
    assert Lists(s.dict, c.phase.ids, c.phase.values, c.tally.used.Keys);
    forall i | 0 <= i < |c.phase.ids|
      ensures c.phase.values[i] in s.objects && c.phase.values[i] != "" && hash(c.phase.values[i]) == c.phase.ids[i]
    {
      assert c.phase.ids[i] in c.phase.ids;
      UsedInDict(hash, s, b, c.phase.ids[i]);
    }
  }

  lemma RemoveAllSound(hash: Hash, d: Dict, used: Used, objects: set<string>)
    requires DictSound(hash, d, objects)
    ensures DictSound(hash, RemoveAll(d, used), objects)
  {}

  lemma StepFinalizeRemove(hash: Hash, s: System, b: nat, sends: bool)
    requires Sound(hash, s) && IsSerialized(s, b)
    ensures Sound(hash, Next(hash, s, FinalizeRemove(b, sends)))
  {
    hide *;
    RemoveEnabled(hash, s, b);
    var used := s.builders[b].tally.used;
    forall id | id in used ensures id in s.dict { UsedInDict(hash, s, b, id); }
    FinalizeCounts(hash, s, b, sends);
    FinishedBatch(hash, s, b);
    RemoveAllSound(hash, s.dict, used, s.objects);
    forall i | 0 <= i < |s.builders| && i != b ensures InStep(s.builders[i], RemoveAll(s.dict, used)) {
      OthersInStep(hash, s, b, i);
    }
    FinalizeParts(hash, s, b, sends);
  }

  lemma RemoveEnabled(hash: Hash, s: System, b: nat)
    requires Sound(hash, s) && IsSerialized(s, b)
    ensures b < |s.builders| && s.builders[b].phase.Serialized? && DictSound(hash, s.dict, s.objects)
  {}

  lemma OthersInStep(hash: Hash, s: System, b: nat, i: nat)
    requires Sound(hash, s) && IsSerialized(s, b) && i < |s.builders| && i != b
    ensures InStep(s.builders[i], RemoveAll(s.dict, s.builders[b].tally.used))
  {
    hide CountsAreClaims, EventsSound, RemoveAll, DictSound, BatchSound, InStep, Consistent;
    var d' := RemoveAll(s.dict, s.builders[b].tally.used);
    if !s.builders[i].phase.Closed? {
      forall id | id in s.builders[i].tally.used ensures Get(s.dict, id) == Get(d', id) { OthersSurvive(hash, s, b, i, id); }
    }
    InStepKept(s.builders[i], s.dict, d');
  }

  lemma FinalizeParts(hash: Hash, s: System, b: nat, sends: bool)
    requires Sound(hash, s) && IsSerialized(s, b)
    requires forall id :: id in s.builders[b].tally.used ==> id in s.dict
    requires CountsAreClaims(Next(hash, s, FinalizeRemove(b, sends)))
    requires var c := s.builders[b];
             && BatchSound(hash, Batch(c.phase.ids, c.phase.values, c.batch), s.objects)
             && DictSound(hash, RemoveAll(s.dict, c.tally.used), s.objects)
             && forall i :: 0 <= i < |s.builders| && i != b ==> InStep(s.builders[i], RemoveAll(s.dict, c.tally.used))
    ensures Sound(hash, Next(hash, s, FinalizeRemove(b, sends)))
  {
    hide CountsAreClaims, EventsSound, RemoveAll, DictSound, BatchSound, SizeSum;
    var c, s' := s.builders[b], Next(hash, s, FinalizeRemove(b, sends));
    assert Consistent(hash, s'.builders[b], s.objects) && InStep(s'.builders[b], s'.dict);
    hide Consistent, InStep;
  }

  // ---- Every run ----------------------------------------------------------------------------------

  lemma EveryStep(hash: Hash, s: System, step: Step)
    requires Sound(hash, s) && Enabled(s, step)
    ensures Sound(hash, Next(hash, s, step))
  {
    hide Sound, Next, Enabled;
    match step
    case Transform(payload, spans) => EnabledTransform(s, payload, spans); StepTransform(hash, s, payload, spans);
    case Drop(i) => EnabledDrop(s, i); StepDrop(hash, s, i);
    case Open => StepOpen(hash, s);
    case BeginAdd(b, i) => StepBeginAdd(hash, s, b, i);
    case TakeId(b) => StepTakeId(hash, s, b);
    case FinishAdd(b) => StepFinishAdd(hash, s, b);
    case Abandon(b) => StepAbandon(hash, s, b);
    case FinalizeRead(b, order) => StepFinalizeRead(hash, s, b, order);
    case Serialize(b) => StepSerialize(hash, s, b);
    case FinalizeRemove(b, sends) => EnabledRemove(s, b, sends); StepFinalizeRemove(hash, s, b, sends);
  }

  lemma EnabledTransform(s: System, payload: string, spans: seq<Span>)
    requires Enabled(s, Transform(payload, spans))
    ensures ValidSpans(spans, |payload|)
  {}

  lemma EnabledRemove(s: System, b: nat, sends: bool)
    requires Enabled(s, FinalizeRemove(b, sends))
    ensures IsSerialized(s, b)
  {}

  lemma EnabledDrop(s: System, i: nat)
    requires Enabled(s, Drop(i))
    ensures i < |s.queue|
  {}

  lemma {:induction false} EveryRunIsSound(hash: Hash, states: seq<System>, steps: seq<Step>, n: nat)
    requires Run(hash, states, steps) && n < |states|
    ensures Sound(hash, states[n])
  {
    hide Next, Enabled, Sound;
    if n == 0 {
      StartIsSound(hash);
    } else {
      EveryRunIsSound(hash, states, steps, n - 1);
      EveryStep(hash, states[n - 1], steps[n - 1]);
      assert states[(n - 1) + 1] == Next(hash, states[n - 1], steps[n - 1]);
    }
  }

  lemma StartIsSound(hash: Hash)
    ensures Sound(hash, Start)
  {}

  // ---- What it comes to ---------------------------------------------------------------------------

  /** In every state of every run the count of an object is the number of its occurrences in events still
      to be batched, in open or abandoned batches and in dropped events; it has an entry exactly while that
      is positive; and no error was met on the way. */
  lemma CountsConserved(hash: Hash, states: seq<System>, steps: seq<Step>, n: nat, id: ObjectId)
    requires Run(hash, states, steps) && n < |states|
    ensures Count(states[n].dict, id) == Claims(states[n], id)
    ensures id in states[n].dict <==> Claims(states[n], id) > 0
    ensures !states[n].fault
  {
    hide Run, Claims, BuildersSound;
    EveryRunIsSound(hash, states, steps, n);
    assert Count(states[n].dict, id) == Claims(states[n], id);
  }

  predicate IsRemoval(step: Step, b: nat) { step.FinalizeRemove? && step.b == b }

  /** A batch gives back no more references than there are, so the clamp in remove_object never acts. */
  lemma ClampNeverActs(hash: Hash, states: seq<System>, steps: seq<Step>, n: nat, b: nat, id: ObjectId)
    requires Run(hash, states, steps) && n < |steps| && IsRemoval(steps[n], b)
    requires id in states[n].builders[b].tally.used
    ensures id in states[n].dict && 0 < states[n].builders[b].tally.used[id] <= states[n].dict[id].count
    ensures Count(states[n + 1].dict, id) == Count(states[n].dict, id) - states[n].builders[b].tally.used[id]
  {
    hide Sound, RemoveAll;
    EveryRunIsSound(hash, states, steps, n);
    EveryRunIsSound(hash, states, steps, n + 1);
    var s, used := states[n], states[n].builders[b].tally.used;
    forall i | i in used ensures i in s.dict { UsedInDict(hash, s, b, i); }
    UsedInDict(hash, s, b, id);
    RemoveAllCount(s.dict, used, id);
    assert Enabled(s, steps[n]) && states[n + 1] == Next(hash, s, steps[n]);
  }

  /** The two lock regions of finalize: whatever other threads do between them, every entry the batch listed
      stays, with the content it had, and that is what the dictionary event is written from. */
  lemma {:induction false} ViewsStayValid(hash: Hash, states: seq<System>, steps: seq<Step>, b: nat, order: seq<ObjectId>, i: nat, k: nat)
    requires Run(hash, states, steps) && i < k < |states| && steps[i] == FinalizeRead(b, order)
    requires forall m :: i < m < k ==> !IsRemoval(steps[m], b)
    ensures Finalizing(states[k], b, order, Contents(states[i].dict, order))
    ensures Contents(states[k].dict, order) == Contents(states[i].dict, order)
    ensures forall id :: id in order ==> id in states[k].dict
  {
    hide *;
    var values := Contents(states[i].dict, order);
    RunStep(hash, states, steps, k - 1);
    EveryRunIsSound(hash, states, steps, k - 1);
    EveryRunIsSound(hash, states, steps, k);
    if i < k - 1 {
      ViewsStayValid(hash, states, steps, b, order, i, k - 1);
      PhaseKept(hash, states[k - 1], steps[k - 1], b, order, values);
    } else {
      ReadTakesViews(hash, states[i], b, order);
    }
    ListedInDict(hash, states[k], b, order, values);
  }

  lemma RunStep(hash: Hash, states: seq<System>, steps: seq<Step>, k: nat)
    requires Run(hash, states, steps) && k + 1 < |states|
    ensures |states| == |steps| + 1 && Enabled(states[k], steps[k]) && states[k + 1] == Next(hash, states[k], steps[k])
  {}

  /** Builder b has listed these ids with these values, and has not yet given its references back. */
  predicate Finalizing(s: System, b: nat, order: seq<ObjectId>, values: seq<string>) {
    && b < |s.builders|
    && (s.builders[b].phase == Viewing(order, values) || s.builders[b].phase == Serialized(order, values))
  }

  lemma ReadTakesViews(hash: Hash, s: System, b: nat, order: seq<ObjectId>)
    requires Enabled(s, FinalizeRead(b, order)) && Sound(hash, Next(hash, s, FinalizeRead(b, order)))
    ensures Finalizing(Next(hash, s, FinalizeRead(b, order)), b, order, Contents(s.dict, order))
  {
    hide CountsAreClaims, DictSound, EventsSound, BuildersSound, BatchSound;
  }

  /** A step leaves a finalizing batch where it is, or writes its event from unchanged contents. */
  lemma PhaseKept(hash: Hash, s: System, step: Step, b: nat, order: seq<ObjectId>, values: seq<string>)
    requires Sound(hash, s) && Enabled(s, step) && !IsRemoval(step, b) && Sound(hash, Next(hash, s, step))
    requires Finalizing(s, b, order, values)
    ensures Finalizing(Next(hash, s, step), b, order, values)
  {
    hide CountsAreClaims, DictSound, EventsSound, BatchSound, Consistent, SizeSum, AddAll, Without, RemoveAll, Take, Transformed;
    assert InStep(s.builders[b], s.dict);
  }

  lemma ListedInDict(hash: Hash, s: System, b: nat, order: seq<ObjectId>, values: seq<string>)
    requires Sound(hash, s) && Finalizing(s, b, order, values)
    ensures forall id :: id in order ==> id in s.dict
    ensures Contents(s.dict, order) == values
  {
    hide CountsAreClaims, DictSound, EventsSound, BatchSound, Consistent, SizeSum;
    assert InStep(s.builders[b], s.dict);
    forall id | id in order ensures id in s.dict { UsedInDict(hash, s, b, id); }
  }
}
