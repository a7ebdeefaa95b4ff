/** Any number of threads transforming events and building batches over one shared dictionary.  A step is
    what happens in one lock region (or without the lock, where the code reads through its views); every
    interleaving of steps is a run.  A batcher transforms the event it takes and adds it to its batch at once;
    here other steps may come between, and any batch may take any transformed event. */
module DedupProtocol {
  import opened Common
  import opened DedupDict
  import opened DedupState
  import opened Sequences

  /** A transformed event: what it was, and what the transformation left of it.  stored is a record for the
      proofs: the contents that stood under its ids right after the transformation. */
  datatype Event = Event(payload: string, spans: seq<Span>, edited: string, ids: seq<ObjectId>, stored: seq<string>)

  datatype Phase =
    | Filling
    | Viewing(ids: seq<ObjectId>, seen: seq<string>)       // get_all_values is done; the views are held
    | Serialized(ids: seq<ObjectId>, values: seq<string>)  // the dictionary event is written from the views
    | Closed                                               // the references are given back
    | Abandoned                                            // they never will be

  /** One batch being built: the events in it, and the one being added with how many of its ids are taken. */
  datatype Builder = Builder(tally: Tally, batch: seq<Event>, event: Option<Event>, done: nat, phase: Phase)

  const NewBuilder := Builder(EmptyTally, [], None, 0, Filling)

  /** A batch as sent: the dictionary event, then the events. */
  datatype Batch = Batch(ids: seq<ObjectId>, values: seq<string>, events: seq<Event>)

  /** dropped holds the events lost after their transformation; objects is every object ever cut out; fault
      records a key not found, or a view read after its entry went. */
  datatype System = System(dict: Dict, queue: seq<Event>, builders: seq<Builder>, dropped: seq<Event>,
                           sent: seq<Batch>, objects: set<string>, fault: bool)

  const Start := System(map[], [], [], [], [], {}, false)

  datatype Step =
    | Transform(payload: string, spans: seq<Span>)
    | Drop(i: nat)
    | Open
    | BeginAdd(b: nat, i: nat)
    | TakeId(b: nat)
    | FinishAdd(b: nat)
    | Abandon(b: nat)
    | FinalizeRead(b: nat, order: seq<ObjectId>)
    | Serialize(b: nat)
    | FinalizeRemove(b: nat, sends: bool)  // the event is compressed afterwards, which may fail

  function Contents(d: Dict, ids: seq<ObjectId>): (r: seq<string>)
    ensures |r| == |ids| && forall i :: 0 <= i < |ids| ==> r[i] == Get(d, ids[i])
  {
    seq(|ids|, i requires 0 <= i < |ids| => Get(d, ids[i]))
  }

  /** The event a transformation yields, when d is the dictionary it finds. */
  function Transformed(hash: Hash, d: Dict, payload: string, spans: seq<Span>): Event
    requires ValidSpans(spans, |payload|)
  {
    var objects := Objects(payload, spans);
    Event(payload, spans, EditedText(hash, payload, spans), Ids(hash, objects), Contents(AddAll(hash, d, objects), Ids(hash, objects)))
  }

  function Current(b: Builder): seq<ObjectId> { if b.event.Some? then b.event.value.ids else [] }

  ghost predicate Enabled(s: System, step: Step) {
    match step
    case Transform(payload, spans) => ValidSpans(spans, |payload|)
    case Drop(i) => i < |s.queue|
    case Open => true
    case BeginAdd(b, i) => IsFilling(s, b) && i < |s.queue| && s.builders[b].event == None
    case TakeId(b) => IsFilling(s, b) && s.builders[b].done < |Current(s.builders[b])|
    case FinishAdd(b) => IsFilling(s, b) && s.builders[b].event.Some? && s.builders[b].done == |Current(s.builders[b])|
    case Abandon(b) => IsFilling(s, b)
    case FinalizeRead(b, order) => IsFilling(s, b) && s.builders[b].event == None && Listing(order, s.builders[b].tally.used.Keys)
    case Serialize(b) => b < |s.builders| && s.builders[b].phase.Viewing?
    case FinalizeRemove(b, _) => IsSerialized(s, b)
  }

  predicate IsSerialized(s: System, b: nat) { b < |s.builders| && s.builders[b].phase.Serialized? }

  predicate IsFilling(s: System, b: nat) { b < |s.builders| && s.builders[b].phase.Filling? }

  ghost function Next(hash: Hash, s: System, step: Step): System
    requires Enabled(s, step)
  {
    match step
    case Transform(payload, spans) =>
      var objects := Objects(payload, spans);
      s.(dict := AddAll(hash, s.dict, objects),
         queue := s.queue + [Transformed(hash, s.dict, payload, spans)],
         objects := s.objects + set o | o in objects)
    case Drop(i) =>
      s.(queue := Without(s.queue, i), dropped := s.dropped + [s.queue[i]])
    case Open =>
      s.(builders := s.builders + [NewBuilder])
    case BeginAdd(b, i) =>
      s.(queue := Without(s.queue, i), builders := s.builders[b := s.builders[b].(event := Some(s.queue[i]), done := 0)])
    case TakeId(b) =>
      var c := s.builders[b];
      var t := Take(s.dict, c.tally, Current(c)[c.done]);
      if t.None? then s.(fault := true)
      else s.(builders := s.builders[b := c.(tally := t.value, done := c.done + 1)])
    case FinishAdd(b) =>
      var c := s.builders[b];
      s.(builders := s.builders[b := c.(batch := c.batch + [c.event.value], event := None, done := 0)])
    case Abandon(b) =>
      s.(builders := s.builders[b := s.builders[b].(phase := Abandoned)])
    case FinalizeRead(b, order) =>
      if exists id :: id in order && Get(s.dict, id) == "" then s.(fault := true)
      else s.(builders := s.builders[b := s.builders[b].(phase := Viewing(order, Contents(s.dict, order)))])
    case Serialize(b) =>
      var ids := s.builders[b].phase.ids;
      if exists id :: id in ids && id !in s.dict then s.(fault := true)
      else s.(builders := s.builders[b := s.builders[b].(phase := Serialized(ids, Contents(s.dict, ids)))])
    case FinalizeRemove(b, sends) =>
      var c := s.builders[b];
      if exists id :: id in c.tally.used && id !in s.dict then s.(fault := true)
      else s.(dict := RemoveAll(s.dict, c.tally.used),
              builders := s.builders[b := c.(phase := Closed)],
              sent := if sends then s.sent + [Batch(c.phase.ids, c.phase.values, c.batch)] else s.sent)
  }

  /** The states of a run, and the steps between them. */
  ghost predicate Run(hash: Hash, states: seq<System>, steps: seq<Step>) {
    && |states| == |steps| + 1 && states[0] == Start
    && forall i :: 0 <= i < |steps| ==> Enabled(states[i], steps[i]) && states[i + 1] == Next(hash, states[i], steps[i])
  }

  // ---- What every step keeps ----------------------------------------------------------------------

  function Occurrences(events: seq<Event>, id: ObjectId): nat {
    if events == [] then 0 else Occurrences(events[..|events| - 1], id) + multiset(events[|events| - 1].ids)[id]
  }

  /** The references a builder answers for: those it has taken, and the rest of the event being added. */
  function Held(b: Builder, id: ObjectId): nat {
    if b.phase.Closed? || b.done > |Current(b)| then 0
    else (if id in b.tally.used then b.tally.used[id] else 0) + multiset(Current(b)[b.done..])[id]
  }

  function HeldByAll(builders: seq<Builder>, id: ObjectId): nat {
    if builders == [] then 0 else HeldByAll(builders[..|builders| - 1], id) + Held(builders[|builders| - 1], id)
  }

  /** Everyone who will give back, or has lost, a reference to id. */
  function Claims(s: System, id: ObjectId): nat {
    Occurrences(s.queue, id) + HeldByAll(s.builders, id) + Occurrences(s.dropped, id)
  }

  /** The count of every entry is the number of claims on it; without claims there is no entry. */
  ghost predicate CountsAreClaims(s: System) {
    && (forall id: ObjectId :: Count(s.dict, id) == Claims(s, id))
    && (forall id :: id in s.dict ==> s.dict[id].count > 0)
  }

  /** Every entry holds the non-empty content it was made for. */
  ghost predicate DictSound(hash: Hash, d: Dict, objects: set<string>) {
    forall id :: id in d ==> d[id].content in objects && d[id].content != "" && hash(d[id].content) == id
  }

  ghost predicate EventSound(hash: Hash, e: Event, objects: set<string>) {
    && ValidSpans(e.spans, |e.payload|)
    && e.edited == EditedText(hash, e.payload, e.spans) && e.ids == Ids(hash, Objects(e.payload, e.spans))
    && forall o :: o in Objects(e.payload, e.spans) ==> o in objects
  }

  ghost predicate EventsSound(hash: Hash, events: seq<Event>, objects: set<string>) {
    forall e :: e in events ==> EventSound(hash, e, objects)
  }

  predicate Covers(used: set<ObjectId>, ids: seq<ObjectId>) { forall id :: id in ids ==> id in used }

  /** The ids and values of a dictionary event: each used object once, with its content. */
  ghost predicate Lists(d: Dict, ids: seq<ObjectId>, values: seq<string>, used: set<ObjectId>) {
    Listing(ids, used) && values == Contents(d, ids)
  }

  /** What holds of a builder whatever becomes of the dictionary. */
  ghost predicate Consistent(hash: Hash, b: Builder, objects: set<string>) {
    && b.done <= |Current(b)|
    && (forall id :: id in b.tally.used ==> b.tally.used[id] > 0)
    && EventsSound(hash, b.batch, objects) && (b.event.Some? ==> EventSound(hash, b.event.value, objects))
    && (forall e :: e in b.batch ==> Covers(b.tally.used.Keys, e.ids))
    && Covers(b.tally.used.Keys, Current(b)[..b.done])
    && (b.phase.Viewing? || b.phase.Serialized? ==> b.event == None)
  }

  /** What ties a live builder to the dictionary: its size estimate, its views and what it read through them. */
  ghost predicate InStep(b: Builder, d: Dict) {
    && (!b.phase.Closed? ==> b.tally.size == SizeSum(d, b.tally.used.Keys))
    && (b.phase.Viewing? ==> Lists(d, b.phase.ids, b.phase.seen, b.tally.used.Keys))
    && (b.phase.Serialized? ==> Lists(d, b.phase.ids, b.phase.values, b.tally.used.Keys))
  }

  ghost predicate BuildersSound(hash: Hash, builders: seq<Builder>, d: Dict, objects: set<string>) {
    forall i :: 0 <= i < |builders| ==> Consistent(hash, builders[i], objects) && InStep(builders[i], d)
  }

  /** A sent batch carries its own dictionary: an object for every reference in it, none twice. */
  ghost predicate BatchSound(hash: Hash, batch: Batch, objects: set<string>) {
    && |batch.ids| == |batch.values|
    && (forall i, j :: 0 <= i < j < |batch.ids| ==> batch.ids[i] != batch.ids[j])
    && (forall i :: 0 <= i < |batch.ids| ==> batch.values[i] in objects && batch.values[i] != "" && hash(batch.values[i]) == batch.ids[i])
    && EventsSound(hash, batch.events, objects)
    && forall e :: e in batch.events ==> forall id :: id in e.ids ==> id in batch.ids
  }

  ghost predicate Sound(hash: Hash, s: System) {
    && !s.fault
    && CountsAreClaims(s)
    && DictSound(hash, s.dict, s.objects)
    && EventsSound(hash, s.queue, s.objects)
    && BuildersSound(hash, s.builders, s.dict, s.objects)
    && forall batch :: batch in s.sent ==> BatchSound(hash, batch, s.objects)
  }

  // ---- Counting -----------------------------------------------------------------------------------

  lemma {:induction false} OccurrencesWithout(events: seq<Event>, i: nat, id: ObjectId)
    requires i < |events|
    ensures Occurrences(events, id) == Occurrences(Without(events, i), id) + multiset(events[i].ids)[id]
  {
    hide Without;
    if i == |events| - 1 {
      WithoutLast(events);
    } else {
      OccurrencesWithout(events[..|events| - 1], i, id);
      WithoutButLast(events, i);
    }
  }

  lemma {:induction false} HeldUpdate(builders: seq<Builder>, i: nat, b: Builder, id: ObjectId)
    requires i < |builders|
    ensures HeldByAll(builders[i := b], id) == HeldByAll(builders, id) - Held(builders[i], id) + Held(b, id)
  {
    hide Held;
    var n := |builders| - 1;
    if i == n {
      assert builders[i := b][..n] == builders[..n];
    } else {
      HeldUpdate(builders[..n], i, b, id);
      assert builders[i := b][..n] == builders[..n][i := b];
    }
  }

  lemma HeldAppend(builders: seq<Builder>, b: Builder, id: ObjectId)
    ensures HeldByAll(builders + [b], id) == HeldByAll(builders, id) + Held(b, id)
  {
    assert (builders + [b])[..|builders|] == builders;
  }

  lemma OccurrencesAppend(events: seq<Event>, e: Event, id: ObjectId)
    ensures Occurrences(events + [e], id) == Occurrences(events, id) + multiset(e.ids)[id]
  {
    assert (events + [e])[..|events|] == events;
  }

  const Idle := Builder(EmptyTally, [], None, 0, Closed)

  /** What two builders hold together is claimed. */
  lemma HeldTwo(builders: seq<Builder>, i: nat, j: nat, id: ObjectId)
    requires i < |builders| && j < |builders| && i != j
    ensures Held(builders[i], id) + Held(builders[j], id) <= HeldByAll(builders, id)
  {
    HeldUpdate(builders, i, Idle, id);
    HeldUpdate(builders[i := Idle], j, Idle, id);
  }

  lemma HeldOne(builders: seq<Builder>, i: nat, id: ObjectId)
    requires i < |builders|
    ensures Held(builders[i], id) <= HeldByAll(builders, id)
  {
    HeldUpdate(builders, i, Idle, id);
  }
}
