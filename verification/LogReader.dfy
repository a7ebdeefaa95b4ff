/** The parser with the example joiner behind it: what reading a log does to the joiner, and the results it
    gives on the way. */
module LogReader {
  import opened Common
  import opened LruDedupCache
  import opened DedupReplay
  import opened EventJoin
  import opened ExampleJoiner
  import opened BinaryParser
  import opened Framing

  /** How payloads decode: a checkpoint; the events of a regular message, unless it does not verify. */
  datatype Formats = Formats(checkpoint: seq<Byte> -> Checkpoint, events: seq<Byte> -> Option<seq<Event>>)

  type SoundState = s: State | StateSound(s) ghost witness (InitialSound(); Initial)

  /** The joiner's state, and the results of the groups joined so far. */
  datatype Session = Session(state: SoundState, results: seq<Result>)

  function OnCheckpoint(formats: Formats, s: Session, payload: seq<Byte>): Session {
    s.(state := s.state.(settings := Configure(s.state.settings, formats.checkpoint(payload))))
  }

  function OnEvent(read: Reader, s: Session, e: Event): (bool, Session) {
    EventStepSound(read, s.state, e);
    var (ok, state) := EventStep(read, s.state, e);
    (ok, s.(state := state))
  }

  ghost function OnJoined(library: Library, s: Session): (bool, Session) {
    JoinedStepSound(library, s.state);
    var (ok, state) := JoinedStep(library, s.state);
    (ok, Session(state, s.results + (if s.state.batch.order == [] then [] else [JoinFront(EnvOf(library, s.state), s.state.batch).0])))
  }

  ghost function OpsOf(read: Reader, library: Library, formats: Formats): Joiner<Session, Event> {
    Joiner(
      (s: Session) => Ready(s.state.settings),
      (s: Session, payload: seq<Byte>) => OnCheckpoint(formats, s, payload),
      formats.events,
      (s: Session) => s,
      (s: Session, e: Event) => OnEvent(read, s, e),
      (s: Session) => s,
      (s: Session) => s.state.batch.order != [],
      (s: Session) => OnJoined(library, s),
      (s: Session) => |s.state.batch.order|)
  }

  /** Every join takes its group out of the queue, so the parser's loops end. */
  lemma OpsLawful(read: Reader, library: Library, formats: Formats)
    ensures Lawful(OpsOf(read, library, formats))
  {
    var ops := OpsOf(read, library, formats);
    forall s: Session | ops.processing(s) ensures ops.pending(ops.joined(s).1) < ops.pending(s) {
      JoinedStepSound(library, s.state);
    }
  }

  // ---- One regular message --------------------------------------------------------------------------

  /** The events that are grouped and joined. */
  function Members(events: seq<Event>): seq<Member> {
    if events == [] then []
    else Members(events[..|events| - 1]) + (if Groupable(events[|events| - 1]) then [events[|events| - 1]] else [])
  }

  /** The trainer after an event, which must not be refused. */
  function DictionaryStep(read: Reader, t: Trainer, e: Event): Option<Trainer>
    requires TrainerSound(t)
  {
    if e.Malformed? || e.body.EpisodeEvent? then None
    else if e.body.DictionaryEvent? then
      var (ok, t') := ProcessDedup(read, t, e.body.dictionary);
      if ok then Some(t') else None
    else Some(t)
  }

  lemma DictionaryStepSound(read: Reader, t: Trainer, e: Event)
    requires TrainerSound(t)
    ensures DictionaryStep(read, t, e).Some? ==> TrainerSound(DictionaryStep(read, t, e).value)
  {
    if e.Event? && e.body.DictionaryEvent? { ProcessDedupSound(read, t, e.body.dictionary); }
  }

  /** The trainer after the dictionary events among events, none of which is refused. */
  function Dictionaries(read: Reader, t: Trainer, events: seq<Event>): (r: Option<Trainer>)
    requires TrainerSound(t)
    ensures r.Some? ==> TrainerSound(r.value)
  {
    if events == [] then Some(t)
    else
      var before := Dictionaries(read, t, events[..|events| - 1]);
      if before.None? then None
      else
        DictionaryStepSound(read, before.value, events[|events| - 1]);
        DictionaryStep(read, before.value, events[|events| - 1])
  }

  function GroupIf(b: Batch, e: Event): Batch { if Groupable(e) then Group(b, e) else b }

  lemma OnEventAccepts(read: Reader, s: Session, e: Event)
    requires DictionaryStep(read, s.state.trainer, e).Some?
    ensures var (ok, s') := OnEvent(read, s, e);
            && ok && s'.results == s.results
            && s'.state == s.state.(trainer := DictionaryStep(read, s.state.trainer, e).value, batch := GroupIf(s.state.batch, e))
  {
    hide TrainerSound, BatchSound, ProcessDedup, Group;
  }

  lemma EventsUnfold(read: Reader, library: Library, formats: Formats, s: Session, events: seq<Event>)
    ensures events == [] ==> Events(OpsOf(read, library, formats), s, events) == (true, s)
    ensures events != [] ==>
      var n := |events| - 1;
      var (ok, s') := Events(OpsOf(read, library, formats), s, events[..n]);
      Events(OpsOf(read, library, formats), s, events) == if ok then OnEvent(read, s', events[n]) else (false, s')
  {
    hide OnEvent;
  }

  lemma MembersUnfold(b: Batch, events: seq<Event>)
    requires events != []
    ensures var n := |events| - 1;
            GroupAll(b, Members(events)) == GroupIf(GroupAll(b, Members(events[..n])), events[n])
  {
    hide Group;
    var n := |events| - 1;
    var ms, e := Members(events[..n]), events[n];
    if Groupable(e) {
      assert (ms + [e])[..|ms|] == ms;
    } else {
      assert ms + [] == ms;
    }
  }

  /** Events none of which is refused: the dictionaries reach the trainer, the members the batch. */
  lemma {:induction false} EventsGroup(read: Reader, library: Library, formats: Formats, s: Session, events: seq<Event>)
    requires Dictionaries(read, s.state.trainer, events).Some?
    ensures var (ok, s') := Events(OpsOf(read, library, formats), s, events);
            && ok && s'.results == s.results
            && s'.state == s.state.(trainer := Dictionaries(read, s.state.trainer, events).value,
                                    batch := GroupAll(s.state.batch, Members(events)))
  {
    hide TrainerSound, BatchSound, DictionaryStep, GroupIf, OnEvent, Events, OpsOf;
    EventsUnfold(read, library, formats, s, events);
    if events != [] {
      var n := |events| - 1;
      DictionariesUnfold(read, s.state.trainer, events);
      EventsGroup(read, library, formats, s, events[..n]);
      hide Members, GroupAll;
      OnEventAccepts(read, Events(OpsOf(read, library, formats), s, events[..n]).1, events[n]);
      MembersUnfold(s.state.batch, events);
    }
  }

  lemma DictionariesUnfold(read: Reader, t: Trainer, events: seq<Event>)
    requires TrainerSound(t) && events != [] && Dictionaries(read, t, events).Some?
    ensures var before := Dictionaries(read, t, events[..|events| - 1]);
            before.Some? && Dictionaries(read, t, events) == DictionaryStep(read, before.value, events[|events| - 1])
  {}

  /** A batch drained: its results in order, and nothing left. */
  lemma {:induction false} DrainResults(read: Reader, library: Library, formats: Formats, s: Session)
    requires Lawful(OpsOf(read, library, formats))
    ensures var s' := Framing.Drain(OpsOf(read, library, formats), s);
            && s'.results == s.results + EventJoin.Drain(EnvOf(library, s.state), s.state.batch)
            && s'.state.batch.order == []
            && s'.state.trainer == s.state.trainer && s'.state.settings == s.state.settings
    decreases |s.state.batch.order|
  {
    hide TrainerSound, BatchSound, Lawful, JoinFront;
    var ops := OpsOf(read, library, formats);
    if s.state.batch.order != [] {
      JoinedStepSound(library, s.state);
      var s1 := OnJoined(library, s).1;
      DrainResults(read, library, formats, s1);
      var env := EnvOf(library, s.state);
      assert s1.state.batch == JoinFront(env, s.state.batch).1 && EnvOf(library, s1.state) == env;
      assert EventJoin.Drain(env, s.state.batch) == [JoinFront(env, s.state.batch).0] + EventJoin.Drain(env, s1.state.batch);
    }
  }

  lemma {:induction false} GroupAllSound(b: EventJoin.Batch, events: seq<Member>)
    requires BatchSound(b)
    ensures BatchSound(GroupAll(b, events))
  {
    hide BatchSound, Group;
    if events != [] {
      GroupAllSound(b, events[..|events| - 1]);
      GroupSound(GroupAll(b, events[..|events| - 1]), events[|events| - 1]);
    }
  }

  /** A regular message of well-formed events: its dictionaries are processed first, wherever they stand in it;
      then its groups are joined, and with them any that were waiting, all under the settings and the cache of
      now. */
  lemma RegularMessageJoined(read: Reader, library: Library, formats: Formats, s: Session, payload: seq<Byte>, padding: seq<Byte>)
    requires Ready(s.state.settings)
    requires formats.events(payload).Some? && Dictionaries(read, s.state.trainer, formats.events(payload).value).Some?
    ensures Lawful(OpsOf(read, library, formats))
    ensures BatchSound(GroupAll(s.state.batch, Members(formats.events(payload).value)))
    ensures var events := formats.events(payload).value;
            var t := Dictionaries(read, s.state.trainer, events).value;
            var s' := Deliver(OpsOf(read, library, formats), s, RegularMsg(payload, padding));
            && s'.results == s.results
                 + EventJoin.Drain(Env(s.state.settings, library, t.examples), GroupAll(s.state.batch, Members(events)))
            && s'.state.batch.order == [] && s'.state.trainer == t && s'.state.settings == s.state.settings
  {
    OpsLawful(read, library, formats);
    GroupAllSound(s.state.batch, Members(formats.events(payload).value));
    hide TrainerSound, BatchSound, Lawful, Framing.Drain, EventJoin.Drain, Events, Dictionaries, GroupAll, Results;
    var ops, events := OpsOf(read, library, formats), formats.events(payload).value;
    EventsGroup(read, library, formats, s, events);
    var s1 := Events(ops, s, events).1;
    DrainResults(read, library, formats, s1);
  }

  lemma {:induction false} GroupAllConcat(b: EventJoin.Batch, before: seq<Member>, events: seq<Member>)
    ensures GroupAll(GroupAll(b, before), events) == GroupAll(b, before + events)
  {
    hide Group;
    if events == [] {
      assert before + events == before;
    } else {
      hide GroupAll;
      var n, all := |events| - 1, before + events;
      GroupAllConcat(b, before, events[..n]);
      assert all[..|all| - 1] == before + events[..n] && all[|all| - 1] == events[n];
      GroupAllUnfold(b, all);
      GroupAllUnfold(GroupAll(b, before), events);
    }
  }

  /** Groups left waiting by an earlier message are joined with those of the next one that is read whole, as one
      batch: the events of an id from both messages form one group, and there is one result per id. */
  lemma WaitingGroupsJoin(read: Reader, library: Library, formats: Formats, s: Session, waiting: seq<Member>,
                          payload: seq<Byte>, padding: seq<Byte>)
    requires Ready(s.state.settings) && s.state.batch == GroupAll(EmptyBatch, waiting)
    requires formats.events(payload).Some? && Dictionaries(read, s.state.trainer, formats.events(payload).value).Some?
    ensures Lawful(OpsOf(read, library, formats))
    ensures var events := formats.events(payload).value;
            var t := Dictionaries(read, s.state.trainer, events).value;
            Deliver(OpsOf(read, library, formats), s, RegularMsg(payload, padding)).results
              == s.results + Results(Env(s.state.settings, library, t.examples), waiting + Members(events))
  {
    hide BatchSound, Lawful, Deliver, EventJoin.Drain, Dictionaries, GroupAll, OpsOf;
    RegularMessageJoined(read, library, formats, s, payload, padding);
    GroupAllConcat(EmptyBatch, waiting, Members(formats.events(payload).value));
  }

  /** A refused event cuts its message short: what came before it stays grouped, and waits; what comes after it
      is not looked at. */
  lemma RefusedEventLeavesGroups(read: Reader, library: Library, formats: Formats, s: Session, payload: seq<Byte>,
                                 padding: seq<Byte>, k: nat)
    requires Ready(s.state.settings)
    requires formats.events(payload).Some? && k < |formats.events(payload).value|
    requires var e := formats.events(payload).value[k]; e.Malformed? || e.body.EpisodeEvent?
    requires Dictionaries(read, s.state.trainer, formats.events(payload).value[..k]).Some?
    ensures Lawful(OpsOf(read, library, formats))
    ensures var before := formats.events(payload).value[..k];
            var s' := Deliver(OpsOf(read, library, formats), s, RegularMsg(payload, padding));
            && s'.results == s.results
            && s'.state == s.state.(trainer := Dictionaries(read, s.state.trainer, before).value,
                                    batch := GroupAll(s.state.batch, Members(before)))
  {
    OpsLawful(read, library, formats);
    hide TrainerSound, BatchSound, Lawful, Framing.Drain, Events, Dictionaries, GroupAll, OnEvent;
    var ops, events := OpsOf(read, library, formats), formats.events(payload).value;
    EventsGroup(read, library, formats, s, events[..k]);
    EventsStep(ops, s, events, k);
    OnEventRefuses(read, Events(ops, s, events[..k]).1, events[k]);
    EventsStop(ops, s, events, k + 1);
  }

  lemma OnEventRefuses(read: Reader, s: Session, e: Event)
    requires e.Malformed? || e.body.EpisodeEvent?
    ensures OnEvent(read, s, e) == (false, s)
  {}

  // ---- A whole log ----------------------------------------------------------------------------------

  type SoundTrainer = t: Trainer | TrainerSound(t) ghost witness (EmptyListed(); FreshTrainer)

  /** What reading a log carries from message to message, without batches and queues: the settings, the trainer
      and the events that wait to be joined. */
  datatype Summary = Summary(settings: Settings, trainer: SoundTrainer, waiting: seq<Member>)

  /** One event of a message: whether it is accepted, the trainer and the events waiting after it. */
  function TakeOne(read: Reader, t: SoundTrainer, waiting: seq<Member>, e: Event): (bool, SoundTrainer, seq<Member>) {
    if e.Malformed? || e.body.EpisodeEvent? then (false, t, waiting)
    else if e.body.DictionaryEvent? then
      ProcessDedupSound(read, t, e.body.dictionary);
      var (ok, t') := ProcessDedup(read, t, e.body.dictionary);
      (ok, t', if ok then waiting else [])
    else (true, t, waiting + [e])
  }

  /** The events of a message, up to the first that is refused. */
  function TakeEvents(read: Reader, t: SoundTrainer, waiting: seq<Member>, events: seq<Event>): (bool, SoundTrainer, seq<Member>) {
    if events == [] then (true, t, waiting)
    else
      var (ok, t1, w1) := TakeEvents(read, t, waiting, events[..|events| - 1]);
      if ok then TakeOne(read, t1, w1, events[|events| - 1]) else (false, t1, w1)
  }

  /** A message read whole joins all that waits; one cut short leaves it waiting. */
  ghost function ReadMessage(read: Reader, library: Library, formats: Formats, u: Summary, m: Message): (Summary, seq<Result>) {
    match m
    case CheckpointMsg(payload, _) => (u.(settings := Configure(u.settings, formats.checkpoint(payload))), [])
    case RegularMsg(payload, _) =>
      if !Ready(u.settings) || formats.events(payload).None? then (u, [])
      else
        var (ok, t, w) := TakeEvents(read, u.trainer, u.waiting, formats.events(payload).value);
        if ok then (Summary(u.settings, t, []), Results(Env(u.settings, library, t.examples), w))
        else (Summary(u.settings, t, w), [])
    case _ => (u, [])
  }

  ghost function LogSummary(read: Reader, library: Library, formats: Formats, u: Summary, ms: seq<Message>): (Summary, seq<Result>)
    decreases |ms|
  {
    if ms == [] then (u, [])
    else
      var (u1, first) := ReadMessage(read, library, formats, u, ms[0]);
      var (u2, rest) := LogSummary(read, library, formats, u1, ms[1..]);
      (u2, first + rest)
  }

  /** A dictionary that does not process ruins what was grouped so far, in its message and before: nothing is joined
      then, and nothing waits. */
  lemma BadDictionaryDiscards(read: Reader, library: Library, formats: Formats, u: Summary, payload: seq<Byte>, padding: seq<Byte>, k: nat)
    requires Ready(u.settings) && formats.events(payload).Some? && k < |formats.events(payload).value|
    requires TakeEvents(read, u.trainer, u.waiting, formats.events(payload).value[..k]).0
    requires var e := formats.events(payload).value[k];
             && e.Event? && e.body.DictionaryEvent?
             && !ProcessDedup(read, TakeEvents(read, u.trainer, u.waiting, formats.events(payload).value[..k]).1, e.body.dictionary).0
    ensures var (u', results) := ReadMessage(read, library, formats, u, RegularMsg(payload, padding));
            results == [] && u'.waiting == [] && u'.settings == u.settings
  {
    hide ProcessDedup, Results;
    TakeStops(read, u.trainer, u.waiting, formats.events(payload).value, k);
  }

  lemma {:induction false} TakeStops(read: Reader, t: SoundTrainer, waiting: seq<Member>, events: seq<Event>, k: nat)
    requires k < |events| && TakeEvents(read, t, waiting, events[..k]).0
    requires var e := events[k];
             && e.Event? && e.body.DictionaryEvent?
             && !ProcessDedup(read, TakeEvents(read, t, waiting, events[..k]).1, e.body.dictionary).0
    ensures !TakeEvents(read, t, waiting, events).0 && TakeEvents(read, t, waiting, events).2 == []
  {
    hide ProcessDedup;
    TakeUnfold(read, t, waiting, events);
    var n := |events| - 1;
    if k < n {
      assert events[..n][..k] == events[..k];
      TakeStops(read, t, waiting, events[..n], k);
    }
  }

  /** The session is where the summary says. */
  ghost predicate Stands(s: Session, u: Summary) {
    s.state.settings == u.settings && s.state.trainer == u.trainer && s.state.batch == GroupAll(EmptyBatch, u.waiting)
  }

  lemma OnEventTakes(read: Reader, s: Session, waiting: seq<Member>, e: Event)
    requires s.state.batch == GroupAll(EmptyBatch, waiting)
    ensures var (ok, s') := OnEvent(read, s, e);
            var (ok', t, w) := TakeOne(read, s.state.trainer, waiting, e);
            ok == ok' && s'.results == s.results && s'.state == s.state.(trainer := t, batch := GroupAll(EmptyBatch, w))
  {
    hide TrainerSound, BatchSound, ProcessDedup, Group;
    if Groupable(e) { assert (waiting + [e])[..|waiting|] == waiting; }
  }

  lemma TakeUnfold(read: Reader, t: SoundTrainer, waiting: seq<Member>, events: seq<Event>)
    requires events != []
    ensures var (ok, t1, w1) := TakeEvents(read, t, waiting, events[..|events| - 1]);
            TakeEvents(read, t, waiting, events) == if ok then TakeOne(read, t1, w1, events[|events| - 1]) else (false, t1, w1)
  {
    hide TakeOne;
  }

  lemma {:induction false} EventsTake(read: Reader, library: Library, formats: Formats, s: Session, waiting: seq<Member>,
                                      events: seq<Event>)
    requires s.state.batch == GroupAll(EmptyBatch, waiting)
    ensures var (ok, s') := Events(OpsOf(read, library, formats), s, events);
            var (ok', t, w) := TakeEvents(read, s.state.trainer, waiting, events);
            ok == ok' && s'.results == s.results && s'.state == s.state.(trainer := t, batch := GroupAll(EmptyBatch, w))
  {
    hide TrainerSound, BatchSound, TakeOne, OnEvent, Events, OpsOf, GroupAll;
    EventsUnfold(read, library, formats, s, events);
    if events != [] {
      var n := |events| - 1;
      TakeUnfold(read, s.state.trainer, waiting, events);
      EventsTake(read, library, formats, s, waiting, events[..n]);
      hide TakeEvents;
      var s1 := Events(OpsOf(read, library, formats), s, events[..n]).1;
      OnEventTakes(read, s1, TakeEvents(read, s.state.trainer, waiting, events[..n]).2, events[n]);
    }
  }

  lemma NoGroups(b: EventJoin.Batch)
    requires BatchSound(b) && b.order == []
    ensures b == EmptyBatch
  {
    assert b.grouped.Keys == {};
  }

  lemma ResultsIs(env: Env, events: seq<Member>)
    ensures BatchSound(GroupAll(EmptyBatch, events)) && Results(env, events) == EventJoin.Drain(env, GroupAll(EmptyBatch, events))
  {
    GroupAllMeaning(events);
  }

  /** One message does to the session what it does to the summary. */
  lemma MessageStands(read: Reader, library: Library, formats: Formats, s: Session, u: Summary, m: Message)
    requires Lawful(OpsOf(read, library, formats)) && Stands(s, u)
    ensures var s' := Deliver(OpsOf(read, library, formats), s, m);
            var (u', rs) := ReadMessage(read, library, formats, u, m);
            Stands(s', u') && s'.results == s.results + rs
  {
    hide TrainerSound, Lawful, Framing.Drain, EventJoin.Drain, Events, TakeEvents, GroupAll, BatchSound;
    var ops := OpsOf(read, library, formats);
    assert s.results + [] == s.results;
    if m.RegularMsg? && Ready(u.settings) && formats.events(m.payload).Some? {
      var events := formats.events(m.payload).value;
      EventsTake(read, library, formats, s, u.waiting, events);
      var (ok, s1) := Events(ops, s, events);
      if ok {
        DrainResults(read, library, formats, s1);
        var w := TakeEvents(read, u.trainer, u.waiting, events).2;
        ResultsIs(EnvOf(library, s1.state), w);
        NoGroups(Framing.Drain(ops, s1).state.batch);
        GroupNone();
      }
    }
  }

  lemma GroupNone()
    ensures GroupAll(EmptyBatch, []) == EmptyBatch
  {}

  lemma {:induction false} LogStands(read: Reader, library: Library, formats: Formats, s: Session, u: Summary, ms: seq<Message>)
    requires Lawful(OpsOf(read, library, formats)) && Stands(s, u)
    ensures var s' := DeliverAll(OpsOf(read, library, formats), s, ms);
            var (u', rs) := LogSummary(read, library, formats, u, ms);
            Stands(s', u') && s'.results == s.results + rs
    decreases |ms|
  {
    hide Lawful, OpsOf, Deliver, Stands, ReadMessage;
    if ms != [] {
      MessageStands(read, library, formats, s, u, ms[0]);
      LogStands(read, library, formats, Deliver(OpsOf(read, library, formats), s, ms[0]),
                ReadMessage(read, library, formats, u, ms[0]).0, ms[1..]);
    } else {
      assert s.results + [] == s.results;
    }
  }

  /** A whole file read through the example joiner, over any number of calls: its results are those of its
      messages in order, each joining what the messages before it left waiting. */
  lemma LogRead(read: Reader, library: Library, formats: Formats, ms: seq<Message>)
    requires forall m :: m in ms ==> WellFormed(m)
    ensures Lawful(OpsOf(read, library, formats)) && StateSound(Initial)
    ensures var start := Summary(InitialSettings, FreshTrainer, []);
            var end := RunAll(OpsOf(read, library, formats), Parser(Encode(ms), 0, 0, Session(Initial, [])));
            var (u, results) := LogSummary(read, library, formats, start, ms);
            end.joiner.results == results && Stands(end.joiner, u) && end.input == []
  {
    OpsLawful(read, library, formats);
    InitialSound();
    var ops, s, u := OpsOf(read, library, formats), Session(Initial, []), Summary(InitialSettings, FreshTrainer, []);
    assert Framing.Drain(ops, s) == s;
    GroupNone();
    hide Lawful, RunAll, DeliverAll, Framing.Drain, Encode, OpsOf, LogSummary, GroupAll;
    assert Stands(s, u);
    LogStands(read, library, formats, s, u, ms);
    FileDelivered(ops, s, ms);
  }
}
