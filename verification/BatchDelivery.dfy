/** A batch as the trainer reads it, message and all: the dictionary event at the front of the message is in the
    cache under which every context of the message is read, whatever the log held before. */
module BatchDelivery {
  import opened Common
  import opened DedupDict
  import P = DedupProtocol
  import DedupSafety
  import DedupContents
  import opened DedupReplay
  import E = EndToEnd
  import J = EventJoin
  import EventJoinLaws
  import ExampleJoiner
  import opened BinaryParser
  import opened Framing
  import opened LogReader

  predicate AllGroupable(events: seq<J.Event>) { forall e :: e in events ==> J.Groupable(e) }

  lemma {:induction false} MembersAll(events: seq<J.Event>)
    requires AllGroupable(events)
    ensures Members(events) == events
  {
    if events != [] {
      MembersAll(events[..|events| - 1]);
      assert events == events[..|events| - 1] + [events[|events| - 1]];
    }
  }

  /** The dictionary of a message that starts with one and has members after it. */
  lemma {:induction false} DictionaryFirst(read: Reader, t: Trainer, first: J.Event, members: seq<J.Event>)
    requires TrainerSound(t) && AllGroupable(members) && first.Event? && first.body.DictionaryEvent?
    requires ProcessDedup(read, t, first.body.dictionary).0
    ensures Dictionaries(read, t, [first] + members) == Some(ProcessDedup(read, t, first.body.dictionary).1)
    ensures Members([first] + members) == members
  {
    hide TrainerSound, ProcessDedup, Dictionaries, DictionaryStep, Members;
    var all := [first] + members;
    NoEvents(read, t);
    if members == [] {
      assert all == [] + [first];
      EventLast(read, t, [], first);
    } else {
      var n := |members| - 1;
      DictionaryFirst(read, t, first, members[..n]);
      assert all == ([first] + members[..n]) + [members[n]] && members[n] in members;
      EventLast(read, t, [first] + members[..n], members[n]);
      assert members[..n] + [members[n]] == members;
    }
  }

  lemma NoEvents(read: Reader, t: Trainer)
    requires TrainerSound(t)
    ensures Dictionaries(read, t, []) == Some(t) && Members([]) == []
  {}

  /** One more event: a dictionary is processed, a member is kept. */
  lemma {:induction false} EventLast(read: Reader, t: Trainer, events: seq<J.Event>, e: J.Event)
    requires TrainerSound(t) && Dictionaries(read, t, events).Some? && e.Event?
    ensures e.body.DictionaryEvent? && ProcessDedup(read, Dictionaries(read, t, events).value, e.body.dictionary).0 ==>
              Dictionaries(read, t, events + [e]) == Some(ProcessDedup(read, Dictionaries(read, t, events).value, e.body.dictionary).1)
              && Members(events + [e]) == Members(events)
    ensures J.Groupable(e) ==>
              Dictionaries(read, t, events + [e]) == Dictionaries(read, t, events) && Members(events + [e]) == Members(events) + [e]
  {
    hide TrainerSound, ProcessDedup;
    assert (events + [e])[..|events|] == events;
    assert Members(events) + [] == Members(events);
  }

  /** The message of a sent batch, read by any session: its contexts, and those that were waiting, are all read
      with a cache that knows every reference of the batch; and as the object cut out if and only if what the
      session had cached under its id is that object or, when that was nothing, no other content stood under its
      hash at the client. */
  lemma BatchMessageRead(hash: Hash, states: seq<P.System>, steps: seq<P.Step>, n: nat, read: Reader, library: J.Library,
                         formats: Formats, s: Session, batch: P.Batch, payload: seq<Byte>, padding: seq<Byte>,
                         first: J.Event, members: seq<J.Event>, e: P.Event, k: nat) returns (m: nat)
    requires P.Run(hash, states, steps) && n < |states| && batch in states[n].sent && e in batch.events && k < |e.ids|
    requires J.Ready(s.state.settings) && formats.events(payload) == Some([first] + members) && AllGroupable(members)
    requires first.Event? && first.body == J.DictionaryEvent(Some(E.DictionaryOf(batch)))
    requires ProcessDedup(read, s.state.trainer, Some(E.DictionaryOf(batch))).0
    ensures Lawful(OpsOf(read, library, formats))
    ensures J.BatchSound(J.GroupAll(s.state.batch, Members(members)))
    ensures var t := ProcessDedup(read, s.state.trainer, Some(E.DictionaryOf(batch))).1;
            var s' := Deliver(OpsOf(read, library, formats), s, RegularMsg(payload, padding));
            && s'.state.trainer == t
            && s'.results == s.results
                 + J.Drain(J.Env(s.state.settings, library, t.examples), J.GroupAll(s.state.batch, Members(members)))
    ensures m < n && m < |steps| && steps[m] == P.Transform(e.payload, e.spans)
    ensures ValidSpans(e.spans, |e.payload|) && |e.ids| == |e.spans|
    ensures e.ids[k] in s.state.trainer.examples ==> e.ids[k] in E.Known(s.state.trainer)
    ensures var t, t' := s.state.trainer, ProcessDedup(read, s.state.trainer, Some(E.DictionaryOf(batch))).1;
            var objects := Objects(e.payload, e.spans);
            && e.ids[k] in t'.examples && e.ids[k] in E.Known(t')
            && (E.Known(t')[e.ids[k]] == objects[k] <==>
                  if e.ids[k] in t.examples then E.Known(t)[e.ids[k]] == objects[k]
                  else DedupContents.Unclaimed(hash, states[m].dict, objects, k))
  {
    hide *;
    SessionSound(s);
    DictionaryFirst(read, s.state.trainer, first, members);
    MembersAll(members);
    RegularMessageJoined(read, library, formats, s, payload, padding);
    m := E.ReferenceReadIff(hash, states, steps, n, read, s.state.trainer, batch, e, k);
    KnownCached(ProcessDedup(read, s.state.trainer, Some(E.DictionaryOf(batch))).1, e.ids[k]);
  }

  /** For a library that reads a context exactly when the objects it refers to are cached: of the groups a message
      joins, those come to nothing all of whose interactions of the configured kind and mode refer to an object that
      is not cached after the dictionaries of the message. */
  lemma MessageContexts(read: Reader, library: J.Library, formats: Formats, s: Session, payload: seq<Byte>, padding: seq<Byte>,
                        refs: string -> set<ObjectId>, j: nat)
    requires J.Ready(s.state.settings) && EventJoinLaws.ReadsReferences(library, refs)
    requires formats.events(payload).Some? && Dictionaries(read, s.state.trainer, formats.events(payload).value).Some?
    requires j < |J.GroupAll(s.state.batch, Members(formats.events(payload).value)).order|
    ensures Lawful(OpsOf(read, library, formats))
    ensures var b := J.GroupAll(s.state.batch, Members(formats.events(payload).value)); J.BatchSound(b) && b.order[j] in b.grouped
    ensures var events := formats.events(payload).value;
            var b, cached := J.GroupAll(s.state.batch, Members(events)), Dictionaries(read, s.state.trainer, events).value.examples;
            var s', group := Deliver(OpsOf(read, library, formats), s, RegularMsg(payload, padding)), b.grouped[b.order[j]];
            && |s'.results| == |s.results| + |b.order|
            && (s'.results[|s.results| + j] == J.NoInteraction <==>
                  forall i :: 0 <= i < |group| && EventJoinLaws.Configured(s.state.settings, group[i]) ==>
                    exists id :: id in refs(group[i].body.interaction.value.context) && id !in cached)
  {
    hide *;
    SessionSound(s);
    var events := formats.events(payload).value;
    var b, t := J.GroupAll(s.state.batch, Members(events)), Dictionaries(read, s.state.trainer, events).value;
    RegularMessageJoined(read, library, formats, s, payload, padding);
    EventJoinLaws.DrainGroups(J.Env(s.state.settings, library, t.examples), b);
    EventJoinLaws.NothingIffUncached(J.Env(s.state.settings, library, t.examples), refs, b.grouped[b.order[j]]);
  }

  /** So in the message of a sent batch an interaction of the configured kind and mode that carries an edited payload
      is read, whatever was cached before: its group does not come to nothing. */
  lemma BatchContextRead(hash: Hash, states: seq<P.System>, steps: seq<P.Step>, n: nat, read: Reader, library: J.Library,
                         formats: Formats, s: Session, batch: P.Batch, payload: seq<Byte>, padding: seq<Byte>,
                         first: J.Event, members: seq<J.Event>, refs: string -> set<ObjectId>, e: P.Event, x: J.Member) returns (j: nat)
    requires P.Run(hash, states, steps) && n < |states| && batch in states[n].sent && e in batch.events
    requires J.Ready(s.state.settings) && formats.events(payload) == Some([first] + members) && AllGroupable(members)
    requires first.Event? && first.body == J.DictionaryEvent(Some(E.DictionaryOf(batch)))
    requires ProcessDedup(read, s.state.trainer, Some(E.DictionaryOf(batch))).0
    requires EventJoinLaws.ReadsReferences(library, refs) && forall id :: id in refs(e.edited) <==> id in e.ids
    requires x in members && EventJoinLaws.Configured(s.state.settings, x) && x.body.interaction.value.context == e.edited
    ensures Lawful(OpsOf(read, library, formats))
    ensures var b := J.GroupAll(s.state.batch, Members(members));
            var s' := Deliver(OpsOf(read, library, formats), s, RegularMsg(payload, padding));
            && j < |b.order| && b.order[j] == x.id && |s'.results| == |s.results| + |b.order|
            && s'.results[|s.results| + j] != J.NoInteraction
  {
    hide *;
    SessionSound(s);
    ConfiguredParts(s.state.settings, x);
    DictionaryFirst(read, s.state.trainer, first, members);
    MembersAll(members);
    var b := J.GroupAll(s.state.batch, Members(members));
    EventJoinLaws.GroupHolds(s.state.batch, members, x);
    GroupListed(s.state.batch, members, x.id);
    j :| 0 <= j < |b.order| && b.order[j] == x.id;
    MessageContexts(read, library, formats, s, payload, padding, refs, j);
    var t := ProcessDedup(read, s.state.trainer, Some(E.DictionaryOf(batch))).1;
    forall id | id in refs(x.body.interaction.value.context) ensures id in t.examples {
      var k :| 0 <= k < |e.ids| && e.ids[k] == id;
      var m := E.ReferenceReadIff(hash, states, steps, n, read, s.state.trainer, batch, e, k);
      KnownCached(t, id);
    }
    var i :| 0 <= i < |b.grouped[x.id]| && b.grouped[x.id][i] == x;
  }

  lemma ConfiguredParts(settings: J.Settings, x: J.Member)
    requires EventJoinLaws.Configured(settings, x)
    ensures x.Event? && x.body.Interaction? && x.body.interaction.Some?
  {}

  lemma GroupListed(b: J.Batch, events: seq<J.Member>, id: string)
    requires J.BatchSound(b) && id in J.GroupAll(b, events).grouped
    ensures id in J.GroupAll(b, events).order
  {
    GroupAllSound(b, events);
  }

  lemma SessionSound(s: Session)
    ensures TrainerSound(s.state.trainer) && J.BatchSound(s.state.batch)
  {}

  lemma KnownCached(t: Trainer, id: ObjectId)
    requires id in E.Known(t)
    ensures id in t.examples
  {}

  // ---- After any log --------------------------------------------------------------------------------

  predicate DictionaryIn(events: seq<J.Event>, p: Option<Payload>) {
    exists e :: e in events && e.Event? && e.body.DictionaryEvent? && e.body.dictionary == p
  }

  /** The dictionaries of a message that is read, in order, up to the first that is refused, take the trainer on. */
  lemma {:induction false} TakeReplays(read: Reader, ps: seq<Option<Payload>>, waiting: seq<J.Member>, events: seq<J.Event>)
    returns (qs: seq<Option<Payload>>)
    ensures TakeEvents(read, Replay(read, ps), waiting, events).1 == Replay(read, ps + qs)
    ensures forall q :: q in qs ==> DictionaryIn(events, q)
  {
    hide TrainerSound, ProcessDedup, Replay;
    if events == [] {
      qs := [];
      assert ps + qs == ps;
    } else {
      var n := |events| - 1;
      var e := events[n];
      qs := TakeReplays(read, ps, waiting, events[..n]);
      assert forall x :: x in events[..n] ==> x in events;
      if TakeEvents(read, Replay(read, ps), waiting, events[..n]).0 && e.Event? && e.body.DictionaryEvent? {
        ReplayNext(read, ps + qs, e.body.dictionary);
        qs := qs + [e.body.dictionary];
        assert ps + qs == ps + qs[..|qs| - 1] + [e.body.dictionary];
        assert e in events && DictionaryIn(events, e.body.dictionary);
      }
    }
  }

  lemma ReplayNext(read: Reader, ps: seq<Option<Payload>>, p: Option<Payload>)
    ensures Replay(read, ps + [p]) == ProcessDedup(read, Replay(read, ps), p).1
  {
    assert (ps + [p])[..|ps|] == ps;
  }

  /** Every dictionary event in the log comes from a sent batch, or does not decode. */
  ghost predicate LogFromClient(s: P.System, formats: Formats, ms: seq<Message>) {
    forall m, p :: m in ms && m.RegularMsg? && formats.events(m.payload).Some? && DictionaryIn(formats.events(m.payload).value, p)
      ==> E.FromClient(s, [p])
  }

  /** Whatever else the log holds, the trainer is that of its dictionaries alone. */
  lemma {:induction false} LogReplays(sys: P.System, read: Reader, library: J.Library, formats: Formats, u: Summary,
                                      ps: seq<Option<Payload>>, ms: seq<Message>) returns (qs: seq<Option<Payload>>)
    requires u.trainer == Replay(read, ps) && E.FromClient(sys, ps) && LogFromClient(sys, formats, ms)
    ensures LogSummary(read, library, formats, u, ms).0.trainer == Replay(read, qs) && E.FromClient(sys, qs)
    decreases |ms|
  {
    hide TrainerSound, TakeEvents, Replay, J.Results;
    qs := ps;
    if ms != [] {
      var m := ms[0];
      if m.RegularMsg? && J.Ready(u.settings) && formats.events(m.payload).Some? {
        var more := TakeReplays(read, ps, u.waiting, formats.events(m.payload).value);
        assert m in ms;
        forall q | q in more ensures E.FromClient(sys, [q]) {}
        FromClientConcat(sys, ps, more);
        qs := ps + more;
      }
      assert forall x :: x in ms[1..] ==> x in ms;
      qs := LogReplays(sys, read, library, formats, ReadMessage(read, library, formats, u, m).0, qs, ms[1..]);
    }
  }

  lemma FromClientConcat(s: P.System, ps: seq<Option<Payload>>, qs: seq<Option<Payload>>)
    requires E.FromClient(s, ps) && forall q :: q in qs ==> E.FromClient(s, [q])
    ensures E.FromClient(s, ps + qs)
  {
    forall q | q in qs ensures q == None || exists batch :: batch in s.sent && q == Some(E.DictionaryOf(batch)) {
      assert q in [q];
    }
  }

  /** After any log of the client's batches, cut short, malformed or out of order as it may be: with no two of the
      objects cut so far under one hash, the next batch's dictionary makes every reference known as its object. */
  lemma BatchAfterLog(hash: Hash, states: seq<P.System>, steps: seq<P.Step>, n: nat, read: Reader, library: J.Library,
                      formats: Formats, ms: seq<Message>, batch: P.Batch, e: P.Event, k: nat)
    requires P.Run(hash, states, steps) && n < |states| && DedupContents.CollisionFree(hash, states[n].objects)
    requires LogFromClient(states[n], formats, ms)
    requires batch in states[n].sent && e in batch.events && k < |e.ids|
    ensures TrainerSound(FreshTrainer)
    ensures ValidSpans(e.spans, |e.payload|) && |e.ids| == |e.spans|
    ensures var t := LogSummary(read, library, formats, Summary(J.InitialSettings, FreshTrainer, []), ms).0.trainer;
            var (ok, t') := ProcessDedup(read, t, Some(E.DictionaryOf(batch)));
            ok ==> e.ids[k] in E.Known(t') && E.Known(t')[e.ids[k]] == Objects(e.payload, e.spans)[k]
  {
    StartSound();
    ReplayNone(read);
    DedupSafety.EveryRunIsSound(hash, states, steps, n);
    E.SentEvent(hash, states[n], batch, e);
    hide TrainerSound, ProcessDedup, Replay, LogSummary, LogFromClient, E.Known;
    hide P.Run, P.Sound, DedupContents.CollisionFree, ValidSpans;
    var qs := LogReplays(states[n], read, library, formats, Summary(J.InitialSettings, FreshTrainer, []), [], ms);
    if ProcessDedup(read, Replay(read, qs), Some(E.DictionaryOf(batch))).0 {
      E.ReferencesReachTheirObjects(hash, states, steps, n, read, qs, batch, e, k);
    }
  }

  lemma ReplayNone(read: Reader)
    ensures Replay(read, []) == FreshTrainer
  {}
}
