/** The joiner's state and its methods: example_joiner.cc. */
module ExampleJoiner {
  import opened Common
  import opened Rewards
  import opened CcbEvent
  import opened LruDedupCache
  import opened DedupReplay
  import opened EventJoin

  /** A checkpoint's settings; reward is None for a function this version does not know. */
  datatype Checkpoint = Checkpoint(reward: Option<RewardKind>, defaultReward: real, learningMode: LearningMode,
                                   problemType: ProblemType, useClientTime: bool)

  datatype State = State(trainer: Trainer, batch: Batch, settings: Settings, skipLearn: bool)

  const Initial := State(FreshTrainer, EmptyBatch, InitialSettings, false)

  ghost predicate StateSound(s: State) { TrainerSound(s.trainer) && BatchSound(s.batch) }

  function EnvOf(library: Library, s: State): Env { Env(s.settings, library, s.trainer.examples) }

  // ---- What each method does to the state ---------------------------------------------------------

  /** A bad dictionary ruins the batch; malformed and episode events are refused; the others are grouped. */
  function EventStep(read: Reader, s: State, e: Event): (bool, State)
    requires StateSound(s)
  {
    if e.Malformed? then (false, s)
    else
      match e.body
      case DictionaryEvent(dictionary) =>
        var (ok, t) := ProcessDedup(read, s.trainer, dictionary);
        if ok then (true, s.(trainer := t)) else (false, s.(trainer := t, batch := EmptyBatch))
      case EpisodeEvent => (false, s)
      case _ => (true, s.(batch := Group(s.batch, e)))
  }

  /** The front group is joined and leaves the batch, whatever comes of it. */
  ghost function JoinedStep(library: Library, s: State): (bool, State)
    requires StateSound(s)
  {
    if s.batch.order == [] then (true, s.(skipLearn := false))
    else
      var (result, rest) := JoinFront(EnvOf(library, s), s.batch);
      (result.Learned?, s.(batch := rest, skipLearn := result.SkipLearn?))
  }

  function Configure(settings: Settings, c: Checkpoint): Settings {
    Settings(settings.defaultReward.Set(c.defaultReward, false), settings.learningMode.Set(c.learningMode, false),
             settings.problemType.Set(c.problemType, false), settings.useClientTime.Set(c.useClientTime, false),
             if c.reward.Some? then settings.reward.Set(c.reward.value, false) else settings.reward)
  }

  /** A locked setting stays as it is; another takes the value. */
  predicate TakesValue<T(==)>(before: Sticky<T>, after: Sticky<T>, v: T) {
    if before.locked then after == before else after == Sticky(false, true, v)
  }

  predicate Takes(before: Settings, after: Settings, c: Checkpoint) {
    && TakesValue(before.defaultReward, after.defaultReward, c.defaultReward)
    && TakesValue(before.learningMode, after.learningMode, c.learningMode)
    && TakesValue(before.problemType, after.problemType, c.problemType)
    && TakesValue(before.useClientTime, after.useClientTime, c.useClientTime)
    && (if c.reward.None? then after.reward == before.reward else TakesValue(before.reward, after.reward, c.reward.value))
  }

  function ConfigureAll(settings: Settings, cs: seq<Checkpoint>): Settings {
    if cs == [] then settings else Configure(ConfigureAll(settings, cs[..|cs| - 1]), cs[|cs| - 1])
  }

  /** The reward function the checkpoints name last. */
  function LastReward(cs: seq<Checkpoint>): Option<RewardKind> {
    if cs == [] then None
    else if cs[|cs| - 1].reward.Some? then cs[|cs| - 1].reward
    else LastReward(cs[..|cs| - 1])
  }

  /** After any series of checkpoints the settings are those of the last, but for locked ones, and for a reward
      function it does not know, where the last known one stays. */
  lemma {:induction false} LastCheckpointHolds(settings: Settings, cs: seq<Checkpoint>)
    requires cs != []
    ensures Takes(settings, ConfigureAll(settings, cs), cs[|cs| - 1].(reward := LastReward(cs)))
  {
    if |cs| > 1 {
      LastCheckpointHolds(settings, cs[..|cs| - 1]);
    } else {
      assert LastReward(cs[..0]) == None;
    }
  }

  /** The joiner is ready from the first checkpoint on, and not before. */
  lemma ReadyIffCheckpoint(cs: seq<Checkpoint>)
    ensures Ready(ConfigureAll(InitialSettings, cs)) <==> cs != []
  {
    if cs != [] { LastCheckpointHolds(InitialSettings, cs); }
  }

  /** Checkpoints that name no known reward function leave the one a joiner starts with, earliest. */
  lemma UnnamedRewardIsEarliest(cs: seq<Checkpoint>)
    requires LastReward(cs) == None
    ensures ConfigureAll(InitialSettings, cs).reward.value == Earliest
  {
    if cs != [] { LastCheckpointHolds(InitialSettings, cs); }
  }

  lemma EmptyBatchSound()
    ensures BatchSound(EmptyBatch)
  {}

  lemma InitialSound()
    ensures StateSound(Initial)
  {
    EmptyListed();
    EmptyBatchSound();
  }

  lemma EventStepSound(read: Reader, s: State, e: Event)
    requires StateSound(s)
    ensures StateSound(EventStep(read, s, e).1)
  {
    hide TrainerSound, BatchSound, ProcessDedup;
    if e.Event? {
      match e.body
      case DictionaryEvent(dictionary) =>
        ProcessDedupSound(read, s.trainer, dictionary);
        EmptyBatchSound();
      case EpisodeEvent =>
      case _ => GroupSound(s.batch, e);
    }
  }

  lemma JoinedStepSound(library: Library, s: State)
    requires StateSound(s)
    ensures StateSound(JoinedStep(library, s).1)
    ensures s.batch.order != [] ==> |JoinedStep(library, s).1.batch.order| == |s.batch.order| - 1
  {
    hide TrainerSound;
    if s.batch.order != [] { JoinFrontSound(EnvOf(library, s), s.batch); }
  }

  // ---- The methods --------------------------------------------------------------------------------

  class ExampleJoiner {
    const read: Reader
    const library: Library
    const dedupCache: LruDedupCache
    var batchGroupedExamples: map<string, Joined>
    var batchGroupedEvents: map<string, seq<Member>>
    var batchEventOrder: seq<string>
    var examplePool: seq<Example>
    var created: nat
    ghost var text: map<Example, string>
    var settings: Settings
    var currentIsSkipLearn: bool

    ghost function TrainerView(): Trainer
      reads this, dedupCache
    {
      Trainer(dedupCache.Order(), dedupCache.dedupExamples, examplePool, created, text)
    }

    ghost function View(): State
      reads this, dedupCache
    {
      State(TrainerView(), Batch(batchEventOrder, batchGroupedEvents), settings, currentIsSkipLearn)
    }

    ghost predicate Valid()
      reads this, dedupCache
    {
      dedupCache.Valid() && StateSound(View()) && batchGroupedExamples == map[]
    }

    constructor (read: Reader, library: Library)
      ensures Valid() && View() == Initial && fresh(dedupCache) && this.read == read && this.library == library
    {
      this.read, this.library := read, library;
      dedupCache := new LruDedupCache();
      batchGroupedExamples, batchGroupedEvents, batchEventOrder := map[], map[], [];
      examplePool, created, text, settings, currentIsSkipLearn := [], 0, map[], InitialSettings, false;
      new;
      InitialSound();
    }

    method ApplyCheckpoint(c: Checkpoint)
      modifies this`settings
      ensures settings == Configure(old(settings), c)
      ensures Takes(old(settings), settings, c)
    {
      if c.reward.Some? { settings := settings.(reward := settings.reward.Set(c.reward.value, false)); }
      settings := settings.(defaultReward := settings.defaultReward.Set(c.defaultReward, false));
      settings := settings.(learningMode := settings.learningMode.Set(c.learningMode, false));
      settings := settings.(problemType := settings.problemType.Set(c.problemType, false));
      settings := settings.(useClientTime := settings.useClientTime.Set(c.useClientTime, false));
    }

    method GetOrCreateExample() returns (ex: Example)
      modifies this`examplePool, this`created
      ensures ex == Acquired(old(TrainerView())) && TrainerView() == Acquire(old(TrainerView()))
    {
      if examplePool == [] {
        ex := created;
        created := created + 1;
      } else {
        ex := examplePool[|examplePool| - 1];
        examplePool := examplePool[..|examplePool| - 1];
      }
    }

    /** The library reads one value, drawing examples through the joiner's factory. */
    method ReadLine(value: string) returns (ok: bool)
      modifies this`examplePool, this`created
      ensures ok == read(value).ok && TrainerView() == Draw(old(TrainerView()), read(value).extra)
    {
      for n := 0 to read(value).extra
        invariant TrainerView() == Draw(old(TrainerView()), n)
      {
        var _ := GetOrCreateExample();
      }
      ok := read(value).ok;
    }

    /** One id of a dictionary event. */
    method UseDedup(id: ObjectId, value: string) returns (ok: bool)
      requires dedupCache.Valid()
      modifies this`examplePool, this`created, this`text, dedupCache
      ensures dedupCache.Valid() && (ok, TrainerView()) == Use(read, old(TrainerView()), id, value)
    {
      var exists_ := dedupCache.Exists(id);
      if exists_ {
        dedupCache.Update(id);
        return true;
      }
      ghost var before := TrainerView();
      var ex := GetOrCreateExample();
      ok := ReadLine(value);
      DrawKeepsCache(Acquire(before), read(value).extra);
      if !ok { return; }
      dedupCache.Add(id, ex);
      text := text[ex := value];
    }

    method ProcessDedup(payload: Option<Payload>) returns (ok: bool)
      requires dedupCache.Valid() && TrainerSound(TrainerView())
      modifies this`examplePool, this`created, this`text, dedupCache
      ensures dedupCache.Valid() && (ok, TrainerView()) == DedupReplay.ProcessDedup(read, old(TrainerView()), payload)
    {
      if payload.None? { return false; }
      var ids, values := payload.value.ids, payload.value.values;
      if |ids| != |values| { return false; }
      ghost var before := TrainerView();
      assert ids[..0] == [] && values[..0] == [];
      for i := 0 to |ids|
        invariant dedupCache.Valid()
        invariant (true, TrainerView()) == UseAll(read, before, ids[..i], values[..i])
      {
        hide Use, UseAll, TrainerSound;
        UseAllStep(read, before, ids, values, i);
        ok := UseDedup(ids[i], values[i]);
        if !ok {
          UseAllStops(read, before, ids, values, i + 1);
          return;
        }
      }
      assert ids[..|ids|] == ids && values[..|ids|] == values;
      UseAllSound(read, before, ids, values);
      if |ids| > 0 {
        hide TrainerSound, UseAll;
        ghost var t := TrainerView();
        EvictIs(t, ids[0]);
        var released := dedupCache.ClearAfter(ids[0]);
        examplePool := examplePool + released;
        assert TrainerView() == Evict(t, ids[0]);
      }
      ok := true;
    }

    method ClearBatchInfo()
      modifies this`batchGroupedEvents, this`batchGroupedExamples, this`batchEventOrder
      ensures batchGroupedEvents == map[] && batchGroupedExamples == map[] && batchEventOrder == []
    {
      batchGroupedEvents, batchGroupedExamples, batchEventOrder := map[], map[], [];
    }

    method ProcessEvent(e: Event) returns (ok: bool)
      requires Valid()
      modifies this, dedupCache
      ensures Valid() && (ok, View()) == EventStep(read, old(View()), e)
    {
      hide TrainerSound, BatchSound;
      ghost var s := View();
      EventStepSound(read, s, e);
      if e.Malformed? { return false; }
      if e.body.DictionaryEvent? {
        ok := ProcessDedup(e.body.dictionary);
        if !ok { ClearBatchInfo(); }
        return;
      }
      if e.body.EpisodeEvent? { return false; }
      if e.id in batchGroupedEvents {
        batchGroupedEvents := batchGroupedEvents[e.id := batchGroupedEvents[e.id] + [e]];
      } else {
        batchGroupedEvents := batchGroupedEvents[e.id := [e]];
        batchEventOrder := batchEventOrder + [e.id];
      }
      ok := true;
    }

    ghost function CurrentEnv(): Env
      reads this, dedupCache
    {
      EnvOf(library, View())
    }

    /** An outcome is appended to its interaction, if one is joined already; one that does not decode
        invalidates it. */
    method ProcessOutcome(e: Member)
      requires e.body.Observation?
      modifies this`batchGroupedExamples
      ensures batchGroupedExamples == Put(old(batchGroupedExamples), e.id, JoinOne(CurrentEnv(), Partial(At(old(batchGroupedExamples), e.id), []), e).joined)
    {
      if e.body.observed.None? {
        if e.id in batchGroupedExamples {
          batchGroupedExamples := batchGroupedExamples[e.id := batchGroupedExamples[e.id].(ok := false)];
        }
        return;
      }
      var time := if settings.useClientTime.value && e.client.Some? then e.client.value else e.enqueued;
      var outcome := e.body.observed.value.(time := time);
      if e.id in batchGroupedExamples {
        var joined := batchGroupedExamples[e.id];
        batchGroupedExamples := batchGroupedExamples[e.id := joined.(outcomes := joined.outcomes + [outcome])];
      }
    }

    /** An accepted interaction's context is read, and the interaction kept unless there is one already. */
    method ProcessInteraction(e: Member, examples: seq<string>) returns (ok: bool, examples': seq<string>)
      requires e.body.Interaction?
      modifies this`batchGroupedExamples
      ensures ok <==> Accepted(CurrentEnv(), e).Some?
      ensures var p := JoinOne(CurrentEnv(), Partial(At(old(batchGroupedExamples), e.id), examples), e);
              batchGroupedExamples == Put(old(batchGroupedExamples), e.id, p.joined) && examples' == p.read
    {
      examples' := examples;
      if e.body.kind != settings.problemType.value { return false, examples; }
      if e.body.kind !in {CB, CCB, Slates, CA} { return false, examples; }
      if e.body.interaction.None? { return false, examples; }
      var content := e.body.interaction.value;
      if content.learningMode != settings.learningMode.value { return false, examples; }
      if !library.contextReads(content.context, dedupCache.dedupExamples) { return false, examples; }
      examples' := examples + [content.context];
      if e.id !in batchGroupedExamples {
        batchGroupedExamples := batchGroupedExamples[e.id := Joined(content, [], true)];
      }
      ok := true;
    }

    method ClearEventIdBatchInfo(id: string)
      modifies this`batchGroupedEvents, this`batchGroupedExamples, this`batchEventOrder
      ensures batchGroupedEvents == old(batchGroupedEvents) - {id}
      ensures batchGroupedExamples == old(batchGroupedExamples) - {id}
      ensures batchEventOrder == if old(batchEventOrder) != [] && old(batchEventOrder)[0] == id then old(batchEventOrder)[1..] else old(batchEventOrder)
    {
      batchGroupedEvents := batchGroupedEvents - {id};
      if batchEventOrder != [] && batchEventOrder[0] == id { batchEventOrder := batchEventOrder[1..]; }
      batchGroupedExamples := batchGroupedExamples - {id};
    }

    /** All events of the front group, in order. */
    method JoinGroup(id: string) returns (examples: seq<string>)
      requires id in batchGroupedEvents && batchGroupedExamples == map[]
      requires forall e :: e in batchGroupedEvents[id] ==> e.id == id
      modifies this`batchGroupedExamples
      ensures var p := JoinAll(CurrentEnv(), batchGroupedEvents[id]);
              batchGroupedExamples == Put(map[], id, p.joined) && examples == p.read
    {
      examples := [];
      var events := batchGroupedEvents[id];
      ghost var env := CurrentEnv();
      for k := 0 to |events|
        invariant batchGroupedExamples == Put(map[], id, JoinAll(env, events[..k]).joined)
        invariant examples == JoinAll(env, events[..k]).read
      {
        hide JoinAll, JoinOne;
        JoinAllStep(env, events, k);
        var e := events[k];
        assert e in batchGroupedEvents[id];
        PutAt(id, JoinAll(env, events[..k]).joined, JoinAll(env, events[..k + 1]).joined);
        JoinOneRead(env, JoinAll(env, events[..k]), e);
        if e.body.Observation? {
          ProcessOutcome(e);
        } else {
          var ok;
          ok, examples := ProcessInteraction(e, examples);
        }
      }
      assert events[..|events|] == events;
    }

    method ProcessJoined() returns (ok: bool, result: Option<Result>)
      requires Valid()
      modifies this
      ensures Valid() && (ok, View()) == JoinedStep(library, old(View()))
      ensures result == if old(View()).batch.order == [] then None
                        else Some(JoinFront(EnvOf(library, old(View())), old(View()).batch).0)
      ensures ok <==> result.None? || result.value.Learned?
      ensures currentIsSkipLearn <==> result == Some(SkipLearn)
    {
      hide TrainerSound, BatchSound, Accepted, JoinOne, JoinAll, Finish, Put, At, Linked, Ids;
      ghost var s := View();
      JoinedStepSound(library, s);
      currentIsSkipLearn := false;
      if batchEventOrder == [] { return true, None; }
      var id := batchEventOrder[0];
      FrontGroup(s.batch);
      var examples := JoinGroup(id);
      ghost var p := JoinAll(EnvOf(library, s), s.batch.grouped[id]);
      EnvSame(library, s, View());
      var joined := if id in batchGroupedExamples then Some(batchGroupedExamples[id]) else None;
      PutAt(id, p.joined, p.joined);
      var r := FinishGroup(EnvOf(library, s), joined, examples);
      ClearEventIdBatchInfo(id);
      currentIsSkipLearn := r.SkipLearn?;
      return r.Learned?, Some(r);
    }

    /** The rewards of a joined event. */
    method CalcReward(je: Joined) returns (scored: Scored)
      ensures scored == Score(settings, je)
    {
      hide IsReward;
      var kind, d, apprentice := settings.reward.value, settings.defaultReward.value, je.content.learningMode == Apprentice;
      match je.content.decision
      case CcbDecision(slots, baseline, slotIds) =>
        var event := new CcbJoinedEvent(slots, baseline, slotIds);
        var resolved := event.CalcCost(d, kind, apprentice, je.outcomes);
        scored := Scored(resolved, event.rewards, event.originalRewards);
        if !(apprentice && |slots| != |baseline|) {
          forall i | 0 <= i < |slots| ensures event.originalRewards[i] == RewardOf(kind, AtSlot(resolved, i), d) {
            assert [] + AtSlot(resolved, i) == AtSlot(resolved, i);
            RewardUnique(kind, AtSlot(resolved, i), d, event.originalRewards[i]);
          }
          assert event.originalRewards == SlotRewards(kind, resolved, d, |slots|);
          if apprentice {
            assert event.rewards == seq(|slots|, i requires 0 <= i < |slots| => Imitation(slots[i], baseline[i]));
          }
        }
      case CbDecision(actions) =>
        var original := ComputeReward(kind, je.outcomes, d);
        RewardUnique(kind, je.outcomes, d, original);
        var reward := original;
        if apprentice {
          reward := if actions != [] && actions[0] == CB_BASELINE_ACTION then APPRENTICE_MATCHING else APPRENTICE_NOT_MATCHING;
        }
        scored := Scored(je.outcomes, [reward], [original]);
      case OtherDecision =>
        var original := ComputeReward(kind, je.outcomes, d);
        RewardUnique(kind, je.outcomes, d, original);
        scored := Scored(je.outcomes, [if apprentice then d else original], [original]);
    }

    /** The joined event is scored and used, if there is one and it can be; an activation clears its deferred
        flag. */
    method FinishGroup(ghost env: Env, joined: Option<Joined>, examples: seq<string>) returns (result: Result)
      requires env.library == library && env.settings == settings
      ensures result == Finish(env, Partial(joined, examples))
    {
      hide Score;
      if joined.None? { return NoInteraction; }
      var je := joined.value;
      if !je.ok { return Invalidated; }
      var scored := CalcReward(je);
      je := je.(outcomes := scored.outcomes);
      var activated := exists o :: o in je.outcomes && o.actionTaken;
      if je.content.deferred && !activated { return SkipLearn; }
      je := je.(content := je.content.(deferred := false));
      result := if library.labels(je, scored.rewards, examples) then Learned(je, scored.rewards, scored.originals, examples)
                else Unlabelled;
    }

    /** What the destructor does before it frees the pool: every cached example goes back to it. */
    method ReturnCachedExamples()
      requires Valid()
      modifies this`examplePool, dedupCache
      ensures Valid() && TrainerView().examples == map[] && Lost(TrainerView()) == Lost(old(TrainerView()))
      ensures forall id :: id in old(dedupCache.dedupExamples) ==> old(dedupCache.dedupExamples)[id] in examplePool
    {
      ghost var t := TrainerView();
      var released := dedupCache.Clear();
      examplePool := examplePool + released;
      hide TrainerSound, BatchSound, Lost, Releases;
      ClearReturnsAll(t, released);
      assert TrainerView() == Cleared(t, released);
    }
  }

  // ---- Small steps ----------------------------------------------------------------------------------

  function At(m: map<string, Joined>, id: string): Option<Joined> { if id in m then Some(m[id]) else None }

  function Put(m: map<string, Joined>, id: string, j: Option<Joined>): map<string, Joined> {
    if j.None? then m else m[id := j.value]
  }

  lemma PutAt(id: string, j: Option<Joined>, k: Option<Joined>)
    ensures At(Put(map[], id, j), id) == j
    ensures j.Some? ==> Put(Put(map[], id, j), id, k) == Put(map[], id, if k.Some? then k else j)
    ensures j.None? ==> Put(Put(map[], id, j), id, k) == Put(map[], id, k)
    ensures Put(map[], id, j) - {id} == map[]
    ensures id in Put(map[], id, j) <==> j.Some?
    ensures j.Some? ==> Put(map[], id, j)[id] == j.value
  {}

  lemma JoinOneRead(env: Env, p: Partial, e: Member)
    ensures JoinOne(env, Partial(p.joined, []), e).joined == JoinOne(env, p, e).joined
    ensures p.joined.Some? ==> JoinOne(env, p, e).joined.Some?
    ensures e.body.Observation? ==> JoinOne(env, p, e).read == p.read
    ensures p == Partial(p.joined, p.read)
  {}

  lemma JoinAllStep(env: Env, events: seq<Member>, k: nat)
    requires k < |events|
    ensures JoinAll(env, events[..k + 1]) == JoinOne(env, JoinAll(env, events[..k]), events[k])
  {
    assert events[..k + 1][..k] == events[..k];
  }

  lemma FrontGroup(b: Batch)
    requires BatchSound(b) && b.order != []
    ensures b.order[0] in b.grouped && forall e :: e in b.grouped[b.order[0]] ==> e.id == b.order[0]
  {}

  lemma EnvSame(library: Library, s: State, s': State)
    requires s.settings == s'.settings && s.trainer == s'.trainer
    ensures EnvOf(library, s) == EnvOf(library, s')
  {}

  lemma {:induction false} DrawKeepsCache(t: Trainer, n: nat)
    ensures Draw(t, n).order == t.order && Draw(t, n).examples == t.examples && Draw(t, n).text == t.text
  {
    if n > 0 { DrawKeepsCache(t, n - 1); }
  }

  lemma UseAllStep(read: Reader, t: Trainer, ids: seq<ObjectId>, values: seq<string>, i: nat)
    requires i < |ids| == |values|
    ensures var (ok, t') := UseAll(read, t, ids[..i], values[..i]);
            UseAll(read, t, ids[..i + 1], values[..i + 1]) == if ok then Use(read, t', ids[i], values[i]) else (false, t')
  {
    assert ids[..i + 1][..i] == ids[..i] && values[..i + 1][..i] == values[..i];
  }

  /** Once stopped, the rest of the ids does not matter. */
  lemma {:induction false} UseAllStops(read: Reader, t: Trainer, ids: seq<ObjectId>, values: seq<string>, i: nat)
    requires i <= |ids| == |values| && !UseAll(read, t, ids[..i], values[..i]).0
    ensures UseAll(read, t, ids, values) == UseAll(read, t, ids[..i], values[..i])
    decreases |ids| - i
  {
    if i == |ids| {
      assert ids[..i] == ids && values[..i] == values;
    } else {
      UseAllStep(read, t, ids, values, i);
      UseAllStops(read, t, ids, values, i + 1);
    }
  }

  lemma EvictIs(t: Trainer, first: ObjectId)
    requires forall id :: id in t.order ==> id in t.examples
    ensures UpTo(t.order, first) <= t.order
    ensures var kept := UpTo(t.order, first);
            && (forall id :: id in t.order[|kept|..] ==> id in t.examples)
            && Evict(t, first) == t.(order := kept, examples := t.examples - Elements(t.order[|kept|..]),
                                     pool := t.pool + ValuesAt(t.examples, t.order[|kept|..]))
  {
    UpToPrefix(t.order, first);
  }
}
