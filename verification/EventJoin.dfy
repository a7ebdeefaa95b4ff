/** Grouping the events of a batch by id, joining each group and scoring it: example_joiner.cc without the
    dictionary events, as functions of the batch. */
module EventJoin {
  import opened Common
  import opened Sequences
  import opened Rewards
  import opened CcbEvent
  import opened LruDedupCache
  import opened DedupReplay

  datatype ProblemType = UnknownProblem | CB | CCB | Slates | CA | MultiStep

  datatype LearningMode = Online | Apprentice | LoggingOnly

  /** What was decided: the actions of one slot, or of several with their baseline and their ids; for slates
      and continuous actions scoring does not look at it. */
  datatype Decision =
    | CbDecision(actions: seq<nat>)
    | CcbDecision(slots: seq<seq<nat>>, baselineActions: seq<nat>, slotIds: map<string, int>)
    | OtherDecision

  /** A decoded interaction: the context to read, whether learning waits for an activation, the decision. */
  datatype Content = Content(context: string, learningMode: LearningMode, deferred: bool, decision: Decision)

  /** decoded is None when the payload does not decompress or lacks a required field. */
  datatype Body =
    | Interaction(kind: ProblemType, interaction: Option<Content>)
    | Observation(observed: Option<Outcome>)
    | DictionaryEvent(dictionary: Option<Payload>)
    | EpisodeEvent

  /** Malformed: no event, timestamp, metadata or id.  client is None when the event carries no client time, or an
      all-zero one. */
  datatype Event =
    | Malformed
    | Event(id: string, enqueued: int, client: Option<int>, body: Body)

  /** A setting that, once locked, no later call changes. */
  datatype Sticky<T> = Sticky(locked: bool, isSet: bool, value: T) {
    function Set(v: T, lock: bool): Sticky<T> { if locked then this else Sticky(lock, true, v) }
  }

  datatype Settings = Settings(defaultReward: Sticky<real>, learningMode: Sticky<LearningMode>, problemType: Sticky<ProblemType>,
                               useClientTime: Sticky<bool>, reward: Sticky<RewardKind>)

  const InitialSettings := Settings(Sticky(false, true, 0.0), Sticky(false, true, Online), Sticky(false, false, UnknownProblem),
                                    Sticky(false, true, false), Sticky(false, true, Earliest))

  /** Configured in full: the problem type is the one setting without a default. */
  predicate Ready(s: Settings) {
    s.defaultReward.isSet && s.learningMode.isSet && s.problemType.isSet && s.useClientTime.isSet && s.reward.isSet
  }

  /** The VW library's part: whether a context reads, given the cached objects; whether a label is filled in. */
  datatype Library = Library(contextReads: (string, map<ObjectId, Example>) -> bool, labels: (Joined, seq<real>, seq<string>) -> bool)

  /** What a group is joined under. */
  datatype Env = Env(settings: Settings, library: Library, cached: map<ObjectId, Example>)

  /** An interaction joined with its outcomes. */
  datatype Joined = Joined(content: Content, outcomes: seq<Outcome>, ok: bool)

  /** The joined event so far, and the contexts read into the caller's examples. */
  datatype Partial = Partial(joined: Option<Joined>, read: seq<string>)

  datatype Result =
    | NoInteraction
    | Invalidated
    | SkipLearn
    | Unlabelled
    | Learned(joined: Joined, rewards: seq<real>, originals: seq<real>, read: seq<string>)

  // ---- One group ------------------------------------------------------------------------------------

  predicate Groupable(e: Event) { e.Event? && (e.body.Interaction? || e.body.Observation?) }

  /** An event that is grouped by its id and joined later. */
  type Member = e: Event | Groupable(e) witness Event("", 0, None, Observation(None))

  /** The content of an interaction of the configured kind and mode whose context reads. */
  function Accepted(env: Env, e: Member): Option<Content> {
    if e.body.Observation? || e.body.kind != env.settings.problemType.value || e.body.kind !in {CB, CCB, Slates, CA} then None
    else if e.body.interaction.None? || e.body.interaction.value.learningMode != env.settings.learningMode.value then None
    else if !env.library.contextReads(e.body.interaction.value.context, env.cached) then None
    else e.body.interaction
  }

  /** The outcome of an observation, with the time the settings ask for. */
  function Timed(env: Env, e: Member): Outcome
    requires e.body.Observation? && e.body.observed.Some?
  {
    e.body.observed.value.(time := if env.settings.useClientTime.value && e.client.Some? then e.client.value else e.enqueued)
  }

  function JoinOne(env: Env, p: Partial, e: Member): Partial {
    match e.body
    case Observation(None) => p.(joined := if p.joined.None? then None else Some(p.joined.value.(ok := false)))
    case Observation(Some(_)) =>
      p.(joined := if p.joined.None? then None
                   else Some(p.joined.value.(outcomes := p.joined.value.outcomes + [Timed(env, e)])))
    case Interaction(_, _) =>
      var content := Accepted(env, e);
      if content.None? then p
      else Partial(if p.joined.Some? then p.joined else Some(Joined(content.value, [], true)), p.read + [content.value.context])
  }

  function JoinAll(env: Env, events: seq<Member>): Partial {
    if events == [] then Partial(None, [])
    else JoinOne(env, JoinAll(env, events[..|events| - 1]), events[|events| - 1])
  }

  predicate Activated(outcomes: seq<Outcome>) { exists o :: o in outcomes && o.actionTaken }

  const CB_BASELINE_ACTION := 1

  /** What calc_reward leaves: the outcomes with their slots resolved, the rewards to learn from and the
      rewards observed, one a slot. */
  datatype Scored = Scored(outcomes: seq<Outcome>, rewards: seq<real>, originals: seq<real>)

  function Imitation(actions: seq<nat>, baseline: nat): real {
    if actions != [] && actions[0] == baseline then APPRENTICE_MATCHING else APPRENTICE_NOT_MATCHING
  }

  /** In Apprentice mode a bandit learns to imitate the baseline; slates and continuous actions then keep the
      default reward. */
  ghost function Score(settings: Settings, j: Joined): Scored {
    var kind, d, apprentice := settings.reward.value, settings.defaultReward.value, j.content.learningMode == Apprentice;
    match j.content.decision
    case CcbDecision(slots, baseline, slotIds) =>
      if apprentice && |slots| != |baseline| then Scored(j.outcomes, [], [])
      else
        var os := Resolved(slotIds, j.outcomes);
        var originals := SlotRewards(kind, os, d, |slots|);
        Scored(os, if apprentice then seq(|slots|, i requires 0 <= i < |slots| => Imitation(slots[i], baseline[i])) else originals,
               originals)
    case CbDecision(actions) =>
      var original := RewardOf(kind, j.outcomes, d);
      Scored(j.outcomes, [if apprentice then Imitation(actions, CB_BASELINE_ACTION) else original], [original])
    case OtherDecision =>
      var original := RewardOf(kind, j.outcomes, d);
      Scored(j.outcomes, [if apprentice then d else original], [original])
  }

  ghost function Finish(env: Env, p: Partial): Result {
    if p.joined.None? then NoInteraction
    else if !p.joined.value.ok then Invalidated
    else
      var scored := Score(env.settings, p.joined.value);
      if p.joined.value.content.deferred && !Activated(scored.outcomes) then SkipLearn
      else
        var joined := p.joined.value.(content := p.joined.value.content.(deferred := false), outcomes := scored.outcomes);
        if env.library.labels(joined, scored.rewards, p.read) then Learned(joined, scored.rewards, scored.originals, p.read)
        else Unlabelled
  }

  // ---- What joining a group means -----------------------------------------------------------------

  /** p is the position of the first interaction that is accepted. */
  predicate FirstAccepted(env: Env, events: seq<Member>, p: nat) {
    && p < |events| && Accepted(env, events[p]).Some?
    && forall i :: 0 <= i < p ==> Accepted(env, events[i]).None?
  }

  /** The outcomes of the observations that decode, in order. */
  function OutcomesOf(env: Env, events: seq<Member>): seq<Outcome> {
    if events == [] then []
    else OutcomesOf(env, events[..|events| - 1]) + OutcomeOf(env, events[|events| - 1])
  }

  function OutcomeOf(env: Env, e: Member): seq<Outcome> {
    if e.body.Observation? && e.body.observed.Some? then [Timed(env, e)] else []
  }

  predicate Undecodable(e: Member) { e.body == Observation(None) }

  predicate AllDecode(events: seq<Member>) { forall e :: e in events ==> !Undecodable(e) }

  /** Without an accepted interaction nothing is joined, whatever the outcomes. */
  lemma {:induction false} JoinNothing(env: Env, events: seq<Member>)
    requires forall i :: 0 <= i < |events| ==> Accepted(env, events[i]).None?
    ensures JoinAll(env, events) == Partial(None, [])
  {
    if events != [] { JoinNothing(env, events[..|events| - 1]); }
  }

  lemma JoinStep(env: Env, p: Partial, e: Member)
    requires p.joined.Some?
    ensures var j := p.joined.value;
            JoinOne(env, p, e).joined == Some(Joined(j.content, j.outcomes + OutcomeOf(env, e), j.ok && !Undecodable(e)))
  {
    assert p.joined.value.outcomes + [] == p.joined.value.outcomes;
  }

  /** Otherwise the first accepted interaction is kept; outcomes before it are ignored, those after it are
      appended in order, and one after it that does not decode invalidates it. */
  lemma {:induction false} JoinMeaning(env: Env, events: seq<Member>, p: nat)
    requires FirstAccepted(env, events, p)
    ensures JoinAll(env, events).joined
         == Some(Joined(Accepted(env, events[p]).value, OutcomesOf(env, events[p + 1..]), AllDecode(events[p + 1..])))
  {
    hide Accepted, JoinOne, JoinAll, OutcomeOf, OutcomesOf, AllDecode, Undecodable;
    var n := |events| - 1;
    JoinLast(env, events);
    if p == n {
      JoinNothing(env, events[..n]);
      FirstJoins(env, events[n]);
      NothingAfter(env, events[p + 1..]);
    } else {
      JoinMeaning(env, events[..n], p);
      JoinStep(env, JoinAll(env, events[..n]), events[n]);
      AfterStep(env, events[..n][p + 1..], events[n]);
      assert events[p + 1..] == events[..n][p + 1..] + [events[n]];
    }
  }

  lemma JoinLast(env: Env, events: seq<Member>)
    requires events != []
    ensures JoinAll(env, events) == JoinOne(env, JoinAll(env, events[..|events| - 1]), events[|events| - 1])
  {
    hide JoinOne;
  }

  lemma NothingAfter(env: Env, events: seq<Member>)
    requires events == []
    ensures OutcomesOf(env, events) == [] && AllDecode(events)
  {}

  lemma FirstJoins(env: Env, e: Member)
    requires Accepted(env, e).Some?
    ensures JoinOne(env, Partial(None, []), e).joined == Some(Joined(Accepted(env, e).value, [], true))
  {}

  lemma AfterStep(env: Env, after: seq<Member>, e: Member)
    ensures OutcomesOf(env, after + [e]) == OutcomesOf(env, after) + OutcomeOf(env, e)
    ensures AllDecode(after + [e]) <==> AllDecode(after) && !Undecodable(e)
  {
    assert (after + [e])[..|after|] == after;
  }

  lemma ResolvedActivates(slotIds: map<string, int>, os: seq<Outcome>)
    ensures Activated(Resolved(slotIds, os)) <==> Activated(os)
  {
    var rs := Resolved(slotIds, os);
    if o :| o in os && o.actionTaken {
      var k :| 0 <= k < |os| && os[k] == o;
      assert rs[k] in rs;
    }
    if r :| r in rs && r.actionTaken {
      var k :| 0 <= k < |rs| && rs[k] == r;
      assert os[k] in os;
    }
  }

  /** The rewards observed: the configured function on the outcomes, or on those of each slot.  A bandit with
      slots in Apprentice mode and a wrong number of baseline actions has none. */
  ghost predicate Observed(settings: Settings, c: Content, os: seq<Outcome>, originals: seq<real>) {
    var kind, d := settings.reward.value, settings.defaultReward.value;
    match c.decision
    case CcbDecision(slots, baseline, slotIds) =>
      if c.learningMode == Apprentice && |slots| != |baseline| then originals == []
      else |originals| == |slots| && forall i :: 0 <= i < |slots| ==> IsReward(kind, AtSlot(Resolved(slotIds, os), i), d, originals[i])
    case _ => |originals| == 1 && IsReward(kind, os, d, originals[0])
  }

  /** The rewards of Apprentice mode: one for a slot whose first action is the baseline's, zero for another; the
      default where imitation does not apply. */
  ghost predicate Imitates(settings: Settings, c: Content, rewards: seq<real>) {
    match c.decision
    case CcbDecision(slots, baseline, _) =>
      if |slots| != |baseline| then rewards == []
      else |rewards| == |slots| && forall i :: 0 <= i < |slots| ==>
        (rewards[i] == 1.0 || rewards[i] == 0.0) && (rewards[i] == 1.0 <==> slots[i] != [] && slots[i][0] == baseline[i])
    case CbDecision(actions) =>
      |rewards| == 1 && (rewards[0] == 1.0 || rewards[0] == 0.0) && (rewards[0] == 1.0 <==> actions != [] && actions[0] == 1)
    case OtherDecision => rewards == [settings.defaultReward.value]
  }

  /** A group comes to nothing exactly when none of its interactions is accepted. */
  lemma NoInteractionIff(env: Env, events: seq<Member>)
    ensures Finish(env, JoinAll(env, events)) == NoInteraction <==> forall i :: 0 <= i < |events| ==> Accepted(env, events[i]).None?
  {
    hide Accepted, JoinAll, Score;
    if exists i :: 0 <= i < |events| && Accepted(env, events[i]).Some? {
      var p := FindAccepted(env, events);
      JoinMeaning(env, events, p);
    } else {
      JoinNothing(env, events);
    }
  }

  lemma FindAccepted(env: Env, events: seq<Member>) returns (p: nat)
    requires exists i :: 0 <= i < |events| && Accepted(env, events[i]).Some?
    ensures FirstAccepted(env, events, p)
  {
    hide Accepted;
    p := 0;
    while Accepted(env, events[p]).None?
      invariant p < |events| && forall i :: 0 <= i < p ==> Accepted(env, events[i]).None?
      decreases |events| - p
    {
      p := p + 1;
    }
  }

  /** The contexts of the accepted interactions, in order. */
  function Contexts(env: Env, events: seq<Member>): seq<string> {
    if events == [] then []
    else Contexts(env, events[..|events| - 1]) + ContextOf(env, events[|events| - 1])
  }

  function ContextOf(env: Env, e: Member): seq<string> {
    var content := Accepted(env, e);
    if content.None? then [] else [content.value.context]
  }

  lemma {:induction false} JoinReads(env: Env, events: seq<Member>)
    ensures JoinAll(env, events).read == Contexts(env, events)
  {
    hide JoinOne, ContextOf;
    if events != [] {
      JoinReads(env, events[..|events| - 1]);
      OneReads(env, JoinAll(env, events[..|events| - 1]), events[|events| - 1]);
    }
  }

  lemma OneReads(env: Env, p: Partial, e: Member)
    ensures JoinOne(env, p, e).read == p.read + ContextOf(env, e)
  {
    assert p.read + [] == p.read;
  }

  lemma {:induction false} ContextsNone(env: Env, events: seq<Member>)
    ensures Contexts(env, events) == [] <==> forall i :: 0 <= i < |events| ==> Accepted(env, events[i]).None?
  {
    hide Accepted;
    if events != [] {
      var n := |events| - 1;
      ContextsNone(env, events[..n]);
      assert forall i :: 0 <= i < n ==> events[..n][i] == events[i];
    }
  }

  lemma {:induction false} ContextsFrom(env: Env, events: seq<Member>, p: nat)
    requires FirstAccepted(env, events, p)
    ensures Contexts(env, events) == [Accepted(env, events[p]).value.context] + Contexts(env, events[p + 1..])
  {
    hide Accepted, Contexts;
    var n := |events| - 1;
    ContextsLast(env, events[..n], events[n]);
    assert events == events[..n] + [events[n]];
    if p == n {
      ContextsNone(env, events[..n]);
      ContextsNone(env, events[p + 1..]);
    } else {
      ContextsFrom(env, events[..n], p);
      ContextsLast(env, events[..n][p + 1..], events[n]);
      assert events[p + 1..] == events[..n][p + 1..] + [events[n]];
    }
  }

  lemma ContextsLast(env: Env, events: seq<Member>, e: Member)
    ensures Contexts(env, events + [e]) == Contexts(env, events) + ContextOf(env, e)
  {
    hide ContextOf;
    assert (events + [e])[..|events|] == events;
  }

  lemma LaterAccepted(env: Env, events: seq<Member>, p: nat)
    requires p < |events|
    ensures var later := events[p + 1..];
            (forall i :: p < i < |events| ==> Accepted(env, events[i]).None?)
            <==> forall i :: 0 <= i < |later| ==> Accepted(env, later[i]).None?
  {
    hide Accepted;
    assert forall i :: p < i < |events| ==> events[i] == events[p + 1..][i - p - 1];
  }

  /** The outcomes as scoring leaves them. */
  function Kept(c: Content, os: seq<Outcome>): seq<Outcome> {
    if c.decision.CcbDecision? && (c.learningMode == Apprentice ==> |c.decision.slots| == |c.decision.baselineActions|)
    then Resolved(c.decision.slotIds, os) else os
  }

  /** The library fills in a label for the interaction with these outcomes, scored, and the contexts read. */
  ghost predicate LabelsFill(env: Env, events: seq<Member>, c: Content, os: seq<Outcome>) {
    env.library.labels(Joined(c.(deferred := false), Kept(c, os), true), Score(env.settings, Joined(c, os, true)).rewards,
                       Contexts(env, events))
  }

  /** What else a group comes to, by the events after its first accepted interaction: a malformed outcome
      invalidates it; it is skipped when deferred and never activated; what is learned is that interaction with
      those outcomes, their slots resolved, the rewards being the configured function on them, or in Apprentice mode
      those of imitation; and it is learned when the library fills in its label, unlabelled when not.  The contexts
      read are those of all accepted interactions, so they are the learned one's alone exactly when there is no
      second. */
  lemma GroupResult(env: Env, events: seq<Member>, p: nat)
    requires FirstAccepted(env, events, p)
    ensures var later, content, r := events[p + 1..], Accepted(env, events[p]).value, Finish(env, JoinAll(env, events));
            var os := OutcomesOf(env, later);
            && (r == Invalidated <==> !AllDecode(later))
            && (r == SkipLearn <==> AllDecode(later) && content.deferred && !Activated(os))
            && (r == Unlabelled || r.Learned? <==> AllDecode(later) && (content.deferred ==> Activated(os)))
            && (r == Unlabelled ==> !LabelsFill(env, events, content, os)) && (r.Learned? ==> LabelsFill(env, events, content, os))
            && (r.Learned? ==>
                  && r.joined.content == content.(deferred := false) && r.joined.ok
                  && r.joined.outcomes == Kept(content, os)
                  && r.read == Contexts(env, events)
                  && (r.read == [content.context] <==> forall i :: p < i < |events| ==> Accepted(env, events[i]).None?)
                  && Observed(env.settings, content, os, r.originals)
                  && if content.learningMode == Apprentice then Imitates(env.settings, content, r.rewards) else r.rewards == r.originals)
  {
    hide Accepted, JoinAll, OutcomesOf, AllDecode, Activated, IsReward, Resolved, AtSlot, Contexts;
    JoinMeaning(env, events, p);
    JoinReads(env, events);
    ContextsFrom(env, events, p);
    ContextsNone(env, events[p + 1..]);
    LaterAccepted(env, events, p);
    var content, os := Accepted(env, events[p]).value, OutcomesOf(env, events[p + 1..]);
    if content.decision.CcbDecision? { ResolvedActivates(content.decision.slotIds, os); }
  }

  /** With the sum function and default 0, what a slotted event observed adds up to its outcomes that resolve
      to a slot. */
  lemma LearnedTotal(settings: Settings, c: Content, os: seq<Outcome>, originals: seq<real>)
    requires Observed(settings, c, os, originals) && c.decision.CcbDecision?
    requires settings.reward.value == SumAll && settings.defaultReward.value == 0.0
    requires c.learningMode == Apprentice ==> |c.decision.slots| == |c.decision.baselineActions|
    ensures Sum(originals) == SlotTotal(Resolved(c.decision.slotIds, os), |c.decision.slots|)
  {
    hide IsReward, Sum, SlotTotal, AtSlot, Resolved, EmptySlots;
    SumAttribution(Resolved(c.decision.slotIds, os), 0.0, originals);
  }

  // ---- A batch --------------------------------------------------------------------------------------

  /** The ids in order of first appearance, and the events of each. */
  datatype Batch = Batch(order: seq<string>, grouped: map<string, seq<Member>>)

  const EmptyBatch := Batch([], map[])

  function Group(b: Batch, e: Member): Batch {
    if e.id in b.grouped then b.(grouped := b.grouped[e.id := b.grouped[e.id] + [e]])
    else Batch(b.order + [e.id], b.grouped[e.id := [e]])
  }

  ghost predicate BatchSound(b: Batch) {
    && Distinct(b.order) && (forall id :: id in b.order <==> id in b.grouped)
    && forall id :: id in b.grouped ==> forall e :: e in b.grouped[id] ==> e.id == id
  }

  lemma GroupSound(b: Batch, e: Member)
    requires BatchSound(b)
    ensures BatchSound(Group(b, e))
  {}

  function GroupAll(b: Batch, events: seq<Member>): Batch {
    if events == [] then b else Group(GroupAll(b, events[..|events| - 1]), events[|events| - 1])
  }

  /** The front group joined, and the batch without it. */
  ghost function JoinFront(env: Env, b: Batch): (Result, Batch)
    requires BatchSound(b) && b.order != []
  {
    var id := b.order[0];
    (Finish(env, JoinAll(env, b.grouped[id])), Batch(b.order[1..], b.grouped - {id}))
  }

  lemma JoinFrontSound(env: Env, b: Batch)
    requires BatchSound(b) && b.order != []
    ensures BatchSound(JoinFront(env, b).1)
  {
    assert b.order == [b.order[0]] + b.order[1..];
  }

  ghost function Drain(env: Env, b: Batch): seq<Result>
    requires BatchSound(b)
    decreases |b.order|
  {
    if b.order == [] then []
    else
      JoinFrontSound(env, b);
      [JoinFront(env, b).0] + Drain(env, JoinFront(env, b).1)
  }

  // ---- Interleaving does not matter -----------------------------------------------------------------

  /** The events of one id, alone. */
  function Only(events: seq<Member>, id: string): seq<Member> {
    if events == [] then []
    else Only(events[..|events| - 1], id) + (if events[|events| - 1].id == id then [events[|events| - 1]] else [])
  }

  function FirstAppearances(events: seq<Member>): seq<string> {
    if events == [] then []
    else
      var ids, id := FirstAppearances(events[..|events| - 1]), events[|events| - 1].id;
      if id in ids then ids else ids + [id]
  }

  /** b is what grouping makes of events. */
  ghost predicate Groups(b: Batch, events: seq<Member>) {
    && b.order == FirstAppearances(events)
    && (forall id :: id in b.grouped ==> b.grouped[id] == Only(events, id))
    && (forall id :: id !in b.grouped ==> Only(events, id) == [])
  }

  lemma GroupStep(b: Batch, events: seq<Member>, e: Member)
    requires BatchSound(b) && Groups(b, events)
    ensures Groups(Group(b, e), events + [e])
  {
    hide Only, FirstAppearances, Distinct;
    FirstLast(events, e);
    forall id ensures Only(events + [e], id) == Only(events, id) + (if e.id == id then [e] else []) { OnlyLast(events, e, id); }
  }

  lemma OnlyLast(events: seq<Member>, e: Member, id: string)
    ensures Only(events + [e], id) == Only(events, id) + (if e.id == id then [e] else [])
  {
    assert (events + [e])[..|events|] == events;
  }

  lemma FirstLast(events: seq<Member>, e: Member)
    ensures FirstAppearances(events + [e]) ==
              if e.id in FirstAppearances(events) then FirstAppearances(events) else FirstAppearances(events) + [e.id]
  {
    assert (events + [e])[..|events|] == events;
  }

  lemma {:induction false} GroupAllMeaning(events: seq<Member>)
    ensures BatchSound(GroupAll(EmptyBatch, events)) && Groups(GroupAll(EmptyBatch, events), events)
  {
    hide *;
    if events == [] {
      GroupNothing(events);
    } else {
      var n := |events| - 1;
      GroupAllMeaning(events[..n]);
      GroupSound(GroupAll(EmptyBatch, events[..n]), events[n]);
      GroupStep(GroupAll(EmptyBatch, events[..n]), events[..n], events[n]);
      GroupAllUnfold(EmptyBatch, events);
      assert events == events[..n] + [events[n]];
    }
  }

  lemma GroupAllUnfold(b: Batch, events: seq<Member>)
    requires events != []
    ensures GroupAll(b, events) == Group(GroupAll(b, events[..|events| - 1]), events[|events| - 1])
  {}

  lemma GroupNothing(events: seq<Member>)
    requires events == []
    ensures BatchSound(GroupAll(EmptyBatch, events)) && Groups(GroupAll(EmptyBatch, events), events)
  {}

  /** The result of one id: its own events joined, and nothing else looked at. */
  ghost function ResultOf(env: Env, events: seq<Member>, id: string): Result { Finish(env, JoinAll(env, Only(events, id))) }

  lemma {:induction false} DrainMeaning(env: Env, b: Batch, events: seq<Member>)
    requires BatchSound(b) && forall id :: id in b.grouped ==> b.grouped[id] == Only(events, id)
    ensures |Drain(env, b)| == |b.order|
    ensures forall i :: 0 <= i < |b.order| ==> Drain(env, b)[i] == ResultOf(env, events, b.order[i])
    decreases |b.order|
  {
    hide BatchSound, JoinAll, Finish, Only;
    if b.order != [] {
      JoinFrontSound(env, b);
      var rest := JoinFront(env, b).1;
      FrontGrouped(b);
      DrainMeaning(env, rest, events);
      forall i | 0 <= i < |b.order| ensures Drain(env, b)[i] == ResultOf(env, events, b.order[i]) {
        if i > 0 { assert Drain(env, b)[i] == Drain(env, rest)[i - 1]; }
      }
    }
  }

  lemma FrontGrouped(b: Batch)
    requires BatchSound(b) && b.order != []
    ensures b.order[0] in b.grouped
  {}

  /** The results of a batch on its own. */
  ghost function Results(env: Env, events: seq<Member>): seq<Result> {
    GroupAllMeaning(events);
    Drain(env, GroupAll(EmptyBatch, events))
  }

  /** Draining a batch gives one result per id, in order of first appearance, each a function of that id's
      events alone. */
  lemma BatchResults(env: Env, events: seq<Member>)
    ensures |Results(env, events)| == |FirstAppearances(events)|
    ensures forall i :: 0 <= i < |Results(env, events)| ==> Results(env, events)[i] == ResultOf(env, events, FirstAppearances(events)[i])
  {
    hide ResultOf, Drain, BatchSound;
    GroupAllMeaning(events);
    DrainMeaning(env, GroupAll(EmptyBatch, events), events);
  }

  lemma {:induction false} Appears(events: seq<Member>, id: string)
    ensures id in FirstAppearances(events) <==> Only(events, id) != []
  {
    if events != [] { Appears(events[..|events| - 1], id); }
  }

  lemma {:induction false} AppearOnce(events: seq<Member>)
    ensures Distinct(FirstAppearances(events))
  {
    if events != [] { AppearOnce(events[..|events| - 1]); }
  }

  /** Two interleavings of the same per-id sequences have the same ids, each once and with the same result.
      Only the order of first appearance can differ. */
  lemma InterleavingIrrelevant(env: Env, a: seq<Member>, b: seq<Member>)
    requires forall id :: Only(a, id) == Only(b, id)
    ensures Distinct(FirstAppearances(a)) && Distinct(FirstAppearances(b))
    ensures forall id :: id in FirstAppearances(a) <==> id in FirstAppearances(b)
    ensures forall i, j :: 0 <= i < |FirstAppearances(a)| && 0 <= j < |FirstAppearances(b)| && FirstAppearances(a)[i] == FirstAppearances(b)[j]
              ==> i < |Results(env, a)| && j < |Results(env, b)| && Results(env, a)[i] == Results(env, b)[j]
    ensures FirstAppearances(a) == FirstAppearances(b) ==> Results(env, a) == Results(env, b)
  {
    hide Results, FirstAppearances, Only, JoinAll, Finish, Distinct;
    AppearOnce(a);
    AppearOnce(b);
    forall id ensures id in FirstAppearances(a) <==> id in FirstAppearances(b) {
      Appears(a, id);
      Appears(b, id);
    }
    BatchResults(env, a);
    BatchResults(env, b);
  }
}
