/** What joining a group depends on, and what it does not: which interactions count, that a context is read against
    the cached objects, and which clock the outcomes are timed by. */
module EventJoinLaws {
  import opened Common
  import opened Rewards
  import opened CcbEvent
  import opened LruDedupCache
  import opened EventJoin

  // ---- Events that leave a group as it is -----------------------------------------------------------

  /** x makes no difference where it stands. */
  ghost predicate Idle(env: Env, x: Member) { forall p: Partial :: JoinOne(env, p, x) == p }

  lemma {:induction false} IdleRemoved(env: Env, a: seq<Member>, x: Member, b: seq<Member>)
    requires Idle(env, x)
    ensures JoinAll(env, a + [x] + b) == JoinAll(env, a + b)
  {
    hide JoinOne, JoinAll;
    if b == [] {
      assert a + [x] + b == a + [x] && a + b == a;
      JoinLast(env, a + [x]);
      assert (a + [x])[..|a|] == a;
    } else {
      var n := |b| - 1;
      IdleRemoved(env, a, x, b[..n]);
      JoinLast(env, a + [x] + b);
      JoinLast(env, a + b);
      assert (a + [x] + b)[..|a| + 1 + n] == a + [x] + b[..n] && (a + b)[..|a| + n] == a + b[..n];
    }
  }

  /** An interaction of another kind than the configured one, of a kind no joiner has, of another learning mode, or
      one that does not decode. */
  predicate Foreign(settings: Settings, x: Member) {
    && x.body.Interaction?
    && (x.body.kind != settings.problemType.value || x.body.kind == UnknownProblem || x.body.kind == MultiStep
        || x.body.interaction.None? || x.body.interaction.value.learningMode != settings.learningMode.value)
  }

  /** Such an interaction can be taken out of its group without a trace. */
  lemma ForeignInteractionRemoved(env: Env, a: seq<Member>, x: Member, b: seq<Member>)
    requires Foreign(env.settings, x)
    ensures Finish(env, JoinAll(env, a + [x] + b)) == Finish(env, JoinAll(env, a + b))
  {
    assert Idle(env, x);
    IdleRemoved(env, a, x, b);
  }

  // ---- Contexts and cached objects ------------------------------------------------------------------

  /** A library that reads a context exactly when the objects it refers to are cached. */
  ghost predicate ReadsReferences(library: Library, refs: string -> set<ObjectId>) {
    forall c, m :: library.contextReads(c, m) <==> forall id :: id in refs(c) ==> id in m
  }

  /** An interaction of the configured kind and mode. */
  predicate Configured(settings: Settings, x: Member) { x.body.Interaction? && !Foreign(settings, x) }

  /** With such a library a group comes to nothing exactly when each of its interactions of the configured kind and
      mode refers to an object that is not cached. */
  lemma NothingIffUncached(env: Env, refs: string -> set<ObjectId>, events: seq<Member>)
    requires ReadsReferences(env.library, refs)
    ensures Finish(env, JoinAll(env, events)) == NoInteraction <==>
            forall i :: 0 <= i < |events| && Configured(env.settings, events[i]) ==>
              exists id :: id in refs(events[i].body.interaction.value.context) && id !in env.cached
  {
    hide JoinAll, Finish;
    NoInteractionIff(env, events);
    forall i | 0 <= i < |events| ensures Accepted(env, events[i]).None? <==>
        (Configured(env.settings, events[i]) ==> exists id :: id in refs(events[i].body.interaction.value.context) && id !in env.cached) {
      OneUncached(env, refs, events[i]);
    }
  }

  lemma OneUncached(env: Env, refs: string -> set<ObjectId>, x: Member)
    requires ReadsReferences(env.library, refs)
    ensures Accepted(env, x).None? <==>
            (Configured(env.settings, x) ==> exists id :: id in refs(x.body.interaction.value.context) && id !in env.cached)
  {
    if Configured(env.settings, x) {
      var c := x.body.interaction.value.context;
      assert env.library.contextReads(c, env.cached) <==> forall id :: id in refs(c) ==> id in env.cached;
    }
  }

  // ---- The clock of the outcomes --------------------------------------------------------------------

  /** The same event but for its client time. */
  predicate SameButClient(a: Member, b: Member) { a == b.(client := a.client) }

  /** The same event but for the time it was enqueued. */
  predicate SameButEnqueued(a: Member, b: Member) { a == b.(enqueued := a.enqueued) }

  /** By default client times do not matter. */
  lemma {:induction false} ClientTimesIgnored(env: Env, a: seq<Member>, b: seq<Member>)
    requires !env.settings.useClientTime.value
    requires |a| == |b| && forall i :: 0 <= i < |a| ==> SameButClient(a[i], b[i])
    ensures JoinAll(env, a) == JoinAll(env, b)
    ensures Finish(env, JoinAll(env, a)) == Finish(env, JoinAll(env, b))
  {
    hide JoinOne, Finish;
    if a != [] {
      var n := |a| - 1;
      ClientTimesIgnored(env, a[..n], b[..n]);
      assert SameButClient(a[n], b[n]);
      ClientTimeIgnored(env, JoinAll(env, a[..n]), a[n], b[n]);
    }
  }

  lemma ClientTimeIgnored(env: Env, p: Partial, a: Member, b: Member)
    requires !env.settings.useClientTime.value && SameButClient(a, b)
    ensures JoinOne(env, p, a) == JoinOne(env, p, b)
  {}

  /** When they are asked for, and every outcome has one, the times of enqueueing do not. */
  lemma {:induction false} EnqueuedTimesIgnored(env: Env, a: seq<Member>, b: seq<Member>)
    requires env.settings.useClientTime.value
    requires |a| == |b| && forall i :: 0 <= i < |a| ==> SameButEnqueued(a[i], b[i])
    requires forall i :: 0 <= i < |a| && a[i].body.Observation? ==> a[i].client.Some?
    ensures JoinAll(env, a) == JoinAll(env, b)
    ensures Finish(env, JoinAll(env, a)) == Finish(env, JoinAll(env, b))
  {
    hide JoinOne, Finish;
    if a != [] {
      var n := |a| - 1;
      EnqueuedTimesIgnored(env, a[..n], b[..n]);
      assert SameButEnqueued(a[n], b[n]);
      EnqueuedTimeIgnored(env, JoinAll(env, a[..n]), a[n], b[n]);
    }
  }

  lemma EnqueuedTimeIgnored(env: Env, p: Partial, a: Member, b: Member)
    requires env.settings.useClientTime.value && SameButEnqueued(a, b) && (a.body.Observation? ==> a.client.Some?)
    ensures JoinOne(env, p, a) == JoinOne(env, p, b)
  {}

  /** An outcome without a client time is timed by its enqueueing, whatever the setting. */
  lemma NoClientTime(env: Env, env': Env, p: Partial, a: Member)
    requires a.body.Observation? && a.client.None?
    ensures JoinOne(env, p, a).joined == JoinOne(env', p, a).joined
  {}

  // ---- Earliest -------------------------------------------------------------------------------------

  /** An observation that decodes to a reward, not an activation. */
  predicate GivesReward(e: Member) { e.body.Observation? && e.body.observed.Some? && !e.body.observed.value.actionTaken }

  lemma {:induction false} OutcomeFrom(env: Env, events: seq<Member>, o: Outcome)
    requires o in OutcomesOf(env, events)
    ensures exists i :: 0 <= i < |events| && events[i].body.Observation? && events[i].body.observed.Some? && o == Timed(env, events[i])
  {
    hide Timed;
    var n := |events| - 1;
    if o in OutcomesOf(env, events[..n]) {
      OutcomeFrom(env, events[..n], o);
      var i :| 0 <= i < n && events[..n][i].body.Observation? && events[..n][i].body.observed.Some? && o == Timed(env, events[..n][i]);
      assert events[i] == events[..n][i];
    } else {
      assert o in OutcomeOf(env, events[n]);
    }
  }

  lemma {:induction false} OutcomeIn(env: Env, events: seq<Member>, i: nat)
    requires i < |events| && events[i].body.Observation? && events[i].body.observed.Some?
    ensures Timed(env, events[i]) in OutcomesOf(env, events)
  {
    hide Timed;
    var n := |events| - 1;
    if i < n { OutcomeIn(env, events[..n], i); }
  }

  /** The one reward timed before all others is the one earliest gives. */
  lemma EarliestTimed(env: Env, events: seq<Member>, i: nat, d: real)
    requires i < |events| && GivesReward(events[i]) && Timed(env, events[i]).time < TIME_MAX
    requires forall j :: 0 <= j < |events| && j != i && GivesReward(events[j]) ==> Timed(env, events[i]).time < Timed(env, events[j]).time
    ensures RewardOf(Earliest, OutcomesOf(env, events), d) == events[i].body.observed.value.value
  {
    hide Timed, OutcomesOf;
    var os, o := OutcomesOf(env, events), Timed(env, events[i]);
    TimedIs(env, events[i]);
    OutcomeIn(env, events, i);
    var r := RewardOf(Earliest, os, d);
    var k :| 0 <= k < |os| && os[k] == o;
    assert Eligible(os[k]);
    var p: nat :| IsEarliest(os, p) && r == os[p].value;
    OutcomeFrom(env, events, os[p]);
    var j :| 0 <= j < |events| && events[j].body.Observation? && events[j].body.observed.Some? && os[p] == Timed(env, events[j]);
    TimedIs(env, events[j]);
    assert j == i;
  }

  lemma TimedIs(env: Env, e: Member)
    requires e.body.Observation? && e.body.observed.Some?
    ensures Timed(env, e).value == e.body.observed.value.value && Timed(env, e).actionTaken == e.body.observed.value.actionTaken
  {}

  /** The learned reward of an unslotted event under earliest. */
  lemma LearnedEarliest(env: Env, events: seq<Member>, p: nat, i: nat)
    requires FirstAccepted(env, events, p) && p < i < |events| && !Accepted(env, events[p]).value.decision.CcbDecision?
    requires env.settings.reward.value == Earliest
    requires GivesReward(events[i]) && Timed(env, events[i]).time < TIME_MAX
    requires forall j :: p < j < |events| && j != i && GivesReward(events[j]) ==> Timed(env, events[i]).time < Timed(env, events[j]).time
    ensures var r := Finish(env, JoinAll(env, events)); r.Learned? ==> r.originals == [events[i].body.observed.value.value]
  {
    hide Accepted, JoinAll, Finish, OutcomesOf, Timed, IsReward, Contexts, AllDecode, Activated;
    GroupResult(env, events, p);
    var later, q := events[p + 1..], i - p - 1;
    assert later[q] == events[i];
    forall j | 0 <= j < |later| && j != q && GivesReward(later[j]) ensures Timed(env, later[q]).time < Timed(env, later[j]).time {
      assert later[j] == events[j + p + 1];
    }
    EarliestTimed(env, later, q, env.settings.defaultReward.value);
    var r := Finish(env, JoinAll(env, events));
    if r.Learned? { RewardUnique(Earliest, OutcomesOf(env, later), env.settings.defaultReward.value, r.originals[0]); }
  }

  /** By default earliest gives the reward that was enqueued first. */
  lemma FirstEnqueuedWins(env: Env, events: seq<Member>, p: nat, i: nat)
    requires FirstAccepted(env, events, p) && p < i < |events| && !Accepted(env, events[p]).value.decision.CcbDecision?
    requires env.settings.reward.value == Earliest && !env.settings.useClientTime.value
    requires GivesReward(events[i]) && events[i].enqueued < TIME_MAX
    requires forall j :: p < j < |events| && j != i && GivesReward(events[j]) ==> events[i].enqueued < events[j].enqueued
    ensures var r := Finish(env, JoinAll(env, events)); r.Learned? ==> r.originals == [events[i].body.observed.value.value]
  {
    hide Accepted, JoinAll, Finish;
    LearnedEarliest(env, events, p, i);
  }

  /** With client times, which every reward has, the one the clients put first. */
  lemma FirstByClientWins(env: Env, events: seq<Member>, p: nat, i: nat)
    requires FirstAccepted(env, events, p) && p < i < |events| && !Accepted(env, events[p]).value.decision.CcbDecision?
    requires env.settings.reward.value == Earliest && env.settings.useClientTime.value
    requires forall j :: p < j < |events| && GivesReward(events[j]) ==> events[j].client.Some?
    requires GivesReward(events[i]) && events[i].client.value < TIME_MAX
    requires forall j :: p < j < |events| && j != i && GivesReward(events[j]) ==> events[i].client.value < events[j].client.value
    ensures var r := Finish(env, JoinAll(env, events)); r.Learned? ==> r.originals == [events[i].body.observed.value.value]
  {
    hide Accepted, JoinAll, Finish;
    LearnedEarliest(env, events, p, i);
  }

  // ---- Groups within a batch ------------------------------------------------------------------------

  /** Every group of a batch has its result, at the place of its id. */
  lemma {:induction false} DrainGroups(env: Env, b: Batch)
    requires BatchSound(b)
    ensures |Drain(env, b)| == |b.order| && forall i :: 0 <= i < |b.order| ==> b.order[i] in b.grouped
    ensures forall i :: 0 <= i < |b.order| ==> Drain(env, b)[i] == Finish(env, JoinAll(env, b.grouped[b.order[i]]))
    decreases |b.order|
  {
    hide JoinAll, Finish;
    forall i | 0 <= i < |b.order| ensures b.order[i] in b.grouped { assert b.order[i] in b.order; }
    if b.order != [] {
      JoinFrontSound(env, b);
      var rest := JoinFront(env, b).1;
      DrainGroups(env, rest);
      forall i | 0 <= i < |b.order| ensures Drain(env, b)[i] == Finish(env, JoinAll(env, b.grouped[b.order[i]])) {
        if i > 0 {
          assert Drain(env, b)[i] == Drain(env, rest)[i - 1] && rest.order[i - 1] == b.order[i];
          assert rest.grouped[b.order[i]] == b.grouped[b.order[i]];
        }
      }
    }
  }

  /** An event is in the group of its id. */
  lemma {:induction false} GroupHolds(b: Batch, events: seq<Member>, x: Member)
    requires x in events
    ensures x.id in GroupAll(b, events).grouped && x in GroupAll(b, events).grouped[x.id]
  {
    var n := |events| - 1;
    if x != events[n] {
      assert events == events[..n] + [events[n]];
      GroupHolds(b, events[..n], x);
    }
  }
}
