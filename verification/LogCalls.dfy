/** What the calls of parse_examples give the learner: a call returns true exactly when it ends with a group that is
    learned, and every learned group is given by one call. */
module LogCalls {
  import opened Common
  import opened DedupReplay
  import J = EventJoin
  import opened ExampleJoiner
  import opened BinaryParser
  import opened Framing
  import opened LogReader

  /** From s to s' the results grew by some that are not learned, and by a learned one at the end if delivered. */
  ghost predicate Gives(s: Session, s': Session, delivered: bool) {
    && |s.results| <= |s'.results| && s'.results[..|s.results|] == s.results
    && (forall i :: |s.results| <= i < |s'.results| ==> (s'.results[i].Learned? <==> delivered && i == |s'.results| - 1))
    && (delivered ==> |s.results| < |s'.results|)
  }

  lemma GivesNothing(s: Session, s': Session)
    requires s.results == s'.results
    ensures Gives(s, s', false)
  {}

  lemma GivesTrans(s: Session, s1: Session, s2: Session, delivered: bool)
    requires Gives(s, s1, false) && Gives(s1, s2, delivered)
    ensures Gives(s, s2, delivered)
  {
    assert s2.results[..|s.results|] == s2.results[..|s1.results|][..|s.results|];
    forall i | |s.results| <= i < |s1.results| ensures !s2.results[i].Learned? {
      assert s2.results[i] == s2.results[..|s1.results|][i];
    }
  }

  /** A join gives one result, and answers whether it is learned; and the joiner knows whether it was skipped. */
  lemma JoinGives(library: J.Library, s: Session)
    requires s.state.batch.order != []
    ensures var (ok, s') := OnJoined(library, s);
            && Gives(s, s', ok) && |s'.results| == |s.results| + 1
            && (s'.state.skipLearn <==> s'.results[|s.results|] == J.SkipLearn)
  {
    hide J.JoinFront, TrainerSound, J.BatchSound;
  }

  lemma {:induction false} NextGives(read: Reader, library: J.Library, formats: Formats, s: Session)
    requires Lawful(OpsOf(read, library, formats))
    ensures var (ok, s') := ProcessNext(OpsOf(read, library, formats), s); Gives(s, s', ok)
    decreases |s.state.batch.order|
  {
    hide Lawful, Gives, OnJoined, TrainerSound, J.BatchSound;
    GivesNothing(s, s);
    if s.state.batch.order != [] {
      JoinGives(library, s);
      JoinShortens(library, s);
      var (ok, s1) := OnJoined(library, s);
      if !ok {
        NextGives(read, library, formats, s1);
        GivesTrans(s, s1, ProcessNext(OpsOf(read, library, formats), s1).1, ProcessNext(OpsOf(read, library, formats), s1).0);
      }
    }
  }

  lemma JoinShortens(library: J.Library, s: Session)
    requires s.state.batch.order != []
    ensures |OnJoined(library, s).1.state.batch.order| < |s.state.batch.order|
  {
    hide TrainerSound, J.BatchSound;
    JoinedStepSound(library, s.state);
  }

  /** Grouping events gives nothing. */
  lemma {:induction false} EventsGive(read: Reader, library: J.Library, formats: Formats, s: Session, events: seq<J.Event>)
    ensures Events(OpsOf(read, library, formats), s, events).1.results == s.results
  {
    hide OnEvent, OpsOf, Events;
    EventsUnfold(read, library, formats, s, events);
    if events != [] {
      var n := |events| - 1;
      EventsGive(read, library, formats, s, events[..n]);
      EventGives(read, Events(OpsOf(read, library, formats), s, events[..n]).1, events[n]);
    }
  }

  lemma EventGives(read: Reader, s: Session, e: J.Event)
    ensures OnEvent(read, s, e).1.results == s.results
  {}

  lemma RegularGives(read: Reader, library: J.Library, formats: Formats, s: Session, bytes: seq<Byte>)
    requires Lawful(OpsOf(read, library, formats))
    ensures var (r, s') := Regular(OpsOf(read, library, formats), s, bytes); Gives(s, s', r == Delivered)
  {
    hide Lawful, Gives, Events, ProcessNext, TrainerSound, J.BatchSound, OnEvent, OnJoined;
    GivesNothing(s, s);
    var ops := OpsOf(read, library, formats);
    if ops.ready(s) && ops.decode(bytes).Some? {
      EventsGive(read, library, formats, s, ops.decode(bytes).value);
      var (ok, s1) := Events(ops, s, ops.decode(bytes).value);
      GivesNothing(s, s1);
      if ok {
        NextGives(read, library, formats, s1);
        GivesTrans(s, s1, ProcessNext(ops, s1).1, ProcessNext(ops, s1).0);
      }
    }
  }

  lemma AdvanceKeeps<S>(p: Parser<S>)
    ensures Advance(p).p.joiner == p.joiner && CheckVersion(p).1.joiner == p.joiner
  {}

  /** A turn leaves the joiner alone, gives it a checkpoint, or gives it a regular payload. */
  lemma TurnJoiner<S(!new), E>(ops: Joiner<S, E>, p: Parser<S>) returns (bytes: seq<Byte>)
    requires Lawful(ops)
    ensures var r, (result, j) := TurnOnce(ops, p), Regular(ops, p.joiner, bytes);
            || (r.p.joiner == p.joiner && !(r.Ended? && r.delivered))
            || (r.p.joiner == ops.checkpoint(p.joiner, bytes) && !(r.Ended? && r.delivered))
            || (r.p.joiner == j && (result == Delivered <==> r.Ended? && r.delivered))
  {
    hide Lawful, Regular, Advance, CheckVersion, ReadSized;
    AdvanceKeeps(p);
    AdvanceKeeps(Advance(p).p);
    var sized := ReadSized(Advance(p).p);
    bytes := if sized.Payload? then sized.bytes else [];
  }

  lemma TurnGives(read: Reader, library: J.Library, formats: Formats, p: Parser<Session>)
    requires Lawful(OpsOf(read, library, formats))
    ensures var r := TurnOnce(OpsOf(read, library, formats), p); Gives(p.joiner, r.p.joiner, r.Ended? && r.delivered)
  {
    hide *;
    var bytes := TurnJoiner(OpsOf(read, library, formats), p);
    GivesNothing(p.joiner, p.joiner);
    CheckpointGives(read, library, formats, p.joiner, bytes);
    RegularGives(read, library, formats, p.joiner, bytes);
  }

  lemma CheckpointGives(read: Reader, library: J.Library, formats: Formats, s: Session, payload: seq<Byte>)
    ensures Gives(s, OpsOf(read, library, formats).checkpoint(s, payload), false)
  {
    GivesNothing(s, OpsOf(read, library, formats).checkpoint(s, payload));
  }

  lemma {:induction false} MessagesGive(read: Reader, library: J.Library, formats: Formats, p: Parser<Session>)
    requires Lawful(OpsOf(read, library, formats))
    ensures var (delivered, r) := Messages(OpsOf(read, library, formats), p); Gives(p.joiner, r.joiner, delivered)
    decreases |p.input|
  {
    hide Lawful, Gives, TurnOnce, OpsOf;
    TurnGives(read, library, formats, p);
    var turn := TurnOnce(OpsOf(read, library, formats), p);
    if turn.Again? {
      MessagesGive(read, library, formats, turn.p);
      var (delivered, r) := Messages(OpsOf(read, library, formats), turn.p);
      GivesTrans(p.joiner, turn.p.joiner, r.joiner, delivered);
    }
  }

  /** A call of parse_examples, on any bytes and in any state: it returns true exactly when the last group it joined
      is learned; no other group it joined is. */
  lemma CallGives(read: Reader, library: J.Library, formats: Formats, p: Parser<Session>)
    requires Lawful(OpsOf(read, library, formats))
    ensures var (delivered, r) := ParseCall(OpsOf(read, library, formats), p); Gives(p.joiner, r.joiner, delivered)
  {
    hide Lawful, Gives, Messages, ProcessNext, OpsOf;
    var ops := OpsOf(read, library, formats);
    NextGives(read, library, formats, p.joiner);
    var (ok, s) := ProcessNext(ops, p.joiner);
    if !ok {
      MessagesGive(read, library, formats, p.(joiner := s));
      var (delivered, r) := Messages(ops, p.(joiner := s));
      GivesTrans(p.joiner, s, r.joiner, delivered);
    }
  }

  /** The calls that return true before the first that does not. */
  function TrueCalls<S(!new), E>(ops: Joiner<S, E>, p: Parser<S>): nat
    requires Lawful(ops)
    decreases |p.input|, ops.pending(p.joiner)
  {
    var (ok, p') := ParseCall(ops, p);
    if ok then 1 + TrueCalls(ops, p') else 0
  }

  /** The learned results, in order. */
  function LearnedOf(results: seq<J.Result>): seq<J.Result> {
    if results == [] then []
    else LearnedOf(results[..|results| - 1]) + (if results[|results| - 1].Learned? then [results[|results| - 1]] else [])
  }

  lemma {:induction false} LearnedGrow(before: seq<J.Result>, after: seq<J.Result>, delivered: bool)
    requires |before| <= |after| && after[..|before|] == before && (delivered ==> |before| < |after|)
    requires forall i :: |before| <= i < |after| ==> (after[i].Learned? <==> delivered && i == |after| - 1)
    ensures LearnedOf(after) == LearnedOf(before) + (if delivered then [after[|after| - 1]] else [])
  {
    if |after| == |before| {
      assert after == before;
    } else {
      var n := |after| - 1;
      assert after[..n][..|before|] == before;
      LearnedGrow(before, after[..n], false);
    }
  }

  /** Reading a log to its end: every learned result is given by a call of its own that returns true, and every such
      call gives one. */
  lemma {:induction false} RunGives(read: Reader, library: J.Library, formats: Formats, p: Parser<Session>)
    requires Lawful(OpsOf(read, library, formats))
    ensures var ops := OpsOf(read, library, formats);
            |LearnedOf(RunAll(ops, p).joiner.results)| == |LearnedOf(p.joiner.results)| + TrueCalls(ops, p)
    decreases |p.input|, |p.joiner.state.batch.order|
  {
    var ops := OpsOf(read, library, formats);
    assert ops.pending(p.joiner) == |p.joiner.state.batch.order|;
    var (delivered, p') := ParseCall(ops, p);
    assert ops.pending(p'.joiner) == |p'.joiner.state.batch.order|;
    CallGives(read, library, formats, p);
    LearnedGrow(p.joiner.results, p'.joiner.results, delivered);
    hide Lawful, ParseCall, OpsOf, LearnedOf;
    if delivered { RunGives(read, library, formats, p'); }
  }
}
