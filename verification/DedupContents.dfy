/** What the references of a sent batch stand for, over every run and for any hash: the content that stood under
    each id right after its event was transformed.  That is the object cut out exactly when no other content
    stood there first. */
module DedupContents {
  import opened Common
  import opened Sequences
  import opened DedupDict
  import opened DedupState
  import opened DedupProtocol
  import opened DedupSafety

  // ---- What a dictionary answers after additions ----------------------------------------------------

  /** The content id stands for once objects are added to d: what is there already, or else the first of the
      objects with that hash. */
  function Keeper(hash: Hash, d: Dict, objects: seq<string>, id: ObjectId): string {
    if id in d then d[id].content
    else if objects == [] then ""
    else if hash(objects[0]) == id then objects[0]
    else Keeper(hash, d, objects[1..], id)
  }

  lemma {:induction false} KeeperLast(hash: Hash, d: Dict, objects: seq<string>, o: string, id: ObjectId)
    ensures Keeper(hash, d, objects + [o], id) ==
              if id in d || exists x :: x in objects && hash(x) == id then Keeper(hash, d, objects, id)
              else if hash(o) == id then o else ""
  {
    if objects != [] {
      KeeperLast(hash, d, objects[1..], o, id);
      assert (objects + [o])[1..] == objects[1..] + [o];
      assert objects == [objects[0]] + objects[1..];
    } else {
      assert objects + [o] == [o];
    }
  }

  /** add_object compares hashes only: later contents with the hash of an entry are counted, not kept. */
  lemma {:induction false} AddAllAnswers(hash: Hash, d: Dict, objects: seq<string>, id: ObjectId)
    ensures Get(AddAll(hash, d, objects), id) == Keeper(hash, d, objects, id)
    ensures id in AddAll(hash, d, objects) <==> id in d || exists x :: x in objects && hash(x) == id
  {
    if objects != [] {
      var n := |objects| - 1;
      AddAllAnswers(hash, d, objects[..n], id);
      KeeperLast(hash, d, objects[..n], objects[n], id);
      assert objects == objects[..n] + [objects[n]];
    }
  }

  /** No other content stands under the hash of the k-th object when it is added: not in the dictionary, and
      not before it in the payload. */
  predicate Unclaimed(hash: Hash, d: Dict, objects: seq<string>, k: nat)
    requires k < |objects|
  {
    var id := hash(objects[k]);
    if id in d then d[id].content == objects[k]
    else forall j :: 0 <= j < k && hash(objects[j]) == id && (forall i :: 0 <= i < j ==> hash(objects[i]) != id)
           ==> objects[j] == objects[k]
  }

  lemma {:induction false} KeeperIs(hash: Hash, d: Dict, objects: seq<string>, j: nat)
    requires j < |objects| && hash(objects[j]) !in d && forall i :: 0 <= i < j ==> hash(objects[i]) != hash(objects[j])
    ensures Keeper(hash, d, objects, hash(objects[j])) == objects[j]
  {
    if j > 0 {
      assert hash(objects[0]) != hash(objects[j]);
      KeeperIs(hash, d, objects[1..], j - 1);
    }
  }

  lemma FirstWithHash(hash: Hash, objects: seq<string>, k: nat) returns (j: nat)
    requires k < |objects|
    ensures j <= k && hash(objects[j]) == hash(objects[k]) && forall i :: 0 <= i < j ==> hash(objects[i]) != hash(objects[k])
  {
    j := 0;
    while hash(objects[j]) != hash(objects[k])
      invariant j <= k && forall i :: 0 <= i < j ==> hash(objects[i]) != hash(objects[k])
      decreases k - j
    {
      j := j + 1;
    }
  }

  lemma UnclaimedIff(hash: Hash, d: Dict, objects: seq<string>, k: nat)
    requires k < |objects|
    ensures Keeper(hash, d, objects, hash(objects[k])) == objects[k] <==> Unclaimed(hash, d, objects, k)
  {
    if hash(objects[k]) !in d {
      var j := FirstWithHash(hash, objects, k);
      KeeperIs(hash, d, objects, j);
    }
  }

  // ---- Contents stay while anyone refers to them ----------------------------------------------------

  /** e is queued, or with a builder that has not given its references back. */
  ghost predicate Live(s: System, e: Event) {
    e in s.queue || exists i :: 0 <= i < |s.builders| && Has(s.builders[i], e)
  }

  predicate Has(b: Builder, e: Event) { !b.phase.Closed? && (e in b.batch || b.event == Some(e)) }

  /** The dictionary still answers for e as it did when e was transformed; so does what a batch was sent with. */
  ghost predicate Remembers(s: System) {
    && (forall e :: Live(s, e) ==> e.stored == Contents(s.dict, e.ids))
    && (forall batch, e :: batch in s.sent && e in batch.events ==> CarriesStored(batch, e))
  }

  /** The dictionary event of the batch lists each id of e with what was stored. */
  ghost predicate CarriesStored(batch: Batch, e: Event) {
    && |batch.ids| == |batch.values| && |e.stored| == |e.ids|
    && (forall k :: 0 <= k < |e.ids| ==> e.ids[k] in batch.ids)
    && (forall i, k :: 0 <= i < |batch.ids| && 0 <= k < |e.ids| && batch.ids[i] == e.ids[k] ==> batch.values[i] == e.stored[k])
  }

  lemma {:induction false} OccursIn(events: seq<Event>, e: Event, id: ObjectId)
    requires e in events && id in e.ids
    ensures Occurrences(events, id) > 0
  {
    var n := |events| - 1;
    if events[n] == e {
      Membership(e.ids);
    } else {
      assert events == events[..n] + [events[n]];
      OccursIn(events[..n], e, id);
    }
  }

  lemma HasHolds(hash: Hash, b: Builder, objects: set<string>, e: Event, id: ObjectId)
    requires Consistent(hash, b, objects) && Has(b, e) && id in e.ids
    ensures Held(b, id) > 0
  {
    hide EventSound;
    if e in b.batch {
      assert Covers(b.tally.used.Keys, e.ids);
    } else {
      var ids := Current(b);
      assert ids == ids[..b.done] + ids[b.done..];
      Membership(ids[b.done..]);
      assert id in ids[..b.done] ==> id in b.tally.used;
    }
  }

  /** What a live event refers to has an entry. */
  lemma LiveInDict(hash: Hash, s: System, e: Event, id: ObjectId)
    requires Sound(hash, s) && Live(s, e) && id in e.ids
    ensures id in s.dict
  {
    hide DictSound, EventsSound, BatchSound, HeldByAll, Held, Occurrences, InStep, Consistent;
    if e in s.queue {
      OccursIn(s.queue, e, id);
    } else {
      var i :| 0 <= i < |s.builders| && Has(s.builders[i], e);
      HasHolds(hash, s.builders[i], s.objects, e, id);
      HeldOne(s.builders, i, id);
    }
    assert Count(s.dict, id) == Claims(s, id);
  }

  /** No step changes the content of an entry. */
  lemma ContentKept(hash: Hash, s: System, step: Step, id: ObjectId)
    requires Enabled(s, step) && id in s.dict && id in Next(hash, s, step).dict
    ensures Next(hash, s, step).dict[id].content == s.dict[id].content
  {
    hide ValidSpans, Take, Transformed, Contents, AddAll, Objects;
    if step.Transform? {
      EnabledTransform(s, step.payload, step.spans);
      AddAllContents(hash, s.dict, Objects(step.payload, step.spans));
    }
  }

  /** The event a step makes, if it makes one. */
  ghost predicate Makes(hash: Hash, s: System, step: Step, e: Event) {
    && step.Transform? && ValidSpans(step.spans, |step.payload|)
    && e == Transformed(hash, s.dict, step.payload, step.spans)
  }

  lemma EventsMove(events: seq<Event>, i: nat, e: Event)
    requires i < |events|
    ensures e in Without(events, i) ==> e in events
  {}

  lemma QueuedBefore(hash: Hash, s: System, step: Step, e: Event)
    requires Enabled(s, step) && e in Next(hash, s, step).queue
    ensures e in s.queue || Makes(hash, s, step, e)
  {
    hide ValidSpans, Take, Transformed, Contents, AddAll, Objects, Without, RemoveAll, Listing, Current, IsFilling, IsSerialized;
    match step
    case Drop(i) => EventsMove(s.queue, i, e);
    case BeginAdd(b, i) => EventsMove(s.queue, i, e);
    case _ =>
  }

  lemma HeldBefore(hash: Hash, s: System, step: Step, i: nat, e: Event)
    requires Enabled(s, step) && i < |Next(hash, s, step).builders| && Has(Next(hash, s, step).builders[i], e)
    ensures (i < |s.builders| && Has(s.builders[i], e)) || e in s.queue
  {
    hide ValidSpans, Take, Transformed, Contents, AddAll, Objects, Without, RemoveAll, Listing;
  }

  /** A live event was live before the step, or is the one the step makes. */
  lemma LiveBefore(hash: Hash, s: System, step: Step, e: Event)
    requires Enabled(s, step) && Live(Next(hash, s, step), e)
    ensures Live(s, e) || Makes(hash, s, step, e)
  {
    hide Next, Enabled, Has, Makes;
    var s' := Next(hash, s, step);
    if e in s'.queue {
      QueuedBefore(hash, s, step, e);
    } else {
      var i :| 0 <= i < |s'.builders| && Has(s'.builders[i], e);
      HeldBefore(hash, s, step, i, e);
    }
  }

  lemma SameContents(d: Dict, d': Dict, ids: seq<ObjectId>)
    requires forall id :: id in ids ==> id in d && id in d' && d[id].content == d'[id].content
    ensures Contents(d, ids) == Contents(d', ids)
  {}

  lemma StepRemembersLive(hash: Hash, s: System, step: Step, e: Event)
    requires Sound(hash, s) && Enabled(s, step) && Sound(hash, Next(hash, s, step)) && Remembers(s)
    requires Live(Next(hash, s, step), e)
    ensures e.stored == Contents(Next(hash, s, step).dict, e.ids)
  {
    var s' := Next(hash, s, step);
    LiveBefore(hash, s, step, e);
    hide Sound, Enabled, Next;
    if Live(s, e) {
      forall id | id in e.ids ensures id in s.dict && id in s'.dict && s.dict[id].content == s'.dict[id].content {
        LiveInDict(hash, s, e, id);
        LiveInDict(hash, s', e, id);
        ContentKept(hash, s, step, id);
      }
      SameContents(s.dict, s'.dict, e.ids);
    } else {
      MadeStored(hash, s, step, e);
    }
  }

  lemma MadeStored(hash: Hash, s: System, step: Step, e: Event)
    requires Makes(hash, s, step, e)
    ensures Enabled(s, step) && e.stored == Contents(Next(hash, s, step).dict, e.ids)
  {}

  lemma SentNow(hash: Hash, s: System, step: Step, batch: Batch)
    requires Sound(hash, s) && Enabled(s, step) && batch in Next(hash, s, step).sent && batch !in s.sent
    ensures step.FinalizeRemove? && IsSerialized(s, step.b)
    ensures var c := s.builders[step.b];
            batch == Batch(c.phase.ids, c.phase.values, c.batch) && c.phase.values == Contents(s.dict, c.phase.ids)
  {
    hide ValidSpans, Take, Transformed, Contents, AddAll, Objects, Without, RemoveAll, Listing;
    hide CountsAreClaims, DictSound, EventsSound, BatchSound, Consistent;
    assert forall b :: 0 <= b < |s.builders| ==> InStep(s.builders[b], s.dict);
  }

  lemma StepRemembersSent(hash: Hash, s: System, step: Step, batch: Batch, e: Event)
    requires Sound(hash, s) && Enabled(s, step) && Sound(hash, Next(hash, s, step)) && Remembers(s)
    requires batch in Next(hash, s, step).sent && e in batch.events
    ensures CarriesStored(batch, e)
  {
    if batch !in s.sent {
      SentNow(hash, s, step, batch);
      var c := s.builders[step.b];
      assert Has(c, e) && Live(s, e);
      BatchCovers(hash, Next(hash, s, step), batch, e);
    }
  }

  lemma BatchCovers(hash: Hash, s: System, batch: Batch, e: Event)
    requires Sound(hash, s) && batch in s.sent && e in batch.events
    ensures |batch.ids| == |batch.values| && forall k :: 0 <= k < |e.ids| ==> e.ids[k] in batch.ids
  {
    hide CountsAreClaims, DictSound, BuildersSound;
    assert BatchSound(hash, batch, s.objects);
  }

  lemma {:induction false} EveryRunRemembers(hash: Hash, states: seq<System>, steps: seq<Step>, n: nat)
    requires Run(hash, states, steps) && n < |states|
    ensures Remembers(states[n])
  {
    hide *;
    if n == 0 {
      StartRemembers(hash, states, steps);
    } else {
      EveryRunRemembers(hash, states, steps, n - 1);
      EveryRunIsSound(hash, states, steps, n - 1);
      EveryRunIsSound(hash, states, steps, n);
      RunStep(hash, states, steps, n - 1);
      var s, s' := states[n - 1], states[n];
      forall e | Live(s', e) ensures e.stored == Contents(s'.dict, e.ids) { StepRemembersLive(hash, s, steps[n - 1], e); }
      forall batch, e | batch in s'.sent && e in batch.events ensures CarriesStored(batch, e) {
        StepRemembersSent(hash, s, steps[n - 1], batch, e);
      }
      RemembersAll(s');
    }
  }

  lemma RemembersAll(s: System)
    requires forall e :: Live(s, e) ==> e.stored == Contents(s.dict, e.ids)
    requires forall batch, e :: batch in s.sent && e in batch.events ==> CarriesStored(batch, e)
    ensures Remembers(s)
  {}

  lemma StartRemembers(hash: Hash, states: seq<System>, steps: seq<Step>)
    requires Run(hash, states, steps)
    ensures Remembers(states[0])
  {}

  /** For any hash, in every run: each reference of a sent batch is listed in the batch's dictionary event, once,
      with the content that stood under it right after the transformation. */
  lemma SentContents(hash: Hash, states: seq<System>, steps: seq<Step>, n: nat, batch: Batch, e: Event, k: nat)
    requires Run(hash, states, steps) && n < |states| && batch in states[n].sent && e in batch.events && k < |e.ids|
    ensures |batch.ids| == |batch.values| && |e.stored| == |e.ids|
    ensures exists i | 0 <= i < |batch.ids| :: batch.ids[i] == e.ids[k]
    ensures forall i | 0 <= i < |batch.ids| && batch.ids[i] == e.ids[k] ::
              batch.values[i] == e.stored[k] && forall j | 0 <= j < |batch.ids| && batch.ids[j] == e.ids[k] :: j == i
  {
    hide Run, CountsAreClaims, DictSound, BuildersSound, EventsSound, Live;
    EveryRunIsSound(hash, states, steps, n);
    EveryRunRemembers(hash, states, steps, n);
    assert CarriesStored(batch, e) && BatchSound(hash, batch, states[n].objects);
    assert e.ids[k] in batch.ids;
  }

  // ---- Where the content comes from -----------------------------------------------------------------

  ghost predicate Exists(s: System, e: Event) { Live(s, e) || exists batch :: batch in s.sent && e in batch.events }

  lemma ExistsBefore(hash: Hash, s: System, step: Step, e: Event)
    requires Sound(hash, s) && Enabled(s, step) && Exists(Next(hash, s, step), e)
    ensures Exists(s, e) || Makes(hash, s, step, e)
  {
    var s' := Next(hash, s, step);
    if Live(s', e) {
      LiveBefore(hash, s, step, e);
    } else {
      var batch :| batch in s'.sent && e in batch.events;
      if batch !in s.sent {
        SentNow(hash, s, step, batch);
        assert Has(s.builders[step.b], e);
      }
    }
  }

  /** The step that made an event. */
  lemma {:induction false} Origin(hash: Hash, states: seq<System>, steps: seq<Step>, n: nat, e: Event) returns (m: nat)
    requires Run(hash, states, steps) && n < |states| && Exists(states[n], e)
    ensures m < n && m < |steps| && Makes(hash, states[m], steps[m], e)
  {
    hide *;
    if n == 0 {
      NothingAtStart(hash, states, steps, e);
    } else {
      RunStep(hash, states, steps, n - 1);
      EveryRunIsSound(hash, states, steps, n - 1);
      ExistsBefore(hash, states[n - 1], steps[n - 1], e);
      if Makes(hash, states[n - 1], steps[n - 1], e) { return n - 1; }
      m := Origin(hash, states, steps, n - 1, e);
    }
  }

  lemma NothingAtStart(hash: Hash, states: seq<System>, steps: seq<Step>, e: Event)
    requires Run(hash, states, steps)
    ensures !Exists(states[0], e)
  {}

  /** For any hash, in every run: the dictionary event of a sent batch gives a reference the very object it
      replaced if and only if no other content stood under its hash when the event was transformed. */
  lemma ReferenceResolvesIff(hash: Hash, states: seq<System>, steps: seq<Step>, n: nat, batch: Batch, e: Event, k: nat)
    returns (m: nat)
    requires Run(hash, states, steps) && n < |states| && batch in states[n].sent && e in batch.events && k < |e.ids|
    ensures m < n && m < |steps| && steps[m] == Transform(e.payload, e.spans)
    ensures ValidSpans(e.spans, |e.payload|) && |e.ids| == |e.spans| && |batch.ids| == |batch.values|
    ensures exists i | 0 <= i < |batch.ids| :: batch.ids[i] == e.ids[k]
    ensures var objects := Objects(e.payload, e.spans);
            forall i | 0 <= i < |batch.ids| && batch.ids[i] == e.ids[k] ::
              batch.values[i] == objects[k] <==> Unclaimed(hash, states[m].dict, objects, k)
  {
    SentExists(states[n], batch, e);
    m := Origin(hash, states, steps, n, e);
    SentContents(hash, states, steps, n, batch, e, k);
    MadeIs(hash, states[m], steps[m], e, k);
    hide *;
  }

  lemma SentExists(s: System, batch: Batch, e: Event)
    requires batch in s.sent && e in batch.events
    ensures Exists(s, e)
  {}

  /** What a made event has stored, and when that is the object. */
  lemma MadeIs(hash: Hash, s: System, step: Step, e: Event, k: nat)
    requires Makes(hash, s, step, e) && k < |e.ids|
    ensures step == Transform(e.payload, e.spans) && ValidSpans(e.spans, |e.payload|)
    ensures |e.ids| == |e.spans| && |e.stored| == |e.ids|
    ensures var objects := Objects(e.payload, e.spans);
            && e.ids[k] == hash(objects[k])
            && (e.stored[k] == objects[k] <==> Unclaimed(hash, s.dict, objects, k))
  {
    hide ValidSpans, EditedText, Unclaimed, AddAll;
    var objects := Objects(e.payload, e.spans);
    AddAllAnswers(hash, s.dict, objects, hash(objects[k]));
    UnclaimedIff(hash, s.dict, objects, k);
  }

  // ---- A sufficient condition -----------------------------------------------------------------------

  ghost predicate CollisionFree(hash: Hash, objects: set<string>) {
    forall o, p :: o in objects && p in objects && hash(o) == hash(p) ==> o == p
  }

  /** In particular, every reference in a sent batch is listed with the very object the transformation cut out as
      long as no two objects cut so far have one hash. */
  lemma SentReferencesResolve(hash: Hash, states: seq<System>, steps: seq<Step>, n: nat, batch: Batch, e: Event, k: nat)
    requires Run(hash, states, steps) && n < |states| && CollisionFree(hash, states[n].objects)
    requires batch in states[n].sent && e in batch.events && k < |e.ids|
    ensures |batch.ids| == |batch.values| && ValidSpans(e.spans, |e.payload|) && |e.ids| == |e.spans|
    ensures e.edited == EditedText(hash, e.payload, e.spans)
    ensures exists i | 0 <= i < |batch.ids| ::
              && batch.ids[i] == e.ids[k] && batch.values[i] == Objects(e.payload, e.spans)[k]
              && forall j | 0 <= j < |batch.ids| && batch.ids[j] == e.ids[k] :: j == i
  {
    hide CountsAreClaims, DictSound, BuildersSound, ValidSpans;
    EveryRunIsSound(hash, states, steps, n);
    assert BatchSound(hash, batch, states[n].objects) && EventSound(hash, e, states[n].objects);
    assert e.ids[k] in e.ids && e.ids[k] in batch.ids;
    var i :| 0 <= i < |batch.ids| && batch.ids[i] == e.ids[k];
    assert Objects(e.payload, e.spans)[k] in Objects(e.payload, e.spans);
  }
}
