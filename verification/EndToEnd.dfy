/** From the client's threads to the trainer's cache: what the trainer reads for every object reference of a
    batch, when that is the object cut out, and when the events read as they were written. */
module EndToEnd {
  import opened Common
  import opened Sequences
  import opened DedupDict
  import opened DedupProtocol
  import opened DedupSafety
  import opened DedupContents
  import opened Expansion
  import LruDedupCache
  import opened DedupReplay

  /** The dictionary event of a batch, as the trainer decodes it. */
  function DictionaryOf(batch: Batch): Payload { Payload(batch.ids, batch.values) }

  /** What may reach the trainer: dictionary events of sent batches, in any order and number, or events that
      cannot be decoded. */
  ghost predicate FromClient(s: System, payloads: seq<Option<Payload>>) {
    forall p :: p in payloads ==> p == None || exists batch :: batch in s.sent && p == Some(DictionaryOf(batch))
  }

  lemma BatchHashes(hash: Hash, s: System, batch: Batch)
    requires Sound(hash, s) && batch in s.sent
    ensures PayloadHashes(hash, s.objects, batch.ids, batch.values)
    ensures LruDedupCache.Distinct(batch.ids)
  {
    hide CountsAreClaims, DictSound, EventsSound, BuildersSound;
    assert BatchSound(hash, batch, s.objects);
  }

  /** Examples cached over a whole series of batches still answer to the hash they are cached under. */
  lemma {:induction false} ReplayTexts(hash: Hash, s: System, read: Reader, payloads: seq<Option<Payload>>)
    requires Sound(hash, s) && FromClient(s, payloads)
    ensures TextsHash(hash, s.objects, Replay(read, payloads))
  {
    hide Sound, ProcessDedup, TrainerSound, PayloadHashes;
    if payloads != [] {
      var before, last := payloads[..|payloads| - 1], payloads[|payloads| - 1];
      assert forall p :: p in before ==> p in payloads;
      ReplayTexts(hash, s, read, before);
      var t := Replay(read, before);
      assert last in payloads;
      if last == None {
        UndecodedKeeps(read, t);
      } else {
        var batch :| batch in s.sent && last == Some(DictionaryOf(batch));
        BatchHashes(hash, s, batch);
        ProcessDedupTexts(hash, s.objects, read, t, DictionaryOf(batch));
      }
    }
  }

  lemma UndecodedKeeps(read: Reader, t: Trainer)
    requires TrainerSound(t)
    ensures ProcessDedup(read, t, None).1 == t
  {}

  /** The objects the trainer has, by id. */
  function Known(t: Trainer): map<ObjectId, string> {
    map id | id in t.examples && t.examples[id] in t.text :: t.text[t.examples[id]]
  }

  /** After a successful process_dedup the cache holds the ids of the payload, and no others. */
  lemma CacheIsPayload(read: Reader, t: Trainer, payload: Payload)
    requires TrainerSound(t) && ProcessDedup(read, t, Some(payload)).0 && payload.ids != []
    requires LruDedupCache.Distinct(payload.ids)
    ensures forall id :: id in payload.ids <==> id in ProcessDedup(read, t, Some(payload)).1.examples
  {
    hide TrainerSound, ProcessDedup;
    ProcessDedupReplaces(read, t, payload);
    assert forall id :: id in payload.ids <==> id in LruDedupCache.Elements(payload.ids);
  }

  lemma CachedKnown(t: Trainer, id: ObjectId)
    requires TrainerSound(t) && id in t.examples
    ensures t.examples[id] in t.text && id in Known(t) && Known(t)[id] == t.text[t.examples[id]]
  {}

  /** t' still has what t has cached, with the texts it was parsed from. */
  ghost predicate Keeps(t: Trainer, t': Trainer) {
    forall id :: id in t.examples ==>
      && id in t'.examples && t'.examples[id] == t.examples[id]
      && (t.examples[id] in t.text ==> t'.examples[id] in t'.text && t'.text[t'.examples[id]] == t.text[t.examples[id]])
  }

  lemma UseKeeps(read: Reader, t: Trainer, id: ObjectId, value: string)
    requires TrainerSound(t)
    ensures var (ok, t') := Use(read, t, id, value);
            Keeps(t, t') && (ok ==> id in Known(t') && Known(t')[id] == if id in t.examples then Known(t)[id] else value)
  {
    hide Listed, Acquired, Acquire, Draw, LruDedupCache.Distinct;
    if id in t.examples {
      CachedKnown(t, id);
    } else {
      AcquireSound(t);
      AcquireKeeps(t);
      DrawSound(Acquire(t), read(value).extra);
      assert forall x :: x in t.examples ==> t.examples[x] != Acquired(t);
    }
  }

  lemma KeepsKnown(t: Trainer, t': Trainer, id: ObjectId)
    requires TrainerSound(t) && Keeps(t, t') && id in Known(t)
    ensures id in Known(t') && Known(t')[id] == Known(t)[id]
  {}

  lemma KeepsTrans(t: Trainer, t1: Trainer, t2: Trainer)
    requires TrainerSound(t) && Keeps(t, t1) && Keeps(t1, t2)
    ensures Keeps(t, t2)
  {}

  /** After the uses of distinct ids: what was cached is as it was, the others are read from the values. */
  lemma {:induction false} UseAllKnown(read: Reader, t: Trainer, ids: seq<ObjectId>, values: seq<string>, i: nat)
    requires TrainerSound(t) && |ids| == |values| && UseAll(read, t, ids, values).0 && LruDedupCache.Distinct(ids)
    ensures Keeps(t, UseAll(read, t, ids, values).1)
    ensures i < |ids| ==> var known := Known(UseAll(read, t, ids, values).1);
              ids[i] in known && known[ids[i]] == if ids[i] in t.examples then Known(t)[ids[i]] else values[i]
  {
    hide TrainerSound, Use, Keeps, Known;
    if ids == [] {
      KeepsSelf(t);
    } else {
      var n := |ids| - 1;
      UseAllKnown(read, t, ids[..n], values[..n], i);
      var t1 := UseAll(read, t, ids[..n], values[..n]).1;
      UseAllSound(read, t, ids[..n], values[..n]);
      UseKeeps(read, t1, ids[n], values[n]);
      KeepsTrans(t, t1, UseAll(read, t, ids, values).1);
      if i < n {
        KeepsKnown(t1, UseAll(read, t, ids, values).1, ids[i]);
      } else if i == n {
        LastCached(read, t, ids, values);
        if ids[n] in t.examples {
          CachedKnown(t, ids[n]);
          KeepsKnown(t, t1, ids[n]);
        }
      }
    }
  }

  lemma KeepsSelf(t: Trainer)
    ensures Keeps(t, t)
  {}

  /** An id is cached after the uses of others exactly when it was before. */
  lemma LastCached(read: Reader, t: Trainer, ids: seq<ObjectId>, values: seq<string>)
    requires TrainerSound(t) && |ids| == |values| && UseAll(read, t, ids, values).0 && LruDedupCache.Distinct(ids) && ids != []
    ensures var n := |ids| - 1; ids[n] in UseAll(read, t, ids[..n], values[..n]).1.examples <==> ids[n] in t.examples
  {
    hide TrainerSound, Use, LruDedupCache.MoveToFront;
    var n := |ids| - 1;
    UsedKeys(read, t, ids[..n], values[..n]);
  }

  lemma EvictKeepsKnown(t: Trainer, first: ObjectId, id: ObjectId)
    requires (forall x :: x in t.order ==> x in t.examples) && id in Known(t) && id in Evict(t, first).examples
    ensures id in Known(Evict(t, first)) && Known(Evict(t, first))[id] == Known(t)[id]
  {}

  /** What a successful process_dedup makes of a listed id: an entry from before is kept as it is, without a look
      at the value; only a new one is read from the value. */
  lemma TrainerKnows(read: Reader, t: Trainer, payload: Payload, i: nat)
    requires TrainerSound(t) && ProcessDedup(read, t, Some(payload)).0 && LruDedupCache.Distinct(payload.ids)
    requires i < |payload.ids|
    ensures |payload.ids| == |payload.values|
    ensures var known, id := Known(ProcessDedup(read, t, Some(payload)).1), payload.ids[i];
            id in known && known[id] == if id in t.examples then Known(t)[id] else payload.values[i]
  {
    var Payload(ids, values) := payload;
    CacheIsPayload(read, t, payload);
    hide TrainerSound, UseAll, Evict, Known, LruDedupCache.Distinct;
    UseAllSound(read, t, ids, values);
    UseAllKnown(read, t, ids, values, i);
    assert ids[i] in ids;
    if ids[i] in t.examples { CachedKnown(t, ids[i]); }
    EvictKeepsKnown(UseAll(read, t, ids, values).1, ids[0], ids[i]);
  }

  /** The main result, for any hash: in any run of the client, under any interleaving, and whatever the trainer has
      cached before, when the dictionary of a sent batch is processed every reference of its events is known to the
      trainer; and as the very object that was cut out if and only if an entry the trainer had already cached
      under its id holds that object or, when there was none, no other content stood under its hash at the
      client when the event was transformed. */
  lemma ReferenceReadIff(hash: Hash, states: seq<System>, steps: seq<Step>, n: nat, read: Reader, t: Trainer,
                         batch: Batch, e: Event, k: nat) returns (m: nat)
    requires Run(hash, states, steps) && n < |states| && batch in states[n].sent && e in batch.events && k < |e.ids|
    requires TrainerSound(t) && ProcessDedup(read, t, Some(DictionaryOf(batch))).0
    ensures m < n && m < |steps| && steps[m] == Transform(e.payload, e.spans)
    ensures ValidSpans(e.spans, |e.payload|) && |e.ids| == |e.spans|
    ensures e.ids[k] in t.examples ==> e.ids[k] in Known(t)
    ensures var known, objects := Known(ProcessDedup(read, t, Some(DictionaryOf(batch))).1), Objects(e.payload, e.spans);
            && e.ids[k] in known
            && (known[e.ids[k]] == objects[k] <==>
                  if e.ids[k] in t.examples then Known(t)[e.ids[k]] == objects[k] else Unclaimed(hash, states[m].dict, objects, k))
  {
    hide *;
    m := ReferenceResolvesIff(hash, states, steps, n, batch, e, k);
    EveryRunIsSound(hash, states, steps, n);
    BatchHashes(hash, states[n], batch);
    DictionaryParts(batch);
    var i :| 0 <= i < |batch.ids| && batch.ids[i] == e.ids[k];
    TrainerKnows(read, t, DictionaryOf(batch), i);
    if e.ids[k] in t.examples { CachedKnown(t, e.ids[k]); }
  }

  /** In particular, when no two objects cut so far share a hash and the trainer has only ever had dictionaries of
      such batches, every reference is read as the object cut out. */
  lemma ReferencesReachTheirObjects(hash: Hash, states: seq<System>, steps: seq<Step>, n: nat, read: Reader,
                                    earlier: seq<Option<Payload>>, batch: Batch, e: Event, k: nat)
    requires Run(hash, states, steps) && n < |states| && CollisionFree(hash, states[n].objects)
    requires FromClient(states[n], earlier) && batch in states[n].sent && e in batch.events && k < |e.ids|
    requires ProcessDedup(read, Replay(read, earlier), Some(DictionaryOf(batch))).0
    ensures ValidSpans(e.spans, |e.payload|) && |e.ids| == |e.spans|
    ensures var known := Known(ProcessDedup(read, Replay(read, earlier), Some(DictionaryOf(batch))).1);
            e.ids[k] in known && known[e.ids[k]] == Objects(e.payload, e.spans)[k]
  {
    hide *;
    var s, t := states[n], Replay(read, earlier);
    var t' := ProcessDedup(read, t, Some(DictionaryOf(batch))).1;
    EveryRunIsSound(hash, states, steps, n);
    SentEvent(hash, s, batch, e);
    ReplayTexts(hash, s, read, earlier);
    BatchHashes(hash, s, batch);
    DictionaryParts(batch);
    ProcessDedupTexts(hash, s.objects, read, t, DictionaryOf(batch));
    assert e.ids[k] in e.ids;
    CacheIsPayload(read, t, DictionaryOf(batch));
    var o := Objects(e.payload, e.spans)[k];
    assert o in Objects(e.payload, e.spans);
    KnownHashes(hash, s.objects, t', e.ids[k]);
    NoCollision(hash, s.objects, o, t'.text[t'.examples[e.ids[k]]]);
  }

  lemma DictionaryParts(batch: Batch)
    ensures DictionaryOf(batch).ids == batch.ids && DictionaryOf(batch).values == batch.values
  {}

  lemma SentEvent(hash: Hash, s: System, batch: Batch, e: Event)
    requires Sound(hash, s) && batch in s.sent && e in batch.events
    ensures ValidSpans(e.spans, |e.payload|) && |e.ids| == |e.spans|
    ensures e.edited == EditedText(hash, e.payload, e.spans) && e.ids == Ids(hash, Objects(e.payload, e.spans))
    ensures forall o :: o in Objects(e.payload, e.spans) ==> o in s.objects
    ensures forall id :: id in e.ids ==> id in batch.ids
  {
    hide CountsAreClaims, DictSound, BuildersSound, ValidSpans, EditedText;
    assert BatchSound(hash, batch, s.objects) && EventSound(hash, e, s.objects);
  }

  lemma KnownHashes(hash: Hash, objects: set<string>, t: Trainer, id: ObjectId)
    requires TextsHash(hash, objects, t) && id in t.examples
    ensures t.examples[id] in t.text && t.text[t.examples[id]] in objects && hash(t.text[t.examples[id]]) == id
    ensures id in Known(t) && Known(t)[id] == t.text[t.examples[id]]
  {}

  lemma NoCollision(hash: Hash, objects: set<string>, o: string, p: string)
    requires CollisionFree(hash, objects) && o in objects && p in objects && hash(o) == hash(p)
    ensures o == p
  {}

  /** Whatever the trainer knows under the references, writing it back in their place gives the original payload
      with each object replaced by that text; so the event reads as it was written when every reference is known
      as its object.  So does scanning for references then, in an event whose own text spells none. */
  lemma EventsReadAsWritten(hash: Hash, states: seq<System>, steps: seq<Step>, n: nat, read: Reader, t: Trainer,
                            batch: Batch, e: Event)
    requires Run(hash, states, steps) && n < |states| && batch in states[n].sent && e in batch.events
    requires TrainerSound(t) && ProcessDedup(read, t, Some(DictionaryOf(batch))).0
    ensures ValidSpans(e.spans, |e.payload|) && |e.ids| == |e.spans|
    ensures var known := Known(ProcessDedup(read, t, Some(DictionaryOf(batch))).1);
            && (forall id :: id in e.ids ==> id in known)
            && ValidSpans(NewSpans(e.payload, e.spans, Tokens(e.ids)), |e.edited|)
            && Spliced(e.edited, NewSpans(e.payload, e.spans, Tokens(e.ids)), LruDedupCache.ValuesAt(known, e.ids))
                 == Spliced(e.payload, e.spans, LruDedupCache.ValuesAt(known, e.ids))
            && (LruDedupCache.ValuesAt(known, e.ids) == Objects(e.payload, e.spans) ==>
                  && Spliced(e.payload, e.spans, LruDedupCache.ValuesAt(known, e.ids)) == e.payload
                  && (GapsMarkerFree(e.payload, e.spans) ==> Expand(e.edited, known) == e.payload))
  {
    hide *;
    EveryRunIsSound(hash, states, steps, n);
    SentEvent(hash, states[n], batch, e);
    var known := Known(ProcessDedup(read, t, Some(DictionaryOf(batch))).1);
    var objects := Objects(e.payload, e.spans);
    forall id | id in e.ids ensures id in known {
      var k :| 0 <= k < |e.ids| && e.ids[k] == id;
      var m := ReferenceReadIff(hash, states, steps, n, read, t, batch, e, k);
    }
    TokensNonEmpty(e.ids);
    EditedIs(hash, e.payload, e.spans);
    var texts := LruDedupCache.ValuesAt(known, e.ids);
    Respliced(e.payload, e.spans, Tokens(e.ids), texts);
    if texts == objects {
      ReferencesRestored(hash, e.payload, e.spans);
      if GapsMarkerFree(e.payload, e.spans) {
        forall o | o in objects ensures hash(o) in known && known[hash(o)] == o {
          var k :| 0 <= k < |objects| && objects[k] == o;
          assert e.ids[k] == hash(o) && texts[k] == o;
        }
        ExpansionRestores(hash, e.payload, e.spans, known);
      }
    }
  }

  lemma EditedIs(hash: Hash, payload: string, spans: seq<Span>)
    requires ValidSpans(spans, |payload|)
    ensures EditedText(hash, payload, spans) == Spliced(payload, spans, Tokens(Ids(hash, Objects(payload, spans))))
  {}
}
