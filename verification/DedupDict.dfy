/** The client's content-addressed dictionary of action objects, and the payload edit that replaces each
    object by a reference to it: dedup_dict of dedup.cc. */
module DedupDict {
  import opened Common

  /** The content hash: any function from contents to 64-bit ids. */
  type Hash = string -> ObjectId

  datatype Entry = Entry(count: nat, content: string)

  type Dict = map<ObjectId, Entry>

  // ---- Reference counts ---------------------------------------------------------------------------

  function Count(d: Dict, id: ObjectId): nat { if id in d then d[id].count else 0 }

  function Get(d: Dict, id: ObjectId): string { if id in d then d[id].content else "" }

  function Add(d: Dict, id: ObjectId, content: string): Dict {
    if id in d then d[id := d[id].(count := d[id].count + 1)] else d[id := Entry(1, content)]
  }

  /** n references fewer, never below none; an entry without references goes. */
  function Remove(d: Dict, id: ObjectId, n: nat): Dict {
    if n < 1 || id !in d then d
    else if d[id].count <= n then d - {id}
    else d[id := d[id].(count := d[id].count - n)]
  }

  function AddAll(hash: Hash, d: Dict, objects: seq<string>): Dict {
    if objects == [] then d
    else
      var n := |objects| - 1;
      Add(AddAll(hash, d, objects[..n]), hash(objects[n]), objects[n])
  }

  function Ids(hash: Hash, objects: seq<string>): (ids: seq<ObjectId>)
    ensures |ids| == |objects| && forall i :: 0 <= i < |ids| ==> ids[i] == hash(objects[i])
  {
    seq(|objects|, i requires 0 <= i < |objects| => hash(objects[i]))
  }

  /** Counts grow by the occurrences of each id. */
  lemma {:induction false} AddAllCounts(hash: Hash, d: Dict, objects: seq<string>, id: ObjectId)
    ensures Count(AddAll(hash, d, objects), id) == Count(d, id) + multiset(Ids(hash, objects))[id]
  {
    if objects != [] {
      var n := |objects| - 1;
      AddAllCounts(hash, d, objects[..n], id);
      assert Ids(hash, objects) == Ids(hash, objects[..n]) + [hash(objects[n])];
    }
  }

  /** d' extends d by entries for some of the objects, and by references. */
  ghost predicate Extends(hash: Hash, d: Dict, d': Dict, objects: seq<string>) {
    && (forall id :: id in d ==> id in d' && d'[id].content == d[id].content && d'[id].count >= d[id].count)
    && (forall id :: id in d' && id !in d ==> d'[id].content in objects && hash(d'[id].content) == id && d'[id].count > 0)
  }

  lemma ExtendsStep(hash: Hash, d: Dict, d1: Dict, objects: seq<string>, o: string)
    requires Extends(hash, d, d1, objects)
    ensures Extends(hash, d, Add(d1, hash(o), o), objects + [o])
  {}

  /** Contents, once there, stay; a new entry has the content of one of the objects. */
  lemma {:induction false} AddAllContents(hash: Hash, d: Dict, objects: seq<string>)
    ensures Extends(hash, d, AddAll(hash, d, objects), objects)
    ensures forall o :: o in objects ==> hash(o) in AddAll(hash, d, objects)
  {
    if objects != [] {
      hide Extends;
      var n := |objects| - 1;
      AddAllContents(hash, d, objects[..n]);
      ExtendsStep(hash, d, AddAll(hash, d, objects[..n]), objects[..n], objects[n]);
      assert objects == objects[..n] + [objects[n]];
    }
  }

  // ---- Splicing -----------------------------------------------------------------------------------

  datatype Span = Span(start: nat, length: nat)

  function End(s: Span): nat { s.start + s.length }

  /** Sorted, disjoint, non-empty and within a text of length n. */
  predicate ValidSpans(spans: seq<Span>, n: nat) {
    && (forall i :: 0 <= i < |spans| ==> spans[i].length > 0 && End(spans[i]) <= n)
    && (forall i, j :: 0 <= i < j < |spans| ==> End(spans[i]) <= spans[j].start)
  }

  function Objects(payload: string, spans: seq<Span>): (os: seq<string>)
    requires ValidSpans(spans, |payload|)
    ensures |os| == |spans| && forall i :: 0 <= i < |os| ==> os[i] == payload[spans[i].start..End(spans[i])]
  {
    seq(|spans|, i requires 0 <= i < |spans| => payload[spans[i].start..End(spans[i])])
  }

  /** Where the text after the first k spans begins. */
  function Tail(spans: seq<Span>, k: nat): nat
    requires k <= |spans|
  {
    if k == 0 then 0 else End(spans[k - 1])
  }

  lemma SpanBound(spans: seq<Span>, n: nat, k: nat)
    requires ValidSpans(spans, n) && k < |spans|
    ensures spans[k].start + spans[k].length == End(spans[k]) <= n
  {}

  lemma TailBound(spans: seq<Span>, n: nat, k: nat)
    requires ValidSpans(spans, n) && k <= |spans|
    ensures Tail(spans, k) <= n && (k < |spans| ==> Tail(spans, k) <= spans[k].start <= n)
  {}

  /** The text before Tail(spans, k), with the first k spans replaced by texts. */
  function Head(payload: string, spans: seq<Span>, texts: seq<string>, k: nat): string
    requires ValidSpans(spans, |payload|) && |texts| == |spans| && k <= |spans|
  {
    if k == 0 then ""
    else
      TailBound(spans, |payload|, k - 1);
      Head(payload, spans, texts, k - 1) + payload[Tail(spans, k - 1)..spans[k - 1].start] + texts[k - 1]
  }

  /** The payload with its spans replaced by texts, everything between them kept. */
  function Spliced(payload: string, spans: seq<Span>, texts: seq<string>): string
    requires ValidSpans(spans, |payload|) && |texts| == |spans|
  {
    TailBound(spans, |payload|, |spans|);
    Head(payload, spans, texts, |spans|) + payload[Tail(spans, |spans|)..]
  }

  function Digit(d: nat): char
    requires d < 10
  {
    "0123456789"[d]
  }

  function Decimal(n: nat): string {
    if n < 10 then [Digit(n)] else Decimal(n / 10) + [Digit(n % 10)]
  }

  const MARKER := "{\"__aid\":"

  /** The reference that stands for an object in an edited payload. */
  function Token(id: ObjectId): string { MARKER + Decimal(id) + "}" }

  lemma TokenExample()
    ensures Token(1042) == "{\"__aid\":1042}"
  {
    assert Decimal(1) == "1" && Decimal(10) == "10" && Decimal(104) == "104";
  }

  function Tokens(ids: seq<ObjectId>): (ts: seq<string>)
    ensures |ts| == |ids| && forall i :: 0 <= i < |ts| ==> ts[i] == Token(ids[i])
  {
    seq(|ids|, i requires 0 <= i < |ids| => Token(ids[i]))
  }

  /** What the edit makes of a payload. */
  function EditedText(hash: Hash, payload: string, spans: seq<Span>): string
    requires ValidSpans(spans, |payload|)
  {
    Spliced(payload, spans, Tokens(Ids(hash, Objects(payload, spans))))
  }

  /** Unsigned 64-bit arithmetic. */
  function Wrap64(x: int): nat { x % 0x1_0000_0000_0000_0000 }

  predicate Fits64(n: nat) { n < 0x1_0000_0000_0000_0000 }

  class DedupDict {
    const hash: Hash
    var entries: Dict

    constructor (hash: Hash)
      ensures this.hash == hash && entries == map[]
    {
      this.hash, entries := hash, map[];
    }

    method AddObject(content: string) returns (id: ObjectId)
      modifies this
      ensures id == hash(content) && entries == Add(old(entries), id, content)
    {
      id := hash(content);
      if id !in entries {
        entries := entries[id := Entry(1, content)];
      } else {
        entries := entries[id := entries[id].(count := entries[id].count + 1)];
      }
    }

    /** Whether the object was there; it goes when its last reference does. */
    method RemoveObject(aid: ObjectId, count: nat) returns (found: bool)
      modifies this
      ensures found <==> count < 1 || aid in old(entries)
      ensures entries == Remove(old(entries), aid, count)
    {
      if count < 1 { return true; }
      if aid !in entries { return false; }
      var n := if count < entries[aid].count then count else entries[aid].count;
      entries := entries[aid := entries[aid].(count := entries[aid].count - n)];
      if entries[aid].count == 0 { entries := entries - {aid}; }
      assert old(entries) - {aid} == old(entries)[aid := Entry(0, "")] - {aid};
      return true;
    }

    /** Cuts the spans out, one edit at a time.  The offset is an unsigned 64-bit number that wraps when a
        reference is longer than its object. */
    method ReplaceSpans(payload: string, spans: seq<Span>) returns (edited: string, ids: seq<ObjectId>)
      requires ValidSpans(spans, |payload|)
      requires Fits64(|payload|) && Fits64(|EditedText(hash, payload, spans)|)
      modifies this
      ensures ids == Ids(hash, Objects(payload, spans))
      ensures edited == EditedText(hash, payload, spans)
      ensures entries == AddAll(hash, old(entries), Objects(payload, spans))
    {
      hide *;
      ghost var objects := Objects(payload, spans);
      ghost var tokens := Tokens(Ids(hash, objects));
      edited, ids := payload, [];
      var editOffset: nat := 0;
      EditStart(hash, payload, spans, entries);
      for k := 0 to |spans|
        invariant ids == Ids(hash, objects)[..k]
        invariant entries == AddAll(hash, old(entries), objects[..k])
        invariant EditState(payload, spans, tokens, k, edited, editOffset)
      {
        var p := spans[k];
        SpanBound(spans, |payload|, k);
        var id := AddObject(payload[p.start..p.start + p.length]);
        AddAllStep(hash, old(entries), objects, k);
        ids := ids + [id];
        var replacement := Token(id);
        EditStep(payload, spans, tokens, k, edited, editOffset);
        var at := Wrap64(p.start - editOffset);
        edited := edited[..at] + replacement + edited[at + p.length..];
        editOffset := Wrap64(editOffset + Wrap64(p.length - |replacement|));
      }
      EditEnd(payload, spans, tokens, edited, editOffset);
      assert objects[..|spans|] == objects;
      assert Ids(hash, objects)[..|spans|] == Ids(hash, objects);
    }

    /** info is what the JSON scan finds: the spans of the actions, or nothing when the payload does not parse. */
    method TransformPayloadAndAddObjects(payload: string, info: Option<seq<Span>>)
      returns (ok: bool, edited: string, ids: seq<ObjectId>)
      requires info.Some? ==> ValidSpans(info.value, |payload|)
      requires info.Some? ==> Fits64(|payload|) && Fits64(|EditedText(hash, payload, info.value)|)
      modifies this
      ensures ok <==> info.Some?
      ensures !ok ==> unchanged(this) && edited == "" && ids == []
      ensures ok ==> var objects := Objects(payload, info.value);
                     && ids == Ids(hash, objects)
                     && edited == EditedText(hash, payload, info.value)
                     && entries == AddAll(hash, old(entries), objects)
    {
      if info.None? { return false, "", []; }
      edited, ids := ReplaceSpans(payload, info.value);
      ok := true;
    }
  }

  lemma AddAllStep(hash: Hash, d: Dict, objects: seq<string>, k: nat)
    requires k < |objects|
    ensures AddAll(hash, d, objects[..k + 1]) == Add(AddAll(hash, d, objects[..k]), hash(objects[k]), objects[k])
    ensures Ids(hash, objects)[..k + 1] == Ids(hash, objects)[..k] + [hash(objects[k])]
  {
    assert objects[..k + 1][..k] == objects[..k];
  }

  /** The text and the offset after k edits. */
  predicate EditState(payload: string, spans: seq<Span>, texts: seq<string>, k: nat, edited: string, offset: nat)
    requires ValidSpans(spans, |payload|) && |texts| == |spans| && k <= |spans|
  {
    TailBound(spans, |payload|, k);
    && edited == Head(payload, spans, texts, k) + payload[Tail(spans, k)..]
    && offset == Wrap64(Tail(spans, k) - |Head(payload, spans, texts, k)|)
  }

  lemma EditStart(hash: Hash, payload: string, spans: seq<Span>, d: Dict)
    requires ValidSpans(spans, |payload|)
    ensures var objects := Objects(payload, spans);
            var tokens := Tokens(Ids(hash, objects));
            && EditState(payload, spans, tokens, 0, payload, 0)
            && EditedText(hash, payload, spans) == Spliced(payload, spans, tokens)
            && AddAll(hash, d, objects[..0]) == d
  {}

  lemma EditEnd(payload: string, spans: seq<Span>, texts: seq<string>, edited: string, offset: nat)
    requires ValidSpans(spans, |payload|) && |texts| == |spans|
    requires EditState(payload, spans, texts, |spans|, edited, offset)
    ensures edited == Spliced(payload, spans, texts)
  {}

  /** The edit position, whatever the offset wrapped to, is that of the next span in the edited text. */
  lemma EditStep(payload: string, spans: seq<Span>, texts: seq<string>, k: nat, edited: string, offset: nat)
    requires ValidSpans(spans, |payload|) && |texts| == |spans| && k < |spans|
    requires EditState(payload, spans, texts, k, edited, offset)
    requires Fits64(|Spliced(payload, spans, texts)|)
    ensures var at := Wrap64(spans[k].start - offset);
            && at + spans[k].length <= |edited|
            && EditState(payload, spans, texts, k + 1, edited[..at] + texts[k] + edited[at + spans[k].length..],
                         Wrap64(offset + Wrap64(spans[k].length - |texts[k]|)))
  {
    hide *;
    TailBound(spans, |payload|, k);
    TailBound(spans, |payload|, k + 1);
    HeadStep(payload, spans, texts, k);
    EditPosition(payload, spans, texts, k);
    EditStateIs(payload, spans, texts, k, edited, offset);
    var at := Wrap64(spans[k].start - offset);
    assert at == |Head(payload, spans, texts, k) + payload[Tail(spans, k)..spans[k].start]|;
    EditStateIs(payload, spans, texts, k + 1, edited[..at] + texts[k] + edited[at + spans[k].length..],
                Wrap64(offset + Wrap64(spans[k].length - |texts[k]|)));
  }

  lemma EditStateIs(payload: string, spans: seq<Span>, texts: seq<string>, k: nat, edited: string, offset: nat)
    requires ValidSpans(spans, |payload|) && |texts| == |spans| && k <= |spans| && Tail(spans, k) <= |payload|
    ensures EditState(payload, spans, texts, k, edited, offset) <==>
              && edited == Head(payload, spans, texts, k) + payload[Tail(spans, k)..]
              && offset == Wrap64(Tail(spans, k) - |Head(payload, spans, texts, k)|)
  {}

  lemma EditPosition(payload: string, spans: seq<Span>, texts: seq<string>, k: nat)
    requires ValidSpans(spans, |payload|) && |texts| == |spans| && k < |spans|
    requires Fits64(|Spliced(payload, spans, texts)|) && Tail(spans, k) <= spans[k].start && Tail(spans, k + 1) <= |payload|
    ensures var head := Head(payload, spans, texts, k);
            var offset := Wrap64(Tail(spans, k) - |head|);
            && Wrap64(spans[k].start - offset) == |head| + spans[k].start - Tail(spans, k)
            && Wrap64(offset + Wrap64(spans[k].length - |texts[k]|))
                 == Wrap64(Tail(spans, k + 1) - |Head(payload, spans, texts, k + 1)|)
  {
    hide Head, Spliced, ValidSpans;
    HeadGrows(payload, spans, texts, k + 1);
    HeadStep(payload, spans, texts, k);
    var head, tail, p := Head(payload, spans, texts, k), Tail(spans, k), spans[k];
    WrapPosition(p.start, tail - |head|);
    WrapOffset(tail - |head|, p.length - |texts[k]|);
    hide Wrap64;
    assert Tail(spans, k + 1) - |Head(payload, spans, texts, k + 1)| == (tail - |head|) + (p.length - |texts[k]|);
  }

  lemma HeadStep(payload: string, spans: seq<Span>, texts: seq<string>, k: nat)
    requires ValidSpans(spans, |payload|) && |texts| == |spans| && k < |spans|
    requires Tail(spans, k) <= spans[k].start && Tail(spans, k + 1) <= |payload|
    ensures var head, gap := Head(payload, spans, texts, k), payload[Tail(spans, k)..spans[k].start];
            var edited := head + payload[Tail(spans, k)..];
            && Head(payload, spans, texts, k + 1) == head + gap + texts[k]
            && |head + gap| + spans[k].length <= |edited|
            && edited[..|head + gap|] == head + gap
            && edited[|head + gap| + spans[k].length..] == payload[Tail(spans, k + 1)..]
  {
    var gap, item := payload[Tail(spans, k)..spans[k].start], payload[spans[k].start..End(spans[k])];
    assert payload[Tail(spans, k)..] == gap + (item + payload[End(spans[k])..]);
  }

  lemma WrapPosition(start: nat, delta: int)
    ensures 0 <= start - delta < 0x1_0000_0000_0000_0000 ==> Wrap64(start - Wrap64(delta)) == start - delta
  {}

  lemma WrapOffset(a: int, b: int)
    ensures Wrap64(Wrap64(a) + Wrap64(b)) == Wrap64(a + b)
  {}

  /** Heads are prefixes of what comes after. */
  lemma {:induction false} HeadGrows(payload: string, spans: seq<Span>, texts: seq<string>, k: nat)
    requires ValidSpans(spans, |payload|) && |texts| == |spans| && k <= |spans|
    ensures |Head(payload, spans, texts, k)| <= |Spliced(payload, spans, texts)|
    decreases |spans| - k
  {
    if k < |spans| { HeadGrows(payload, spans, texts, k + 1); }
  }
}
