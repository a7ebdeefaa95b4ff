/** Undoing the client's edit: putting the objects back where their references stand. */
module Expansion {
  import opened Common
  import opened DedupDict

  // ---- By position ----------------------------------------------------------------------------------

  /** Where the replacement texts stand in the spliced text. */
  function NewSpans(payload: string, spans: seq<Span>, texts: seq<string>): (r: seq<Span>)
    requires ValidSpans(spans, |payload|) && |texts| == |spans|
    ensures |r| == |spans|
  {
    seq(|spans|, i requires 0 <= i < |spans| =>
      TailBound(spans, |payload|, i);
      Span(|Head(payload, spans, texts, i)| + spans[i].start - Tail(spans, i), |texts[i]|))
  }

  /** One more replacement, as the gap before it and its text. */
  lemma HeadNext(payload: string, spans: seq<Span>, texts: seq<string>, k: nat)
    requires ValidSpans(spans, |payload|) && |texts| == |spans| && k < |spans|
    ensures Tail(spans, k) <= spans[k].start <= Tail(spans, k + 1) == End(spans[k]) <= |payload|
    ensures Head(payload, spans, texts, k + 1)
         == Head(payload, spans, texts, k) + payload[Tail(spans, k)..spans[k].start] + texts[k]
  {
    TailBound(spans, |payload|, k);
  }

  lemma HeadZero(payload: string, spans: seq<Span>, texts: seq<string>)
    requires ValidSpans(spans, |payload|) && |texts| == |spans|
    ensures Head(payload, spans, texts, 0) == "" && Tail(spans, 0) == 0
  {}

  lemma HeadAll(payload: string, spans: seq<Span>, texts: seq<string>)
    requires ValidSpans(spans, |payload|) && |texts| == |spans|
    ensures Tail(spans, |spans|) <= |payload|
    ensures Spliced(payload, spans, texts) == Head(payload, spans, texts, |spans|) + payload[Tail(spans, |spans|)..]
  {
    TailBound(spans, |payload|, |spans|);
  }

  /** Splicing in the objects that were there changes nothing. */
  lemma {:induction false} SplicedObjects(payload: string, spans: seq<Span>, objects: seq<string>, k: nat)
    requires ValidSpans(spans, |payload|) && objects == Objects(payload, spans) && k <= |spans|
    ensures Tail(spans, k) <= |payload|
    ensures Head(payload, spans, objects, k) == payload[..Tail(spans, k)]
  {
    hide *;
    if k == 0 {
      HeadZero(payload, spans, objects);
    } else {
      SplicedObjects(payload, spans, objects, k - 1);
      HeadNext(payload, spans, objects, k - 1);
    }
  }

  /** The spliced text, seen from the end of its k-th replacement. */
  lemma {:induction false} SplicedFrom(payload: string, spans: seq<Span>, texts: seq<string>, k: nat) returns (rest: string)
    requires ValidSpans(spans, |payload|) && |texts| == |spans| && k <= |spans|
    ensures Spliced(payload, spans, texts) == Head(payload, spans, texts, k) + rest
    decreases |spans| - k
  {
    hide *;
    if k == |spans| {
      HeadAll(payload, spans, texts);
      rest := payload[Tail(spans, k)..];
    } else {
      var r := SplicedFrom(payload, spans, texts, k + 1);
      HeadNext(payload, spans, texts, k);
      rest := payload[Tail(spans, k)..spans[k].start] + texts[k] + r;
    }
  }

  lemma NewSpanIs(payload: string, spans: seq<Span>, texts: seq<string>, k: nat)
    requires ValidSpans(spans, |payload|) && |texts| == |spans| && k < |spans|
    ensures var p := NewSpans(payload, spans, texts)[k];
            && p.start == |Head(payload, spans, texts, k)| + spans[k].start - Tail(spans, k)
            && p.length == |texts[k]| && End(p) == p.start + p.length
  {
    TailBound(spans, |payload|, k);
  }

  /** Each replacement stands at its new span, right after the gap it followed. */
  lemma NewSpanAt(payload: string, spans: seq<Span>, texts: seq<string>, k: nat)
    requires ValidSpans(spans, |payload|) && |texts| == |spans| && k < |spans|
    ensures var edited, p := Spliced(payload, spans, texts), NewSpans(payload, spans, texts)[k];
            var head := |Head(payload, spans, texts, k)|;
            && Tail(spans, k) <= spans[k].start <= |payload|
            && p.length == |texts[k]|
            && head <= p.start <= End(p) == |Head(payload, spans, texts, k + 1)| <= |edited|
            && edited[head..p.start] == payload[Tail(spans, k)..spans[k].start]
  {
    hide *;
    HeadNext(payload, spans, texts, k);
    NewSpanIs(payload, spans, texts, k);
    var rest := SplicedFrom(payload, spans, texts, k + 1);
    var head, gap := Head(payload, spans, texts, k), payload[Tail(spans, k)..spans[k].start];
    assert Spliced(payload, spans, texts) == head + gap + texts[k] + rest;
  }

  lemma {:induction false} HeadsGrow(payload: string, spans: seq<Span>, texts: seq<string>, i: nat, j: nat)
    requires ValidSpans(spans, |payload|) && |texts| == |spans| && i <= j <= |spans|
    ensures |Head(payload, spans, texts, i)| <= |Head(payload, spans, texts, j)|
  {
    hide *;
    if i < j {
      HeadsGrow(payload, spans, texts, i, j - 1);
      HeadNext(payload, spans, texts, j - 1);
    }
  }

  lemma SpansInOrder(spans: seq<Span>, n: nat)
    requires forall i :: 0 <= i < |spans| ==> spans[i].length > 0 && End(spans[i]) <= n
    requires forall i, j :: 0 <= i < j < |spans| ==> End(spans[i]) <= spans[j].start
    ensures ValidSpans(spans, n)
  {}

  lemma NewSpansValid(payload: string, spans: seq<Span>, texts: seq<string>)
    requires ValidSpans(spans, |payload|) && |texts| == |spans| && forall i :: 0 <= i < |texts| ==> texts[i] != ""
    ensures ValidSpans(NewSpans(payload, spans, texts), |Spliced(payload, spans, texts)|)
  {
    hide *;
    var news, n := NewSpans(payload, spans, texts), |Spliced(payload, spans, texts)|;
    forall i | 0 <= i < |news| ensures news[i].length > 0 && End(news[i]) <= n {
      NewSpanAt(payload, spans, texts, i);
    }
    forall i, j | 0 <= i < j < |news| ensures End(news[i]) <= news[j].start {
      NewSpanAt(payload, spans, texts, i);
      NewSpanAt(payload, spans, texts, j);
      HeadsGrow(payload, spans, texts, i + 1, j);
    }
    SpansInOrder(news, n);
  }

  /** The new spans' tails are the heads' ends. */
  lemma NewTail(payload: string, spans: seq<Span>, texts: seq<string>, k: nat)
    requires ValidSpans(spans, |payload|) && |texts| == |spans| && k <= |spans|
    ensures Tail(NewSpans(payload, spans, texts), k) == |Head(payload, spans, texts, k)|
  {
    if k > 0 { NewSpanAt(payload, spans, texts, k - 1); }
  }

  lemma {:induction false} ResplicedHead(payload: string, spans: seq<Span>, texts: seq<string>, others: seq<string>, k: nat)
    requires ValidSpans(spans, |payload|) && |texts| == |spans| == |others| && k <= |spans|
    requires ValidSpans(NewSpans(payload, spans, texts), |Spliced(payload, spans, texts)|)
    ensures Head(Spliced(payload, spans, texts), NewSpans(payload, spans, texts), others, k)
         == Head(payload, spans, others, k)
  {
    hide *;
    var edited, news := Spliced(payload, spans, texts), NewSpans(payload, spans, texts);
    if k == 0 {
      HeadZero(payload, spans, others);
      HeadZero(edited, news, others);
    } else {
      ResplicedHead(payload, spans, texts, others, k - 1);
      HeadNext(payload, spans, others, k - 1);
      HeadNext(edited, news, others, k - 1);
      NewTail(payload, spans, texts, k - 1);
      NewSpanAt(payload, spans, texts, k - 1);
    }
  }

  /** Splicing over a splice is splicing once. */
  lemma Respliced(payload: string, spans: seq<Span>, texts: seq<string>, others: seq<string>)
    requires ValidSpans(spans, |payload|) && |texts| == |spans| == |others|
    requires forall i :: 0 <= i < |texts| ==> texts[i] != ""
    ensures var edited, news := Spliced(payload, spans, texts), NewSpans(payload, spans, texts);
            ValidSpans(news, |edited|) && Spliced(edited, news, others) == Spliced(payload, spans, others)
  {
    hide *;
    var edited, news := Spliced(payload, spans, texts), NewSpans(payload, spans, texts);
    NewSpansValid(payload, spans, texts);
    ResplicedHead(payload, spans, texts, others, |spans|);
    NewTail(payload, spans, texts, |spans|);
    HeadAll(payload, spans, texts);
    HeadAll(payload, spans, others);
    HeadAll(edited, news, others);
  }

  lemma TokensNonEmpty(ids: seq<ObjectId>)
    ensures forall i :: 0 <= i < |ids| ==> Tokens(ids)[i] != ""
  {}

  /** Writing the objects back over their references restores any payload. */
  lemma ReferencesRestored(hash: Hash, payload: string, spans: seq<Span>)
    requires ValidSpans(spans, |payload|)
    ensures var objects := Objects(payload, spans);
            var edited, news := EditedText(hash, payload, spans), NewSpans(payload, spans, Tokens(Ids(hash, objects)));
            ValidSpans(news, |edited|) && Spliced(edited, news, objects) == payload
  {
    hide ValidSpans, Head, Spliced, NewSpans, Tail, Token;
    var objects := Objects(payload, spans);
    TokensNonEmpty(Ids(hash, objects));
    Respliced(payload, spans, Tokens(Ids(hash, objects)), objects);
    SplicedObjects(payload, spans, objects, |spans|);
    HeadAll(payload, spans, objects);
  }

  // ---- By scanning ----------------------------------------------------------------------------------

  predicate IsDigit(c: char) { '0' <= c <= '9' }

  predicate AllDigits(s: string) { forall i :: 0 <= i < |s| ==> IsDigit(s[i]) }

  function Value(s: string): nat
    requires AllDigits(s)
  {
    if s == "" then 0 else 10 * Value(s[..|s| - 1]) + (s[|s| - 1] as int - '0' as int)
  }

  /** The number of leading digits. */
  function DigitRun(s: string): (n: nat)
    ensures n <= |s| && AllDigits(s[..n])
  {
    if s == "" || !IsDigit(s[0]) then 0
    else
      var n := DigitRun(s[1..]);
      assert s[..n + 1] == [s[0]] + s[1..][..n];
      n + 1
  }

  predicate StartsWith(s: string, p: string) { |p| <= |s| && s[..|p|] == p }

  datatype Reference = NoReference | Reference(id: nat, length: nat)

  /** The reference s begins with, if any. */
  function ReferenceAt(s: string): (r: Reference)
    ensures r.Reference? ==> 0 < r.length <= |s|
  {
    if !StartsWith(s, MARKER) then NoReference
    else
      var rest := s[|MARKER|..];
      var n := DigitRun(rest);
      if n == 0 || n == |rest| || rest[n] != '}' then NoReference
      else Reference(Value(rest[..n]), |MARKER| + n + 1)
  }

  /** s with every reference to a known object replaced by the object, left to right. */
  function Expand(s: string, contents: map<ObjectId, string>): string
    decreases |s|
  {
    if s == "" then ""
    else
      var r := ReferenceAt(s);
      if r.Reference? && r.id in contents then contents[r.id] + Expand(s[r.length..], contents)
      else [s[0]] + Expand(s[1..], contents)
  }

  predicate MarkerFree(s: string) { forall i :: 0 <= i <= |s| ==> !StartsWith(s[i..], MARKER) }

  lemma {:induction false} DecimalDigits(n: nat)
    ensures Decimal(n) != "" && AllDigits(Decimal(n)) && Value(Decimal(n)) == n
  {
    if n >= 10 {
      DecimalDigits(n / 10);
      assert Decimal(n)[..|Decimal(n)| - 1] == Decimal(n / 10);
    } else {
      assert Decimal(n)[..0] == "";
    }
  }

  lemma {:induction false} DigitRunStops(digits: string, rest: string)
    requires AllDigits(digits) && rest != "" && !IsDigit(rest[0])
    ensures DigitRun(digits + rest) == |digits|
  {
    if digits == "" {
      assert digits + rest == rest;
    } else {
      assert (digits + rest)[1..] == digits[1..] + rest;
      DigitRunStops(digits[1..], rest);
    }
  }

  lemma ReferenceAtToken(id: ObjectId, rest: string)
    ensures ReferenceAt(Token(id) + rest) == Reference(id, |Token(id)|)
  {
    hide Decimal;
    DecimalDigits(id);
    DigitRunStops(Decimal(id), "}" + rest);
    var s := Token(id) + rest;
    assert s == MARKER + (Decimal(id) + ("}" + rest));
    assert s[..|MARKER|] == MARKER;
    assert s[|MARKER|..] == Decimal(id) + ("}" + rest);
    assert (Decimal(id) + ("}" + rest))[..|Decimal(id)|] == Decimal(id);
  }

  /** A reference never begins inside a gap and ends beyond it: its only brace is its first character. */
  lemma NoReferenceInGap(gap: string, rest: string)
    requires gap != "" && MarkerFree(gap) && (rest == "" || rest[0] == '{')
    ensures ReferenceAt(gap + rest) == NoReference
  {
    assert gap[0..] == gap;
    MarkerBraces();
    var s, n := gap + rest, |MARKER|;
    if |gap| >= n {
      assert s[..n] == gap[..n];
    } else if |s| >= n {
      assert s[..n][|gap|] == rest[0];
    }
  }

  lemma MarkerBraces()
    ensures forall i :: 1 <= i < |MARKER| ==> MARKER[i] != '{'
  {}

  lemma ExpandStep(s: string, contents: map<ObjectId, string>)
    requires s != "" && ReferenceAt(s) == NoReference
    ensures Expand(s, contents) == [s[0]] + Expand(s[1..], contents)
  {}

  lemma MarkerFreeTail(gap: string)
    requires gap != "" && MarkerFree(gap)
    ensures MarkerFree(gap[1..])
  {
    forall i | 0 <= i <= |gap[1..]| ensures !StartsWith(gap[1..][i..], MARKER) {
      assert gap[1..][i..] == gap[i + 1..];
    }
  }

  lemma {:induction false} ExpandGap(gap: string, rest: string, contents: map<ObjectId, string>)
    requires MarkerFree(gap) && (rest == "" || rest[0] == '{')
    ensures Expand(gap + rest, contents) == gap + Expand(rest, contents)
  {
    hide *;
    if gap == "" {
      assert gap + rest == rest;
    } else {
      NoReferenceInGap(gap, rest);
      ExpandStep(gap + rest, contents);
      MarkerFreeTail(gap);
      ExpandGap(gap[1..], rest, contents);
      assert (gap + rest)[1..] == gap[1..] + rest;
      assert gap == [gap[0]] + gap[1..];
    }
  }

  /** The text from the k-th gap on, with the spans from k replaced. */
  function Rest(payload: string, spans: seq<Span>, texts: seq<string>, k: nat): string
    requires ValidSpans(spans, |payload|) && |texts| == |spans| && k <= |spans|
    decreases |spans| - k
  {
    TailBound(spans, |payload|, k);
    if k == |spans| then payload[Tail(spans, k)..]
    else payload[Tail(spans, k)..spans[k].start] + (texts[k] + Rest(payload, spans, texts, k + 1))
  }

  lemma RestNext(payload: string, spans: seq<Span>, texts: seq<string>, k: nat)
    requires ValidSpans(spans, |payload|) && |texts| == |spans| && k < |spans|
    requires Tail(spans, k) <= spans[k].start <= |payload|
    ensures Rest(payload, spans, texts, k)
         == payload[Tail(spans, k)..spans[k].start] + (texts[k] + Rest(payload, spans, texts, k + 1))
  {}

  lemma RestEnd(payload: string, spans: seq<Span>, texts: seq<string>)
    requires ValidSpans(spans, |payload|) && |texts| == |spans| && Tail(spans, |spans|) <= |payload|
    ensures Rest(payload, spans, texts, |spans|) == payload[Tail(spans, |spans|)..]
  {}

  lemma {:induction false} HeadAndRest(payload: string, spans: seq<Span>, texts: seq<string>, k: nat)
    requires ValidSpans(spans, |payload|) && |texts| == |spans| && k <= |spans|
    ensures Head(payload, spans, texts, k) + Rest(payload, spans, texts, k) == Spliced(payload, spans, texts)
    decreases |spans| - k
  {
    hide *;
    if k < |spans| {
      HeadAndRest(payload, spans, texts, k + 1);
      HeadNext(payload, spans, texts, k);
      RestNext(payload, spans, texts, k);
      var head, gap := Head(payload, spans, texts, k), payload[Tail(spans, k)..spans[k].start];
      assert head + (gap + (texts[k] + Rest(payload, spans, texts, k + 1)))
          == head + gap + texts[k] + Rest(payload, spans, texts, k + 1);
    } else {
      HeadAll(payload, spans, texts);
      RestEnd(payload, spans, texts);
    }
  }

  /** No gap of the payload holds the marker of a reference. */
  predicate GapsMarkerFree(payload: string, spans: seq<Span>)
    requires ValidSpans(spans, |payload|)
  {
    forall k :: 0 <= k <= |spans| ==>
      (TailBound(spans, |payload|, k);
       MarkerFree(payload[Tail(spans, k)..if k < |spans| then spans[k].start else |payload|]))
  }

  lemma GapMarkerFree(payload: string, spans: seq<Span>, k: nat)
    requires ValidSpans(spans, |payload|) && GapsMarkerFree(payload, spans) && k <= |spans|
    ensures Tail(spans, k) <= |payload|
    ensures k < |spans| ==> Tail(spans, k) <= spans[k].start <= |payload| && MarkerFree(payload[Tail(spans, k)..spans[k].start])
    ensures k == |spans| ==> MarkerFree(payload[Tail(spans, k)..])
  {
    hide MarkerFree;
    TailBound(spans, |payload|, k);
    assert payload[Tail(spans, k)..|payload|] == payload[Tail(spans, k)..];
  }

  lemma {:induction false} ExpandRest(hash: Hash, payload: string, spans: seq<Span>, objects: seq<string>,
                                      contents: map<ObjectId, string>, k: nat)
    requires ValidSpans(spans, |payload|) && GapsMarkerFree(payload, spans) && k <= |spans|
    requires objects == Objects(payload, spans)
    requires forall o :: o in objects ==> hash(o) in contents && contents[hash(o)] == o
    ensures Tail(spans, k) <= |payload|
    ensures Expand(Rest(payload, spans, Tokens(Ids(hash, objects)), k), contents) == payload[Tail(spans, k)..]
    decreases |spans| - k
  {
    hide *;
    GapMarkerFree(payload, spans, k);
    var tokens := Tokens(Ids(hash, objects));
    if k == |spans| {
      RestEnd(payload, spans, tokens);
      var gap := payload[Tail(spans, k)..];
      ExpandGap(gap, "", contents);
      ExpandNothing(contents);
      assert gap + "" == gap;
    } else {
      ExpandRest(hash, payload, spans, objects, contents, k + 1);
      RestNext(payload, spans, tokens, k);
      HeadNext(payload, spans, tokens, k);
      var gap, rest := payload[Tail(spans, k)..spans[k].start], Rest(payload, spans, tokens, k + 1);
      assert objects[k] in objects;
      ExpandToken(hash(objects[k]), rest, contents);
      ExpandGap(gap, tokens[k] + rest, contents);
      assert payload[Tail(spans, k)..] == gap + (objects[k] + payload[End(spans[k])..]);
    }
  }

  lemma ExpandNothing(contents: map<ObjectId, string>)
    ensures Expand("", contents) == ""
  {}

  lemma ExpandToken(id: ObjectId, rest: string, contents: map<ObjectId, string>)
    requires id in contents
    ensures Token(id) != "" && Token(id)[0] == '{'
    ensures Expand(Token(id) + rest, contents) == contents[id] + Expand(rest, contents)
  {
    ReferenceAtToken(id, rest);
    assert (Token(id) + rest)[|Token(id)|..] == rest;
  }

  /** A reader that knows the objects and expands the references it meets gets the payload back, provided
      the payload itself mentions no reference outside its actions. */
  lemma ExpansionRestores(hash: Hash, payload: string, spans: seq<Span>, contents: map<ObjectId, string>)
    requires ValidSpans(spans, |payload|) && GapsMarkerFree(payload, spans)
    requires forall o :: o in Objects(payload, spans) ==> hash(o) in contents && contents[hash(o)] == o
    ensures Expand(EditedText(hash, payload, spans), contents) == payload
  {
    hide ValidSpans, GapsMarkerFree, Head, Spliced, Rest, Tail, Token, Expand;
    var objects := Objects(payload, spans);
    var tokens := Tokens(Ids(hash, objects));
    HeadAndRest(payload, spans, tokens, 0);
    HeadZero(payload, spans, tokens);
    assert "" + Rest(payload, spans, tokens, 0) == Rest(payload, spans, tokens, 0);
    ExpandRest(hash, payload, spans, objects, contents, 0);
  }
}
