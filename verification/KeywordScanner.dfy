/** The single-pass, case-insensitive multi-keyword scanner of date.h. */
module KeywordScanner {

  type Byte = x: nat | x < 0x100

  type Keyword = seq<Byte>

  /** toupper in the C locale. */
  function Upper(b: Byte): Byte { if 97 <= b <= 122 then b - 32 else b }

  /** kw and text have the same first n characters, case aside. */
  predicate Agree(kw: Keyword, text: seq<Byte>, n: nat) {
    n <= |kw| && n <= |text| && forall i :: 0 <= i < n ==> Upper(kw[i]) == Upper(text[i])
  }

  /** Some keyword follows text for n characters. */
  ghost predicate Reach(kws: seq<Keyword>, text: seq<Byte>, n: nat) {
    exists k :: 0 <= k < |kws| && Agree(kws[k], text, n)
  }

  /** n is the number of characters of text that some keyword follows, and no keyword follows more. */
  ghost predicate Longest(kws: seq<Keyword>, text: seq<Byte>, n: nat) {
    (n == 0 || Reach(kws, text, n)) && !Reach(kws, text, n + 1)
  }

  /** Keyword k is the whole of the first n characters of text. */
  predicate Matches(kws: seq<Keyword>, text: seq<Byte>, n: nat, k: nat)
    requires k < |kws|
  {
    |kws[k]| == n && Agree(kws[k], text, n)
  }

  class InputStream {
    const data: seq<Byte>
    var pos: nat
    var eof: bool
    var fail: bool

    ghost predicate Valid() reads this { pos <= |data| }

    /** What can still be read: nothing once a state bit is set. */
    ghost function Text(): seq<Byte>
      requires Valid()
      reads this
    {
      if eof || fail then [] else data[pos..]
    }

    constructor (data: seq<Byte>)
      ensures Valid() && this.data == data && pos == 0 && !eof && !fail
    {
      this.data, pos, eof, fail := data, 0, false, false;
    }

    /** The next character, or -1 with the state bits a failed read sets. */
    method Peek() returns (c: int)
      requires Valid()
      modifies this`eof, this`fail
      ensures old(Text()) != [] ==> c == old(Text())[0] && !eof && !fail
      ensures old(Text()) == [] ==> c == -1
      ensures old(Text()) == [] ==> fail == old(eof || fail) && eof == (old(eof) || !old(fail))
    {
      if eof || fail {
        fail := true;
        c := -1;
      } else if pos == |data| {
        eof := true;
        c := -1;
      } else {
        c := data[pos];
      }
    }

    method Get()
      requires Valid() && Text() != []
      modifies this`pos
      ensures Valid() && pos == old(pos) + 1
    {
      pos := pos + 1;
    }
  }

  datatype Status = DoesntMatch | MightMatch | DoesMatch

  /** Entries of status equal to x. */
  ghost function Tally(status: seq<Status>, x: Status): nat { multiset(status)[x] }

  lemma TallyUpdate(s: seq<Status>, i: nat, v: Status, x: Status)
    requires i < |s|
    ensures Tally(s[i := v], x) == Tally(s, x) - (if s[i] == x then 1 else 0) + (if v == x then 1 else 0)
  {}

  lemma TallyZero(s: seq<Status>, x: Status)
    requires Tally(s, x) == 0
    ensures forall i :: 0 <= i < |s| ==> s[i] != x
  {
    forall i | 0 <= i < |s| ensures s[i] != x { assert s[i] in multiset(s); }
  }

  /** Two live entries are counted as at least two. */
  lemma TallyTwo(s: seq<Status>, i: nat, j: nat)
    requires i < |s| && j < |s| && i != j && s[i] != DoesntMatch && s[j] != DoesntMatch
    ensures Tally(s, MightMatch) + Tally(s, DoesMatch) >= 2
  {
    var rest, live := s[i := DoesntMatch], Tally(s, MightMatch) + Tally(s, DoesMatch);
    TallyUpdate(s, i, DoesntMatch, MightMatch);
    TallyUpdate(s, i, DoesntMatch, DoesMatch);
    assert rest[j] in multiset(rest);
  }

  /** What a live status says once n characters are consumed. */
  predicate Accurate(st: Status, kw: Keyword, text: seq<Byte>, n: nat) {
    && (st == MightMatch <==> Agree(kw, text, n) && |kw| > n)
    && (st == DoesMatch <==> Agree(kw, text, n) && |kw| == n)
  }

  /** What the statuses say after the next character has been tested against keywords, and before the
      ones that matched earlier are dropped. */
  predicate Tested(st: Status, kw: Keyword, text: seq<Byte>, n: nat) {
    && (st == MightMatch <==> Agree(kw, text, n + 1) && |kw| > n + 1)
    && (st == DoesMatch <==> (Agree(kw, text, n + 1) && |kw| == n + 1) || (Agree(kw, text, n) && |kw| == n))
  }

  /** The two counters are the numbers of might-match and does-match statuses. */
  ghost predicate Counted(status: seq<Status>, nMight: nat, nDoes: nat) {
    nMight == Tally(status, MightMatch) && nDoes == Tally(status, DoesMatch)
  }

  ghost predicate AllAccurate(status: seq<Status>, kws: seq<Keyword>, text: seq<Byte>, n: nat) {
    |status| == |kws| && forall i :: 0 <= i < |kws| ==> Accurate(status[i], kws[i], text, n)
  }

  ghost predicate AllTested(status: seq<Status>, kws: seq<Keyword>, text: seq<Byte>, n: nat) {
    |status| == |kws| && forall i :: 0 <= i < |kws| ==> Tested(status[i], kws[i], text, n)
  }

  /** Every keyword might match, except that an empty one does. */
  method InitStatus(status: array<Status>, kws: seq<Keyword>, ghost text: seq<Byte>) returns (nMight: nat, nDoes: nat)
    requires status.Length == |kws|
    modifies status
    ensures Counted(status[..], nMight, nDoes) && AllAccurate(status[..], kws, text, 0)
  {
    for j := 0 to |kws|
      invariant forall i :: 0 <= i < j ==> status[i] == MightMatch
    {
      status[j] := MightMatch;
    }
    TallyConstant(status[..]);
    nMight, nDoes := |kws|, 0;
    for j := 0 to |kws|
      invariant Counted(status[..], nMight, nDoes)
      invariant forall i :: 0 <= i < j ==> Accurate(status[i], kws[i], text, 0)
      invariant forall i :: j <= i < |kws| ==> status[i] == MightMatch
    {
      if kws[j] == [] {
        nMight, nDoes := SetStatus(status, j, DoesMatch, nMight, nDoes);
      }
    }
  }

  /** One of the first j keywords follows text for n characters. */
  ghost predicate ReachBelow(kws: seq<Keyword>, text: seq<Byte>, n: nat, j: nat)
    requires j <= |kws|
  {
    exists i :: 0 <= i < j && Agree(kws[i], text, n)
  }

  lemma ReachBelowStep(kws: seq<Keyword>, text: seq<Byte>, n: nat, j: nat)
    requires j < |kws|
    ensures ReachBelow(kws, text, n, j + 1) <==> ReachBelow(kws, text, n, j) || Agree(kws[j], text, n)
  {}

  /** What the next character does to one keyword. */
  lemma TestOne(st: Status, kw: Keyword, text: seq<Byte>, indx: nat)
    requires Accurate(st, kw, text, indx) && indx < |text|
    ensures st == MightMatch ==> indx < |kw|
    ensures Agree(kw, text, indx + 1) <==> st == MightMatch && Upper(text[indx]) == Upper(kw[indx])
    ensures Tested(if st != MightMatch then st
                   else if Upper(text[indx]) != Upper(kw[indx]) then DoesntMatch
                   else if |kw| == indx + 1 then DoesMatch else MightMatch, kw, text, indx)
  {}

  /** Character indx of every keyword that might match is compared with c. */
  method TestCharacter(status: array<Status>, kws: seq<Keyword>, ghost text: seq<Byte>, indx: nat, c: Byte, might: nat, does: nat)
    returns (consume: bool, nMight: nat, nDoes: nat)
    requires AllAccurate(status[..], kws, text, indx) && Counted(status[..], might, does)
    requires indx < |text| && text[indx] == c
    modifies status
    ensures AllTested(status[..], kws, text, indx) && Counted(status[..], nMight, nDoes)
    ensures consume <==> Reach(kws, text, indx + 1)
    ensures nMight <= might && (!consume ==> nMight == 0)
  {
    hide *;
    ghost var before := status[..];
    consume, nMight, nDoes := false, might, does;
    HalfStart(before, kws, text, indx);
    for j := 0 to |kws|
      invariant status.Length == |kws|
      invariant Counted(status[..], nMight, nDoes) && nMight <= might
      invariant HalfTested(status[..], before, kws, text, indx, j)
      invariant consume <==> ReachBelow(kws, text, indx + 1, j)
    {
      HalfAt(status[..], before, kws, text, indx, j);
      CountedIs(status[..], nMight, nDoes);
      ReachBelowStep(kws, text, indx + 1, j);
      if status[j] == MightMatch {
        if Upper(c) == Upper(kws[j][indx]) {
          consume := true;
          if |kws[j]| == indx + 1 {
            nMight, nDoes := SetStatus(status, j, DoesMatch, nMight, nDoes);
          }
        } else {
          nMight, nDoes := SetStatus(status, j, DoesntMatch, nMight, nDoes);
        }
      }
      CountedIs(status[..], nMight, nDoes);
    }
    HalfEnd(status[..], before, kws, text, indx);
    if !consume {
      TallyNone(status[..], MightMatch);
      CountedIs(status[..], nMight, nDoes);
    }
  }

  /** The first j keywords are tested; the others are as before. */
  ghost predicate HalfTested(status: seq<Status>, before: seq<Status>, kws: seq<Keyword>, text: seq<Byte>, indx: nat, j: nat) {
    && |status| == |before| == |kws| && j <= |kws|
    && AllAccurate(before, kws, text, indx)
    && (forall i :: 0 <= i < j ==> Tested(status[i], kws[i], text, indx))
    && (forall i :: j <= i < |kws| ==> status[i] == before[i])
  }

  lemma HalfStart(before: seq<Status>, kws: seq<Keyword>, text: seq<Byte>, indx: nat)
    requires AllAccurate(before, kws, text, indx)
    ensures |before| == |kws| && HalfTested(before, before, kws, text, indx, 0) && !ReachBelow(kws, text, indx + 1, 0)
  {}

  /** The next keyword tested: the status it gets. */
  lemma HalfAt(status: seq<Status>, before: seq<Status>, kws: seq<Keyword>, text: seq<Byte>, indx: nat, j: nat)
    requires HalfTested(status, before, kws, text, indx, j) && j < |kws| && indx < |text|
    ensures |status| == |kws| && (status[j] == MightMatch ==> indx < |kws[j]|)
    ensures Agree(kws[j], text, indx + 1) <==> status[j] == MightMatch && Upper(text[indx]) == Upper(kws[j][indx])
    ensures var st := if status[j] != MightMatch then status[j]
                      else if Upper(text[indx]) != Upper(kws[j][indx]) then DoesntMatch
                      else if |kws[j]| == indx + 1 then DoesMatch else MightMatch;
            && HalfTested(status[j := st], before, kws, text, indx, j + 1)
            && (st == status[j] ==> status[j := st] == status)
  {
    hide Tested, Agree, Upper, Accurate;
    assert Accurate(before[j], kws[j], text, indx);
    TestOne(before[j], kws[j], text, indx);
  }

  lemma HalfEnd(status: seq<Status>, before: seq<Status>, kws: seq<Keyword>, text: seq<Byte>, indx: nat)
    requires HalfTested(status, before, kws, text, indx, |kws|)
    ensures AllTested(status, kws, text, indx)
    ensures Reach(kws, text, indx + 1) <==> ReachBelow(kws, text, indx + 1, |kws|)
    ensures !Reach(kws, text, indx + 1) ==> forall i :: 0 <= i < |status| ==> status[i] != MightMatch
  {
    hide Agree;
  }

  lemma CountedIs(status: seq<Status>, nMight: nat, nDoes: nat)
    ensures Counted(status, nMight, nDoes) <==> nMight == Tally(status, MightMatch) && nDoes == Tally(status, DoesMatch)
  {}

  /** After a consumed character, the keywords that matched before it no longer match. */
  method DropStale(status: array<Status>, kws: seq<Keyword>, ghost text: seq<Byte>, indx: nat, might: nat, does: nat)
    returns (nMight: nat, nDoes: nat)
    requires AllTested(status[..], kws, text, indx) && Counted(status[..], might, does)
    requires Reach(kws, text, indx + 1)
    modifies status
    ensures AllAccurate(status[..], kws, text, indx + 1) && Counted(status[..], nMight, nDoes)
    ensures nMight == might
  {
    ghost var tested := status[..];
    nMight, nDoes := might, does;
    if nMight + nDoes > 1 {
      for j := 0 to |kws|
        invariant Counted(status[..], nMight, nDoes) && nMight == might
        invariant forall i :: 0 <= i < j ==> Accurate(status[i], kws[i], text, indx + 1)
        invariant forall i :: j <= i < |kws| ==> status[i] == tested[i]
      {
        assert Tested(tested[j], kws[j], text, indx);
        if status[j] == DoesMatch && |kws[j]| != indx + 1 {
          nMight, nDoes := SetStatus(status, j, DoesntMatch, nMight, nDoes);
        }
      }
    } else {
      OnlyFresh(kws, text, indx, tested);
    }
  }

  /** The statuses tell which keywords match the n consumed characters. */
  ghost predicate Tells(status: seq<Status>, kws: seq<Keyword>, text: seq<Byte>, n: nat) {
    |status| == |kws| && forall i :: 0 <= i < |kws| ==> (status[i] == DoesMatch <==> Matches(kws, text, n, i))
  }

  /** Some keyword follows text for n characters and goes on. */
  ghost predicate Unfinished(kws: seq<Keyword>, text: seq<Byte>, n: nat) {
    exists k :: 0 <= k < |kws| && Agree(kws[k], text, n) && |kws[k]| > n
  }

  lemma MightUnfinished(status: seq<Status>, kws: seq<Keyword>, text: seq<Byte>, n: nat, nMight: nat, nDoes: nat)
    requires AllAccurate(status, kws, text, n) && Counted(status, nMight, nDoes)
    ensures nMight > 0 <==> Unfinished(kws, text, n)
  {
    hide Agree;
    if nMight == 0 {
      TallyZero(status, MightMatch);
      assert forall i :: 0 <= i < |kws| ==> Accurate(status[i], kws[i], text, n);
    } else {
      assert MightMatch in multiset(status);
      var i :| 0 <= i < |status| && status[i] == MightMatch;
      assert Accurate(status[i], kws[i], text, n);
    }
  }

  /** A scan that stops with characters left, or with nothing that might match, has not asked for more. */
  lemma NoneUnfinished(status: seq<Status>, kws: seq<Keyword>, text: seq<Byte>, n: nat, indx: nat, nDoes: nat)
    requires Scanned(status, kws, text, n, indx, 0, nDoes) && (indx == n || n < |text|)
    ensures n == |text| ==> !Unfinished(kws, text, n)
  {
    if indx == n { MightUnfinished(status, kws, text, n, 0, nDoes); }
  }

  lemma ResultIs(kws: seq<Keyword>, text: seq<Byte>, n: nat, k: nat)
    requires Longest(kws, text, n) && k <= |kws| && (k < |kws| ==> Matches(kws, text, n, k))
    requires forall j :: 0 <= j < k ==> !Matches(kws, text, n, j)
    ensures ScanResult(kws, text, n, k)
  {}

  /** Where the scan stands with n characters consumed and indx iterations done: at most one ahead. */
  ghost predicate Scanned(status: seq<Status>, kws: seq<Keyword>, text: seq<Byte>, n: nat, indx: nat, nMight: nat, nDoes: nat) {
    && Counted(status, nMight, nDoes) && Tells(status, kws, text, n)
    && (n == 0 || Reach(kws, text, n))
    && (if indx == n then AllAccurate(status, kws, text, n) else nMight == 0 && !Reach(kws, text, n + 1))
  }

  lemma ScanStart(status: seq<Status>, kws: seq<Keyword>, text: seq<Byte>, nMight: nat, nDoes: nat)
    requires Counted(status, nMight, nDoes) && AllAccurate(status, kws, text, 0)
    ensures Scanned(status, kws, text, 0, 0, nMight, nDoes)
  {}

  lemma ScanConsumed(status: seq<Status>, kws: seq<Keyword>, text: seq<Byte>, n: nat, nMight: nat, nDoes: nat)
    requires Counted(status, nMight, nDoes) && AllAccurate(status, kws, text, n + 1) && Reach(kws, text, n + 1)
    ensures Scanned(status, kws, text, n + 1, n + 1, nMight, nDoes)
  {}

  lemma ScanStopped(status: seq<Status>, kws: seq<Keyword>, text: seq<Byte>, n: nat, nDoes: nat)
    requires Counted(status, 0, nDoes) && AllTested(status, kws, text, n) && !Reach(kws, text, n + 1)
    requires n == 0 || Reach(kws, text, n)
    ensures Scanned(status, kws, text, n, n + 1, 0, nDoes)
  {
    forall i | 0 <= i < |kws| ensures status[i] == DoesMatch <==> Matches(kws, text, n, i) {
      assert Tested(status[i], kws[i], text, n);
    }
  }

  lemma ScanEnd(status: seq<Status>, kws: seq<Keyword>, text: seq<Byte>, n: nat, indx: nat, nMight: nat, nDoes: nat)
    requires Scanned(status, kws, text, n, indx, nMight, nDoes)
    requires nMight == 0 || n == |text|
    ensures Longest(kws, text, n) && Tells(status, kws, text, n)
  {
    if nMight == 0 { TallyZero(status, MightMatch); }
  }

  method FirstMatch(status: array<Status>) returns (k: nat)
    ensures k <= status.Length && (k < status.Length ==> status[k] == DoesMatch)
    ensures forall j :: 0 <= j < k ==> status[j] != DoesMatch
  {
    k := 0;
    while k < status.Length && status[k] != DoesMatch
      invariant k <= status.Length && forall j :: 0 <= j < k ==> status[j] != DoesMatch
    {
      k := k + 1;
    }
  }

  method ScanKeyword(input: InputStream, kws: seq<Keyword>) returns (k: nat)
    requires input.Valid()
    modifies input
    ensures input.Valid() && input.pos >= old(input.pos)
    ensures ScanResult(kws, old(input.Text()), input.pos - old(input.pos), k)
    ensures k == |kws| ==> input.fail
    ensures !old(input.eof || input.fail) && k < |kws| ==> !input.fail
    ensures !old(input.eof || input.fail) ==>
              (input.eof <==> input.pos == |input.data| && Unfinished(kws, old(input.Text()), input.pos - old(input.pos)))
  {
    hide Counted, AllAccurate, AllTested, Reach, Scanned, Longest, Matches, Tells, Tally, Unfinished, ScanResult;
    ghost var text, start := input.Text(), input.pos;
    var status := new Status[|kws|];
    var nMight, nDoes := InitStatus(status, kws, text);
    ScanStart(status[..], kws, text, nMight, nDoes);
    var indx := 0;
    ghost var n := 0;
    while !input.fail && nMight > 0
      invariant fresh(status) && status.Length == |kws|
      invariant input.fail == old(input.fail) && input.eof == old(input.eof)
      invariant n <= |text| && input.pos == start + n <= |input.data|
      invariant indx == n || (indx == n + 1 && n < |text|)
      invariant text[n..] == input.Text()
      invariant Scanned(status[..], kws, text, n, indx, nMight, nDoes)
      decreases nMight, |text| - n
    {
      Unfold(status[..], kws, text, n, indx, nMight, nDoes);
      var ic := input.Peek();
      if ic == -1 {
        MightUnfinished(status[..], kws, text, n, nMight, nDoes);
        input.eof := true;
        break;
      }
      var consume;
      consume, nMight, nDoes := TestCharacter(status, kws, text, indx, ic, nMight, nDoes);
      if consume {
        input.Get();
        nMight, nDoes := DropStale(status, kws, text, indx, nMight, nDoes);
        n := n + 1;
        ScanConsumed(status[..], kws, text, indx, nMight, nDoes);
      } else {
        ScanStopped(status[..], kws, text, indx, nDoes);
      }
      indx := indx + 1;
    }
    ScanEnd(status[..], kws, text, n, indx, nMight, nDoes);
    if nMight == 0 { NoneUnfinished(status[..], kws, text, n, indx, nDoes); }
    k := FirstMatch(status);
    FirstTold(status[..], kws, text, n, k);
    ResultIs(kws, text, n, k);
    if k == |kws| { input.fail := true; }
  }

  lemma FirstTold(status: seq<Status>, kws: seq<Keyword>, text: seq<Byte>, n: nat, k: nat)
    requires Tells(status, kws, text, n) && k <= |status| == |kws|
    requires (k < |status| ==> status[k] == DoesMatch) && forall j :: 0 <= j < k ==> status[j] != DoesMatch
    ensures (k < |kws| ==> Matches(kws, text, n, k)) && forall j :: 0 <= j < k ==> !Matches(kws, text, n, j)
  {}

  lemma Unfold(status: seq<Status>, kws: seq<Keyword>, text: seq<Byte>, n: nat, indx: nat, nMight: nat, nDoes: nat)
    requires Scanned(status, kws, text, n, indx, nMight, nDoes) && nMight > 0
    ensures indx == n && Counted(status, nMight, nDoes) && AllAccurate(status, kws, text, n)
    ensures n == 0 || Reach(kws, text, n)
  {}

  lemma TallyConstant(s: seq<Status>)
    requires forall i :: 0 <= i < |s| ==> s[i] == MightMatch
    ensures Tally(s, MightMatch) == |s| && Tally(s, DoesMatch) == 0
  {
    if s != [] {
      TallyConstant(s[1..]);
      assert s == [s[0]] + s[1..];
    }
  }

  lemma TallyNone(s: seq<Status>, x: Status)
    requires forall i :: 0 <= i < |s| ==> s[i] != x
    ensures Tally(s, x) == 0
  {
    if x in multiset(s) { assert x in s; }
  }

  /** With at most one live keyword after a consumed character, none that matched earlier is left. */
  lemma OnlyFresh(kws: seq<Keyword>, text: seq<Byte>, n: nat, tested: seq<Status>)
    requires |tested| == |kws| && Tally(tested, MightMatch) + Tally(tested, DoesMatch) <= 1
    requires forall i :: 0 <= i < |kws| ==> Tested(tested[i], kws[i], text, n)
    requires exists i :: 0 <= i < |kws| && Agree(kws[i], text, n + 1)
    ensures forall i :: 0 <= i < |kws| ==> Accurate(tested[i], kws[i], text, n + 1)
  {
    var i :| 0 <= i < |kws| && Agree(kws[i], text, n + 1);
    forall j | 0 <= j < |kws| ensures Accurate(tested[j], kws[j], text, n + 1) {
      if tested[j] == DoesMatch && |kws[j]| == n { TallyTwo(tested, i, j); }
    }
  }

  /** One status changes, and the two counters follow. */
  method SetStatus(status: array<Status>, j: nat, v: Status, might: nat, does: nat) returns (nMight: nat, nDoes: nat)
    requires j < status.Length && status[j] != DoesntMatch && v != MightMatch
    requires status[j] != v
    requires might == Tally(status[..], MightMatch) && does == Tally(status[..], DoesMatch)
    modifies status
    ensures status[..] == old(status[..])[j := v]
    ensures nMight == Tally(status[..], MightMatch) && nDoes == Tally(status[..], DoesMatch) && nMight <= might
  {
    assert status[j] in multiset(status[..]);
    TallyUpdate(status[..], j, v, MightMatch);
    TallyUpdate(status[..], j, v, DoesMatch);
    nMight := if status[j] == MightMatch then might - 1 else might;
    nDoes := if status[j] == DoesMatch then does - 1 else if v == DoesMatch then does + 1 else does;
    status[j] := v;
  }

  // ---- What the scanner's result means --------------------------------------------------------

  /** A keyword that follows the text some way follows it every shorter way. */
  lemma ReachDownward(kws: seq<Keyword>, text: seq<Byte>)
    ensures forall m: nat, n: nat :: m <= n && Reach(kws, text, n) ==> Reach(kws, text, m)
  {
    forall m: nat, n: nat | m <= n && Reach(kws, text, n) ensures Reach(kws, text, m) {
      var k :| 0 <= k < |kws| && Agree(kws[k], text, n);
      assert Agree(kws[k], text, m);
    }
  }

  /** The number of characters consumed is determined by the keywords and the text. */
  lemma LongestUnique(kws: seq<Keyword>, text: seq<Byte>, m: nat, n: nat)
    requires Longest(kws, text, m) && Longest(kws, text, n)
    ensures m == n
  {
    ReachDownward(kws, text);
  }

  /** A keyword that is a prefix of the text and has the greatest length among those. */
  predicate LongestPrefixKeyword(kws: seq<Keyword>, text: seq<Byte>, k: nat)
    requires k < |kws|
  {
    && Agree(kws[k], text, |kws[k]|)
    && forall j :: 0 <= j < |kws| && Agree(kws[j], text, |kws[j]|) ==> |kws[j]| <= |kws[k]|
  }

  /** A match is a longest keyword the text begins with. */
  lemma MatchIsLongestPrefix(kws: seq<Keyword>, text: seq<Byte>, n: nat, k: nat)
    requires Longest(kws, text, n) && k < |kws| && Matches(kws, text, n, k)
    ensures LongestPrefixKeyword(kws, text, k)
  {
    ReachDownward(kws, text);
    assert forall j :: 0 <= j < |kws| && Agree(kws[j], text, |kws[j]|) ==> Reach(kws, text, |kws[j]|);
  }

  /** A longest keyword k the text begins with is found exactly when no keyword follows the text
      beyond k: one that starts to and then breaks off makes the scan fail. */
  lemma FoundIffNoOvershoot(kws: seq<Keyword>, text: seq<Byte>, n: nat, k: nat)
    requires Longest(kws, text, n) && k < |kws| && LongestPrefixKeyword(kws, text, k)
    ensures (exists j :: 0 <= j < |kws| && Matches(kws, text, n, j)) <==> !Reach(kws, text, |kws[k]| + 1)
  {
    if exists j :: 0 <= j < |kws| && Matches(kws, text, n, j) {
      var j :| 0 <= j < |kws| && Matches(kws, text, n, j);
      MatchIsLongestPrefix(kws, text, n, j);
    }
    if !Reach(kws, text, |kws[k]| + 1) {
      assert Reach(kws, text, |kws[k]|);
      LongestUnique(kws, text, n, |kws[k]|);
      assert Matches(kws, text, n, k);
    }
  }

  // ---- Case aside -----------------------------------------------------------------------------------

  /** a is a letter a to z, and b the same letter A to Z. */
  predicate CasePair(a: Byte, b: Byte) { 97 <= a <= 122 && b == a - 32 }

  /** The same character, or the same letter in the other case. */
  predicate SameLetter(a: Byte, b: Byte) { a == b || CasePair(a, b) || CasePair(b, a) }

  /** Upper identifies the two cases of each letter and nothing else: bytes 32 apart that are not letters stay
      apart. */
  lemma UpperIff(a: Byte, b: Byte)
    ensures Upper(a) == Upper(b) <==> SameLetter(a, b)
  {}

  predicate SameText(a: seq<Byte>, b: seq<Byte>) { |a| == |b| && forall i :: 0 <= i < |a| ==> SameLetter(a[i], b[i]) }

  /** Texts agree with a keyword as far as their characters are the same, case aside, and no further. */
  lemma AgreeIff(kw: Keyword, text: seq<Byte>, n: nat)
    ensures Agree(kw, text, n) <==> n <= |kw| && n <= |text| && SameText(kw[..n], text[..n])
  {
    if n <= |kw| && n <= |text| {
      forall i | 0 <= i < n ensures Upper(kw[i]) == Upper(text[i]) <==> SameLetter(kw[..n][i], text[..n][i]) {
        UpperIff(kw[i], text[i]);
      }
    }
  }

  lemma AgreeSame(kw: Keyword, kw': Keyword, text: seq<Byte>, text': seq<Byte>, n: nat)
    requires SameText(kw, kw') && SameText(text, text')
    ensures Agree(kw, text, n) <==> Agree(kw', text', n)
  {
    if n <= |kw| && n <= |text| {
      forall i | 0 <= i < n ensures Upper(kw[i]) == Upper(kw'[i]) && Upper(text[i]) == Upper(text'[i]) {
        UpperIff(kw[i], kw'[i]);
        UpperIff(text[i], text'[i]);
      }
    }
  }

  /** What a scan comes to: the number of characters consumed, and the keyword returned. */
  ghost predicate ScanResult(kws: seq<Keyword>, text: seq<Byte>, n: nat, k: nat) {
    && Longest(kws, text, n) && k <= |kws|
    && (k < |kws| ==> Matches(kws, text, n, k))
    && (forall j :: 0 <= j < k ==> !Matches(kws, text, n, j))
  }

  /** Changing the case of letters, in the text or in the keywords, changes neither what is consumed nor the
      keyword returned. */
  lemma CaseDoesNotMatter(kws: seq<Keyword>, kws': seq<Keyword>, text: seq<Byte>, text': seq<Byte>, n: nat, k: nat, n': nat, k': nat)
    requires |kws| == |kws'| && (forall j :: 0 <= j < |kws| ==> SameText(kws[j], kws'[j])) && SameText(text, text')
    requires ScanResult(kws, text, n, k) && ScanResult(kws', text', n', k')
    ensures n == n' && k == k'
  {
    forall j, m: nat | 0 <= j < |kws| ensures Agree(kws[j], text, m) <==> Agree(kws'[j], text', m) {
      AgreeSame(kws[j], kws'[j], text, text', m);
    }
    hide Agree, SameText;
    forall m: nat ensures Reach(kws, text, m) <==> Reach(kws', text', m) {
      if Reach(kws, text, m) { var j :| 0 <= j < |kws| && Agree(kws[j], text, m); assert Agree(kws'[j], text', m); }
      if Reach(kws', text', m) { var j :| 0 <= j < |kws'| && Agree(kws'[j], text', m); assert Agree(kws[j], text, m); }
    }
    LongestUnique(kws', text', n, n');
    forall j | 0 <= j < |kws| ensures Matches(kws, text, n, j) <==> Matches(kws', text', n, j) {
      SameLength(kws, kws', j);
    }
  }

  lemma SameLength(kws: seq<Keyword>, kws': seq<Keyword>, j: nat)
    requires j < |kws| == |kws'| && SameText(kws[j], kws'[j])
    ensures |kws[j]| == |kws'[j]|
  {}

  /** The keyword "Jan" on the text "jan": all three characters are consumed. */
  lemma LowerCaseExample()
    ensures ScanResult([[74, 97, 110]], [106, 97, 110], 3, 0)
  {
    var kws, text := [[74, 97, 110]], [106, 97, 110];
    assert Agree(kws[0], text, 3);
  }

  /** "ab" begins "abce", but "abcd" leads the scan past it. */
  lemma OvershootExample()
    ensures var kws, text := [[97, 98], [97, 98, 99, 100]], [97, 98, 99, 101];
            && LongestPrefixKeyword(kws, text, 0) && Longest(kws, text, 3)
            && forall j :: 0 <= j < 2 ==> !Matches(kws, text, 3, j)
  {
    var kws, text := [[97, 98], [97, 98, 99, 100]], [97, 98, 99, 101];
    assert Agree(kws[1], text, 3);
    assert Upper(kws[1][3]) != Upper(text[3]);
  }
}
