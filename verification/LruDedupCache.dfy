/** The trainer's cache of parsed action objects, in order of last use: lru_dedup_cache.  The linked list is
    a sequence of nodes; an iterator is the lasting identity of a node. */
module LruDedupCache {
  import opened Common
  import opened Sequences

  /** The address of an example object. */
  type Example = nat

  /** The address of a list node. */
  type Iterator = nat

  datatype Node = Node(pos: Iterator, id: ObjectId)

  // ---- Orders of ids ------------------------------------------------------------------------------

  predicate Distinct<T(==)>(s: seq<T>) { forall i, j :: 0 <= i < j < |s| ==> s[i] != s[j] }

  function Minus(order: seq<ObjectId>, id: ObjectId): seq<ObjectId> {
    if order == [] then []
    else if order[0] == id then Minus(order[1..], id)
    else [order[0]] + Minus(order[1..], id)
  }

  /** A use of id. */
  function MoveToFront(order: seq<ObjectId>, id: ObjectId): seq<ObjectId> { [id] + Minus(order, id) }

  /** Everything up to and including id. */
  function UpTo(order: seq<ObjectId>, id: ObjectId): seq<ObjectId> {
    if order == [] || order[0] == id then order[..if order == [] then 0 else 1]
    else [order[0]] + UpTo(order[1..], id)
  }

  function Ids(lru: seq<Node>): (r: seq<ObjectId>)
    ensures |r| == |lru| && forall i :: 0 <= i < |lru| ==> r[i] == lru[i].id
  {
    seq(|lru|, i requires 0 <= i < |lru| => lru[i].id)
  }

  function Elements<T>(s: seq<T>): set<T> { set x | x in s }

  /** The list holds each of keys once, and each key's iterator denotes its node and no other. */
  ghost predicate Linked(keys: set<ObjectId>, lru: seq<Node>, pos: map<ObjectId, Iterator>, next: nat) {
    Distinct(Ids(lru)) && Elements(Ids(lru)) == keys == pos.Keys && Positioned(lru, pos, next)
  }

  lemma IdsIn(lru: seq<Node>)
    ensures forall i :: 0 <= i < |lru| ==> lru[i].id in Elements(Ids(lru))
  {
    forall i | 0 <= i < |lru| ensures lru[i].id in Elements(Ids(lru)) { assert Ids(lru)[i] in Ids(lru); }
  }

  lemma LinkedPush(keys: set<ObjectId>, lru: seq<Node>, pos: map<ObjectId, Iterator>, next: nat, id: ObjectId)
    requires Linked(keys, lru, pos, next) && id !in keys
    ensures Linked(keys + {id}, [Node(next, id)] + lru, pos[id := next], next + 1)
    ensures Ids([Node(next, id)] + lru) == [id] + Ids(lru)
  {
    var l := [Node(next, id)] + lru;
    assert Ids(l) == [id] + Ids(lru);
    PositionsPush(lru, pos, next, id);
    DistinctPush(Ids(lru), id);
    hide Ids, Positioned, Distinct, Elements;
    assert pos[id := next].Keys == pos.Keys + {id};
  }

  lemma PositionsPush(lru: seq<Node>, pos: map<ObjectId, Iterator>, next: nat, id: ObjectId)
    requires Positioned(lru, pos, next) && id !in pos
    ensures Positioned([Node(next, id)] + lru, pos[id := next], next + 1)
  {
    var l := [Node(next, id)] + lru;
    assert forall i :: 1 <= i < |l| ==> l[i] == lru[i - 1];
  }

  lemma DistinctPush(s: seq<ObjectId>, id: ObjectId)
    requires Distinct(s) && id !in Elements(s)
    ensures Distinct([id] + s) && Elements([id] + s) == Elements(s) + {id}
  {
    assert forall i :: 0 <= i < |s| ==> s[i] in Elements(s);
  }

  lemma LinkedFind(keys: set<ObjectId>, lru: seq<Node>, pos: map<ObjectId, Iterator>, next: nat, id: ObjectId)
    requires Linked(keys, lru, pos, next) && id in keys
    ensures id in pos
    ensures exists k :: 0 <= k < |lru| && lru[k].pos == pos[id]
    ensures forall k :: 0 <= k < |lru| && lru[k].pos == pos[id] ==> lru[k].id == id
  {
    var i :| 0 <= i < |Ids(lru)| && Ids(lru)[i] == id;
    assert lru[i].pos == pos[id];
  }

  lemma LinkedErase(keys: set<ObjectId>, lru: seq<Node>, pos: map<ObjectId, Iterator>, next: nat, k: nat)
    requires Linked(keys, lru, pos, next) && k < |lru|
    ensures var id := lru[k].id;
            && Linked(keys - {id}, Without(lru, k), pos - {id}, next)
            && Ids(Without(lru, k)) == Minus(Ids(lru), id)
  {
    var w, id := Without(lru, k), lru[k].id;
    MinusAt(Ids(lru), k);
    DistinctWithout(Ids(lru), k);
    assert Ids(w) == Without(Ids(lru), k) == Minus(Ids(lru), id);
    assert (pos - {id}).Keys == pos.Keys - {id};
    PositionsErase(lru, pos, next, k);
  }

  predicate Positioned(lru: seq<Node>, pos: map<ObjectId, Iterator>, next: nat) {
    && (forall i :: 0 <= i < |lru| ==> lru[i].id in pos && pos[lru[i].id] == lru[i].pos < next)
    && (forall i, j :: 0 <= i < j < |lru| ==> lru[i].pos != lru[j].pos)
  }

  lemma PositionsErase(lru: seq<Node>, pos: map<ObjectId, Iterator>, next: nat, k: nat)
    requires Positioned(lru, pos, next) && k < |lru|
    ensures Positioned(Without(lru, k), pos - {lru[k].id}, next)
  {
    var w := Without(lru, k);
    WithoutAt(lru, k);
    hide Without;
    forall i | 0 <= i < |w| ensures w[i].id in pos - {lru[k].id} && pos[w[i].id] == w[i].pos < next {
      var a := if i < k then i else i + 1;
      assert w[i] == lru[a] && lru[if a < k then a else k].pos != lru[if a < k then k else a].pos;
    }
    forall i, j | 0 <= i < j < |w| ensures w[i].pos != w[j].pos {
      var a, b := if i < k then i else i + 1, if j < k then j else j + 1;
      assert w[i] == lru[a] && w[j] == lru[b];
    }
  }

  lemma WithoutAt<T>(s: seq<T>, k: nat)
    requires k < |s|
    ensures |Without(s, k)| == |s| - 1
    ensures forall i :: 0 <= i < |s| - 1 ==> Without(s, k)[i] == if i < k then s[i] else s[i + 1]
  {}

  lemma DistinctWithout(s: seq<ObjectId>, k: nat)
    requires Distinct(s) && k < |s|
    ensures Distinct(Without(s, k)) && Elements(Without(s, k)) == Elements(s) - {s[k]}
  {
    WithoutAt(s, k);
    forall x | x in Elements(s) - {s[k]} ensures x in Elements(Without(s, k)) {
      var i :| 0 <= i < |s| && s[i] == x;
      assert Without(s, k)[if i < k then i else i - 1] == x;
    }
  }

  lemma LinkedPrefix(keys: set<ObjectId>, lru: seq<Node>, pos: map<ObjectId, Iterator>, next: nat, n: nat)
    requires Linked(keys, lru, pos, next) && n <= |lru|
    ensures Ids(lru)[..n] == Ids(lru[..n]) && Ids(lru)[n..] == Ids(lru[n..])
    ensures Linked(keys - Elements(Ids(lru)[n..]), lru[..n], pos - Elements(Ids(lru)[n..]), next)
  {
    var order := Ids(lru);
    IdsIn(lru[..n]);
    DistinctSplit(order, n);
    assert Ids(lru[..n]) == order[..n];
  }

  lemma DistinctSplit<T>(s: seq<T>, n: nat)
    requires Distinct(s) && n <= |s|
    ensures Distinct(s[..n]) && Distinct(s[n..])
    ensures Elements(s[..n]) !! Elements(s[n..]) && Elements(s) == Elements(s[..n]) + Elements(s[n..])
  {
    assert s == s[..n] + s[n..];
  }

  class LruDedupCache {
    var dedupExamples: map<ObjectId, Example>
    var lru: seq<Node>
    var lruPos: map<ObjectId, Iterator>
    var nextNode: nat

    ghost predicate Valid() reads this { Linked(dedupExamples.Keys, lru, lruPos, nextNode) }

    /** The ids, most recently used first. */
    function Order(): seq<ObjectId> reads this { Ids(lru) }

    constructor ()
      ensures Valid() && Order() == [] && dedupExamples == map[]
    {
      dedupExamples, lru, lruPos, nextNode := map[], [], map[], 0;
    }

    method PushFront(id: ObjectId)
      modifies this`lru, this`nextNode
      ensures nextNode == old(nextNode) + 1 && lru == [Node(old(nextNode), id)] + old(lru)
    {
      lru := [Node(nextNode, id)] + lru;
      nextNode := nextNode + 1;
    }

    method Add(id: ObjectId, ex: Example)
      requires Valid() && id !in dedupExamples
      modifies this
      ensures Valid() && Order() == [id] + old(Order()) && dedupExamples == old(dedupExamples)[id := ex]
    {
      hide Linked, Ids;
      LinkedPush(dedupExamples.Keys, lru, lruPos, nextNode, id);
      dedupExamples := dedupExamples[id := ex];
      PushFront(id);
      lruPos := lruPos[id := lru[0].pos];
      assert dedupExamples.Keys == old(dedupExamples).Keys + {id};
    }

    method Update(id: ObjectId)
      requires Valid() && id in dedupExamples
      modifies this
      ensures Valid() && Order() == MoveToFront(old(Order()), id) && dedupExamples == old(dedupExamples)
    {
      hide Linked, Ids, Without;
      LinkedFind(dedupExamples.Keys, lru, lruPos, nextNode, id);
      var position := lruPos[id];
      var k :| 0 <= k < |lru| && lru[k].pos == position;
      LinkedErase(dedupExamples.Keys, lru, lruPos, nextNode, k);
      LinkedPush(dedupExamples.Keys - {id}, Without(lru, k), lruPos - {id}, nextNode, id);
      lru := Without(lru, k);
      PushFront(id);
      lruPos := lruPos[id := lru[0].pos];
      assert lruPos == (old(lruPos) - {id})[id := lru[0].pos];
      assert dedupExamples.Keys - {id} + {id} == dedupExamples.Keys;
    }

    /** Drops what was used longest ago, up to but excluding first; the dropped examples are released in
        list order. */
    method ClearAfter(first: ObjectId) returns (released: seq<Example>)
      requires Valid() && first in dedupExamples
      modifies this
      ensures Valid() && Order() == UpTo(old(Order()), first)
      ensures Order() <= old(Order())
      ensures dedupExamples == old(dedupExamples) - Elements(old(Order())[|Order()|..])
      ensures forall id :: id in old(Order())[|Order()|..] ==> id in old(dedupExamples)
      ensures released == ValuesAt(old(dedupExamples), old(Order())[|Order()|..])
    {
      hide *;
      ghost var order, examples, positions := Order(), dedupExamples, lruPos;
      ValidLinked();
      OrderKeys(examples.Keys, lru, lruPos, nextNode);
      LinkedFind(examples.Keys, lru, lruPos, nextNode, first);
      var position := lruPos[first];
      var k :| 0 <= k < |lru| && lru[k].pos == position;
      LinkedPrefix(examples.Keys, lru, lruPos, nextNode, k + 1);
      UpToAt(order, k);
      released := EraseFrom(k + 1);
      ForgottenIs(examples, positions, dedupExamples, lruPos, released, order[k + 1..]);
      lru := lru[..k + 1];
      assert dedupExamples.Keys == examples.Keys - Elements(order[k + 1..]);
      LinkedValid();
    }

    /** Erases the map entries of the nodes from the n-th on, releasing their examples. */
    method EraseFrom(from: nat) returns (released: seq<Example>)
      requires from <= |lru| && Distinct(Ids(lru)) && forall id :: id in Ids(lru) ==> id in dedupExamples
      modifies this`dedupExamples, this`lruPos
      ensures Forgotten(old(dedupExamples), old(lruPos), dedupExamples, lruPos, released, Ids(lru)[from..])
    {
      hide *;
      ghost var order, examples, positions := Ids(lru), dedupExamples, lruPos;
      released := [];
      ForgetNone(examples, positions, order, from);
      for n := from to |lru|
        invariant Forgotten(examples, positions, dedupExamples, lruPos, released, order[from..n])
      {
        var id := lru[n].id;
        ForgetOne(examples, positions, dedupExamples, lruPos, released, order, from, n);
        lruPos := lruPos - {id};
        released := released + [dedupExamples[id]];
        dedupExamples := dedupExamples - {id};
      }
      SliceToEnd(order, from);
    }

    lemma ValidLinked()
      requires Valid()
      ensures Linked(dedupExamples.Keys, lru, lruPos, nextNode) && Order() == Ids(lru)
    {}

    lemma LinkedValid()
      requires Linked(dedupExamples.Keys, lru, lruPos, nextNode)
      ensures Valid() && Order() == Ids(lru)
    {}

    /** Releases every example, in the order the map yields them. */
    method Clear() returns (released: seq<Example>)
      requires Valid()
      modifies this
      ensures Valid() && Order() == [] && dedupExamples == map[]
      ensures Releases(old(dedupExamples), released)
    {
      hide *;
      released := [];
      var left := dedupExamples.Keys;
      ReleasesNone(dedupExamples, left);
      while left != {}
        invariant left <= dedupExamples.Keys && dedupExamples == old(dedupExamples)
        invariant Releases(dedupExamples - left, released)
        decreases |left|
      {
        var id :| id in left;
        ReleasesOne(dedupExamples, left, released, id);
        released := released + [dedupExamples[id]];
        left := left - {id};
      }
      assert dedupExamples - left == dedupExamples;
      dedupExamples, lruPos, lru := map[], map[], [];
      NothingLinked(nextNode);
      LinkedValid();
    }

    /** Looks at the examples, and answers for the list. */
    method Exists(id: ObjectId) returns (found: bool)
      requires Valid()
      ensures found <==> id in Order()
      ensures found <==> id in dedupExamples
    {
      assert id in Order() <==> id in Elements(Order());
      found := id in dedupExamples;
    }
  }

  lemma NothingLinked(next: nat)
    ensures Linked({}, [], map[], next) && Ids([]) == []
  {
    var none: seq<ObjectId> := [];
    assert Elements(none) == {};
  }

  lemma OrderKeys(keys: set<ObjectId>, lru: seq<Node>, pos: map<ObjectId, Iterator>, next: nat)
    requires Linked(keys, lru, pos, next)
    ensures Distinct(Ids(lru)) && forall id :: id in Ids(lru) <==> id in keys
  {}

  lemma SliceToEnd<T>(s: seq<T>, n: nat)
    requires n <= |s|
    ensures s[n..|s|] == s[n..]
  {}

  /** The entries of the dropped ids are gone from both maps, and their examples released. */
  ghost predicate Forgotten(examples: map<ObjectId, Example>, positions: map<ObjectId, Iterator>, examples': map<ObjectId, Example>,
                            positions': map<ObjectId, Iterator>, released: seq<Example>, dropped: seq<ObjectId>) {
    && examples' == examples - Elements(dropped)
    && positions' == positions - Elements(dropped)
    && (forall id :: id in dropped ==> id in examples)
    && released == ValuesAt(examples, dropped)
  }

  lemma ForgottenIs(examples: map<ObjectId, Example>, positions: map<ObjectId, Iterator>, examples': map<ObjectId, Example>,
                    positions': map<ObjectId, Iterator>, released: seq<Example>, dropped: seq<ObjectId>)
    requires Forgotten(examples, positions, examples', positions', released, dropped)
    ensures examples' == examples - Elements(dropped) && positions' == positions - Elements(dropped)
    ensures (forall id :: id in dropped ==> id in examples)
    ensures released == ValuesAt(examples, dropped)
  {}

  lemma ForgetNone(examples: map<ObjectId, Example>, positions: map<ObjectId, Iterator>, order: seq<ObjectId>, n: nat)
    requires n <= |order|
    ensures Forgotten(examples, positions, examples, positions, [], order[n..n])
  {}

  lemma ForgetOne(examples: map<ObjectId, Example>, positions: map<ObjectId, Iterator>, examples': map<ObjectId, Example>,
                  positions': map<ObjectId, Iterator>, released: seq<Example>, order: seq<ObjectId>, from: nat, n: nat)
    requires Distinct(order) && from <= n < |order| && forall id :: id in order ==> id in examples
    requires Forgotten(examples, positions, examples', positions', released, order[from..n])
    ensures order[n] in examples'
    ensures Forgotten(examples, positions, examples' - {order[n]}, positions' - {order[n]},
                      released + [examples'[order[n]]], order[from..n + 1])
  {
    var id, dropped := order[n], order[from..n];
    assert id !in dropped;
    assert order[from..n + 1] == dropped + [id];
    assert Elements(dropped + [id]) == Elements(dropped) + {id};
    ValuesAtAppend(examples, dropped, id);
  }

  /** released are the map's examples, one per key, in some order. */
  ghost predicate Releases(examples: map<ObjectId, Example>, released: seq<Example>) {
    exists ids: seq<ObjectId> {:trigger Elements(ids)} :: Distinct(ids) && Elements(ids) == examples.Keys && released == ValuesAt(examples, ids)
  }

  lemma ReleasesNone(examples: map<ObjectId, Example>, left: set<ObjectId>)
    requires left == examples.Keys
    ensures Releases(examples - left, [])
  {
    var none: seq<ObjectId> := [];
    assert Elements(none) == {} && ValuesAt<Example>(map[], none) == [];
  }

  lemma DistinctAppend(ids: seq<ObjectId>, id: ObjectId)
    requires Distinct(ids) && id !in ids
    ensures Distinct(ids + [id])
  {}

  lemma ReleasesOne(examples: map<ObjectId, Example>, left: set<ObjectId>, released: seq<Example>, id: ObjectId)
    requires Releases(examples - left, released) && id in left && left <= examples.Keys
    ensures Releases(examples - (left - {id}), released + [examples[id]])
  {
    var ids: seq<ObjectId> :| Distinct(ids) && Elements(ids) == (examples - left).Keys && released == ValuesAt(examples - left, ids);
    assert forall x :: x in ids ==> x in Elements(ids);
    var before, after := examples - left, examples - (left - {id});
    assert after.Keys == before.Keys + {id};
    assert Elements(ids + [id]) == Elements(ids) + {id};
    hide Elements, Distinct;
    assert Distinct(ids + [id]) by { DistinctAppend(ids, id); }
    assert ValuesAt(examples - (left - {id}), ids + [id]) == released + [examples[id]];
  }

  function ValuesAt<V>(m: map<ObjectId, V>, ids: seq<ObjectId>): (r: seq<V>)
    requires forall id :: id in ids ==> id in m
    ensures |r| == |ids| && forall i :: 0 <= i < |ids| ==> r[i] == m[ids[i]]
  {
    seq(|ids|, i requires 0 <= i < |ids| => m[ids[i]])
  }

  lemma ValuesAtAppend(examples: map<ObjectId, Example>, ids: seq<ObjectId>, id: ObjectId)
    requires (forall x :: x in ids ==> x in examples) && id in examples
    ensures (forall x :: x in ids + [id] ==> x in examples)
    ensures ValuesAt(examples, ids + [id]) == ValuesAt(examples, ids) + [examples[id]]
  {}

  // ---- Uses in sequence ---------------------------------------------------------------------------

  lemma {:induction false} MinusAbsent(order: seq<ObjectId>, id: ObjectId)
    ensures id !in order ==> Minus(order, id) == order
    ensures forall x :: x in Minus(order, id) <==> x in order && x != id
  {
    if order != [] {
      MinusAbsent(order[1..], id);
      assert order == [order[0]] + order[1..];
    }
  }

  lemma {:induction false} MinusAt(order: seq<ObjectId>, k: nat)
    requires k < |order| && Distinct(order)
    ensures Minus(order, order[k]) == order[..k] + order[k + 1..]
  {
    var rest := order[1..];
    if k == 0 {
      MinusAbsent(rest, order[0]);
    } else {
      MinusAt(rest, k - 1);
      assert rest[..k - 1] == order[1..k] && rest[k..] == order[k + 1..];
      assert order[..k] == [order[0]] + order[1..k];
    }
  }

  lemma MoveToFrontElements(order: seq<ObjectId>, id: ObjectId)
    requires Distinct(order)
    ensures Distinct(MoveToFront(order, id)) && Elements(MoveToFront(order, id)) == Elements(order) + {id}
  {
    MinusAbsent(order, id);
    if id in order {
      var k :| 0 <= k < |order| && order[k] == id;
      MinusAt(order, k);
    }
  }

  lemma {:induction false} UpToAt(order: seq<ObjectId>, k: nat)
    requires k < |order| && Distinct(order)
    ensures UpTo(order, order[k]) == order[..k + 1]
  {
    if k > 0 {
      UpToAt(order[1..], k - 1);
      assert order[1..][..k] == order[1..k + 1];
    }
  }
}
