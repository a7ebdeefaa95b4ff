/** Files written message by message, and what the parser delivers of them over any number of calls. */
module Framing {
  import opened Common
  import opened BinaryParser

  /** padding follows the payload: as many bytes as its size modulo 8, of any value. */
  datatype Message =
    | FileMagic(version: seq<Byte>)
    | Header(payload: seq<Byte>, padding: seq<Byte>)
    | CheckpointMsg(payload: seq<Byte>, padding: seq<Byte>)
    | RegularMsg(payload: seq<Byte>, padding: seq<Byte>)
    | UnknownMsg(msgType: UInt32, payload: seq<Byte>, padding: seq<Byte>)

  const KNOWN_TYPES := {MSG_TYPE_FILEMAGIC, MSG_TYPE_HEADER, MSG_TYPE_REGULAR, MSG_TYPE_CHECKPOINT, MSG_TYPE_EOF}

  predicate WellFormed(m: Message) {
    match m
    case FileMagic(version) => |version| == 4 && version[0] == BINARY_PARSER_VERSION
    case _ => |m.payload| < 0x1_0000_0000 && |m.padding| == |m.payload| % 8 && (m.UnknownMsg? ==> m.msgType !in KNOWN_TYPES)
  }

  function TypeOf(m: Message): UInt32 {
    match m
    case FileMagic(_) => MSG_TYPE_FILEMAGIC
    case Header(_, _) => MSG_TYPE_HEADER
    case CheckpointMsg(_, _) => MSG_TYPE_CHECKPOINT
    case RegularMsg(_, _) => MSG_TYPE_REGULAR
    case UnknownMsg(msgType, _, _) => msgType
  }

  /** The bytes of a message up to its padding. */
  function Body(m: Message): seq<Byte>
    requires WellFormed(m)
  {
    BytesOf(TypeOf(m)) + (if m.FileMagic? then m.version else BytesOf(|m.payload|) + m.payload)
  }

  function Padding(m: Message): seq<Byte> { if m.FileMagic? then [] else m.padding }

  function Encode(ms: seq<Message>): seq<Byte>
    requires forall m :: m in ms ==> WellFormed(m)
  {
    if ms == [] then [] else Body(ms[0]) + Padding(ms[0]) + Encode(ms[1..])
  }

  /** The size the parser pads by after a message. */
  function SizeAfter(m: Message): UInt32
    requires WellFormed(m)
  {
    if m.FileMagic? then 0 else |m.payload|
  }

  /** The parser takes as padding what the writer is told to put, the size modulo 8.  That aligns a message to
      8 bytes, as the format asks, exactly when the payload's size is a multiple of 4. */
  lemma AlignedIff(m: Message)
    requires WellFormed(m)
    ensures (|Body(m)| + |Padding(m)|) % 8 == 0 <==> m.FileMagic? || |m.payload| % 4 == 0
  {
    if !m.FileMagic? {
      assert |Body(m)| + |Padding(m)| == 8 + |m.payload| + |m.payload| % 8;
      hide Body, Padding;
      PaddedSize(|m.payload|);
    }
  }

  lemma PaddedSize(n: nat)
    ensures (8 + n + n % 8) % 8 == 0 <==> n % 4 == 0
  {
    var q, r := n / 8, n % 8;
    ModEight(q + 1, 2 * r);
    ModFour(2 * q, r);
  }

  lemma ModEight(a: nat, b: nat)
    ensures (8 * a + b) % 8 == b % 8
  {}

  lemma ModFour(a: nat, b: nat)
    ensures (4 * a + b) % 4 == b % 4
  {}

  /** The version check looks at one byte of the four: it accepts 1, the only version the format allows, and
      every number that ends in the byte 1. */
  lemma VersionAcceptedIff<J>(p: Parser<J>)
    requires |p.input| >= 4
    ensures CheckVersion(p).0 <==> U32Of(p.input[..4]) % 0x100 == 1
    ensures CheckVersion(p).0 && U32Of(p.input[..4]) != 1 <==> p.input[0] == 1 && p.input[1..4] != [0, 0, 0]
  {
    var b := p.input;
    assert p.input[1..4] == [b[1], b[2], b[3]];
    assert U32Of(b[..4]) == b[0] + 0x100 * ((b[1] as int) + 0x100 * (b[2] as int) + 0x1_0000 * (b[3] as int));
  }

  /** A payload of one byte gets one byte of padding, and is not aligned. */
  lemma UnalignedExample(b: Byte, pad: Byte)
    ensures var m := RegularMsg([b], [pad]); WellFormed(m) && (|Body(m)| + |Padding(m)|) % 8 == 2
  {}

  /** The bytes 1, 1, 0, 0 are the version 257, and are accepted. */
  lemma WrongVersionExample<J>(p: Parser<J>)
    requires p.input == [1, 1, 0, 0]
    ensures U32Of(p.input[..4]) == 257 && CheckVersion(p).0
  {}

  // ---- What the messages mean to the joiner ---------------------------------------------------------

  /** The batch joined to its end. */
  function Drain<J(!new), E>(ops: Joiner<J, E>, j: J): J
    requires Lawful(ops)
    decreases ops.pending(j)
  {
    if ops.processing(j) then Drain(ops, ops.joined(j).1) else j
  }

  /** A checkpoint is applied.  A regular message is ignored before the joiner is ready, and dropped when it
      does not verify; its events are grouped up to the first refused one, which leaves the groups waiting;
      and when none is, the batch is drained.  The other messages are skipped. */
  function Deliver<J(!new), E>(ops: Joiner<J, E>, j: J, m: Message): J
    requires Lawful(ops)
  {
    match m
    case CheckpointMsg(payload, _) => ops.checkpoint(j, payload)
    case RegularMsg(payload, _) =>
      if !ops.ready(j) || ops.decode(payload).None? then j
      else
        var (ok, j') := Events(ops, ops.newBatch(j), ops.decode(payload).value);
        if ok then Drain(ops, ops.batchRead(j')) else j'
    case _ => j
  }

  function DeliverAll<J(!new), E>(ops: Joiner<J, E>, j: J, ms: seq<Message>): J
    requires Lawful(ops)
  {
    if ms == [] then j else DeliverAll(ops, Deliver(ops, j, ms[0]), ms[1..])
  }

  // ---- Calls and draining -----------------------------------------------------------------------------

  /** Calls until one returns false, the first of them with the batch already processed. */
  function RunMessages<J(!new), E>(ops: Joiner<J, E>, p: Parser<J>): Parser<J>
    requires Lawful(ops)
  {
    var (ok, p') := Messages(ops, p);
    if ok then RunAll(ops, p') else p'
  }

  lemma RunAllUnfold<J(!new), E>(ops: Joiner<J, E>, p: Parser<J>)
    requires Lawful(ops)
    ensures var (ok, j) := ProcessNext(ops, p.joiner);
            RunAll(ops, p) == if ok then RunAll(ops, p.(joiner := j)) else RunMessages(ops, p.(joiner := j))
  {}

  lemma {:induction false} ProcessNextDrains<J(!new), E>(ops: Joiner<J, E>, j: J)
    requires Lawful(ops)
    ensures var (ok, j') := ProcessNext(ops, j); Drain(ops, j) == if ok then Drain(ops, j') else j'
    decreases ops.pending(j)
  {
    if ops.processing(j) && !ops.joined(j).0 { ProcessNextDrains(ops, ops.joined(j).1); }
  }

  /** A batch drained over several calls is a batch drained at once. */
  lemma {:induction false} RunAllDrains<J(!new), E>(ops: Joiner<J, E>, p: Parser<J>)
    requires Lawful(ops)
    ensures RunAll(ops, p) == RunMessages(ops, p.(joiner := Drain(ops, p.joiner)))
    decreases ops.pending(p.joiner)
  {
    hide RunAll, RunMessages, Drain, Lawful;
    RunAllUnfold(ops, p);
    ProcessNextDrains(ops, p.joiner);
    var (ok, j) := ProcessNext(ops, p.joiner);
    if ok { RunAllDrains(ops, p.(joiner := j)); }
  }

  // ---- One message at a time ----------------------------------------------------------------------------

  lemma AdvanceReads<J>(p: Parser<J>, pad: seq<Byte>, msgType: UInt32, rest: seq<Byte>)
    requires p.input == pad + (BytesOf(msgType) + rest) && |pad| == p.payloadSize % 8
    ensures Advance(p) == Next(msgType, p.(input := rest, totalRead := p.totalRead + |pad| + 4))
  {
    var body := BytesOf(msgType) + rest;
    assert p.input[|pad|..] == body;
    assert body[..4] == BytesOf(msgType) && body[4..] == rest;
    BytesOfU32(msgType);
  }

  lemma SizedReads<J>(p: Parser<J>, payload: seq<Byte>, rest: seq<Byte>)
    requires |payload| < 0x1_0000_0000 && p.input == BytesOf(|payload|) + (payload + rest)
    ensures ReadSized(p) == Payload(payload, p.(input := rest, payloadSize := |payload|, totalRead := p.totalRead + 4 + |payload|))
  {
    var body := payload + rest;
    assert p.input[..4] == BytesOf(|payload|) && p.input[4..] == body;
    assert body[..|payload|] == payload && body[|payload|..] == rest;
    BytesOfU32(|payload|);
  }

  /** Where the parser stands after a message, the joiner aside. */
  function After<J>(p: Parser<J>, pad: seq<Byte>, m: Message, rest: seq<Byte>): Parser<J>
    requires WellFormed(m)
  {
    Parser(Padding(m) + rest, SizeAfter(m), p.totalRead + |pad| + |Body(m)|, p.joiner)
  }

  lemma MagicReads<J>(p: Parser<J>, version: seq<Byte>, rest: seq<Byte>)
    requires |version| == 4 && version[0] == BINARY_PARSER_VERSION && p.input == version + rest
    ensures CheckVersion(p) == (true, p.(input := rest, payloadSize := 0, totalRead := p.totalRead + 4))
  {}

  /** One message of the file: read whole, its effect Deliver's. */
  lemma MessageReads<J(!new), E>(ops: Joiner<J, E>, p: Parser<J>, pad: seq<Byte>, m: Message, rest: seq<Byte>)
    requires Lawful(ops) && WellFormed(m) && |pad| == p.payloadSize % 8
    requires p.input == pad + (Body(m) + Padding(m) + rest)
    ensures RunMessages(ops, p) == RunMessages(ops, After(p, pad, m, rest).(joiner := Deliver(ops, p.joiner, m)))
  {
    hide *;
    MessageParts(m, pad, rest);
    AfterIs(p, pad, m, rest);
    DeliverOther(ops, p.joiner, m);
    if m.FileMagic? {
      AdvanceReads(p, pad, TypeOf(m), m.version + rest);
      MagicReads(Advance(p).p, m.version, rest);
      MagicMessage(ops, p);
    } else {
      var more := Padding(m) + rest;
      AdvanceReads(p, pad, TypeOf(m), BytesOf(|m.payload|) + (m.payload + more));
      SizedReads(Advance(p).p, m.payload, more);
      SizedMessage(ops, p, TypeOf(m), m.payload);
      RegularDelivers(ops, ReadSized(Advance(p).p).p, m);
    }
  }

  lemma MessageParts(m: Message, pad: seq<Byte>, rest: seq<Byte>)
    requires WellFormed(m)
    ensures m.FileMagic? ==>
      && pad + (Body(m) + Padding(m) + rest) == pad + (BytesOf(TypeOf(m)) + (m.version + rest))
      && |Body(m)| == 8 && Padding(m) + rest == rest && SizeAfter(m) == 0 && TypeOf(m) == MSG_TYPE_FILEMAGIC
      && |m.version| == 4 && m.version[0] == BINARY_PARSER_VERSION
    ensures !m.FileMagic? ==>
      && |m.payload| < 0x1_0000_0000
      && pad + (Body(m) + Padding(m) + rest) == pad + (BytesOf(TypeOf(m)) + (BytesOf(|m.payload|) + (m.payload + (Padding(m) + rest))))
      && |Body(m)| == 8 + |m.payload| && SizeAfter(m) == |m.payload|
      && TypeOf(m) != MSG_TYPE_FILEMAGIC && TypeOf(m) != MSG_TYPE_EOF
      && (TypeOf(m) == MSG_TYPE_REGULAR <==> m.RegularMsg?) && (TypeOf(m) == MSG_TYPE_CHECKPOINT <==> m.CheckpointMsg?)
  {}

  lemma AfterIs<J>(p: Parser<J>, pad: seq<Byte>, m: Message, rest: seq<Byte>)
    requires WellFormed(m)
    ensures After(p, pad, m, rest) == Parser(Padding(m) + rest, SizeAfter(m), p.totalRead + |pad| + |Body(m)|, p.joiner)
  {}

  lemma MagicMessage<J(!new), E>(ops: Joiner<J, E>, p: Parser<J>)
    requires Lawful(ops) && Advance(p).Next? && Advance(p).msgType == MSG_TYPE_FILEMAGIC && CheckVersion(Advance(p).p).0
    ensures RunMessages(ops, p) == RunMessages(ops, CheckVersion(Advance(p).p).1)
  {
    hide RunAll, Advance, CheckVersion, Lawful;
  }

  /** A message with a size and a payload, both there. */
  lemma SizedMessage<J(!new), E>(ops: Joiner<J, E>, p: Parser<J>, msgType: UInt32, payload: seq<Byte>)
    requires Lawful(ops) && Advance(p).Next? && Advance(p).msgType == msgType
    requires msgType != MSG_TYPE_FILEMAGIC && msgType != MSG_TYPE_EOF
    requires ReadSized(Advance(p).p).Payload? && ReadSized(Advance(p).p).bytes == payload
    ensures var q := ReadSized(Advance(p).p).p;
            && (msgType == MSG_TYPE_CHECKPOINT ==> RunMessages(ops, p) == RunMessages(ops, q.(joiner := ops.checkpoint(q.joiner, payload))))
            && (msgType == MSG_TYPE_REGULAR ==>
                  var (r, j) := Regular(ops, q.joiner, payload);
                  RunMessages(ops, p) == if r == Delivered then RunAll(ops, q.(joiner := j)) else RunMessages(ops, q.(joiner := j)))
            && (msgType != MSG_TYPE_CHECKPOINT && msgType != MSG_TYPE_REGULAR ==> RunMessages(ops, p) == RunMessages(ops, q))
  {
    hide RunAll, Advance, ReadSized, Regular, Lawful;
  }

  lemma DeliverOther<J(!new), E>(ops: Joiner<J, E>, j: J, m: Message)
    requires Lawful(ops)
    ensures !m.RegularMsg? ==> Deliver(ops, j, m) == if m.CheckpointMsg? then ops.checkpoint(j, m.payload) else j
  {}

  lemma RegularDelivers<J(!new), E>(ops: Joiner<J, E>, p: Parser<J>, m: Message)
    requires Lawful(ops)
    ensures m.RegularMsg? ==>
            var (r, j) := Regular(ops, p.joiner, m.payload);
            (if r == Delivered then RunAll(ops, p.(joiner := j)) else RunMessages(ops, p.(joiner := j)))
              == RunMessages(ops, p.(joiner := Deliver(ops, p.joiner, m)))
  {
    hide RunAll, RunMessages, Drain, Events, ProcessNext, Lawful;
    if m.RegularMsg? && ops.ready(p.joiner) && ops.decode(m.payload).Some? {
      var (ok, j) := Events(ops, ops.newBatch(p.joiner), ops.decode(m.payload).value);
      if ok {
        var j1 := ops.batchRead(j);
        ProcessNextDrains(ops, j1);
        if ProcessNext(ops, j1).0 { RunAllDrains(ops, p.(joiner := ProcessNext(ops, j1).1)); }
      }
    }
  }

  lemma EndReads<J(!new), E>(ops: Joiner<J, E>, p: Parser<J>)
    requires Lawful(ops) && |p.input| == p.payloadSize % 8
    ensures RunMessages(ops, p) == p.(input := [], totalRead := p.totalRead + |p.input| + 4)
  {
    assert p.input[|p.input|..] == [];
  }

  /** Any file of well-formed messages, read to its end. */
  lemma {:induction false} RunMessagesReads<J(!new), E>(ops: Joiner<J, E>, p: Parser<J>, pad: seq<Byte>, ms: seq<Message>)
    requires Lawful(ops) && (forall m :: m in ms ==> WellFormed(m)) && |pad| == p.payloadSize % 8
    requires p.input == pad + Encode(ms)
    ensures var r := RunMessages(ops, p);
            r.joiner == DeliverAll(ops, p.joiner, ms) && r.input == [] && r.totalRead == p.totalRead + |p.input| + 4
    decreases |ms|
  {
    hide RunMessages, Deliver, Lawful, Body, Padding;
    if ms == [] {
      assert p.input == pad;
      EndReads(ops, p);
    } else {
      var m, rest := ms[0], Encode(ms[1..]);
      MessageReads(ops, p, pad, m, rest);
      PaddingSize(m);
      RunMessagesReads(ops, After(p, pad, m, rest).(joiner := Deliver(ops, p.joiner, m)), Padding(m), ms[1..]);
    }
  }

  lemma PaddingSize(m: Message)
    requires WellFormed(m)
    ensures |Padding(m)| == SizeAfter(m) % 8
  {}

  /** The framing round trip.  Calling parse_examples until it returns false reads a whole file, counts all
      its bytes (and four for the end of file it infers), and gives the joiner every message in file order. */
  lemma FileDelivered<J(!new), E>(ops: Joiner<J, E>, j: J, ms: seq<Message>)
    requires Lawful(ops) && forall m :: m in ms ==> WellFormed(m)
    ensures var r := RunAll(ops, Parser(Encode(ms), 0, 0, j));
            r.joiner == DeliverAll(ops, Drain(ops, j), ms) && r.input == [] && r.totalRead == |Encode(ms)| + 4
  {
    hide RunAll, RunMessages, Drain, Lawful, Encode;
    var p := Parser(Encode(ms), 0, 0, j);
    RunAllDrains(ops, p);
    assert [] + Encode(ms) == Encode(ms);
    RunMessagesReads(ops, p.(joiner := Drain(ops, j)), [], ms);
  }

  // ---- What stops a log ---------------------------------------------------------------------------------

  /** Bytes a file may go on with that end its reading: a file magic with a wrong version, the end-of-file type, or a
      message cut short. */
  datatype Stop =
    | WrongVersion(version: seq<Byte>, rest: seq<Byte>)
    | EndMarker(rest: seq<Byte>)
    | CutMessage(msgType: UInt32, size: UInt32, part: seq<Byte>)

  predicate Stops(stop: Stop) {
    match stop
    case WrongVersion(version, _) => |version| == 4 && version[0] != 1
    case EndMarker(_) => true
    case CutMessage(msgType, size, part) => msgType != MSG_TYPE_FILEMAGIC && msgType != MSG_TYPE_EOF && |part| < size
  }

  function StopBytes(stop: Stop): seq<Byte> {
    match stop
    case WrongVersion(version, rest) => BytesOf(MSG_TYPE_FILEMAGIC) + (version + rest)
    case EndMarker(rest) => BytesOf(MSG_TYPE_EOF) + rest
    case CutMessage(msgType, size, part) => BytesOf(msgType) + (BytesOf(size) + part)
  }

  /** The bytes left unread behind it. */
  function LeftBehind(stop: Stop): seq<Byte> { if stop.CutMessage? then [] else stop.rest }

  /** The bytes of it that are counted.  After a regular message the loop goes on: it fails on the missing padding,
      or, with no padding due, infers the end of the file and counts its type. */
  function StopCount(stop: Stop): nat {
    match stop
    case WrongVersion(_, _) => 8
    case EndMarker(_) => 4
    case CutMessage(msgType, size, _) => if msgType == MSG_TYPE_REGULAR && size % 8 == 0 then 12 else 8
  }

  lemma StopReads<J(!new), E>(ops: Joiner<J, E>, p: Parser<J>, pad: seq<Byte>, stop: Stop)
    requires Lawful(ops) && Stops(stop) && |pad| == p.payloadSize % 8 && p.input == pad + StopBytes(stop)
    ensures var (delivered, r) := Messages(ops, p);
            !delivered && r.joiner == p.joiner && r.input == LeftBehind(stop) && r.totalRead == p.totalRead + |pad| + StopCount(stop)
  {
    hide Lawful, Regular, Advance, ReadSized, CheckVersion;
    match stop
    case WrongVersion(version, rest) =>
      AdvanceReads(p, pad, MSG_TYPE_FILEMAGIC, version + rest);
      VersionReads(Advance(p).p, version, rest);
    case EndMarker(rest) =>
      AdvanceReads(p, pad, MSG_TYPE_EOF, rest);
    case CutMessage(msgType, size, part) =>
      AdvanceReads(p, pad, msgType, BytesOf(size) + part);
      CutReads(Advance(p).p, size, part);
      if msgType == MSG_TYPE_REGULAR { NothingLeft(ReadSized(Advance(p).p).p); }
  }

  lemma VersionReads<J>(p: Parser<J>, version: seq<Byte>, rest: seq<Byte>)
    requires |version| == 4 && p.input == version + rest
    ensures CheckVersion(p) == (version[0] == 1, p.(input := rest, payloadSize := 0, totalRead := p.totalRead + 4))
  {}

  lemma CutReads<J>(p: Parser<J>, size: UInt32, part: seq<Byte>)
    requires |part| < size && p.input == BytesOf(size) + part
    ensures ReadSized(p) == Short(p.(input := [], payloadSize := size, totalRead := p.totalRead + 4))
  {
    assert p.input[..4] == BytesOf(size) && p.input[4..] == part;
    BytesOfU32(size);
  }

  /** With no bytes left the padding is missing, or the end of the file is inferred. */
  lemma NothingLeft<J>(p: Parser<J>)
    requires p.input == []
    ensures if p.payloadSize % 8 == 0 then Advance(p) == Next(MSG_TYPE_EOF, p.(totalRead := p.totalRead + 4)) else Advance(p) == Stuck(p)
  {}

  /** Well-formed messages are read whole whatever follows them. */
  lemma {:induction false} PrefixReads<J(!new), E>(ops: Joiner<J, E>, p: Parser<J>, pad: seq<Byte>, ms: seq<Message>, tail: seq<Byte>)
    returns (q: Parser<J>, left: seq<Byte>)
    requires Lawful(ops) && (forall m :: m in ms ==> WellFormed(m)) && |pad| == p.payloadSize % 8
    requires p.input == pad + (Encode(ms) + tail)
    ensures RunMessages(ops, p) == RunMessages(ops, q) && q.joiner == DeliverAll(ops, p.joiner, ms)
    ensures |left| == q.payloadSize % 8 && q.input == left + tail && q.totalRead + |left| == p.totalRead + |pad| + |Encode(ms)|
    decreases |ms|
  {
    hide RunMessages, Deliver, Lawful, Body, Padding;
    if ms == [] {
      q, left := p, pad;
    } else {
      var m, rest := ms[0], Encode(ms[1..]) + tail;
      assert p.input == pad + (Body(m) + Padding(m) + rest);
      MessageReads(ops, p, pad, m, rest);
      PaddingSize(m);
      q, left := PrefixReads(ops, After(p, pad, m, rest).(joiner := Deliver(ops, p.joiner, m)), Padding(m), ms[1..], tail);
    }
  }

  /** A file that is stopped delivers the messages before the stop and nothing behind it, and counts exactly what it
      should. */
  lemma FileStops<J(!new), E>(ops: Joiner<J, E>, j: J, ms: seq<Message>, stop: Stop)
    requires Lawful(ops) && Stops(stop) && forall m :: m in ms ==> WellFormed(m)
    ensures var r := RunAll(ops, Parser(Encode(ms) + StopBytes(stop), 0, 0, j));
            && r.joiner == DeliverAll(ops, Drain(ops, j), ms) && r.input == LeftBehind(stop)
            && r.totalRead == |Encode(ms)| + StopCount(stop)
  {
    hide RunAll, Messages, Drain, Lawful, Encode, StopBytes, StopCount, LeftBehind, Stops, DeliverAll;
    var p := Parser(Encode(ms) + StopBytes(stop), 0, 0, j);
    RunAllDrains(ops, p);
    assert [] + (Encode(ms) + StopBytes(stop)) == Encode(ms) + StopBytes(stop);
    var q, left := PrefixReads(ops, p.(joiner := Drain(ops, j)), [], ms, StopBytes(stop));
    StopReads(ops, q, left, stop);
  }

  // ---- Any bytes at all -----------------------------------------------------------------------------------

  /** By how much the count is behind the bytes read between p and q. */
  function Behind<J>(p: Parser<J>, q: Parser<J>): int { p.totalRead + (|p.input| - |q.input|) - q.totalRead }

  predicate Suffix(a: seq<Byte>, b: seq<Byte>) { |b| <= |a| && b == a[|a| - |b|..] }

  /** The bytes the next turn reads and does not count: those of a padding, type, version, size or payload cut
      short by the end of the bytes. */
  function CutShort<J>(p: Parser<J>): nat {
    match Advance(p)
    case Stuck(_) => if |p.input| < p.payloadSize % 8 then |p.input| else |p.input| - p.payloadSize % 8
    case Next(msgType, p1) =>
      if msgType == MSG_TYPE_EOF then 0
      else if |p1.input| < 4 then |p1.input|
      else if msgType == MSG_TYPE_FILEMAGIC || |p1.input| - 4 >= U32Of(p1.input[..4]) then 0
      else |p1.input| - 4
  }

  lemma CutShortBound<J>(p: Parser<J>)
    ensures CutShort(p) <= |p.input|
  {}

  /** The next turn finds no bytes after the padding, and infers the end of the file. */
  predicate EndInferred<J>(p: Parser<J>) { |p.input| == p.payloadSize % 8 }

  lemma AdvanceAccounts<J>(p: Parser<J>)
    ensures var r := Advance(p);
            && Suffix(p.input, r.p.input)
            && (r.Stuck? ==> Behind(p, r.p) == CutShort(p) && r.p.input == [] && !EndInferred(p))
            && (r.Next? ==> Behind(p, r.p) == if EndInferred(p) then -4 else 0)
            && (r.Next? && EndInferred(p) ==> r.msgType == MSG_TYPE_EOF)
            && (r.Next? && r.msgType == MSG_TYPE_EOF ==> CutShort(p) == 0)
  {}

  lemma SizedAccounts<J>(p: Parser<J>)
    ensures var r := ReadSized(p);
            && Suffix(p.input, r.p.input)
            && (r.Payload? ==> Behind(p, r.p) == 0 && |p.input| >= 4 && |p.input| - 4 >= U32Of(p.input[..4]))
            && (r.Short? ==> r.p.input == [] && Behind(p, r.p) == if |p.input| < 4 then |p.input| else |p.input| - 4)
            && (r.Short? && |p.input| >= 4 ==> |p.input| - 4 < U32Of(p.input[..4]))
  {}

  lemma VersionAccounts<J>(p: Parser<J>)
    ensures var q := CheckVersion(p).1;
            && Suffix(p.input, q.input)
            && Behind(p, q) == (if |p.input| < 4 then |p.input| else 0)
            && (|p.input| < 4 ==> q.input == [] && !CheckVersion(p).0)
  {}

  /** One turn, on any bytes. */
  lemma TurnAccounts<J(!new), E>(ops: Joiner<J, E>, p: Parser<J>)
    requires Lawful(ops)
    ensures var r := TurnOnce(ops, p);
            && Suffix(p.input, r.p.input)
            && Behind(p, r.p) == CutShort(p) - (if EndInferred(p) then 4 else 0)
            && (CutShort(p) > 0 ==> r.p.input == [])
            && (EndInferred(p) ==> r == Ended(false, r.p) && r.p.input == [])
            && (r.Ended? && r.delivered ==> CutShort(p) == 0)
  {
    hide *;
    AdvanceAccounts(p);
    if Advance(p).Stuck? || Advance(p).msgType == MSG_TYPE_EOF {
      TurnEnds(ops, p);
    } else {
      var p1 := Advance(p).p;
      SizedAccounts(p1);
      VersionAccounts(p1);
      SuffixTrans(p.input, p1.input, ReadSized(p1).p.input);
      SuffixTrans(p.input, p1.input, CheckVersion(p1).1.input);
      BehindSum(p, p1, ReadSized(p1).p);
      BehindSum(p, p1, CheckVersion(p1).1);
      TurnReads(ops, p);
      CutShortIs(p);
      BehindBytes(p, ReadSized(p1).p, TurnOnce(ops, p).p);
    }
  }

  lemma SuffixTrans(a: seq<Byte>, b: seq<Byte>, c: seq<Byte>)
    requires Suffix(a, b) && Suffix(b, c)
    ensures Suffix(a, c)
  {}

  lemma BehindSum<J>(p: Parser<J>, q: Parser<J>, r: Parser<J>)
    ensures Behind(p, r) == Behind(p, q) + Behind(q, r)
  {}

  lemma BehindBytes<J>(p: Parser<J>, q: Parser<J>, r: Parser<J>)
    ensures q.input == r.input && q.totalRead == r.totalRead ==> Behind(p, q) == Behind(p, r)
  {}

  lemma TurnEnds<J(!new), E>(ops: Joiner<J, E>, p: Parser<J>)
    requires Lawful(ops) && (Advance(p).Stuck? || Advance(p).msgType == MSG_TYPE_EOF)
    ensures TurnOnce(ops, p) == Ended(false, Advance(p).p)
    ensures EndInferred(p) ==> Advance(p).p.input == []
  {}

  /** A turn past the message type moves as the version or the sized read does. */
  lemma TurnReads<J(!new), E>(ops: Joiner<J, E>, p: Parser<J>)
    requires Lawful(ops) && Advance(p).Next? && Advance(p).msgType != MSG_TYPE_EOF
    ensures var p1, r := Advance(p).p, TurnOnce(ops, p);
            if Advance(p).msgType == MSG_TYPE_FILEMAGIC then !(r.Ended? && r.delivered) && r.p == CheckVersion(p1).1
            else
              && r.p.input == ReadSized(p1).p.input && r.p.totalRead == ReadSized(p1).p.totalRead
              && (r.Ended? && r.delivered ==> ReadSized(p1).Payload?)
  {
    hide Advance, CheckVersion, ReadSized, Regular, Lawful;
  }

  lemma CutShortIs<J>(p: Parser<J>)
    requires Advance(p).Next? && Advance(p).msgType != MSG_TYPE_EOF
    ensures var input := Advance(p).p.input;
            CutShort(p) == if |input| < 4 then |input|
                           else if Advance(p).msgType == MSG_TYPE_FILEMAGIC || |input| - 4 >= U32Of(input[..4]) then 0
                           else |input| - 4
  {}

  /** The states of the parser at the message boundaries of a call. */
  function Boundaries<J(!new), E>(ops: Joiner<J, E>, p: Parser<J>): (r: seq<Parser<J>>)
    requires Lawful(ops)
    ensures r != [] && r[0] == p
    decreases |p.input|
  {
    match TurnOnce(ops, p)
    case Again(p1) => [p] + Boundaries(ops, p1)
    case Ended(_, _) => [p]
  }

  /** At every message boundary the count is exact, unless the message before it was a regular one cut short:
      then it lacks the bytes of the part cut short, no bytes are left, and there is no further boundary. */
  lemma {:induction false} BoundariesExact<J(!new), E>(ops: Joiner<J, E>, p: Parser<J>, i: nat)
    requires Lawful(ops) && i < |Boundaries(ops, p)|
    ensures var bs := Boundaries(ops, p);
            && Suffix(p.input, bs[i].input)
            && Behind(p, bs[i]) == (if i == 0 then 0 else CutShort(bs[i - 1]))
            && (i > 0 && CutShort(bs[i - 1]) > 0 ==> bs[i].input == [] && i == |bs| - 1)
    decreases |p.input|
  {
    hide TurnOnce, Lawful, CutShort, EndInferred;
    if i > 0 {
      var q := TurnOnce(ops, p).p;
      TurnAccounts(ops, p);
      BoundariesExact(ops, q, i - 1);
      if CutShort(p) > 0 { assert |Boundaries(ops, q)| == 1; }
    }
  }

  /** What a call that reads messages leaves uncounted: what was cut short at its end, less four when it
      inferred the end of the file. */
  function Uncounted<J(!new), E>(ops: Joiner<J, E>, p: Parser<J>): int
    requires Lawful(ops)
  {
    var bs := Boundaries(ops, p);
    var n := |bs| - 1;
    (if n == 0 then 0 else CutShort(bs[n - 1])) + CutShort(bs[n]) - (if EndInferred(bs[n]) then 4 else 0)
  }

  /** A delivered message counts all bytes read, whether or not any are left; a call that ends otherwise is
      behind by exactly what was cut short, and ahead by four at an inferred end of file. */
  lemma MessagesAccount<J(!new), E>(ops: Joiner<J, E>, p: Parser<J>)
    requires Lawful(ops)
    ensures var (delivered, r) := Messages(ops, p);
            && Suffix(p.input, r.input)
            && Behind(p, r) == Uncounted(ops, p)
            && (delivered || r.input != [] ==> Behind(p, r) == 0)
            && Behind(p, r) >= -4 && r.totalRead >= p.totalRead
  {
    hide *;
    var bs := Boundaries(ops, p);
    var n := |bs| - 1;
    var r := Messages(ops, p).1;
    BoundariesExact(ops, p, n);
    LastTurn(ops, p);
    TurnAccounts(ops, bs[n]);
    SuffixTrans(p.input, bs[n].input, r.input);
    BehindSum(p, bs[n], r);
    UncountedIs(ops, p);
    CutShortBound(bs[n]);
    SuffixShorter(p.input, bs[n].input);
    SuffixShorter(bs[n].input, r.input);
    BehindIs(p, r);
    if n > 0 {
      BoundariesExact(ops, p, n - 1);
      SuffixShorter(p.input, bs[n - 1].input);
      CutShortBound(bs[n - 1]);
    }
  }

  lemma UncountedIs<J(!new), E>(ops: Joiner<J, E>, p: Parser<J>)
    requires Lawful(ops)
    ensures var bs := Boundaries(ops, p);
            var n := |bs| - 1;
            Uncounted(ops, p) == (if n == 0 then 0 else CutShort(bs[n - 1])) + CutShort(bs[n]) - (if EndInferred(bs[n]) then 4 else 0)
  {
    hide Boundaries, CutShort, EndInferred, TurnOnce, Lawful;
  }

  lemma SuffixShorter(a: seq<Byte>, b: seq<Byte>)
    requires Suffix(a, b)
    ensures |b| <= |a|
  {}

  lemma BehindIs<J>(p: Parser<J>, q: Parser<J>)
    ensures Behind(p, q) == p.totalRead + (|p.input| - |q.input|) - q.totalRead
  {}

  lemma {:induction false} LastTurn<J(!new), E>(ops: Joiner<J, E>, p: Parser<J>)
    requires Lawful(ops)
    ensures var bs := Boundaries(ops, p);
            var last := TurnOnce(ops, bs[|bs| - 1]);
            last.Ended? && Messages(ops, p) == (last.delivered, last.p)
    decreases |p.input|
  {
    hide TurnOnce, Lawful;
    if TurnOnce(ops, p).Again? { LastTurn(ops, TurnOnce(ops, p).p); }
  }

  /** Every call, on every byte string: it leaves a suffix of its bytes; one that delivers has counted exactly
      what it read; one that does not has left uncounted what was cut short, and counted four for an end of
      file it inferred. */
  lemma CallAccounts<J(!new), E>(ops: Joiner<J, E>, p: Parser<J>)
    requires Lawful(ops)
    ensures var (delivered, r) := ParseCall(ops, p);
            var (joined, j) := ProcessNext(ops, p.joiner);
            && Suffix(p.input, r.input)
            && (delivered || r.input != [] ==> Behind(p, r) == 0)
            && (!joined ==> Behind(p, r) == Uncounted(ops, p.(joiner := j)))
            && Behind(p, r) >= -4 && r.totalRead >= p.totalRead
  {
    hide Messages, Uncounted;
    MessagesAccount(ops, p.(joiner := ProcessNext(ops, p.joiner).1));
  }

  // ---- A joiner that records ------------------------------------------------------------------------------

  datatype Item = CheckpointItem(payload: seq<Byte>) | RegularItem(payload: seq<Byte>)

  /** It notes what it is given: checkpoints at once, regular payloads when they are joined. */
  datatype Recorder = Recorder(log: seq<Item>, queue: seq<seq<Byte>>, isReady: bool)

  const Recording: Joiner<Recorder, seq<Byte>> := Joiner(
    (j: Recorder) => j.isReady,
    (j: Recorder, payload: seq<Byte>) => j.(log := j.log + [CheckpointItem(payload)], isReady := true),
    (payload: seq<Byte>) => Some([payload]),
    (j: Recorder) => j,
    (j: Recorder, e: seq<Byte>) => (true, j.(queue := j.queue + [e])),
    (j: Recorder) => j,
    (j: Recorder) => j.queue != [],
    (j: Recorder) => if j.queue == [] then (false, j) else (true, j.(log := j.log + [RegularItem(j.queue[0])], queue := j.queue[1..])),
    (j: Recorder) => |j.queue|)

  /** The checkpoint payloads, and the regular payloads from the first checkpoint on, in file order. */
  function Expected(ms: seq<Message>, ready: bool): seq<Item> {
    if ms == [] then []
    else
      match ms[0]
      case CheckpointMsg(payload, _) => [CheckpointItem(payload)] + Expected(ms[1..], true)
      case RegularMsg(payload, _) => (if ready then [RegularItem(payload)] else []) + Expected(ms[1..], ready)
      case _ => Expected(ms[1..], ready)
  }

  lemma RecordingLawful()
    ensures Lawful(Recording)
  {}

  lemma RecordOne(j: Recorder, m: Message)
    requires Lawful(Recording) && j.queue == []
    ensures Deliver(Recording, j, m) ==
              match m
              case CheckpointMsg(payload, _) => Recorder(j.log + [CheckpointItem(payload)], [], true)
              case RegularMsg(payload, _) => if j.isReady then j.(log := j.log + [RegularItem(payload)]) else j
              case _ => j
  {
    if m.RegularMsg? && j.isReady {
      var e := m.payload;
      var es: seq<seq<Byte>> := [e];
      assert es[..0] == [] && es[1..] == [];
      EventsStep(Recording, j, es, 0);
      assert es[..1] == es;
      assert j.queue + [e] == [e];
      assert Events(Recording, j, es[..0]) == (true, j);
      assert Recording.event(j, e) == (true, j.(queue := [e]));
      assert Events(Recording, j, es) == (true, j.(queue := [e]));
      var j' := j.(log := j.log + [RegularItem(e)]);
      assert Drain(Recording, j.(queue := [e])) == Drain(Recording, j');
    }
  }

  lemma {:induction false} RecordAll(j: Recorder, ms: seq<Message>)
    requires Lawful(Recording) && j.queue == []
    ensures DeliverAll(Recording, j, ms).log == j.log + Expected(ms, j.isReady)
    ensures DeliverAll(Recording, j, ms).queue == []
    decreases |ms|
  {
    hide Deliver, Lawful, Recording;
    if ms != [] {
      RecordOne(j, ms[0]);
      RecordAll(Deliver(Recording, j, ms[0]), ms[1..]);
    }
  }

  /** Reading a file delivers exactly its checkpoint payloads and the regular payloads that follow the first
      of them, in file order, whatever else is in it. */
  lemma PayloadsDelivered(ms: seq<Message>)
    requires forall m :: m in ms ==> WellFormed(m)
    ensures RunAll(Recording, Parser(Encode(ms), 0, 0, Recorder([], [], false))).joiner.log == Expected(ms, false)
  {
    RecordingLawful();
    hide RunAll, DeliverAll, Lawful, Encode;
    var j := Recorder([], [], false);
    FileDelivered(Recording, j, ms);
    assert Drain(Recording, j) == j;
    RecordAll(j, ms);
  }
}
