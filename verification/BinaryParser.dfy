/** The resumable parser of the binary log: parse_example_binary.cc.  The joiner behind it is any that meets
    the interface. */
module BinaryParser {
  import opened Common

  type Byte = x: nat | x < 0x100

  type UInt32 = x: nat | x < 0x1_0000_0000

  const MSG_TYPE_FILEMAGIC: UInt32 := 0x42465756
  const MSG_TYPE_HEADER: UInt32 := 0x55555555
  const MSG_TYPE_REGULAR: UInt32 := 0xFFFFFFFF
  const MSG_TYPE_CHECKPOINT: UInt32 := 0x11111111
  const MSG_TYPE_EOF: UInt32 := 0xAAAAAAAA
  const BINARY_PARSER_VERSION: Byte := 1

  /** The joiner interface over states J and events E.  pending bounds the joins still to come. */
  datatype Joiner<!J, !E> = Joiner(
    ready: J -> bool,
    checkpoint: (J, seq<Byte>) -> J,
    decode: seq<Byte> -> Option<seq<E>>,
    newBatch: J -> J,
    event: (J, E) -> (bool, J),
    batchRead: J -> J,
    processing: J -> bool,
    joined: J -> (bool, J),
    pending: J -> nat)

  /** Every join brings the end of the batch nearer. */
  ghost predicate Lawful<J(!new), E>(ops: Joiner<J, E>) {
    forall j: J :: ops.processing(j) ==> ops.pending(ops.joined(j).1) < ops.pending(j)
  }

  /** The bytes left, the size of the last payload, the count of bytes read and the joiner. */
  datatype Parser<J> = Parser(input: seq<Byte>, payloadSize: UInt32, totalRead: nat, joiner: J)

  // ---- Bytes ----------------------------------------------------------------------------------------

  function U32Of(b: seq<Byte>): UInt32
    requires |b| == 4
  {
    (b[0] as int) + 0x100 * (b[1] as int) + 0x1_0000 * (b[2] as int) + 0x100_0000 * (b[3] as int)
  }

  function BytesOf(n: UInt32): (b: seq<Byte>)
    ensures |b| == 4
  {
    [n % 0x100, n / 0x100 % 0x100, n / 0x1_0000 % 0x100, n / 0x100_0000]
  }

  lemma BytesOfU32(n: UInt32)
    ensures U32Of(BytesOf(n)) == n
  {
    var a, b, c := n / 0x100, n / 0x1_0000, n / 0x100_0000;
    assert b == a / 0x100 && c == b / 0x100;
  }

  /** The message types in the file, the magic as the letters V, W, F, B. */
  lemma TypeBytes()
    ensures BytesOf(MSG_TYPE_FILEMAGIC) == ['V' as int, 'W' as int, 'F' as int, 'B' as int]
    ensures BytesOf(MSG_TYPE_HEADER) == [0x55, 0x55, 0x55, 0x55] && BytesOf(MSG_TYPE_REGULAR) == [0xFF, 0xFF, 0xFF, 0xFF]
    ensures BytesOf(MSG_TYPE_CHECKPOINT) == [0x11, 0x11, 0x11, 0x11] && BytesOf(MSG_TYPE_EOF) == [0xAA, 0xAA, 0xAA, 0xAA]
  {}

  /** A read of n bytes; a short one takes what is left. */
  function Got(input: seq<Byte>, n: nat): seq<Byte> { if n <= |input| then input[..n] else input }

  function Left(input: seq<Byte>, n: nat): seq<Byte> { if n <= |input| then input[n..] else [] }

  // ---- One message ----------------------------------------------------------------------------------

  datatype Advanced<J> = Stuck(p: Parser<J>) | Next(msgType: UInt32, p: Parser<J>)

  /** The padding after the last payload, its size modulo 8, and the next message type; at the end of the
      bytes the type reads as end of file. */
  function Advance<J>(p: Parser<J>): (r: Advanced<J>)
    ensures |r.p.input| <= |p.input|
    ensures r.Next? && r.msgType != MSG_TYPE_EOF ==> |r.p.input| < |p.input|
  {
    var padding := p.payloadSize % 8;
    if |p.input| < padding then Stuck(p.(input := []))
    else
      var rest := p.input[padding..];
      if |rest| == 0 then Next(MSG_TYPE_EOF, p.(input := [], totalRead := p.totalRead + padding + 4))
      else if |rest| < 4 then Stuck(p.(input := [], totalRead := p.totalRead + padding))
      else Next(U32Of(rest[..4]), p.(input := rest[4..], totalRead := p.totalRead + padding + 4))
  }

  datatype Sized<J> = Short(p: Parser<J>) | Payload(bytes: seq<Byte>, p: Parser<J>)

  /** A payload preceded by its size. */
  function ReadSized<J>(p: Parser<J>): (r: Sized<J>)
    ensures |r.p.input| <= |p.input| && r.p.joiner == p.joiner
  {
    if |p.input| < 4 then Short(p.(input := []))
    else
      var size := U32Of(p.input[..4]);
      var p' := p.(input := p.input[4..], payloadSize := size, totalRead := p.totalRead + 4);
      if |p'.input| < size then Short(p'.(input := []))
      else Payload(p'.input[..size], p'.(input := p'.input[size..], totalRead := p'.totalRead + size))
  }

  /** The version is inline, and only its first byte is looked at. */
  function CheckVersion<J>(p: Parser<J>): (bool, Parser<J>) {
    if |p.input| < 4 then (false, p.(input := []))
    else (p.input[0] == BINARY_PARSER_VERSION, p.(input := p.input[4..], payloadSize := 0, totalRead := p.totalRead + 4))
  }

  /** The events of a payload, up to the first that is refused. */
  function Events<J, E>(ops: Joiner<J, E>, j: J, events: seq<E>): (bool, J) {
    if events == [] then (true, j)
    else
      var n := |events| - 1;
      var (ok, j') := Events(ops, j, events[..n]);
      if ok then ops.event(j', events[n]) else (false, j')
  }

  /** Joins until one succeeds. */
  function ProcessNext<J(!new), E>(ops: Joiner<J, E>, j: J): (r: (bool, J))
    requires Lawful(ops)
    ensures r.0 ==> ops.pending(r.1) < ops.pending(j)
    ensures !r.0 ==> !ops.processing(r.1)
    decreases ops.pending(j)
  {
    if !ops.processing(j) then (false, j)
    else
      var (ok, j') := ops.joined(j);
      if ok then (true, j') else ProcessNext(ops, j')
  }

  datatype RegularResult = Ignored | Delivered | NotDelivered

  function Regular<J(!new), E>(ops: Joiner<J, E>, j: J, bytes: seq<Byte>): (RegularResult, J)
    requires Lawful(ops)
  {
    if !ops.ready(j) then (Ignored, j)
    else
      var events := ops.decode(bytes);
      if events.None? then (NotDelivered, j)
      else
        var (ok, j') := Events(ops, ops.newBatch(j), events.value);
        if !ok then (NotDelivered, j')
        else
          var (delivered, j'') := ProcessNext(ops, ops.batchRead(j'));
          (if delivered then Delivered else NotDelivered, j'')
  }

  /** What one turn of the loop does: it goes on from where the message ends, or the call ends there. */
  datatype Turn<J> = Again(p: Parser<J>) | Ended(delivered: bool, p: Parser<J>)

  function TurnOnce<J(!new), E>(ops: Joiner<J, E>, p: Parser<J>): (r: Turn<J>)
    requires Lawful(ops)
    ensures |r.p.input| <= |p.input| && (r.Again? || r.delivered ==> |r.p.input| < |p.input|)
  {
    match Advance(p)
    case Stuck(p1) => Ended(false, p1)
    case Next(msgType, p1) =>
      if msgType == MSG_TYPE_EOF then Ended(false, p1)
      else if msgType == MSG_TYPE_FILEMAGIC then
        var (ok, p2) := CheckVersion(p1);
        if ok then Again(p2) else Ended(false, p2)
      else
        match ReadSized(p1)
        case Short(p2) => if msgType == MSG_TYPE_REGULAR then Again(p2) else Ended(false, p2)
        case Payload(bytes, p2) =>
          if msgType == MSG_TYPE_CHECKPOINT then Again(p2.(joiner := ops.checkpoint(p2.joiner, bytes)))
          else if msgType == MSG_TYPE_REGULAR then
            var (r, j) := Regular(ops, p2.joiner, bytes);
            if r == Delivered then Ended(true, p2.(joiner := j)) else Again(p2.(joiner := j))
          else Again(p2)
  }

  /** Messages until one delivers, the bytes end, or a message that must not fail does. */
  function Messages<J(!new), E>(ops: Joiner<J, E>, p: Parser<J>): (r: (bool, Parser<J>))
    requires Lawful(ops)
    ensures |r.1.input| <= |p.input| && (r.0 ==> |r.1.input| < |p.input|)
    decreases |p.input|
  {
    match TurnOnce(ops, p)
    case Again(p1) => Messages(ops, p1)
    case Ended(delivered, p1) => (delivered, p1)
  }

  /** One call: what is left of the batch first, then messages. */
  function ParseCall<J(!new), E>(ops: Joiner<J, E>, p: Parser<J>): (r: (bool, Parser<J>))
    requires Lawful(ops)
    ensures r.0 ==> |r.1.input| < |p.input| || (r.1.input == p.input && ops.pending(r.1.joiner) < ops.pending(p.joiner))
  {
    var (ok, j) := ProcessNext(ops, p.joiner);
    if ok then (true, p.(joiner := j)) else Messages(ops, p.(joiner := j))
  }

  /** Calls until one returns false.  There is a last one, for any bytes whatever. */
  function RunAll<J(!new), E>(ops: Joiner<J, E>, p: Parser<J>): Parser<J>
    requires Lawful(ops)
    decreases |p.input|, ops.pending(p.joiner)
  {
    var (ok, p') := ParseCall(ops, p);
    if ok then RunAll(ops, p') else p'
  }

  // ---- The methods ----------------------------------------------------------------------------------

  class BinaryParser<J(!new), E> {
    const ops: Joiner<J, E>
    var input: seq<Byte>
    var payloadSize: UInt32
    var totalSizeRead: nat
    var joiner: J

    function View(): Parser<J> reads this { Parser(input, payloadSize, totalSizeRead, joiner) }

    constructor (ops: Joiner<J, E>, joiner: J, input: seq<Byte>)
      ensures this.ops == ops && View() == Parser(input, 0, 0, joiner)
    {
      this.ops, this.joiner, this.input, payloadSize, totalSizeRead := ops, joiner, input, 0, 0;
    }

    /** The buffer's read: n bytes, or all that is left. */
    method BufRead(n: nat) returns (line: seq<Byte>)
      modifies this`input
      ensures line == Got(old(input), n) && input == Left(old(input), n)
    {
      if n <= |input| {
        line := input[..n];
        input := input[n..];
      } else {
        line := input;
        input := [];
      }
    }

    method AdvanceToNextPayloadType() returns (ok: bool, msgType: UInt32)
      modifies this`input, this`totalSizeRead
      ensures View() == Advance(old(View())).p && (ok <==> Advance(old(View())).Next?)
      ensures ok ==> msgType == Advance(old(View())).msgType
    {
      msgType := MSG_TYPE_EOF;
      var padding := payloadSize % 8;
      if padding > 0 {
        var line := BufRead(padding);
        if |line| < padding { return false, msgType; }
      }
      totalSizeRead := totalSizeRead + padding;
      var line := BufRead(4);
      if |line| < 4 {
        if |line| != 0 { return false, msgType; }
      } else {
        msgType := U32Of(line);
      }
      totalSizeRead := totalSizeRead + 4;
      ok := true;
    }

    method ReadVersion() returns (ok: bool)
      modifies this`input, this`totalSizeRead, this`payloadSize
      ensures (ok, View()) == CheckVersion(old(View()))
    {
      var payload := BufRead(4);
      if |payload| < 4 { return false; }
      totalSizeRead := totalSizeRead + 4;
      payloadSize := 0;
      ok := payload[0] == BINARY_PARSER_VERSION;
    }

    /** The size and payload of a header, checkpoint, regular or unknown message. */
    method ReadSizedPayload() returns (ok: bool, payload: seq<Byte>)
      modifies this`input, this`totalSizeRead, this`payloadSize
      ensures View() == ReadSized(old(View())).p && (ok <==> ReadSized(old(View())).Payload?)
      ensures ok ==> payload == ReadSized(old(View())).bytes
    {
      var line := BufRead(4);
      if |line| < 4 { return false, []; }
      payloadSize := U32Of(line);
      totalSizeRead := totalSizeRead + 4;
      payload := BufRead(payloadSize);
      if |payload| < payloadSize { return false, []; }
      totalSizeRead := totalSizeRead + payloadSize;
      ok := true;
    }

    method ProcessNextInBatch() returns (delivered: bool)
      requires Lawful(ops)
      modifies this`joiner
      ensures (delivered, joiner) == ProcessNext(ops, old(joiner))
    {
      while ops.processing(joiner)
        invariant ProcessNext(ops, joiner) == ProcessNext(ops, old(joiner))
        decreases ops.pending(joiner)
      {
        var (ok, j) := ops.joined(joiner);
        joiner := j;
        if ok { return true; }
      }
      delivered := false;
    }

    /** A payload that has been read: its events go to the joiner, then the batch is processed. */
    method ProcessRegularPayload(payload: seq<Byte>) returns (ok: bool, ignoreMsg: bool)
      requires Lawful(ops)
      modifies this`joiner
      ensures var (r, j) := Regular(ops, old(joiner), payload);
              joiner == j && ok == !r.NotDelivered? && ignoreMsg == r.Ignored?
    {
      if !ops.ready(joiner) { return true, true; }
      var events := ops.decode(payload);
      if events.None? { return false, false; }
      joiner := ops.newBatch(joiner);
      ghost var j0 := joiner;
      for k := 0 to |events.value|
        invariant (true, joiner) == Events(ops, j0, events.value[..k])
      {
        hide Events;
        EventsStep(ops, j0, events.value, k);
        var (accepted, j) := ops.event(joiner, events.value[k]);
        joiner := j;
        if !accepted {
          EventsStop(ops, j0, events.value, k + 1);
          return false, false;
        }
      }
      assert events.value[..|events.value|] == events.value;
      joiner := ops.batchRead(joiner);
      ok := ProcessNextInBatch();
      ignoreMsg := false;
    }

    method ParseExamples() returns (delivered: bool)
      requires Lawful(ops)
      modifies this
      ensures (delivered, View()) == ParseCall(ops, old(View()))
    {
      delivered := ProcessNextInBatch();
      if delivered { return; }
      ghost var start := View();
      while true
        invariant Messages(ops, View()) == Messages(ops, start)
        decreases |input|
      {
        var ok, msgType := AdvanceToNextPayloadType();
        if !ok { return false; }
        if msgType == MSG_TYPE_EOF { return false; }
        if msgType == MSG_TYPE_FILEMAGIC {
          ok := ReadVersion();
          if !ok { return false; }
        } else {
          var payload;
          ok, payload := ReadSizedPayload();
          if msgType == MSG_TYPE_REGULAR {
            if ok {
              var ignoreMsg;
              ok, ignoreMsg := ProcessRegularPayload(payload);
              if ok && !ignoreMsg { return true; }
            }
          } else {
            if !ok { return false; }
            if msgType == MSG_TYPE_CHECKPOINT { joiner := ops.checkpoint(joiner, payload); }
          }
        }
      }
    }
  }

  lemma EventsStep<J, E>(ops: Joiner<J, E>, j: J, events: seq<E>, k: nat)
    requires k < |events|
    ensures var (ok, j') := Events(ops, j, events[..k]);
            Events(ops, j, events[..k + 1]) == if ok then ops.event(j', events[k]) else (false, j')
  {
    assert events[..k + 1][..k] == events[..k];
  }

  lemma {:induction false} EventsStop<J, E>(ops: Joiner<J, E>, j: J, events: seq<E>, k: nat)
    requires k <= |events| && !Events(ops, j, events[..k]).0
    ensures Events(ops, j, events) == Events(ops, j, events[..k])
    decreases |events| - k
  {
    if k == |events| {
      assert events[..k] == events;
    } else {
      EventsStep(ops, j, events, k);
      EventsStop(ops, j, events, k + 1);
    }
  }
}
