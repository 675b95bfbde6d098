/** Fastboot over UDP (crates/fastboot-protocol/src/udp.rs): stop-and-wait with
    retransmission, wrapping 16-bit sequence numbers and continuation packets.

    The device follows "UDP Protocol v1" of the AOSP fastboot README: it handles a packet
    with the number it expects, repeats its last answer for the number just before, and
    ignores others. Channels may lose and duplicate packets but keep their order. */
module Udp {
  import opened Wrappers
  import opened LittleEndian

  const ID_ERROR: Byte := 0
  const ID_FASTBOOT: Byte := 3
  const FLAG_NONE: Byte := 0
  const FLAG_CONTINUATION: Byte := 1
  const HEADER_LEN: nat := 4
  const MIN_PACKET_SIZE: nat := 512
  const HOST_MAX_PACKET_SIZE: nat := 8192

  // ---------- headers ----------

  datatype UdpHeader = UdpHeader(id: Byte, flags: Byte, seqNo: U16)

  datatype Decoded = Decoded(header: UdpHeader, length: nat) | TooShort

  function Encode4(h: UdpHeader): Bytes {
    [h.id, h.flags, h.seqNo / 0x100, h.seqNo % 0x100]
  }

  function Encode2(h: UdpHeader): Bytes {
    [h.flags, h.seqNo % 0x100]
  }

  function Decode(buf: Bytes): Decoded {
    if |buf| >= 4 then
      var hi: int, lo: int := buf[2], buf[3];
      Decoded(UdpHeader(buf[0], buf[1], hi * 0x100 + lo), 4)
    else if |buf| >= 2 then Decoded(UdpHeader(ID_FASTBOOT, buf[0], buf[1]), 2)
    else TooShort
  }

  /** A 4-byte header is read back whatever follows it; a lone 2-byte one keeps the flags and
      the low half of the number. */
  lemma HeaderRoundTrip(h: UdpHeader, data: Bytes)
    ensures Decode(Encode4(h) + data) == Decoded(h, 4) && (Encode4(h) + data)[4..] == data
    ensures Decode(Encode2(h)) == Decoded(UdpHeader(ID_FASTBOOT, h.flags, h.seqNo % 0x100), 2)
  {}

  /** Where the fields stand: identifier, flags, and the number with its high half first. */
  lemma HeaderBytes(h: UdpHeader)
    ensures var b := Encode4(h);
            && |b| == 4 && b[0] == h.id && b[1] == h.flags
            && var hi: int, lo: int := b[2], b[3]; h.seqNo == 0x100 * hi + lo
    ensures var b := Encode2(h); |b| == 2 && b[0] == h.flags && b[1] == h.seqNo % 0x100
  {}

  // ---------- the device and the channels ----------

  datatype Packet = Packet(id: Byte, flags: Byte, seqNo: U16, data: Bytes)

  datatype Request = Request(id: Byte, flags: Byte, data: Bytes)

  /** What a device answers to one request it handles. */
  datatype Answer = Answer(isError: bool, more: bool, data: Bytes)

  /** Packets in flight both ways, and the device: the number it expects, its last answer,
      what it has handled, and the answers it is going to give, one a request. A device out
      of answers falls silent. */
  datatype Net = Net(toDevice: seq<Packet>, toClient: seq<Packet>, expected: U16, last: Packet,
                     handled: seq<Request>, script: seq<Answer>)

  function Succ(s: U16): U16 {
    if s == 0xFFFF then 0 else s + 1
  }

  function RequestOf(p: Packet): Request {
    Request(p.id, p.flags, p.data)
  }

  /** As much of an answer as the client's receive buffer holds after the header. */
  function Clip(data: Bytes): Bytes {
    if |data| <= HOST_MAX_PACKET_SIZE - HEADER_LEN then data else data[..HOST_MAX_PACKET_SIZE - HEADER_LEN]
  }

  /** The buffer has 8192 bytes, the header four. */
  lemma ClipIsFront(data: Bytes)
    ensures Clip(data) <= data && |Clip(data)| == if |data| <= 8188 then |data| else 8188
  {}

  /** The device's answer as the client gets to see it. */
  function Reply(a: Answer, p: Packet): Packet {
    Packet(if a.isError then ID_ERROR else p.id, if a.more then FLAG_CONTINUATION else FLAG_NONE, p.seqNo, Clip(a.data))
  }

  function DeviceTurn(n: Net): Net
    requires n.toDevice != []
  {
    var p, rest := n.toDevice[0], n.(toDevice := n.toDevice[1..]);
    if p.seqNo == n.expected && |n.handled| < |n.script| then
      var answer := Reply(n.script[|n.handled|], p);
      rest.(toClient := n.toClient + [answer], last := answer, expected := Succ(n.expected),
            handled := n.handled + [RequestOf(p)])
    else if Succ(p.seqNo) == n.expected then rest.(toClient := n.toClient + [n.last])
    else rest
  }

  /** Everything that can happen outside the client. */
  datatype Move = LoseRequest(i: nat) | RepeatRequest(i: nat) | LoseAnswer(i: nat) | RepeatAnswer(i: nat) | DeviceMoves

  function Lose<T>(s: seq<T>, i: nat): seq<T> {
    if i < |s| then s[..i] + s[i + 1..] else s
  }

  function Repeated<T>(s: seq<T>, i: nat): seq<T> {
    if i < |s| then s[..i + 1] + s[i..] else s
  }

  function After(n: Net, m: Move): Net {
    match m
    case LoseRequest(i) => n.(toDevice := Lose(n.toDevice, i))
    case RepeatRequest(i) => n.(toDevice := Repeated(n.toDevice, i))
    case LoseAnswer(i) => n.(toClient := Lose(n.toClient, i))
    case RepeatAnswer(i) => n.(toClient := Repeated(n.toClient, i))
    case DeviceMoves => if n.toDevice == [] then n else DeviceTurn(n)
  }

  function AfterAll(n: Net, moves: seq<Move>): Net {
    if moves == [] then n else After(AfterAll(n, moves[..|moves| - 1]), moves[|moves| - 1])
  }

  // ---------- what every move keeps ----------

  /** Copies of `old`, then copies of `new`. */
  ghost predicate TwoRuns<T>(s: seq<T>, old_: T, new_: T) {
    && (forall i :: 0 <= i < |s| ==> s[i] == old_ || s[i] == new_)
    && (forall i, j :: 0 <= i < j < |s| && s[i] == new_ ==> s[j] == new_)
  }

  /** The previous exchange, whose packets may still be around. */
  datatype Past = Past(request: Packet, answer: Packet)

  predicate Follows(past: Past, seqNo: U16) {
    Succ(past.request.seqNo) == seqNo && past.answer.seqNo == past.request.seqNo
  }

  /** The client has `tx` out, or is about to. Either the device has not handled it, expects
      its number, and only answers of the past are on their way; or it has handled it once,
      expects the next number, and no request of the past is left. */
  ghost predicate Waiting(n: Net, past: Past, tx: Packet, before: seq<Request>) {
    && Follows(past, tx.seqNo) && |n.handled| <= |n.script|
    && ((&& n.handled == before && n.expected == tx.seqNo && n.last == past.answer
         && TwoRuns(n.toDevice, past.request, tx)
         && (forall i :: 0 <= i < |n.toClient| ==> n.toClient[i] == past.answer))
        ||
        (&& |before| < |n.script| && n.handled == before + [RequestOf(tx)] && n.expected == Succ(tx.seqNo)
         && n.last == Reply(n.script[|before|], tx)
         && (forall i :: 0 <= i < |n.toDevice| ==> n.toDevice[i] == tx)
         && TwoRuns(n.toClient, past.answer, n.last)))
  }

  /** The client has stopped waiting for an answer to `tx`, which may be on its way or handled. */
  ghost predicate Unsettled(n: Net, past: Past, tx: Packet) {
    || Waiting(n, past, tx, n.handled)
    || (n.handled != [] && Waiting(n, past, tx, n.handled[..|n.handled| - 1]))
  }

  lemma LeftUnsettled(n: Net, past: Past, tx: Packet, before: seq<Request>)
    requires Waiting(n, past, tx, before)
    ensures Unsettled(n, past, tx)
  {
    if n.handled != before {
      assert n.handled[..|n.handled| - 1] == before;
    }
  }

  lemma LoseKeeps<T>(s: seq<T>, i: nat, a: T, b: T)
    requires TwoRuns(s, a, b)
    ensures TwoRuns(Lose(s, i), a, b) && TwoRuns(Repeated(s, i), a, b)
  {}

  /** Whatever the network and the device do next, the client's view stays right. */
  lemma MoveKeepsWaiting(n: Net, m: Move, past: Past, tx: Packet, before: seq<Request>)
    requires Waiting(n, past, tx, before)
    ensures Waiting(After(n, m), past, tx, before) && After(n, m).script == n.script
  {
    match m
    case LoseRequest(i) => LoseKeeps(n.toDevice, i, past.request, tx);
    case RepeatRequest(i) => LoseKeeps(n.toDevice, i, past.request, tx);
    case LoseAnswer(i) => LoseKeeps(n.toClient, i, past.answer, n.last);
    case RepeatAnswer(i) => LoseKeeps(n.toClient, i, past.answer, n.last);
    case DeviceMoves =>
  }

  lemma {:induction false} MovesKeepWaiting(n: Net, moves: seq<Move>, past: Past, tx: Packet, before: seq<Request>)
    requires Waiting(n, past, tx, before)
    ensures Waiting(AfterAll(n, moves), past, tx, before) && AfterAll(n, moves).script == n.script
  {
    if moves != [] {
      var k := |moves| - 1;
      MovesKeepWaiting(n, moves[..k], past, tx, before);
      MoveKeepsWaiting(AfterAll(n, moves[..k]), moves[k], past, tx, before);
    }
  }

  /** No exchange is open: everything still in flight belongs to the past. */
  ghost predicate Quiet(n: Net, past: Past, seqNo: U16) {
    && Follows(past, seqNo) && |n.handled| <= |n.script| && n.expected == seqNo && n.last == past.answer
    && (forall i :: 0 <= i < |n.toDevice| ==> n.toDevice[i] == past.request)
    && (forall i :: 0 <= i < |n.toClient| ==> n.toClient[i] == past.answer)
  }

  /** In both situations the client's number is the device's or one behind it, and only two
      numbers, this and the one before, are in flight. */
  lemma TwoNumbers(n: Net, past: Past, tx: Packet, before: seq<Request>)
    requires Waiting(n, past, tx, before) || Quiet(n, past, tx.seqNo)
    ensures n.expected == tx.seqNo || n.expected == Succ(tx.seqNo)
    ensures forall p :: p in n.toDevice + n.toClient ==> p.seqNo == tx.seqNo || Succ(p.seqNo) == tx.seqNo
    ensures Waiting(n, past, tx, before) ==> n.handled == before || n.handled == before + [RequestOf(tx)]
  {
    if Waiting(n, past, tx, before) && n.handled == before {
      assert forall i :: 0 <= i < |n.toClient| ==> n.toClient[i] == past.answer;
    }
  }

  lemma {:induction false} MovesKeepQuiet(n: Net, moves: seq<Move>, past: Past, seqNo: U16)
    requires Quiet(n, past, seqNo)
    ensures Quiet(AfterAll(n, moves), past, seqNo)
    ensures AfterAll(n, moves).script == n.script && AfterAll(n, moves).handled == n.handled
  {
    if moves != [] {
      MovesKeepQuiet(n, moves[..|moves| - 1], past, seqNo);
    }
  }

  lemma SendOpens(n: Net, past: Past, tx: Packet)
    requires Quiet(n, past, tx.seqNo)
    ensures Waiting(n, past, tx, n.handled)
  {}

  lemma SendKeeps(n: Net, past: Past, tx: Packet, before: seq<Request>)
    requires Waiting(n, past, tx, before)
    ensures Waiting(n.(toDevice := n.toDevice + [tx]), past, tx, before)
  {}

  /** Taking an answer off the channel: one with another number changes nothing, one with
      the client's number is the device's answer to this very request, and closes the exchange. */
  lemma TakeAnswer(n: Net, past: Past, tx: Packet, before: seq<Request>)
    requires Waiting(n, past, tx, before) && n.toClient != []
    ensures var p, rest := n.toClient[0], n.(toClient := n.toClient[1..]);
            && (p.seqNo != tx.seqNo ==> Waiting(rest, past, tx, before))
            && (p.seqNo == tx.seqNo ==>
                  && |before| < |n.script| && n.handled == before + [RequestOf(tx)]
                  && p == Reply(n.script[|before|], tx) && Quiet(rest, Past(tx, p), Succ(tx.seqNo)))
  {}

  // ---------- a number used twice ----------

  /** The client's test on an answer. */
  predicate Accepts(tx: Packet, p: Packet) {
    p.seqNo == tx.seqNo && (p.id == tx.id || p.id == ID_ERROR)
  }

  /** Both packets have the client's number and may be around. The device has handled neither, or
      one of them and has answered that one. */
  ghost predicate Mixed(n: Net, past: Past, tx: Packet, next: Packet, before: seq<Request>) {
    && Follows(past, tx.seqNo) && next.seqNo == tx.seqNo && |n.handled| <= |n.script|
    && ((&& n.handled == before && n.expected == tx.seqNo && n.last == past.answer
         && (forall i :: 0 <= i < |n.toDevice| ==> n.toDevice[i] in {past.request, tx, next})
         && (forall i :: 0 <= i < |n.toClient| ==> n.toClient[i] == past.answer))
        || HandledAs(n, past, tx, next, before, tx) || HandledAs(n, past, tx, next, before, next))
  }

  ghost predicate HandledAs(n: Net, past: Past, tx: Packet, next: Packet, before: seq<Request>, q: Packet) {
    && |before| < |n.script| && n.handled == before + [RequestOf(q)] && n.expected == Succ(tx.seqNo)
    && n.last == Reply(n.script[|before|], q)
    && (forall i :: 0 <= i < |n.toDevice| ==> n.toDevice[i] in {past.request, tx, next})
    && (forall i :: 0 <= i < |n.toClient| ==> n.toClient[i] in {past.answer, n.last})
  }

  lemma MoveKeepsMixed(n: Net, m: Move, past: Past, tx: Packet, next: Packet, before: seq<Request>)
    requires Mixed(n, past, tx, next, before)
    ensures Mixed(After(n, m), past, tx, next, before) && After(n, m).script == n.script
  {}

  lemma {:induction false} MovesKeepMixed(n: Net, moves: seq<Move>, past: Past, tx: Packet, next: Packet,
                                          before: seq<Request>)
    requires Mixed(n, past, tx, next, before)
    ensures Mixed(AfterAll(n, moves), past, tx, next, before) && AfterAll(n, moves).script == n.script
  {
    if moves != [] {
      var k := |moves| - 1;
      MovesKeepMixed(n, moves[..k], past, tx, next, before);
      MoveKeepsMixed(AfterAll(n, moves[..k]), moves[k], past, tx, next, before);
    }
  }

  lemma {:induction false} MovesConcat(n: Net, a: seq<Move>, b: seq<Move>)
    ensures AfterAll(n, a + b) == AfterAll(AfterAll(n, a), b)
    decreases |b|
  {
    if b == [] {
      assert a + b == a;
    } else {
      var k := |b| - 1;
      assert (a + b)[..|a + b| - 1] == a + b[..k];
      MovesConcat(n, a, b[..k]);
    }
  }

  lemma {:induction false} LoseAnswers(n: Net, k: nat) returns (moves: seq<Move>)
    requires k <= |n.toClient|
    ensures AfterAll(n, moves) == n.(toClient := n.toClient[k..])
  {
    moves := [];
    if k > 0 {
      var front := LoseAnswers(n, k - 1);
      moves := front + [LoseAnswer(0)];
      assert moves[..|moves| - 1] == front;
      assert Lose(n.toClient[k - 1..], 0) == n.toClient[k..];
    }
  }

  lemma {:induction false} LoseRequests(n: Net, k: nat) returns (moves: seq<Move>)
    requires k <= |n.toDevice|
    ensures AfterAll(n, moves) == n.(toDevice := n.toDevice[k..])
  {
    moves := [];
    if k > 0 {
      var front := LoseRequests(n, k - 1);
      moves := front + [LoseRequest(0)];
      assert moves[..|moves| - 1] == front;
      assert Lose(n.toDevice[k - 1..], 0) == n.toDevice[k..];
    }
  }

  /** The client has given up `tx` and puts `next` out under the same number: an answer it accepts
      is the device's to `next`, which the device has handled. To send it again is to repeat it. */
  ghost predicate NextIsSafe(n: Net, next: Packet, before: seq<Request>) {
    forall moves {:trigger AfterAll(n.(toDevice := n.toDevice + [next]), moves)} ::
      var m := AfterAll(n.(toDevice := n.toDevice + [next]), moves);
      m.toClient != [] && Accepts(next, m.toClient[0]) ==>
        |before| < |m.script| && m.handled == before + [RequestOf(next)] &&
        m.toClient[0] == Reply(m.script[|before|], next)
  }

  /** What the device would answer to `tx` does not pass for an answer to `next`. */
  predicate ToldApart(n: Net, tx: Packet, next: Packet, at: nat) {
    at >= |n.script| || !Accepts(next, Reply(n.script[at], tx))
  }

  /** After a failure the number is used again. That is safe exactly if the packet is the same, or
      the old one is gone without having been handled, or its answer is told apart. */
  lemma NextIsSafeIff(n: Net, past: Past, tx: Packet, next: Packet, before: seq<Request>)
    requires Waiting(n, past, tx, before) && next.seqNo == tx.seqNo
    ensures NextIsSafe(n, next, before) <==>
            next == tx || (n.handled == before && tx !in n.toDevice) || ToldApart(n, tx, next, |before|)
  {
    if next == tx || (n.handled == before && tx !in n.toDevice) {
      SameOrGone(n, past, tx, next, before);
    } else if ToldApart(n, tx, next, |before|) {
      Apart(n, past, tx, next, before);
    } else {
      OldAnswer(n, past, tx, next, before);
    }
  }

  /** Whatever became of the old packet, only sending the same one again is safe. */
  lemma OnlyRepeatIsSafe(tx: Packet, next: Packet)
    requires next.seqNo == tx.seqNo
    ensures next == tx <==>
            forall n, past, before :: Waiting(n, past, tx, before) ==> NextIsSafe(n, next, before)
  {
    if next == tx {
      forall n, past, before | Waiting(n, past, tx, before) ensures NextIsSafe(n, next, before) {
        NextIsSafeIff(n, past, tx, next, before);
      }
    } else {
      var last := Packet(ID_FASTBOOT, FLAG_NONE, if tx.seqNo == 0 then 0xFFFF else tx.seqNo - 1, []);
      var n := Net([tx], [], tx.seqNo, last, [], [Answer(true, false, [])]);
      assert n.toDevice[0] == tx;
      assert Waiting(n, Past(last, last), tx, []);
      NextIsSafeIff(n, Past(last, last), tx, next, []);
    }
  }

  lemma SameOrGone(n: Net, past: Past, tx: Packet, next: Packet, before: seq<Request>)
    requires Waiting(n, past, tx, before) && next.seqNo == tx.seqNo
    requires next == tx || (n.handled == before && tx !in n.toDevice)
    ensures NextIsSafe(n, next, before)
  {
    assert Waiting(n, past, next, before);
    SendKeeps(n, past, next, before);
    var sent := n.(toDevice := n.toDevice + [next]);
    forall moves | AfterAll(sent, moves).toClient != [] && Accepts(next, AfterAll(sent, moves).toClient[0])
      ensures var m := AfterAll(sent, moves);
              && |before| < |m.script| && m.handled == before + [RequestOf(next)]
              && m.toClient[0] == Reply(m.script[|before|], next)
    {
      hide Waiting;
      MovesKeepWaiting(sent, moves, past, next, before);
      TakeAnswer(AfterAll(sent, moves), past, next, before);
    }
  }

  lemma Apart(n: Net, past: Past, tx: Packet, next: Packet, before: seq<Request>)
    requires Waiting(n, past, tx, before) && next.seqNo == tx.seqNo && ToldApart(n, tx, next, |before|)
    ensures NextIsSafe(n, next, before)
  {
    var sent := n.(toDevice := n.toDevice + [next]);
    assert Mixed(sent, past, tx, next, before);
    forall moves | AfterAll(sent, moves).toClient != [] && Accepts(next, AfterAll(sent, moves).toClient[0])
      ensures var m := AfterAll(sent, moves);
              && |before| < |m.script| && m.handled == before + [RequestOf(next)]
              && m.toClient[0] == Reply(m.script[|before|], next)
    {
      MovesKeepMixed(sent, moves, past, tx, next, before);
    }
  }

  /** Otherwise the answer to the old packet can be taken for one to the new. */
  lemma OldAnswer(n: Net, past: Past, tx: Packet, next: Packet, before: seq<Request>)
    requires Waiting(n, past, tx, before) && next.seqNo == tx.seqNo && next != tx
    requires n.handled != before || tx in n.toDevice
    requires !ToldApart(n, tx, next, |before|)
    ensures !NextIsSafe(n, next, before)
  {
    var sent := n.(toDevice := n.toDevice + [next]);
    var a := LoseAnswers(sent, |sent.toClient|);
    var quiet := AfterAll(sent, a);
    assert quiet.toClient == [];
    var i := if n.handled == before then FirstOf(n.toDevice, tx) else 0;
    var b := LoseRequests(quiet, i);
    var there := AfterAll(quiet, b);
    assert there.toDevice[0] == sent.toDevice[i];
    MovesConcat(sent, a, b);
    assert (a + b + [DeviceMoves])[..|a + b|] == a + b;
    var m := AfterAll(sent, a + b + [DeviceMoves]);
    assert m == DeviceTurn(there);
    assert m.handled == before + [RequestOf(tx)];
    assert m.toClient == [Reply(n.script[|before|], tx)];
    assert m.handled[|before|] != RequestOf(next);
  }

  function FirstOf(s: seq<Packet>, p: Packet): (i: nat)
    requires p in s
    ensures i < |s| && s[i] == p
  {
    if s[0] == p then 0 else 1 + FirstOf(s[1..], p)
  }

  // ---------- a logical packet: continuations ----------

  /** The requests a device handles for one logical packet, and the bytes it answers with. */
  datatype Talk = Talk(requests: seq<Request>, data: Bytes, errors: Bytes)

  function ReplyId(a: Answer, id: Byte): Byte {
    if a.isError then ID_ERROR else id
  }

  /** From answer number `at` on: the request, then an empty prompt for each answer that
      announces more. None if the device runs out of answers first. */
  function Dialogue(script: seq<Answer>, at: nat, rq: Request): Option<Talk>
    decreases |script| - at
  {
    if at >= |script| then None
    else
      var a := script[at];
      var id := ReplyId(a, rq.id);
      var data, errors := if id == ID_ERROR then [] else Clip(a.data), if id == ID_ERROR then Clip(a.data) else [];
      if !a.more then Some(Talk([rq], data, errors))
      else match Dialogue(script, at + 1, Request(id, FLAG_NONE, []))
        case None => None
        case Some(t) => Some(Talk([rq] + t.requests, data + t.data, errors + t.errors))
  }

  /** The bytes the device was sent. */
  function Consumed(rs: seq<Request>): Bytes {
    if rs == [] then [] else rs[0].data + Consumed(rs[1..])
  }

  lemma {:induction false} ConsumedConcat(a: seq<Request>, b: seq<Request>)
    ensures Consumed(a + b) == Consumed(a) + Consumed(b)
  {
    if a == [] {
      assert a + b == b;
    } else {
      assert (a + b)[1..] == a[1..] + b;
      ConsumedConcat(a[1..], b);
    }
  }

  /** Concatenated data of `n` answers from number `at` on. */
  function Answered(script: seq<Answer>, at: nat, n: nat): Bytes
    requires at + n <= |script|
    decreases n
  {
    if n == 0 then [] else Clip(script[at].data) + Answered(script, at + 1, n - 1)
  }

  /** A dialogue carries the payload once, uses one answer a request, ends at the first answer
      that announces no more, and splits the answers' bytes into data and errors; without an
      error answer the data is all of them, in order. */
  lemma {:induction false} DialogueFacts(script: seq<Answer>, at: nat, rq: Request)
    requires Dialogue(script, at, rq).Some?
    ensures var t := Dialogue(script, at, rq).value;
            var end := at + |t.requests|;
            && 0 < |t.requests| && end <= |script| && t.requests[0] == rq && Consumed(t.requests) == rq.data
            && (forall i :: 1 <= i < |t.requests| ==> t.requests[i].data == [])
            && (forall i :: at <= i < end ==> (script[i].more <==> i < end - 1))
            && ((rq.id != ID_ERROR && forall i :: at <= i < end ==> !script[i].isError) ==>
                  t.data == Answered(script, at, |t.requests|) && t.errors == [])
            && |t.data| + |t.errors| == |Answered(script, at, |t.requests|)|
    decreases |script| - at
  {
    var a := script[at];
    if a.more {
      var id := ReplyId(a, rq.id);
      DialogueFacts(script, at + 1, Request(id, FLAG_NONE, []));
      var u := Dialogue(script, at + 1, Request(id, FLAG_NONE, [])).value;
      assert ([rq] + u.requests)[1..] == u.requests;
    } else {
      assert [rq][1..] == [];
      assert Answered(script, at, 1) == Clip(a.data) + [];
    }
  }

  /** How many of `n` answers come before the first that is an error. */
  function BeforeError(script: seq<Answer>, at: nat, n: nat): (e: nat)
    requires at + n <= |script|
    ensures e <= n && (forall i :: at <= i < at + e ==> !script[i].isError) && (e < n ==> script[at + e].isError)
    decreases n
  {
    if n == 0 || script[at].isError then 0 else 1 + BeforeError(script, at + 1, n - 1)
  }

  /** The first error among the answers to a packet; all of them to one that is an error itself. */
  function FirstError(script: seq<Answer>, at: nat, id: Byte, n: nat): (e: nat)
    requires at + n <= |script|
    ensures e <= n
  {
    if id == 0 then 0 else BeforeError(script, at, n)
  }

  /** Prompts repeat the packet's identifier, or carry that of an error once there was one. */
  ghost predicate Prompts(rs: seq<Request>, id: Byte, e: nat) {
    forall i :: 1 <= i < |rs| ==> rs[i] == Request(if i <= e then id else 0, 0, [])
  }

  ghost predicate Splits(script: seq<Answer>, at: nat, rq: Request, t: Talk) {
    var n := |t.requests|;
    && 0 < n && at + n <= |script| && t.requests[0] == rq
    && var e := FirstError(script, at, rq.id, n);
       && t.data == Answered(script, at, e) && t.errors == Answered(script, at + e, n - e)
       && Prompts(t.requests, rq.id, e)
  }

  lemma FirstErrorStep(script: seq<Answer>, at: nat, id: Byte, n: nat)
    requires 0 < n && at + n <= |script|
    ensures FirstError(script, at, id, n) ==
            if ReplyId(script[at], id) == 0 then 0 else 1 + FirstError(script, at + 1, id, n - 1)
  {}

  lemma PromptsStep(rq: Request, rs: seq<Request>, id: Byte, e: nat)
    requires rs != [] && Prompts(rs, id, e) && rs[0] == Request(id, 0, []) && (id == rq.id || (id == 0 && e == 0))
    ensures Prompts([rq] + rs, rq.id, if id == 0 then 0 else e + 1)
  {
    var all := [rq] + rs;
    assert forall i :: 1 <= i < |all| ==> all[i] == rs[i - 1];
  }

  lemma SplitsStep(script: seq<Answer>, at: nat, rq: Request, u: Talk)
    requires at < |script|
    requires var id := ReplyId(script[at], rq.id); Splits(script, at + 1, Request(id, 0, []), u)
    ensures var id, got := ReplyId(script[at], rq.id), Clip(script[at].data);
            Splits(script, at, rq, Talk([rq] + u.requests, (if id == 0 then [] else got) + u.data,
                                        (if id == 0 then got else []) + u.errors))
  {
    hide Prompts, FirstError, Clip;
    var id, n := ReplyId(script[at], rq.id), |u.requests|;
    var e := FirstError(script, at + 1, id, n);
    FirstErrorStep(script, at, rq.id, n + 1);
    ZeroIsAllError(script, at + 1, n);
    PromptsStep(rq, u.requests, id, e);
    assert [] + u.data == u.data && [] + u.errors == u.errors;
  }

  lemma ZeroIsAllError(script: seq<Answer>, at: nat, n: nat)
    requires at + n <= |script|
    ensures FirstError(script, at, 0, n) == 0
  {}

  lemma SplitsLast(script: seq<Answer>, at: nat, rq: Request)
    requires at < |script|
    ensures var id, got := ReplyId(script[at], rq.id), Clip(script[at].data);
            Splits(script, at, rq, Talk([rq], if id == 0 then [] else got, if id == 0 then got else []))
  {
    hide Clip;
    FirstErrorStep(script, at, rq.id, 1);
    assert Answered(script, at, 1) == Clip(script[at].data) + [];
  }

  /** The bytes up to the first error answer are data and those from it on are the error. */
  lemma {:induction false} DialogueSplits(script: seq<Answer>, at: nat, rq: Request)
    requires Dialogue(script, at, rq).Some?
    ensures Splits(script, at, rq, Dialogue(script, at, rq).value)
    decreases |script| - at
  {
    hide Splits, Clip;
    if script[at].more {
      var next := Request(ReplyId(script[at], rq.id), FLAG_NONE, []);
      DialogueSplits(script, at + 1, next);
      SplitsStep(script, at, rq, Dialogue(script, at + 1, next).value);
    } else {
      SplitsLast(script, at, rq);
    }
  }

  // ---------- a write: several logical packets ----------

  /** The packets of a write: full ones flagged as continued, then a last one; one empty packet for no bytes. */
  function Pieces(buf: Bytes, m: nat): seq<Request>
    requires m > 0
    decreases |buf|
  {
    if |buf| <= m then [Request(ID_FASTBOOT, FLAG_NONE, buf)]
    else [Request(ID_FASTBOOT, FLAG_CONTINUATION, buf[..m])] + Pieces(buf[m..], m)
  }

  /** The pieces carry the bytes in order, none over `m`, all but the last full and flagged. */
  lemma {:induction false} PiecesFacts(buf: Bytes, m: nat)
    requires m > 0
    ensures var ps := Pieces(buf, m);
            && ps != [] && Consumed(ps) == buf
            && (forall i :: 0 <= i < |ps| ==> ps[i].id == 3 && |ps[i].data| <= m)
            && (forall i :: 0 <= i < |ps| ==> ps[i].flags == if i < |ps| - 1 then 1 else 0)
            && (forall i :: 0 <= i < |ps| - 1 ==> |ps[i].data| == m)
    decreases |buf|
  {
    var ps := Pieces(buf, m);
    if |buf| <= m {
      assert ps[1..] == [] && buf + [] == buf;
    } else {
      PiecesFacts(buf[m..], m);
      assert ps[1..] == Pieces(buf[m..], m) && buf[..m] + buf[m..] == buf;
    }
  }

  /** What the device handles for several logical packets, if none of them fails. */
  function Conversation(script: seq<Answer>, at: nat, rs: seq<Request>): Option<seq<Request>>
    decreases |rs|
  {
    if rs == [] then Some([])
    else match Dialogue(script, at, rs[0])
      case None => None
      case Some(t) =>
        if t.errors != [] then None
        else match Conversation(script, at + |t.requests|, rs[1..])
          case None => None
          case Some(more) => Some(t.requests + more)
  }

  /** Prompts add nothing: the bytes and the packet sizes are those of the packets asked for. */
  lemma {:induction false} ConversationFacts(script: seq<Answer>, at: nat, rs: seq<Request>, m: nat)
    requires Conversation(script, at, rs).Some? && forall i :: 0 <= i < |rs| ==> |rs[i].data| <= m
    ensures var all := Conversation(script, at, rs).value;
            Consumed(all) == Consumed(rs) && forall i :: 0 <= i < |all| ==> |all[i].data| <= m
    decreases |rs|
  {
    if rs != [] {
      var t := Dialogue(script, at, rs[0]).value;
      var more := Conversation(script, at + |t.requests|, rs[1..]).value;
      ConversationFacts(script, at + |t.requests|, rs[1..], m);
      assert Consumed(t.requests) == rs[0].data && forall i :: 0 <= i < |t.requests| ==> |t.requests[i].data| <= m by {
        DialogueFacts(script, at, rs[0]);
      }
      ConsumedConcat(t.requests, more);
      assert Conversation(script, at, rs) == Some(t.requests + more);
    }
  }

  /** A device that answers each packet at once handles exactly the packets asked for. */
  lemma {:induction false} PlainConversation(script: seq<Answer>, at: nat, rs: seq<Request>)
    requires at + |rs| <= |script| && forall i :: at <= i < at + |rs| ==> !script[i].more && !script[i].isError
    requires forall i :: 0 <= i < |rs| ==> rs[i].id != ID_ERROR
    ensures Conversation(script, at, rs) == Some(rs)
    decreases |rs|
  {
    if rs != [] {
      PlainConversation(script, at + 1, rs[1..]);
      assert [rs[0]] + rs[1..] == rs;
    }
  }

  function Then(sent: seq<Request>, o: Option<seq<Request>>): Option<seq<Request>> {
    match o
    case None => None
    case Some(more) => Some(sent + more)
  }

  lemma ConversationStep(script: seq<Answer>, at: nat, rs: seq<Request>, sent: seq<Request>, t: Talk)
    requires rs != [] && Dialogue(script, at, rs[0]) == Some(t) && t.errors == []
    ensures Then(sent, Conversation(script, at, rs)) ==
            Then(sent + t.requests, Conversation(script, at + |t.requests|, rs[1..]))
  {
    var o := Conversation(script, at + |t.requests|, rs[1..]);
    assert o.Some? ==> sent + (t.requests + o.value) == sent + t.requests + o.value;
  }

  lemma ConsumedNothing()
    ensures Consumed([]) == []
  {}

  lemma ConsumedSnoc(rs: seq<Request>, r: Request)
    ensures Consumed(rs + [r]) == Consumed(rs) + r.data
  {
    ConsumedConcat(rs, [r]);
    assert Consumed([r]) == r.data + [] && [r][1..] == [];
  }

  lemma ConsumedPrefix(rs: seq<Request>, i: nat)
    requires i <= |rs|
    ensures Consumed(rs[..i]) <= Consumed(rs)
  {
    hide Consumed;
    ConsumedConcat(rs[..i], rs[i..]);
    assert rs[..i] + rs[i..] == rs;
  }

  lemma ConsumedFront(rs: seq<Request>, i: nat)
    requires i < |rs|
    ensures Consumed(rs[..i + 1]) == Consumed(rs[..i]) + rs[i].data
  {
    ConsumedSnoc(rs[..i], rs[i]);
    assert rs[..i] + [rs[i]] == rs[..i + 1];
  }

  // ---------- the client ----------

  /** What the socket does: a datagram goes out or not, one comes in, nothing comes in time, or receiving fails. */
  datatype Event = Sent(packet: Packet) | Unsent(packet: Packet) | Got(packet: Packet) | TimedOut | Failed

  /** Attempts to have `tx` answered: each sends it, and nothing with its number comes back. */
  ghost predicate Fruitless(events: seq<Event>, tx: Packet) {
    && |events| % 2 == 0
    && forall i :: 0 <= i < |events| ==>
         if i % 2 == 0 then events[i] == Sent(tx)
         else events[i].TimedOut? || (events[i].Got? && events[i].packet.seqNo != tx.seqNo)
  }

  /** All the attempts allowed, or fewer and then an error of the socket, on sending or on receiving. */
  ghost predicate GaveUp(events: seq<Event>, tx: Packet, retries: nat) {
    var n := |events|;
    || (n == 2 * (retries + 1) && Fruitless(events, tx))
    || (0 < n <= 2 * retries + 1 && Fruitless(events[..n - 1], tx) && events[n - 1] == Unsent(tx))
    || (1 < n <= 2 * (retries + 1) && Fruitless(events[..n - 2], tx) && events[n - 2..] == [Sent(tx), Failed])
  }

  /** After `before` came some exchanges, and then, from `began` on, one for `tx` that was given up. */
  ghost predicate Lost(before: seq<Event>, log: seq<Event>, began: nat, tx: Packet, retries: nat) {
    before <= log && |before| <= began <= |log| && GaveUp(log[began..], tx, retries)
  }

  lemma FruitlessNothing(tx: Packet)
    ensures Fruitless([], tx)
  {}

  /** One more attempt that brought nothing. */
  lemma FruitlessStep(events: seq<Event>, tx: Packet, e: Event)
    requires Fruitless(events, tx) && (e.TimedOut? || (e.Got? && e.packet.seqNo != tx.seqNo))
    ensures Fruitless(events + [Sent(tx), e], tx)
  {}

  lemma LostSo(before: seq<Event>, events: seq<Event>, log: seq<Event>, tx: Packet, retries: nat)
    requires log == before + events && GaveUp(events, tx, retries)
    ensures Lost(before, log, |before|, tx, retries)
  {
    assert log[|before|..] == events;
  }

  lemma LostUnsent(before: seq<Event>, events: seq<Event>, log: seq<Event>, tx: Packet, retries: nat)
    requires log == before + events + [Unsent(tx)] && Fruitless(events, tx) && |events| <= 2 * retries
    ensures Lost(before, log, |before|, tx, retries)
  {
    hide Fruitless;
    var all := events + [Unsent(tx)];
    assert all[..|all| - 1] == events;
    LostSo(before, all, log, tx, retries);
  }

  lemma LostFailed(before: seq<Event>, events: seq<Event>, log: seq<Event>, tx: Packet, retries: nat)
    requires log == before + events + [Sent(tx)] + [Failed] && Fruitless(events, tx) && |events| <= 2 * retries
    ensures Lost(before, log, |before|, tx, retries)
  {
    hide Fruitless;
    var all := events + [Sent(tx), Failed];
    assert all[..|all| - 2] == events && all[|all| - 2..] == [Sent(tx), Failed];
    LostSo(before, all, log, tx, retries);
  }

  lemma LostLater(before: seq<Event>, middle: seq<Event>, log: seq<Event>, began: nat, tx: Packet, retries: nat)
    requires before <= middle && Lost(middle, log, began, tx, retries)
    ensures Lost(before, log, began, tx, retries)
  {}

  /** The socket: each call lets the channels and the device make any moves. */
  class Network {
    var st: Net

    /** Everything the socket has given. */
    ghost var log: seq<Event>

    constructor (n: Net)
      ensures st == n && log == []
    {
      st, log := n, [];
    }

    method Send(p: Packet) returns (ok: bool, ghost moves: seq<Move>)
      modifies this
      ensures log == old(log) + [if ok then Sent(p) else Unsent(p)]
      ensures st == AfterAll(if ok then old(st).(toDevice := old(st).toDevice + [p]) else old(st), moves)
    {
      ok := *;
      if ok {
        st := st.(toDevice := st.toDevice + [p]);
      }
      log := log + [if ok then Sent(p) else Unsent(p)];
      var any: seq<Move> := *;
      st, moves := AfterAll(st, any), any;
    }

    method Recv() returns (e: Event, ghost moves: seq<Move>)
      modifies this
      ensures log == old(log) + [e] && (e.Got? || e.TimedOut? || e.Failed?)
      ensures var now := AfterAll(old(st), moves);
              if e.Got? then
                now.toClient != [] && e.packet == now.toClient[0] && st == now.(toClient := now.toClient[1..])
              else st == now
    {
      var any: seq<Move> := *;
      st, moves := AfterAll(st, any), any;
      var arrives: bool := *;
      if arrives && st.toClient != [] {
        e := Got(st.toClient[0]);
        st := st.(toClient := st.toClient[1..]);
      } else {
        var broken: bool := *;
        e := if broken then Failed else TimedOut;
      }
      log := log + [e];
    }
  }

  datatype SendResult = Acked(data: Bytes) | ProtocolError(message: Bytes) | IoError

  datatype IoResult<T> = Done(value: T) | InvalidData | Other

  function Prefixed(sent: seq<Request>, data: Bytes, errors: Bytes, o: Option<Talk>): Option<Talk> {
    match o
    case None => None
    case Some(t) => Some(Talk(sent + t.requests, data + t.data, errors + t.errors))
  }

  lemma PrefixedNothing(o: Option<Talk>)
    ensures Prefixed([], [], [], o) == o
  {
    if o.Some? {
      assert [] + o.value.requests == o.value.requests;
      assert [] + o.value.data == o.value.data;
      assert [] + o.value.errors == o.value.errors;
    }
  }

  /** One round of a dialogue in which the device announces more. */
  lemma DialogueStep(script: seq<Answer>, at: nat, rq: Request, sent: seq<Request>, data: Bytes, errors: Bytes)
    requires at < |script|
    ensures var a := script[at];
            var id := ReplyId(a, rq.id);
            var got := Clip(a.data);
            var data' := data + (if id == ID_ERROR then [] else got);
            var errors' := errors + (if id == ID_ERROR then got else []);
            && (a.more ==> Prefixed(sent, data, errors, Dialogue(script, at, rq)) ==
                           Prefixed(sent + [rq], data', errors', Dialogue(script, at + 1, Request(id, FLAG_NONE, []))))
            && (!a.more ==>
                Prefixed(sent, data, errors, Dialogue(script, at, rq)) == Some(Talk(sent + [rq], data', errors')))
  {
    var a := script[at];
    if a.more {
      var id := ReplyId(a, rq.id);
      var o := Dialogue(script, at + 1, Request(id, FLAG_NONE, []));
      if o.Some? {
        var d, e := if id == ID_ERROR then [] else Clip(a.data), if id == ID_ERROR then Clip(a.data) else [];
        assert sent + ([rq] + o.value.requests) == sent + [rq] + o.value.requests;
        assert data + (d + o.value.data) == data + d + o.value.data;
        assert errors + (e + o.value.errors) == errors + e + o.value.errors;
      }
    }
  }

  class UdpTransport {
    const net: Network
    var seqNo: U16
    var maxPacketSize: nat
    var maxRetries: nat
    var readBuf: Bytes
    var readPos: nat
    ghost var past: Past

    /** Where in the log the last exchange began, and its packet. */
    ghost var began: nat
    ghost var tried: Packet

    /** After a handshake, and between calls that did not fail on the wire. */
    ghost predicate Valid()
      reads this, net
    {
      && 512 <= maxPacketSize <= 8192
      && Quiet(net.st, past, seqNo)
    }

    ghost function Handled(): seq<Request>
      reads net
    {
      net.st.handled
    }

    /** The bytes of an earlier answer not read yet. */
    ghost function Unread(): Bytes
      requires readPos <= |readBuf|
      reads this`readBuf, this`readPos
    {
      readBuf[readPos..]
    }

    /** The last exchange, with the number the client still has, was given up. Its packet may be on
        the way or handled: the state that `NextIsSafeIff` starts from. */
    ghost predicate LastLost(before: seq<Event>)
      reads this, net
    {
      && tried.seqNo == seqNo && Lost(before, net.log, began, tried, maxRetries)
      && Unsettled(net.st, past, tried)
    }

    ghost function Script(): seq<Answer>
      reads net
    {
      net.st.script
    }

    constructor (network: Network, start: U16, packetSize: nat, retries: nat, ghost handshake: Past)
      requires MIN_PACKET_SIZE <= packetSize <= HOST_MAX_PACKET_SIZE && Quiet(network.st, handshake, start)
      ensures Valid() && net == network && seqNo == start && maxPacketSize == packetSize && maxRetries == retries
      ensures readBuf == [] && readPos == 0
    {
      net, seqNo, maxPacketSize, maxRetries := network, start, packetSize, retries;
      readBuf, readPos, past, began, tried := [], 0, handshake, |network.log|, handshake.request;
    }

    /** The retry loop: sends until an answer with this number arrives. The device handles the
        packet once if an answer is returned, and at most once otherwise. It gives up only after all
        attempts have gone without an answer to this packet, or on an error of the socket; then the
        same packet may be tried again, and is still handled at most once. */
    method Transmit(tx: Packet, ghost before: seq<Request>) returns (answer: Option<Packet>)
      requires Waiting(net.st, past, tx, before) && tx.seqNo == seqNo
      modifies this`began, this`tried, net
      ensures Script() == old(Script()) && began == |old(net.log)| && tried == tx && old(net.log) <= net.log
      ensures answer.Some? ==>
                && |before| < |Script()| && Handled() == before + [RequestOf(tx)]
                && answer.value == Reply(Script()[|before|], tx)
                && Quiet(net.st, Past(tx, answer.value), Succ(seqNo))
      ensures answer.None? ==>
                && Waiting(net.st, past, tx, before) && (Handled() == before || Handled() == before + [RequestOf(tx)])
                && Lost(old(net.log), net.log, began, tx, maxRetries)
    {
      hide Waiting, Quiet, Fruitless;
      ghost var log0, events: seq<Event> := net.log, [];
      began, tried := |net.log|, tx;
      FruitlessNothing(tx);
      for attempt := 0 to maxRetries + 1
        invariant Waiting(net.st, past, tx, before) && Script() == old(Script())
        invariant began == |log0| && tried == tx
        invariant net.log == log0 + events && |events| == 2 * attempt && Fruitless(events, tx)
      {
        ghost var st := net.st;
        var ok, moves := net.Send(tx);
        SendKeeps(st, past, tx, before);
        MovesKeepWaiting(if ok then st.(toDevice := st.toDevice + [tx]) else st, moves, past, tx, before);
        if !ok {
          TwoNumbers(net.st, past, tx, before);
          LostUnsent(log0, events, net.log, tx, maxRetries);
          return None;
        }
        st := net.st;
        var e, more := net.Recv();
        MovesKeepWaiting(st, more, past, tx, before);
        if e.Failed? {
          TwoNumbers(net.st, past, tx, before);
          LostFailed(log0, events, net.log, tx, maxRetries);
          return None;
        }
        if e.Got? {
          TakeAnswer(AfterAll(st, more), past, tx, before);
          if !Accepts(tx, e.packet) {
            FruitlessStep(events, tx, e);
            events := events + [Sent(tx), e];
            continue;
          }
          return Some(e.packet);
        }
        FruitlessStep(events, tx, e);
        events := events + [Sent(tx), e];
      }
      TwoNumbers(net.st, past, tx, before);
      LostSo(log0, events, net.log, tx, maxRetries);
      answer := None;
    }

    /** Sends one logical packet and collects its answer over any continuations. */
    method SendPacketWithAck(id: Byte, flags: Byte, payload: Bytes) returns (r: SendResult, ghost sent: seq<Request>)
      requires Valid()
      modifies this`seqNo, this`past, this`began, this`tried, net
      ensures Script() == old(Script()) && Handled() == old(Handled()) + sent && old(net.log) <= net.log
      ensures !r.IoError? ==>
                var o := Dialogue(Script(), |old(Handled())|, Request(id, flags, payload));
                && Valid() && o.Some? && sent == o.value.requests
                && r == if o.value.errors == [] then Acked(o.value.data) else ProtocolError(o.value.errors)
      ensures r.IoError? ==> (Consumed(sent) == [] || Consumed(sent) == payload) && LastLost(old(net.log))
    {
      hide Dialogue, Prefixed, Lost, Waiting, Unsettled, Consumed;
      ghost var h0, goal := Handled(), Dialogue(Script(), |Handled()|, Request(id, flags, payload));
      var txId, tx, txFlags := id, payload, flags;
      var result: Bytes, errorData: Bytes := [], [];
      ghost var log0 := net.log;
      sent := [];
      PrefixedNothing(goal);
      ConsumedNothing();
      while true
        invariant Valid() && Script() == old(Script()) && Handled() == h0 + sent && log0 <= net.log
        invariant goal == Prefixed(sent, result, errorData, Dialogue(Script(), |Handled()|, Request(txId, txFlags, tx)))
        invariant if sent == [] then tx == payload else tx == [] && Consumed(sent) == payload
        decreases |Script()| - |Handled()|
      {
        ghost var at := |Handled()|;
        var packet := Packet(txId, txFlags, seqNo, tx);
        ghost var log1 := net.log;
        SendOpens(net.st, past, packet);
        var answer := Transmit(packet, Handled());
        ConsumedSnoc(sent, RequestOf(packet));
        ConcatAssoc(h0, sent, [RequestOf(packet)]);
        if answer.None? {
          LostLater(log0, log1, net.log, began, tried, maxRetries);
          LeftUnsettled(net.st, past, packet, h0 + sent);
          if Handled() != h0 + sent {
            sent := sent + [RequestOf(packet)];
          }
          return IoError, sent;
        }
        DialogueStep(Script(), at, RequestOf(packet), sent, result, errorData);
        sent := sent + [RequestOf(packet)];
        assert result + [] == result && errorData + [] == errorData;
        seqNo, past := Succ(seqNo), Past(packet, answer.value);
        if answer.value.id == ID_ERROR {
          errorData := errorData + answer.value.data;
        } else {
          result := result + answer.value.data;
        }
        if answer.value.flags % 2 == 0 {
          if errorData != [] {
            return ProtocolError(errorData), sent;
          }
          return Acked(result), sent;
        }
        txId, tx, txFlags := answer.value.id, [], FLAG_NONE;
      }
    }

    /** `Read::read` into a buffer of `room` bytes: what a caller left of an earlier answer, or
        the whole of the device's next one. */
    method Read(room: nat) returns (r: IoResult<Bytes>, ghost sent: seq<Request>)
      requires Valid() && readPos <= |readBuf|
      modifies this`seqNo, this`past, this`began, this`tried, this`readBuf, this`readPos, net
      ensures readPos <= |readBuf| && Script() == old(Script()) && Handled() == old(Handled()) + sent
      ensures old(net.log) <= net.log
      ensures old(readPos) < |old(readBuf)| ==>
                && r.Done? && Valid() && sent == []
                && r.value + readBuf[readPos..] == old(readBuf[readPos..])
                && |r.value| == if room < |old(readBuf)| - old(readPos) then room else |old(readBuf)| - old(readPos)
      ensures old(readPos) == |old(readBuf)| ==>
                unchanged(this`readBuf) && unchanged(this`readPos) && Consumed(sent) == []
      ensures old(readPos) == |old(readBuf)| && !r.Other? ==>
                var o := Dialogue(Script(), |old(Handled())|, Request(ID_FASTBOOT, FLAG_NONE, []));
                && Valid() && o.Some? && o.value.errors == [] && sent == o.value.requests
                && r == if |o.value.data| > room then InvalidData else Done(o.value.data)
      ensures r.Other? ==>
                var o := Dialogue(Script(), |old(Handled())|, Request(ID_FASTBOOT, FLAG_NONE, []));
                (o.Some? && o.value.errors != []) || LastLost(old(net.log))
    {
      hide Lost, Waiting, Unsettled;
      if readPos < |readBuf| {
        var n := if room < |readBuf| - readPos then room else |readBuf| - readPos;
        r, sent := Done(readBuf[readPos..readPos + n]), [];
        readPos := readPos + n;
        if readPos >= |readBuf| {
          readBuf, readPos := [], 0;
        }
        return;
      }
      var payload;
      payload, sent := SendPacketWithAck(ID_FASTBOOT, FLAG_NONE, []);
      if !payload.IoError? {
        DialogueFacts(Script(), |old(Handled())|, Request(ID_FASTBOOT, FLAG_NONE, []));
      }
      if !payload.Acked? {
        return Other, sent;
      }
      if |payload.data| > room {
        return InvalidData, sent;
      }
      r := Done(payload.data);
    }

    /** `Write::write`: the buffer in packets within the negotiated size, in order; the device
        consumes it once. After an error it has consumed a front part of it. */
    method Write(buf: Bytes) returns (r: IoResult<nat>, ghost sent: seq<Request>)
      requires Valid()
      modifies this`seqNo, this`past, this`began, this`tried, net
      ensures Script() == old(Script()) && Handled() == old(Handled()) + sent && old(net.log) <= net.log
      ensures !r.Done? ==> Consumed(sent) <= buf
      ensures !r.Done? ==>
                || Conversation(Script(), |old(Handled())|, Pieces(buf, maxPacketSize - HEADER_LEN)) == None
                || LastLost(old(net.log))
      ensures r.Done? ==>
                && Valid() && r.value == |buf| && Consumed(sent) == buf
                && Conversation(Script(), |old(Handled())|, Pieces(buf, maxPacketSize - HEADER_LEN)) == Some(sent)
                && forall i :: 0 <= i < |sent| ==> 4 + |sent[i].data| <= maxPacketSize
    {
      hide Dialogue, Conversation, Consumed, Writing, Pieces, Lost, Waiting, Unsettled;
      var maxPayload := if maxPacketSize <= HEADER_LEN then 1 else maxPacketSize - HEADER_LEN;
      var pieces := Pieces(buf, maxPayload);
      PiecesFacts(buf, maxPayload);
      ghost var h0, log0 := Handled(), net.log;
      sent := [];
      WritingStarts(Script(), |h0|, pieces);
      for i := 0 to |pieces|
        invariant Valid() && Script() == old(Script()) && Handled() == h0 + sent && log0 <= net.log
        invariant Writing(Script(), |h0|, pieces, i, sent)
      {
        ghost var log1 := net.log;
        var a, part := SendPacketWithAck(pieces[i].id, pieces[i].flags, pieces[i].data);
        ConcatAssoc(h0, sent, part);
        if !a.IoError? {
          DialogueFacts(Script(), |h0 + sent|, pieces[i]);
        }
        WritingStops(Script(), |h0|, pieces, i, sent, part);
        if !a.Acked? {
          if a.ProtocolError? {
            WritingRefused(Script(), |h0|, pieces, i, sent);
          } else {
            LostLater(log0, log1, net.log, began, tried, maxRetries);
          }
          return Other, sent + part;
        }
        WritingStep(Script(), |h0|, pieces, i, sent, Dialogue(Script(), |h0 + sent|, pieces[i]).value);
        sent := sent + part;
      }
      WritingDone(Script(), |h0|, pieces, sent, maxPayload);
      r := Done(|buf|);
    }
  }

  /** The first `i` packets of a write are through: `sent` is what the device handled for them. */
  ghost predicate Writing(script: seq<Answer>, at: nat, pieces: seq<Request>, i: nat, sent: seq<Request>) {
    && i <= |pieces| && Consumed(sent) == Consumed(pieces[..i])
    && Conversation(script, at, pieces) == Then(sent, Conversation(script, at + |sent|, pieces[i..]))
  }

  lemma WritingStarts(script: seq<Answer>, at: nat, pieces: seq<Request>)
    ensures Writing(script, at, pieces, 0, [])
  {
    var o := Conversation(script, at, pieces);
    assert pieces[0..] == pieces && pieces[..0] == [];
    assert o.Some? ==> [] + o.value == o.value;
  }

  /** Whatever of a packet arrived, the device has consumed a front part of the buffer. */
  lemma WritingStops(script: seq<Answer>, at: nat, pieces: seq<Request>, i: nat, sent: seq<Request>, part: seq<Request>)
    requires Writing(script, at, pieces, i, sent) && i < |pieces|
    requires Consumed(part) == [] || Consumed(part) == pieces[i].data
    ensures Consumed(sent + part) <= Consumed(pieces)
  {
    ConsumedConcat(sent, part);
    if Consumed(part) == [] {
      ConsumedPrefix(pieces, i);
    } else {
      ConsumedFront(pieces, i);
      ConsumedPrefix(pieces, i + 1);
    }
  }

  /** A packet that the device answers with an error ends the write. */
  lemma WritingRefused(script: seq<Answer>, at: nat, pieces: seq<Request>, i: nat, sent: seq<Request>)
    requires Writing(script, at, pieces, i, sent) && i < |pieces|
    requires var o := Dialogue(script, at + |sent|, pieces[i]); o.Some? && o.value.errors != []
    ensures Conversation(script, at, pieces) == None
  {
    hide Dialogue, Consumed;
    assert pieces[i..][0] == pieces[i];
    assert Conversation(script, at + |sent|, pieces[i..]) == None;
  }

  lemma WritingStep(script: seq<Answer>, at: nat, pieces: seq<Request>, i: nat, sent: seq<Request>, t: Talk)
    requires Writing(script, at, pieces, i, sent) && i < |pieces|
    requires Dialogue(script, at + |sent|, pieces[i]) == Some(t) && t.errors == []
    ensures Writing(script, at, pieces, i + 1, sent + t.requests)
  {
    hide Dialogue, Consumed, Conversation;
    assert Consumed(sent + t.requests) == Consumed(pieces[..i + 1]) by {
      ConsumedConcat(sent, t.requests);
      ConsumedFront(pieces, i);
      DialogueFacts(script, at + |sent|, pieces[i]);
    }
    assert pieces[i..][1..] == pieces[i + 1..];
    ConversationStep(script, at + |sent|, pieces[i..], sent, t);
  }

  lemma WritingDone(script: seq<Answer>, at: nat, pieces: seq<Request>, sent: seq<Request>, m: nat)
    requires Writing(script, at, pieces, |pieces|, sent) && forall i :: 0 <= i < |pieces| ==> |pieces[i].data| <= m
    ensures Conversation(script, at, pieces) == Some(sent) && Consumed(sent) == Consumed(pieces)
    ensures forall i :: 0 <= i < |sent| ==> |sent[i].data| <= m
  {
    assert pieces[|pieces|..] == [] && pieces[..|pieces|] == pieces && sent + [] == sent;
    ConversationFacts(script, at, pieces, m);
  }

  // ---------- whole sessions ----------

  datatype Call = ReadCall(room: nat) | WriteCall(buf: Bytes)

  /** What a call that does not fail gives; an answer larger than the buffer is refused. */
  datatype Outcome = Received(data: Bytes) | TooLarge | Written(n: nat)

  /** What one call should do, after `at` requests and with `unread` bytes kept: its outcome, the
      requests the device handles for it, and the bytes kept. None if the device answers with an
      error or has no answer. */
  datatype Effect = Effect(outcome: Outcome, handled: seq<Request>, unread: Bytes)

  function Expected(script: seq<Answer>, at: nat, unread: Bytes, call: Call, m: nat): Option<Effect>
    requires m > 0
  {
    match call
    case WriteCall(buf) =>
      (match Conversation(script, at, Pieces(buf, m))
       case None => None
       case Some(sent) => Some(Effect(Written(|buf|), sent, unread)))
    case ReadCall(room) =>
      if unread != [] then
        var n := if room < |unread| then room else |unread|;
        Some(Effect(Received(unread[..n]), [], unread[n..]))
      else
        match Dialogue(script, at, Request(ID_FASTBOOT, FLAG_NONE, []))
        case None => None
        case Some(t) =>
          if t.errors != [] then None
          else Some(Effect(if |t.data| > room then TooLarge else Received(t.data), t.requests, []))
  }

  /** The same for several calls, one after the other. */
  datatype Story = Story(outcomes: seq<Outcome>, handled: seq<Request>, unread: Bytes)

  function Play(script: seq<Answer>, at: nat, unread: Bytes, calls: seq<Call>, m: nat): Option<Story>
    requires m > 0
  {
    if calls == [] then Some(Story([], [], unread))
    else
      match Play(script, at, unread, calls[..|calls| - 1], m)
      case None => None
      case Some(s) =>
        match Expected(script, at + |s.handled|, s.unread, calls[|calls| - 1], m)
        case None => None
        case Some(e) => Some(Story(s.outcomes + [e.outcome], s.handled + e.handled, e.unread))
  }

  function WrittenBytes(calls: seq<Call>): Bytes {
    if calls == [] then []
    else
      var last := calls[|calls| - 1];
      WrittenBytes(calls[..|calls| - 1]) + if last.WriteCall? then last.buf else []
  }

  /** The device consumes what the writes of a call are given. */
  lemma ExpectedConsumes(script: seq<Answer>, at: nat, unread: Bytes, call: Call, m: nat)
    requires m > 0 && Expected(script, at, unread, call, m).Some?
    ensures Consumed(Expected(script, at, unread, call, m).value.handled) == if call.WriteCall? then call.buf else []
  {
    match call
    case WriteCall(buf) =>
      PiecesFacts(buf, m);
      ConversationFacts(script, at, Pieces(buf, m), m);
    case ReadCall(_) =>
      if unread == [] {
        DialogueFacts(script, at, Request(ID_FASTBOOT, FLAG_NONE, []));
      }
  }

  /** Over any calls, the device consumes the buffers written, once and in order, and nothing else. */
  lemma {:induction false} PlayConsumes(script: seq<Answer>, at: nat, unread: Bytes, calls: seq<Call>, m: nat)
    requires m > 0 && Play(script, at, unread, calls, m).Some?
    ensures var s := Play(script, at, unread, calls, m).value;
            Consumed(s.handled) == WrittenBytes(calls) && |s.outcomes| == |calls|
    decreases |calls|
  {
    hide Expected;
    if calls != [] {
      var k := |calls| - 1;
      PlayConsumes(script, at, unread, calls[..k], m);
      var s := Play(script, at, unread, calls[..k], m).value;
      ExpectedConsumes(script, at + |s.handled|, s.unread, calls[k], m);
      ConsumedConcat(s.handled, Expected(script, at + |s.handled|, s.unread, calls[k], m).value.handled);
    }
  }

  lemma PlayStep(script: seq<Answer>, at: nat, unread: Bytes, calls: seq<Call>, i: nat, m: nat)
    requires m > 0 && i < |calls| && Play(script, at, unread, calls[..i], m).Some?
    ensures var s := Play(script, at, unread, calls[..i], m).value;
            var o := Expected(script, at + |s.handled|, s.unread, calls[i], m);
            Play(script, at, unread, calls[..i + 1], m) ==
            if o.None? then None
            else Some(Story(s.outcomes + [o.value.outcome], s.handled + o.value.handled, o.value.unread))
  {
    hide Expected;
    assert calls[..i + 1][..i] == calls[..i];
  }

  /** One call, against what it should do. */
  method MakeCall(t: UdpTransport, call: Call) returns (r: Option<Outcome>, ghost sent: seq<Request>)
    requires t.Valid() && t.readPos <= |t.readBuf|
    modifies t`seqNo, t`past, t`began, t`tried, t`readBuf, t`readPos, t.net
    ensures t.readPos <= |t.readBuf| && t.Script() == old(t.Script()) && t.Handled() == old(t.Handled()) + sent
    ensures old(t.net.log) <= t.net.log
    ensures var o := Expected(t.Script(), |old(t.Handled())|, old(t.Unread()), call, t.maxPacketSize - HEADER_LEN);
            && (r.Some? ==> t.Valid() && o == Some(Effect(r.value, sent, t.Unread())))
            && (r.None? ==> o == None || t.LastLost(old(t.net.log)))
    ensures r.None? ==> Consumed(sent) <= if call.WriteCall? then call.buf else []
  {
    hide Lost, Waiting, Unsettled, Consumed, Dialogue, Conversation, Pieces;
    match call
    case WriteCall(buf) =>
      var w;
      w, sent := t.Write(buf);
      r := if w.Done? then Some(Written(w.value)) else None;
    case ReadCall(room) =>
      var d;
      d, sent := t.Read(room);
      r := match d case Done(data) => Some(Received(data)) case InvalidData => Some(TooLarge) case Other => None;
  }

  /** Reads and writes in any order, up to the first that fails: each gives what it should, the device
      handles exactly what it should, and a call fails only if the device refuses or the wire does. */
  method Session(t: UdpTransport, calls: seq<Call>)
    returns (outcomes: seq<Outcome>, ghost handled: seq<Request>, ghost part: seq<Request>)
    requires t.Valid() && t.readPos <= |t.readBuf|
    modifies t`seqNo, t`past, t`began, t`tried, t`readBuf, t`readPos, t.net
    ensures t.readPos <= |t.readBuf| && t.Script() == old(t.Script()) && |outcomes| <= |calls|
    ensures t.Handled() == old(t.Handled()) + handled + part
    ensures var made, m := |outcomes|, t.maxPacketSize - HEADER_LEN;
            var s := Play(t.Script(), |old(t.Handled())|, old(t.Unread()), calls[..made], m);
            && s.Some? && s.value.outcomes == outcomes && s.value.handled == handled
            && Consumed(handled) == WrittenBytes(calls[..made])
            && (made == |calls| ==> t.Valid() && t.Unread() == s.value.unread && part == [])
            && (made < |calls| ==>
                  && Consumed(part) <= (if calls[made].WriteCall? then calls[made].buf else [])
                  && (Play(t.Script(), |old(t.Handled())|, old(t.Unread()), calls[..made + 1], m) == None ||
                      t.LastLost(old(t.net.log))))
  {
    hide Lost, Waiting, Unsettled, Consumed, Expected, Play, WrittenBytes;
    ghost var h0, u0, m, log0 := t.Handled(), t.Unread(), t.maxPacketSize - HEADER_LEN, t.net.log;
    outcomes, handled, part := [], [], [];
    PlayNothing(t.Script(), |h0|, u0, m);
    for i := 0 to |calls|
      invariant t.Valid() && t.readPos <= |t.readBuf| && t.Script() == old(t.Script()) &&
                t.maxPacketSize - HEADER_LEN == m
      invariant t.Handled() == h0 + handled && |outcomes| == i && log0 <= t.net.log
      invariant Play(t.Script(), |h0|, u0, calls[..i], m) == Some(Story(outcomes, handled, t.Unread()))
    {
      PlayConsumes(t.Script(), |h0|, u0, calls[..i], m);
      PlayStep(t.Script(), |h0|, u0, calls, i, m);
      ghost var log1 := t.net.log;
      var r, sent := MakeCall(t, calls[i]);
      ConcatAssoc(h0, handled, sent);
      if r.None? {
        if t.LastLost(log1) {
          LostLater(log0, log1, t.net.log, t.began, t.tried, t.maxRetries);
        }
        part := sent;
        return;
      }
      outcomes, handled := outcomes + [r.value], handled + sent;
    }
    assert calls[..|calls|] == calls;
    PlayConsumes(t.Script(), |h0|, u0, calls, m);
  }

  lemma PlayNothing(script: seq<Answer>, at: nat, unread: Bytes, m: nat)
    requires m > 0
    ensures Play(script, at, unread, [], m) == Some(Story([], [], unread))
  {}
}
