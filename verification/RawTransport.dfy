/** The receive loop of a raw fastboot connection
    (crates/fastboot-protocol/src/transport.rs:63-109, 504-592, 626-649). */
module RawTransport {
  import opened LittleEndian
  import opened Responses

  method FindWord(b: Bytes, from: nat) returns (i: nat)
    requires from <= |b| && forall j :: 0 <= j < from ==> !IsPrefix(b[j..])
    ensures i == FirstWord(b)
  {
    i := from;
    while i < |b| && !IsPrefix(b[i..])
      invariant from <= i <= |b|
      invariant forall j :: 0 <= j < i ==> !IsPrefix(b[j..])
    {
      i := i + 1;
    }
  }

  method FindPartial(b: Bytes) returns (i: nat)
    ensures i == PartialAt(b)
  {
    hide PartialAt;
    i := if |b| < 3 then 0 else |b| - 3;
    while i < |b| && !IsPartial(b[i..])
      invariant i <= |b|
      invariant forall j :: 0 <= j < i ==> !IsPartial(b[j..])
    {
      i := i + 1;
    }
  }

  method ParseOneResponse(b: Bytes) returns (p: Parsed)
    ensures p == ParseOne(b)
  {
    hide DataSize, FirstWord, PartialAt;
    if |b| < 4 {
      return TooShort;
    }
    var word := b[..4];
    if word == DATA {
      if |b| < 12 {
        return TooShort;
      }
      var size := DataSize(b[4..12]);
      return if size < 0 then Invalid else Taken(Data(size), 12);
    }
    if !IsPrefix(b) {
      return Invalid;
    }
    var body := b[4..];
    var end := FindWord(body, 0);
    if end == |body| {
      end := FindPartial(body);
    }
    p := Taken(Typed(word, b[4..4 + end]), 4 + end);
  }

  /** The responses logged before what the scanner makes of the rest. */
  function Before(logs: seq<Response>, s: Scanned): Scanned {
    match s
    case Wait(more, rest) => Wait(logs + more, rest)
    case Final(more, a, rest) => Final(logs + more, a, rest)
  }

  lemma BeforeNothing(s: Scanned)
    ensures Before([], s) == s
  {
    assert [] + s.logs == s.logs;
  }

  lemma BeforeLogged(logs: seq<Response>, r: Response, s: Scanned)
    ensures Before(logs, Logged(r, s)) == Before(logs + [r], s)
  {
    assert logs + ([r] + s.logs) == logs + [r] + s.logs;
  }

  /** The inner loop: each pass that goes on has a shorter buffer. */
  method ScanBuffer(b: Bytes) returns (s: Scanned)
    ensures s == Scan(b)
  {
    var accum, logs := b, [];
    BeforeNothing(Scan(b));
    while accum != []
      invariant Scan(b) == Before(logs, Scan(accum))
      decreases |accum|
    {
      var i := FindWord(accum, 0);
      if i == |accum| {
        var j := FindPartial(accum);
        assert logs + [] == logs;
        return Wait(logs, accum[j..]);
      }
      accum := accum[i..];
      var p := ParseOneResponse(accum);
      match p {
        case TooShort =>
          assert logs + [] == logs;
          return Wait(logs, accum);
        case Invalid =>
          accum := accum[1..];
        case Taken(r, n) =>
          accum := accum[n..];
          if r.Info? || r.Text? {
            BeforeLogged(logs, r, Scan(accum));
            logs := logs + [r];
          } else {
            assert logs + [] == logs;
            return Final(logs, r, accum);
          }
      }
    }
    assert logs + [] == logs;
    s := Wait(logs, accum);
  }

  datatype RecvResult = Ok(answer: Response) | ClosedByTarget | IoError

  class Connection {
    var readBuf: Bytes
    var readPos: nat
    var incoming: seq<Event>

    constructor (events: seq<Event>)
      ensures readPos == 0 && readBuf == [] && incoming == events
    {
      readBuf, readPos, incoming := [], 0, events;
    }

    ghost predicate Valid()
      reads this
    {
      readPos <= |readBuf|
    }

    ghost function Unread(): Bytes
      requires Valid()
      reads this
    {
      readBuf[readPos..]
    }

    /** A read of the socket; past its last event the peer has closed it. */
    method ReadStream() returns (e: Event)
      modifies this`incoming
      ensures old(incoming) == [] ==> e == Chunk([]) && incoming == []
      ensures old(incoming) != [] ==> e == old(incoming)[0] && incoming == old(incoming)[1..]
    {
      if incoming == [] {
        return Chunk([]);
      }
      e := incoming[0];
      incoming := incoming[1..];
    }

    /** `recv_response_with_info` in raw mode: the logged messages, and the first answer. */
    method RecvResponseWithInfo() returns (r: RecvResult, logs: seq<Response>)
      requires Valid()
      modifies this
      ensures Valid()
      ensures var o := Receive(old(Unread()), old(incoming));
              && logs == o.logs && incoming == o.left
              && r == (match o
                       case Received(_, a, _, _) => Ok(a)
                       case Closed(_, _) => ClosedByTarget
                       case Failed(_, _) => IoError)
              && Unread() == if o.Received? then o.rest else []
    {
      hide Scan, Receive, After;
      var accum := readBuf[readPos..];
      if readPos < |readBuf| {
        readBuf, readPos := [], 0;
      }
      logs := [];
      ghost var goal := Receive(accum, incoming);
      AfterNothing(goal);
      while true
        invariant Valid() && Unread() == [] && goal == After(logs, Receive(accum, incoming))
        decreases |incoming|
      {
        var s := ScanBuffer(accum);
        AfterStep(logs, accum, incoming);
        logs := logs + s.logs;
        if s.Final? {
          if s.rest != [] {
            readBuf, readPos := s.rest, 0;
          }
          return Ok(s.answer), logs;
        }
        var e := ReadStream();
        if e.Broken? {
          return IoError, logs;
        }
        if e.bytes == [] {
          return ClosedByTarget, logs;
        }
        accum := s.rest + e.bytes;
      }
    }
  }

  lemma AfterNothing(r: Reception)
    ensures After([], r) == r
  {
    assert [] + r.logs == r.logs;
  }

  /** One pass of the outer loop. */
  lemma AfterStep(logs: seq<Response>, b: Bytes, incoming: seq<Event>)
    ensures var s := Scan(b);
            After(logs, Receive(b, incoming)) ==
              if s.Final? then Received(logs + s.logs, s.answer, s.rest, incoming)
              else if incoming == [] then Closed(logs + s.logs, [])
              else if incoming[0].Broken? then Failed(logs + s.logs, incoming[1..])
              else if incoming[0].bytes == [] then Closed(logs + s.logs, incoming[1..])
              else After(logs + s.logs, Receive(s.rest + incoming[0].bytes, incoming[1..]))
  {
    hide Scan;
    var s := Scan(b);
    if s.Wait? && incoming != [] && incoming[0].Chunk? {
      var more := Receive(s.rest + incoming[0].bytes, incoming[1..]);
      assert logs + (s.logs + more.logs) == logs + s.logs + more.logs;
    }
  }
}
