/** Fastboot responses on a raw byte stream, which marks no ends
    (crates/fastboot-protocol/src/transport.rs:42-109, 504-592; crates/fastboot-protocol/src/response.rs:13-70). */
module Responses {
  import opened Wrappers
  import opened LittleEndian

  datatype Response = Okay(body: Bytes) | Fail(body: Bytes) | Data(size: U32) | Info(body: Bytes) | Text(body: Bytes)

  const OKAY: Bytes := [0x4F, 0x4B, 0x41, 0x59]
  const FAIL: Bytes := [0x46, 0x41, 0x49, 0x4C]
  const DATA: Bytes := [0x44, 0x41, 0x54, 0x41]
  const INFO: Bytes := [0x49, 0x4E, 0x46, 0x4F]
  const TEXT: Bytes := [0x54, 0x45, 0x58, 0x54]
  const WORDS: seq<Bytes> := [OKAY, FAIL, DATA, INFO, TEXT]

  /** A status word starts the buffer. */
  predicate IsPrefix(b: Bytes) {
    |b| >= 4 && b[..4] in WORDS
  }

  /** The buffer is one to three bytes that may grow into a status word. */
  predicate IsPartial(b: Bytes) {
    0 < |b| < 4 && (b <= OKAY || b <= FAIL || b <= DATA || b <= INFO || b <= TEXT)
  }

  // ---------- numbers in DATA ----------

  function HexDigit(d: Byte): (v: int)
    ensures -1 <= v < 16
  {
    if 0x30 <= d <= 0x39 then d - 0x30
    else if 0x41 <= d <= 0x46 then d - 0x41 + 10
    else if 0x61 <= d <= 0x66 then d - 0x61 + 10
    else -1
  }

  /** The number in hexadecimal digits; -1 if one is no digit. */
  function HexValue(ds: Bytes): (v: int)
    ensures -1 <= v < Pow16(|ds|)
  {
    if ds == [] then 0
    else
      var front, last := HexValue(ds[..|ds| - 1]), HexDigit(ds[|ds| - 1]);
      if front < 0 || last < 0 then -1 else 16 * front + last
  }

  function Pow16(k: nat): (p: nat)
    ensures p >= 1
  {
    if k == 0 then 1 else 16 * Pow16(k - 1)
  }

  /** The eight bytes after `DATA`; a plus sign may stand before the digits. */
  function DataSize(payload: Bytes): (v: int)
    requires |payload| == 8
    ensures -1 <= v < 0x1_0000_0000
  {
    assert Pow16(8) == 0x1_0000_0000 by {
      assert Pow16(4) == 0x1_0000;
    }
    assert Pow16(7) == 0x1000_0000 by {
      assert Pow16(3) == 0x1000;
    }
    if payload[0] == 0x2B then HexValue(payload[1..]) else HexValue(payload)
  }

  /** As a device writes it: eight digits. */
  function Hex(n: nat, k: nat): (ds: Bytes)
    ensures |ds| == k
  {
    if k == 0 then [] else Hex(n / 16, k - 1) + [HexChar(n % 16)]
  }

  function HexChar(v: nat): (d: Byte)
    requires v < 16
    ensures HexDigit(d) == v && d != 0x2B
  {
    if v < 10 then 0x30 + v else 0x61 + v - 10
  }

  lemma {:induction false} HexRoundTrip(n: nat, k: nat)
    requires n < Pow16(k)
    ensures HexValue(Hex(n, k)) == n
    ensures k > 0 ==> Hex(n, k)[0] != 0x2B
  {
    if k > 0 {
      HexRoundTrip(n / 16, k - 1);
      assert Hex(n, k)[..k - 1] == Hex(n / 16, k - 1);
    }
  }

  // ---------- one response ----------

  /** The first place where a status word starts; the length if there is none. */
  function FirstWord(b: Bytes): (i: nat)
    ensures i <= |b|
    ensures forall j :: 0 <= j < i ==> !IsPrefix(b[j..])
    ensures i < |b| ==> IsPrefix(b[i..])
  {
    if b == [] || IsPrefix(b) then assert b[0..] == b; 0
    else
      var i := FirstWord(b[1..]);
      assert forall j :: 0 < j <= |b| ==> b[j..] == b[1..][j - 1..];
      1 + i
  }

  /** The place where the buffer ends in part of a status word; the length if it does not. */
  function PartialAt(b: Bytes): (i: nat)
    ensures i <= |b|
    ensures forall j :: 0 <= j < i ==> !IsPartial(b[j..])
    ensures i < |b| ==> IsPartial(b[i..])
  {
    if b == [] || IsPartial(b) then assert b[0..] == b; 0
    else
      var i := PartialAt(b[1..]);
      assert forall j :: 0 < j <= |b| ==> b[j..] == b[1..][j - 1..];
      1 + i
  }

  /** Where a body ends: at the next status word, or at part of one at the end of the buffer. */
  function BodyEnd(body: Bytes): (n: nat)
    ensures n <= |body|
  {
    if FirstWord(body) < |body| then FirstWord(body) else PartialAt(body)
  }

  datatype Parsed = Taken(response: Response, size: nat) | TooShort | Invalid

  function Typed(word: Bytes, body: Bytes): Response {
    if word == OKAY then Okay(body)
    else if word == FAIL then Fail(body)
    else if word == INFO then Info(body)
    else Text(body)
  }

  /** `parse_one_response`. */
  function ParseOne(b: Bytes): (p: Parsed)
    ensures p.Taken? ==> 4 <= p.size <= |b|
  {
    if |b| < 4 then TooShort
    else if b[..4] == DATA then
      if |b| < 12 then TooShort
      else if DataSize(b[4..12]) < 0 then Invalid
      else Taken(Data(DataSize(b[4..12])), 12)
    else if IsPrefix(b) then
      var end := BodyEnd(b[4..]);
      Taken(Typed(b[..4], b[4..4 + end]), 4 + end)
    else Invalid
  }

  // ---------- the scanner ----------

  /** What the scanner makes of a buffer: logged messages, then an answer or a wait for more. */
  datatype Scanned = Wait(logs: seq<Response>, rest: Bytes) | Final(logs: seq<Response>, answer: Response, rest: Bytes)

  function Logged(r: Response, s: Scanned): Scanned {
    match s
    case Wait(logs, rest) => Wait([r] + logs, rest)
    case Final(logs, a, rest) => Final([r] + logs, a, rest)
  }

  /** The parse loop: every pass that does not wait takes something off the buffer. */
  function Scan(b: Bytes): (s: Scanned)
    ensures |s.rest| <= |b| && (s.Final? ==> |s.rest| < |b|)
    decreases |b|
  {
    var i := FirstWord(b);
    if i == |b| then Wait([], b[PartialAt(b)..])
    else
      var m := b[i..];
      match ParseOne(m)
      case TooShort => Wait([], m)
      case Invalid => Scan(m[1..])
      case Taken(r, n) => if r.Info? || r.Text? then Logged(r, Scan(m[n..])) else Final([], r, m[n..])
  }

  // ---------- a sequence of responses in the buffer ----------

  function Word(r: Response): (w: Bytes)
    ensures |w| == 4 && w in WORDS && (w == DATA <==> r.Data?)
  {
    match r
    case Okay(_) => OKAY
    case Fail(_) => FAIL
    case Data(_) => DATA
    case Info(_) => INFO
    case Text(_) => TEXT
  }

  function Body(r: Response): (b: Bytes) {
    if r.Data? then Hex(r.size, 8) else r.body
  }

  function Encode(r: Response): Bytes {
    Word(r) + Body(r)
  }

  function EncodeAll(rs: seq<Response>): Bytes {
    if rs == [] then [] else Encode(rs[0]) + EncodeAll(rs[1..])
  }

  function NextWord(rs: seq<Response>): Bytes {
    if rs == [] then [] else Word(rs[0])
  }

  /** No status word starts inside `b`, looking on into `next`. */
  ghost predicate NoWord(b: Bytes, next: Bytes) {
    forall i :: 0 <= i < |b| ==> !IsPrefix((b + next)[i..])
  }

  ghost predicate NoPartial(b: Bytes) {
    forall i :: 0 <= i < |b| ==> !IsPartial(b[i..])
  }

  /** No body holds a status word, or makes one with the word after it; the last does not end in part of one. */
  ghost predicate Clean(rs: seq<Response>) {
    rs != [] ==>
      && Clean(rs[1..])
      && (!rs[0].Data? ==> NoWord(rs[0].body, NextWord(rs[1..])) && (rs[1..] == [] ==> NoPartial(rs[0].body)))
  }

  /** What a receive should make of the responses: messages logged up to the first answer. */
  function Expected(rs: seq<Response>): Scanned {
    if rs == [] then Wait([], [])
    else if rs[0].Info? || rs[0].Text? then Logged(rs[0], Expected(rs[1..]))
    else Final([], rs[0], EncodeAll(rs[1..]))
  }

  /** The buffer goes on with `next`, or with part of it where it ends. */
  ghost predicate GoesOn(next: Bytes, after: Bytes) {
    if |after| >= 4 then after[..4] == next else after <= next
  }

  /** Four bytes that start inside `b` end within the three bytes after it. */
  lemma NoWordIn(b: Bytes, next: Bytes, after: Bytes)
    requires NoWord(b, next) && GoesOn(next, after)
    ensures FirstWord(b + after) >= |b|
  {
    var i := FirstWord(b + after);
    if i < |b| {
      WordStarts(b, next, after, i);
    }
  }

  lemma WordStarts(b: Bytes, next: Bytes, after: Bytes, i: nat)
    requires GoesOn(next, after) && i < |b| && IsPrefix((b + after)[i..])
    ensures IsPrefix((b + next)[i..])
  {
    SameWindow(b, next, after, i);
  }

  lemma SameWindow(b: Bytes, next: Bytes, after: Bytes, i: nat)
    requires GoesOn(next, after) && i < |b| && i + 4 <= |b + after|
    ensures i + 4 <= |b + next| && (b + after)[i..][..4] == (b + next)[i..][..4]
  {
    assert |after| >= 4 ==> after[..4] == next;
    assert forall k :: 0 <= k < |after| && k < 4 ==> k < |next| && after[k] == next[k];
    assert forall k :: i <= k < i + 4 ==> (b + after)[k] == (b + next)[k];
    assert (b + after)[i..][..4] == (b + after)[i..i + 4] == (b + next)[i..i + 4];
  }

  /** Where the parser ends a body that the buffer goes on from: where it ends, unless the buffer
      ends within three bytes and part of a word starts earlier. */
  lemma BodyEnds(b: Bytes, next: Bytes, after: Bytes)
    requires NoWord(b, next) && GoesOn(next, after) && (next == [] || next in WORDS)
    ensures BodyEnd(b + after) == if |after| >= 4 then |b| else PartialAt(b + after)
    ensures BodyEnd(b + after) <= |b|
  {
    NoWordIn(b, next, after);
    assert (b + after)[|b|..] == after;
    if |after| >= 4 {
      assert IsPrefix(after);
    } else if after != [] {
      assert IsPartial(after);
    }
  }

  lemma TextParsed(r: Response, after: Bytes)
    requires !r.Data?
    ensures var e := BodyEnd(r.body + after);
            ParseOne(Encode(r) + after) == Taken(Typed(Word(r), (r.body + after)[..e]), 4 + e)
    ensures Typed(Word(r), r.body) == r
  {
    hide BodyEnd;
    var all := Encode(r) + after;
    assert all[..4] == Word(r) && all[4..] == r.body + after;
    var e := BodyEnd(r.body + after);
    assert all[4..4 + e] == all[4..][..e];
  }

  lemma DataParsed(n: U32, after: Bytes)
    ensures ParseOne(Encode(Data(n)) + after) == Taken(Data(n), 12) && |Encode(Data(n))| == 12
  {
    var all := Encode(Data(n)) + after;
    assert all[..4] == DATA && all[4..12] == Hex(n, 8);
    assert Pow16(8) == 0x1_0000_0000 by {
      assert Pow16(4) == 0x1_0000;
    }
    HexRoundTrip(n, 8);
  }

  /** What the parser takes at the front is logged, or is the answer. */
  lemma ScanFirst(b: Bytes, r: Response, n: nat)
    requires IsPrefix(b) && ParseOne(b) == Taken(r, n)
    ensures Scan(b) == if r.Info? || r.Text? then Logged(r, Scan(b[n..])) else Final([], r, b[n..])
  {
    assert b[0..] == b;
  }

  /** A response at the front that the parser takes whole. */
  lemma ScanTaken(r: Response, after: Bytes)
    requires ParseOne(Encode(r) + after) == Taken(r, |Encode(r)|)
    ensures Scan(Encode(r) + after) == if r.Info? || r.Text? then Logged(r, Scan(after)) else Final([], r, after)
  {
    var all := Encode(r) + after;
    assert all[..4] == Word(r);
    ScanFirst(all, r, |Encode(r)|);
    assert all[|Encode(r)|..] == after;
  }

  /** The bytes after a clean response go on with the next word. */
  lemma EncodedGoesOn(rs: seq<Response>, c: nat)
    requires c <= |EncodeAll(rs)|
    ensures GoesOn(NextWord(rs), EncodeAll(rs)[..c])
  {
    if rs != [] {
      assert EncodeAll(rs)[..4] == Word(rs[0]);
      var front := EncodeAll(rs)[..c];
      if c >= 4 {
        assert front[..4] == EncodeAll(rs)[..4];
      } else {
        assert front == Word(rs[0])[..c];
      }
    }
  }

  lemma WholeResponse(rs: seq<Response>)
    requires rs != [] && Clean(rs)
    ensures ParseOne(EncodeAll(rs)) == Taken(rs[0], |Encode(rs[0])|)
  {
    var r, after := rs[0], EncodeAll(rs[1..]);
    if r.Data? {
      DataParsed(r.size, after);
    } else {
      EncodedGoesOn(rs[1..], |after|);
      assert after[..|after|] == after;
      BodyEnds(r.body, NextWord(rs[1..]), after);
      TextParsed(r, after);
      if rs[1..] == [] {
        assert r.body + after == r.body;
      } else {
        assert |after| >= 4;
      }
      assert (r.body + after)[..|r.body|] == r.body;
    }
  }

  /** Responses in the buffer are taken in order: messages are logged up to the first answer,
      and what follows the answer is kept. */
  lemma {:induction false} ScanInOrder(rs: seq<Response>)
    requires Clean(rs)
    ensures Scan(EncodeAll(rs)) == Expected(rs)
  {
    if rs != [] {
      WholeResponse(rs);
      ScanTaken(rs[0], EncodeAll(rs[1..]));
      ScanInOrder(rs[1..]);
    }
  }

  // ---------- responses split over several reads ----------

  /** Everything heard, logged messages and answers, when each wait is served the next chunk. */
  function Heard(b: Bytes, chunks: seq<Bytes>): seq<Response>
    decreases |chunks|, |b|
  {
    match Scan(b)
    case Final(logs, a, rest) => logs + [a] + Heard(rest, chunks)
    case Wait(logs, rest) => logs + (if chunks == [] then [] else Heard(rest + chunks[0], chunks[1..]))
  }

  lemma HeardTaken(r: Response, after: Bytes, chunks: seq<Bytes>)
    requires ParseOne(Encode(r) + after) == Taken(r, |Encode(r)|)
    ensures Heard(Encode(r) + after, chunks) == [r] + Heard(after, chunks)
  {
    ScanTaken(r, after);
    HeardLogged(r, Encode(r) + after, after, chunks);
  }

  lemma HeardLogged(r: Response, b: Bytes, after: Bytes, chunks: seq<Bytes>)
    requires Scan(b) == if r.Info? || r.Text? then Logged(r, Scan(after)) else Final([], r, after)
    ensures Heard(b, chunks) == [r] + Heard(after, chunks)
  {
    hide Scan;
    if r.Info? || r.Text? {
      var s := Scan(after);
      if s.Final? {
        ConcatAssoc([r], s.logs + [s.answer], Heard(s.rest, chunks));
        ConcatAssoc([r], s.logs, [s.answer]);
      } else {
        ConcatAssoc([r], s.logs, if chunks == [] then [] else Heard(s.rest + chunks[0], chunks[1..]));
      }
    } else {
      assert [] + [r] + Heard(after, chunks) == [r] + Heard(after, chunks);
    }
  }

  lemma HeardNothing()
    ensures Heard([], []) == [] && Heard([], [[]]) == []
  {
    assert Scan([]) == Wait([], []);
    var none: Bytes := [];
    assert [none][1..] == [] && none + none == none;
  }

  /** The reads may part at `c`: not inside a text, and where they part within three bytes of
      its end, no part of a word starts in it there. */
  predicate GoodCut(rs: seq<Response>, c: nat)
    requires c <= |EncodeAll(rs)|
  {
    rs == [] ||
    var size := |Encode(rs[0])|;
    if c < size then c < 4 || rs[0].Data?
    else
      && (!rs[0].Data? ==> EndSeen(rs[0].body, EncodeAll(rs[1..])[..c - size]))
      && GoodCut(rs[1..], c - size)
  }

  /** Nothing at the end of a body looks like part of a word, with what has come after it. */
  predicate EndSeen(body: Bytes, after: Bytes) {
    |after| < 4 ==> PartialAt(body + after) == |body|
  }

  lemma PartialWaits(b: Bytes)
    requires b == [] || IsPartial(b)
    ensures Scan(b) == Wait([], b)
  {
    assert b[0..] == b;
  }

  lemma ShortDataWaits(b: Bytes)
    requires 4 <= |b| < 12 && b[..4] == DATA
    ensures Scan(b) == Wait([], b)
  {
    assert b[0..] == b;
    assert IsPrefix(b);
  }

  /** Part of a status word, or of a DATA response, is kept and waited on. */
  lemma FrontWaits(rs: seq<Response>, c: nat)
    requires rs != [] && c < |Encode(rs[0])| && (c < 4 || rs[0].Data?)
    ensures Scan(EncodeAll(rs)[..c]) == Wait([], EncodeAll(rs)[..c])
  {
    hide Scan;
    var all := EncodeAll(rs);
    assert all[..4] == Word(rs[0]);
    if c < 4 {
      assert all[..c] == Word(rs[0])[..c];
      PartialWaits(all[..c]);
    } else {
      assert all[..c][..4] == all[..4];
      ShortDataWaits(all[..c]);
    }
  }

  /** A text of another length than it has is heard otherwise. */
  lemma OtherHeard(rs: seq<Response>, b: Bytes, text: Bytes, e: nat, chunks: seq<Bytes>)
    requires rs != [] && !rs[0].Data? && IsPrefix(b) && e <= |text| && e != |rs[0].body|
    requires ParseOne(b) == Taken(Typed(Word(rs[0]), text[..e]), 4 + e)
    ensures Heard(b, chunks) != rs
  {
    hide Heard, Scan, IsPrefix;
    var heard := Typed(Word(rs[0]), text[..e]);
    ScanFirst(b, heard, 4 + e);
    HeardLogged(heard, b, b[4 + e..], chunks);
    assert heard != rs[0];
  }

  /** A text cut short is heard cut short. */
  lemma CutInText(rs: seq<Response>, c: nat, chunks: seq<Bytes>)
    requires rs != [] && !rs[0].Data? && 4 <= c < |Encode(rs[0])|
    ensures Heard(EncodeAll(rs)[..c], chunks) != rs
  {
    var all, r := EncodeAll(rs), rs[0];
    hide Heard, Scan, ParseOne, BodyEnd, FirstWord, PartialAt, IsPartial;
    var short := Typed(Word(r), r.body[..c - 4]);
    assert all[..c] == Encode(short) + [] && all[..c][..4] == Word(r);
    hide Encode, EncodeAll;
    TextParsed(short, []);
    OtherHeard(rs, all[..c], short.body + [], BodyEnd(short.body + []), chunks);
  }

  /** A text with all of its body in the buffer is heard whole if and only if it is taken to end
      where it does. */
  lemma BehindText(rs: seq<Response>, after: Bytes, chunks: seq<Bytes>)
    requires rs != [] && !rs[0].Data?
    ensures var b := Encode(rs[0]) + after;
            if BodyEnd(rs[0].body + after) != |rs[0].body| then Heard(b, chunks) != rs
            else Heard(b, chunks) == [rs[0]] + Heard(after, chunks)
  {
    hide Heard, ParseOne, BodyEnd;
    var r := rs[0];
    var e := BodyEnd(r.body + after);
    TextParsed(r, after);
    if e != |r.body| {
      assert (Encode(r) + after)[..4] == Word(r);
      OtherHeard(rs, Encode(r) + after, r.body + after, e, chunks);
    } else {
      assert (r.body + after)[..e] == r.body;
      HeardTaken(r, after, chunks);
    }
  }

  /** It is, if and only if no word starts in it early and nothing at its end looks like part of one. */
  lemma EndsIff(b: Bytes, next: Bytes, after: Bytes)
    requires GoesOn(next, after) && (next == [] || next in WORDS)
    ensures BodyEnd(b + after) == |b| <==> NoWord(b, next) && EndSeen(b, after)
  {
    hide FirstWord, PartialAt;
    if NoWord(b, next) && EndSeen(b, after) {
      BodyEnds(b, next, after);
    }
    if BodyEnd(b + after) == |b| {
      forall i | 0 <= i < |b|
        ensures !IsPrefix((b + next)[i..])
      {
        NoEarlyWord(b, next, after, i);
      }
      if |after| < 4 {
        NoWordLeft(b, after);
      }
    }
  }

  /** With fewer than four bytes after a body that ends where it does, no word was found. */
  lemma NoWordLeft(b: Bytes, after: Bytes)
    requires |after| < 4 && BodyEnd(b + after) == |b|
    ensures PartialAt(b + after) == |b|
  {
    assert (b + after)[|b|..] == after;
  }

  /** A word that starts early shows in the buffer, whole or in part. */
  lemma WordShows(b: Bytes, next: Bytes, after: Bytes, i: nat)
    requires GoesOn(next, after) && i < |b| && IsPrefix((b + next)[i..])
    ensures if i + 4 <= |b + after| then IsPrefix((b + after)[i..]) else IsPartial((b + after)[i..])
  {
    if i + 4 <= |b + after| {
      SameWindow(b, next, after, i);
    } else {
      var part, w := (b + after)[i..], (b + next)[i..][..4];
      assert part == w[..|part|];
    }
  }

  lemma NoEarlyWord(b: Bytes, next: Bytes, after: Bytes, i: nat)
    requires GoesOn(next, after) && BodyEnd(b + after) == |b| && i < |b|
    ensures !IsPrefix((b + next)[i..])
  {
    if |after| < 4 {
      NoWordLeft(b, after);
    }
    if IsPrefix((b + next)[i..]) {
      WordShows(b, next, after, i);
    }
  }

  /** The chunks hold the responses from `c` on. */
  ghost predicate Brings(rs: seq<Response>, c: nat, chunks: seq<Bytes>)
    decreases |chunks|
  {
    && c <= |EncodeAll(rs)|
    && if chunks == [] then c == |EncodeAll(rs)|
       else
         var next := c + |chunks[0]|;
         next <= |EncodeAll(rs)| && chunks[0] == EncodeAll(rs)[c..next] && Brings(rs, next, chunks[1..])
  }

  /** The reads part at good places only. */
  ghost predicate GoodReads(rs: seq<Response>, c: nat, chunks: seq<Bytes>)
    requires Brings(rs, c, chunks)
    decreases |chunks|
  {
    GoodCut(rs, c) && (chunks != [] ==> GoodReads(rs, c + |chunks[0]|, chunks[1..]))
  }

  lemma {:induction false} BringsBehind(rs: seq<Response>, c: nat, chunks: seq<Bytes>)
    requires rs != [] && Brings(rs, c, chunks) && c >= |Encode(rs[0])|
    ensures Brings(rs[1..], c - |Encode(rs[0])|, chunks)
    decreases |chunks|
  {
    hide Encode;
    if chunks != [] {
      var next := c + |chunks[0]|;
      BringsBehind(rs, next, chunks[1..]);
      SliceSum(Encode(rs[0]), EncodeAll(rs[1..]), c, next);
    }
  }

  lemma PartStays(b: Bytes, after: Bytes, more: Bytes, i: nat)
    requires after <= more && i < |b| && IsPartial((b + more)[i..])
    ensures IsPartial((b + after)[i..])
  {
    var part := (b + more)[i..];
    assert (b + after)[i..] == part[..|b| + |after| - i];
  }

  /** What does not look like part of a word does not with more of the next word after it. */
  lemma EndStaysSeen(b: Bytes, after: Bytes, more: Bytes)
    requires EndSeen(b, after) && after <= more && |more| < 4 && (more == [] || IsPartial(more))
    ensures EndSeen(b, more)
  {
    var i := PartialAt(b + more);
    assert (b + more)[|b|..] == more;
    if i < |b| {
      PartStays(b, after, more, i);
    }
  }

  /** Once a text is heard, later reads part as if it had not been there. */
  lemma {:induction false} GoodReadsBehind(rs: seq<Response>, c: nat, chunks: seq<Bytes>)
    requires rs != [] && Brings(rs, c, chunks) && c >= |Encode(rs[0])|
    requires Brings(rs[1..], c - |Encode(rs[0])|, chunks)
    requires !rs[0].Data? ==> EndSeen(rs[0].body, EncodeAll(rs[1..])[..c - |Encode(rs[0])|])
    ensures GoodReads(rs, c, chunks) <==> GoodReads(rs[1..], c - |Encode(rs[0])|, chunks)
    decreases |chunks|
  {
    hide EndSeen, Encode, IsPartial, IsPrefix;
    if chunks != [] {
      var next, size, more := c + |chunks[0]|, |Encode(rs[0])|, EncodeAll(rs[1..]);
      if !rs[0].Data? {
        LaterEndSeen(rs[1..], rs[0].body, c - size, next - size);
      }
      GoodReadsBehind(rs, next, chunks[1..]);
    }
  }

  lemma LaterEndSeen(rs: seq<Response>, b: Bytes, c: nat, d: nat)
    requires c <= d <= |EncodeAll(rs)| && EndSeen(b, EncodeAll(rs)[..c])
    ensures EndSeen(b, EncodeAll(rs)[..d])
  {
    hide PartialAt;
    var all := EncodeAll(rs);
    if d < 4 {
      if d > 0 {
        assert rs != [] && all[..4] == Word(rs[0]) && all[..d] == Word(rs[0])[..d];
        assert IsPartial(all[..d]);
      }
      EndStaysSeen(b, all[..c], all[..d]);
    }
  }

  /** However many reads bring them, the responses are heard once and in order, if and only if they
      are clean and the reads part at good places. */
  lemma {:induction false} HeardInReads(rs: seq<Response>, c: nat, chunks: seq<Bytes>)
    requires Brings(rs, c, chunks)
    ensures Heard(EncodeAll(rs)[..c], chunks) == rs <==> Clean(rs) && GoodReads(rs, c, chunks)
    decreases |chunks|, |rs|
  {
    hide Heard, PartialAt, Scan, Encode, EndSeen, NoWord, NoPartial, BodyEnd;
    if rs == [] {
      HeardSilence(chunks);
    } else if c < |Encode(rs[0])| {
      if c < 4 || rs[0].Data? {
        FrontWaits(rs, c);
        HeardWaits(EncodeAll(rs)[..c], chunks);
        SliceJoin(EncodeAll(rs), c, c + |chunks[0]|);
        HeardInReads(rs, c + |chunks[0]|, chunks[1..]);
      } else {
        CutInText(rs, c, chunks);
      }
    } else {
      HeardBehind(rs, c, chunks);
      BringsBehind(rs, c, chunks);
      HeardInReads(rs[1..], c - |Encode(rs[0])|, chunks);
      var after := EncodeAll(rs[1..])[..c - |Encode(rs[0])|];
      if rs[0].Data? || (NoWord(rs[0].body, NextWord(rs[1..])) && EndSeen(rs[0].body, after)) {
        GoodReadsBehind(rs, c, chunks);
        if !rs[0].Data? {
          SeenIsClean(rs, after);
        }
      }
    }
  }

  lemma HeardBehind(rs: seq<Response>, c: nat, chunks: seq<Bytes>)
    requires rs != [] && |Encode(rs[0])| <= c <= |EncodeAll(rs)|
    ensures var size, more := |Encode(rs[0])|, EncodeAll(rs[1..]);
            if rs[0].Data? || (NoWord(rs[0].body, NextWord(rs[1..])) && EndSeen(rs[0].body, more[..c - size]))
            then Heard(EncodeAll(rs)[..c], chunks) == [rs[0]] + Heard(more[..c - size], chunks)
            else Heard(EncodeAll(rs)[..c], chunks) != rs
  {
    hide Heard, Scan, ParseOne, PartialAt, FirstWord, BodyEnd, NoWord, Encode, GoesOn, EndSeen;
    var r, more := rs[0], EncodeAll(rs[1..]);
    var after := more[..c - |Encode(r)|];
    CutSum(Encode(r), more, c);
    if r.Data? {
      DataParsed(r.size, after);
      HeardTaken(r, after, chunks);
    } else {
      EncodedGoesOn(rs[1..], c - |Encode(r)|);
      EndsIff(r.body, NextWord(rs[1..]), after);
      BehindText(rs, after, chunks);
    }
  }

  /** The last text is clean if its end is seen. */
  lemma SeenIsClean(rs: seq<Response>, after: Bytes)
    requires rs != [] && !rs[0].Data? && after <= EncodeAll(rs[1..]) && EndSeen(rs[0].body, after)
    ensures rs[1..] == [] ==> NoPartial(rs[0].body)
  {
    if rs[1..] == [] {
      assert rs[0].body + after == rs[0].body;
    }
  }

  lemma CutSum(a: Bytes, b: Bytes, c: nat)
    requires |a| <= c <= |a| + |b|
    ensures (a + b)[..c] == a + b[..c - |a|] && (a + b)[c..] == b[c - |a|..]
  {}

  lemma SliceSum(a: Bytes, b: Bytes, c: nat, d: nat)
    requires |a| <= c <= d <= |a| + |b|
    ensures (a + b)[c..d] == b[c - |a|..d - |a|]
  {}

  lemma SliceJoin(a: Bytes, c: nat, d: nat)
    requires c <= d <= |a|
    ensures a[..c] + a[c..d] == a[..d]
  {}

  lemma HeardWaits(b: Bytes, chunks: seq<Bytes>)
    requires Scan(b) == Wait([], b) && chunks != []
    ensures Heard(b, chunks) == Heard(b + chunks[0], chunks[1..])
  {
    assert [] + Heard(b + chunks[0], chunks[1..]) == Heard(b + chunks[0], chunks[1..]);
  }

  lemma {:induction false} HeardSilence(chunks: seq<Bytes>)
    requires Brings([], 0, chunks)
    ensures Heard([], chunks) == [] && GoodReads([], 0, chunks)
    decreases |chunks|
  {
    assert Scan([]) == Wait([], []);
    if chunks == [] {
      HeardNothing();
    } else {
      HeardWaits([], chunks);
      HeardSilence(chunks[1..]);
    }
  }

  /** The end of the stream is a good place. */
  lemma {:induction false} EndIsGood(rs: seq<Response>)
    requires Clean(rs)
    ensures GoodCut(rs, |EncodeAll(rs)|)
    decreases |rs|
  {
    hide Encode, PartialAt, NoWord;
    if rs != [] {
      EndIsGood(rs[1..]);
      var more := EncodeAll(rs[1..]);
      assert more[..|more|] == more;
      if rs[1..] == [] {
        if !rs[0].Data? {
          assert rs[0].body + more == rs[0].body;
          NothingPartial(rs[0].body);
        }
      } else {
        LongEnough(rs[1..]);
      }
    }
  }

  lemma NothingPartial(b: Bytes)
    requires NoPartial(b)
    ensures PartialAt(b) == |b|
  {}

  lemma LongEnough(rs: seq<Response>)
    requires rs != []
    ensures |EncodeAll(rs)| >= 4
  {}

  /** Read at once, everything is heard once and in order, if and only if the responses are clean. */
  lemma HeardInOrder(rs: seq<Response>)
    ensures Heard(EncodeAll(rs), []) == rs <==> Clean(rs)
  {
    hide Heard, GoodCut;
    var all := EncodeAll(rs);
    assert all[..|all|] == all;
    HeardInReads(rs, |all|, []);
    if Clean(rs) {
      EndIsGood(rs);
    }
  }

  /** Two reads hear what one would, if and only if they part at a good place. */
  lemma HeardInTwo(rs: seq<Response>, c: nat)
    requires c <= |EncodeAll(rs)|
    ensures var all := EncodeAll(rs); Heard(all[..c], [all[c..]]) == rs <==> Clean(rs) && GoodCut(rs, c)
  {
    hide Heard, GoodCut;
    var all := EncodeAll(rs);
    var rest := [all[c..]];
    assert rest[1..] == [] && all[c..] == all[c..|all|];
    HeardInReads(rs, c, rest);
    if Clean(rs) {
      EndIsGood(rs);
    }
  }

  /** Even between two responses: after a message that ends in an `O`, which may start `OKAY`. */
  lemma BetweenIsNotEnough()
    ensures var rs := [Info([0x4F]), Okay([])];
            Clean(rs) && |Encode(rs[0])| == 5 && !GoodCut(rs, 5)
  {
    var rs := [Info([0x4F]), Okay([])];
    var o: Bytes := [0x4F];
    assert rs[1..] == [Okay([])] && rs[1..][1..] == [];
    assert NoWord(o, OKAY) by {
      assert (o + OKAY)[0..][..4] == [0x4F, 0x4F, 0x4B, 0x41];
    }
    assert Clean(rs[1..]);
    assert o + EncodeAll(rs[1..])[..0] == o;
    assert IsPartial(o);
  }

  // ---------- a receive ----------

  /** What the socket does on a read: bytes, none of them when the peer has closed, or an error. */
  datatype Event = Chunk(bytes: Bytes) | Broken

  datatype Reception =
    | Received(logs: seq<Response>, answer: Response, rest: Bytes, left: seq<Event>)
    | Closed(logs: seq<Response>, left: seq<Event>)
    | Failed(logs: seq<Response>, left: seq<Event>)

  lemma Later(s: seq<Event>, n: nat)
    requires n < |s|
    ensures s[1..][n..] == s[n + 1..]
  {}

  function Receive(b: Bytes, incoming: seq<Event>): (r: Reception)
    ensures |r.left| <= |incoming| && r.left == incoming[|incoming| - |r.left|..]
    decreases |incoming|
  {
    match Scan(b)
    case Final(logs, a, rest) => Received(logs, a, rest, incoming)
    case Wait(logs, rest) =>
      if incoming == [] then Closed(logs, [])
      else if incoming[0].Broken? then Failed(logs, incoming[1..])
      else if incoming[0].bytes == [] then Closed(logs, incoming[1..])
      else
        var more := Receive(rest + incoming[0].bytes, incoming[1..]);
        Later(incoming, |incoming| - 1 - |more.left|);
        After(logs, more)
  }

  function After(logs: seq<Response>, r: Reception): Reception {
    match r
    case Received(more, a, rest, left) => Received(logs + more, a, rest, left)
    case Closed(more, left) => Closed(logs + more, left)
    case Failed(more, left) => Failed(logs + more, left)
  }

  function Chunks(chunks: seq<Bytes>): seq<Event> {
    seq(|chunks|, i requires 0 <= i < |chunks| => Chunk(chunks[i]))
  }

  /** A receive and those after it hear what there is to hear. */
  ghost predicate Hears(b: Bytes, chunks: seq<Bytes>, r: Reception) {
    match r
    case Received(logs, a, rest, left) =>
      && |left| <= |chunks| && left == Chunks(chunks[|chunks| - |left|..])
      && Heard(b, chunks) == logs + [a] + Heard(rest, chunks[|chunks| - |left|..])
    case Closed(logs, _) => Heard(b, chunks) == logs
    case Failed(_, _) => false
  }

  lemma HearsAfter(b: Bytes, chunks: seq<Bytes>, logs: seq<Response>, rest: Bytes, r: Reception)
    requires Scan(b) == Wait(logs, rest) && chunks != [] && Hears(rest + chunks[0], chunks[1..], r)
    ensures Hears(b, chunks, After(logs, r))
  {
    hide Scan;
    assert Heard(b, chunks) == logs + Heard(rest + chunks[0], chunks[1..]);
    if r.Received? {
      var later := chunks[1..][|chunks| - 1 - |r.left|..];
      assert later == chunks[|chunks| - |r.left|..];
      assert logs + (r.logs + [r.answer] + Heard(r.rest, later)) == logs + r.logs + [r.answer] + Heard(r.rest, later);
    }
  }

  lemma HearsAtOnce(b: Bytes, chunks: seq<Bytes>)
    requires Scan(b).Final? || chunks == []
    ensures Hears(b, chunks, Receive(b, Chunks(chunks)))
  {
    hide Scan;
    var s := Scan(b);
    if s.Final? {
      assert chunks[0..] == chunks;
    } else {
      assert s.logs + [] == s.logs;
    }
  }

  /** Receives one after the other hear what there is to hear. */
  lemma {:induction false} HeardByReceives(b: Bytes, chunks: seq<Bytes>)
    requires forall i :: 0 <= i < |chunks| ==> chunks[i] != []
    ensures Hears(b, chunks, Receive(b, Chunks(chunks)))
    decreases |chunks|
  {
    hide Scan, Heard, Hears;
    var s := Scan(b);
    if s.Final? || chunks == [] {
      HearsAtOnce(b, chunks);
    } else {
      var more := chunks[1..];
      assert Chunks(chunks)[1..] == Chunks(more) && Chunks(chunks)[0] == Chunk(chunks[0]);
      HeardByReceives(s.rest + chunks[0], more);
      HearsAfter(b, chunks, s.logs, s.rest, Receive(s.rest + chunks[0], Chunks(more)));
    }
  }
}
