/** What else can stand on a raw fastboot stream (crates/fastboot-protocol/src/transport.rs:42-109, 504-592;
    crates/fastboot-protocol/src/response.rs:13-70): bytes that belong to no response, sizes that are no
    numbers, and the end of the stream. */
module Noise {
  import opened Wrappers
  import opened LittleEndian
  import opened Responses

  function Ascii(s: string): Bytes
    requires forall i :: 0 <= i < |s| ==> s[i] as int < 0x80
  {
    seq(|s|, i requires 0 <= i < |s| => s[i] as int)
  }

  /** The status words. */
  lemma WordsSpelled()
    ensures WORDS == [Ascii("OKAY"), Ascii("FAIL"), Ascii("DATA"), Ascii("INFO"), Ascii("TEXT")]
    ensures forall b :: Word(Okay(b)) == Ascii("OKAY") && Word(Fail(b)) == Ascii("FAIL")
    ensures forall b :: Word(Info(b)) == Ascii("INFO") && Word(Text(b)) == Ascii("TEXT")
    ensures forall n :: Word(Data(n)) == Ascii("DATA")
  {
    assert OKAY == Ascii("OKAY") && FAIL == Ascii("FAIL") && DATA == Ascii("DATA");
    assert INFO == Ascii("INFO") && TEXT == Ascii("TEXT");
  }

  // ---------- sizes ----------

  const LOWER := "0123456789abcdef"
  const UPPER := "0123456789ABCDEF"

  /** Digits of either case count as they should. */
  lemma DigitsOfBothCases(v: nat)
    requires v < 16
    ensures HexDigit(LOWER[v] as int) == v && HexDigit(UPPER[v] as int) == v
  {}

  predicate IsHex(d: Byte) {
    '0' as int <= d <= '9' as int || 'a' as int <= d <= 'f' as int || 'A' as int <= d <= 'F' as int
  }

  lemma {:induction false} NumberIff(ds: Bytes)
    ensures HexValue(ds) >= 0 <==> forall i :: 0 <= i < |ds| ==> IsHex(ds[i])
    decreases |ds|
  {
    if ds != [] {
      NumberIff(ds[..|ds| - 1]);
    }
  }

  /** The eight bytes of a size are a number if they are hexadecimal digits, all of them or all after a
      plus sign. */
  lemma SizeIff(p: Bytes)
    requires |p| == 8
    ensures DataSize(p) >= 0 <==>
            (forall i :: 1 <= i < 8 ==> IsHex(p[i])) && (IsHex(p[0]) || p[0] == '+' as int)
    ensures p[0] == '+' as int ==> DataSize(p) == HexValue(p[1..])
  {
    hide HexValue;
    NumberIff(p);
    NumberIff(p[1..]);
    assert forall i :: 1 <= i < 8 ==> p[i] == p[1..][i - 1];
    assert forall i :: 0 <= i < 7 ==> p[1..][i] == p[i + 1];
  }

  /** A size that is no number is passed over: the scan goes on behind its first byte. */
  lemma BadSizeSkipped(p: Bytes, rest: Bytes)
    requires |p| == 8 && DataSize(p) < 0
    ensures Scan(DATA + p + rest) == Scan((DATA + p + rest)[1..])
  {
    hide DataSize, PartialAt;
    var b := DATA + p + rest;
    assert b[..4] == DATA && b[4..12] == p && IsPrefix(b);
    assert b[0..] == b;
    assert FirstWord(b) == 0;
  }

  // ---------- bytes between responses ----------

  /** Bytes in which no status word starts are dropped before one. */
  lemma JunkSkipped(junk: Bytes, b: Bytes)
    requires IsPrefix(b) && NoWord(junk, b)
    ensures Scan(junk + b) == Scan(b)
  {
    hide FirstWord, PartialAt, ParseOne;
    var all := junk + b;
    assert all[|junk|..] == b && b[0..] == b;
    assert FirstWord(all) == |junk|;
    assert FirstWord(b) == 0;
  }

  /** A buffer without a status word is dropped but for the longest end that may grow into one. */
  lemma JunkDropped(b: Bytes)
    requires forall i :: 0 <= i < |b| ==> !IsPrefix(b[i..])
    ensures var s := Scan(b);
            && s.Wait? && s.logs == [] && |s.rest| <= |b| && s.rest == b[|b| - |s.rest|..]
            && (s.rest == [] || IsPartial(s.rest))
            && forall j :: 0 <= j < |b| - |s.rest| ==> !IsPartial(b[j..])
  {
    hide FirstWord, PartialAt, ParseOne;
    assert FirstWord(b) == |b|;
  }

  // ---------- the end of the stream ----------

  /** A receive that finds its answer leaves what comes later; one that does not ends with the stream,
      or with its error, and the messages logged until then. */
  lemma {:induction false} ReceiveEnds(b: Bytes, chunks: seq<Bytes>, more: seq<Event>)
    requires forall i :: 0 <= i < |chunks| ==> chunks[i] != []
    ensures var r, events := Receive(b, Chunks(chunks)), Chunks(chunks);
            && !r.Failed?
            && (r.Received? ==> Receive(b, events + more) == r.(left := r.left + more))
            && (r.Closed? ==>
                  && Receive(b, events + ([Broken] + more)) == Failed(r.logs, more)
                  && Receive(b, events + ([Chunk([])] + more)) == Closed(r.logs, more))
    decreases |chunks|
  {
    hide Scan;
    var s, events := Scan(b), Chunks(chunks);
    if chunks == [] {
      assert events + more == more && events + ([Broken] + more) == [Broken] + more;
      assert events + ([Chunk([])] + more) == [Chunk([])] + more;
      assert ([Broken] + more)[1..] == more && ([Chunk([])] + more)[1..] == more;
    } else {
      var later := Chunks(chunks[1..]);
      assert events[0] == Chunk(chunks[0]) && events[1..] == later;
      forall x: seq<Event> ensures (events + x)[0] == events[0] && (events + x)[1..] == later + x {}
      if s.Wait? {
        ReceiveEnds(s.rest + chunks[0], chunks[1..], more);
      }
    }
  }
}
