/**
 The message format of the TCP connections: a 32-bit tag, a 32-bit length and the data, both words
 little-endian. `Frame` is what the printer writes, `Receive` what one call of the parser takes off
 the stream, `Parse` what the receive loop gets out of a whole connection.
 */
module Framing {
  import opened Bytes

  const MAGIC: nat := 0x20041969
  const MAX_LENGTH_PAYLOAD: nat := 4096

  // ---------- Printing ----------

  /** The header is the tag and the size; the size is stored in a 32-bit variable. */
  function Header(size: nat): (h: ByteString)
    ensures |h| == 8
  {
    LE32(MAGIC) + LE32(size % U32)
  }

  function Frame(m: ByteString): (f: ByteString)
    ensures |f| == 8 + |m|
  {
    Header(|m|) + m
  }

  function Encode(ms: seq<ByteString>): ByteString {
    if ms == [] then [] else Frame(ms[0]) + Encode(ms[1..])
  }

  /** The messages the parser's buffer can hold and that do not read as a disconnect. */
  predicate Sendable(m: ByteString) {
    1 <= |m| <= MAX_LENGTH_PAYLOAD
  }

  predicate AllSendable(ms: seq<ByteString>) {
    forall i :: 0 <= i < |ms| ==> Sendable(ms[i])
  }

  lemma {:induction false} EncodeAppend(xs: seq<ByteString>, ys: seq<ByteString>)
    ensures Encode(xs + ys) == Encode(xs) + Encode(ys)
  {
    hide Frame;
    if xs == [] {
      assert xs + ys == ys;
    } else {
      EncodeAppend(xs[1..], ys);
      assert (xs + ys)[1..] == xs[1..] + ys;
    }
  }

  /** The bytes of a frame: the tag 0x20041969 and the size, lowest byte first, and the message. */
  lemma FrameBytes(m: ByteString)
    requires |m| < 0x1_0000_0000
    ensures Frame(m)[..4] == [0x69, 0x19, 0x04, 0x20]
    ensures Frame(m)[4] == |m| % 256
    ensures Frame(m)[5] == |m| / 256 % 256
    ensures Frame(m)[6] == |m| / 65536 % 256
    ensures Frame(m)[7] == |m| / 16777216 % 256
    ensures Frame(m)[8..] == m
  {
    hide LE32, FromLE32;
    TagBytes();
    LE32RoundTrip(|m|);
    var f := Frame(m);
    assert f[..4] == LE32(MAGIC) && f[4..8] == LE32(|m|) && f[8..] == m;
    assert f[4] == f[4..8][0] && f[5] == f[4..8][1] && f[6] == f[4..8][2] && f[7] == f[4..8][3];
  }

  lemma TagBytes()
    ensures LE32(MAGIC) == [0x69, 0x19, 0x04, 0x20]
  {
  }

  lemma EncodeSnoc(ms: seq<ByteString>, m: ByteString)
    ensures Encode(ms + [m]) == Encode(ms) + Frame(m)
  {
    EncodeAppend(ms, [m]);
    assert Encode([m]) == Frame(m) + Encode([]);
  }

  /** Reading back the two words of a header that stands in front of anything. */
  lemma HeaderWords(size: nat, rest: ByteString)
    requires size < U32
    ensures var s := Header(size) + rest;
            |s| >= 8 && FromLE32(s[..4]) == MAGIC && FromLE32(s[4..8]) == size && s[8..] == rest
  {
    hide LE32, FromLE32;
    var s := Header(size) + rest;
    assert s[..4] == LE32(MAGIC);
    assert s[4..8] == LE32(size);
    LE32RoundTrip(MAGIC);
    LE32RoundTrip(size);
  }

  lemma HeaderFromWords(s: ByteString)
    requires |s| >= 8 && FromLE32(s[..4]) == MAGIC
    ensures s == Header(FromLE32(s[4..8])) + s[8..]
  {
    hide LE32, FromLE32;
    LE32Onto(s[..4]);
    LE32Onto(s[4..8]);
    assert s == s[..4] + s[4..8] + s[8..];
  }

  // ---------- Parsing one frame ----------

  /** An empty payload is the return value 0, which the caller takes for a disconnect. */
  datatype Received = Received(payload: ByteString, rest: ByteString)

  /**
   One call of the parser on the unread bytes s, when the read of the payload delivers at most
   `grant` bytes. A stream that ends inside a header counts as consumed.
   */
  function ReceiveChunk(s: ByteString, grant: Pos): (r: Received)
    ensures r.payload != [] ==> |r.rest| < |s|
  {
    if |s| < 4 then Received([], [])
    else if FromLE32(s[..4]) != MAGIC then Received([], s[4..])
    else if |s| < 8 then Received([], [])
    else
      var size := FromLE32(s[4..8]);
      if size > MAX_LENGTH_PAYLOAD then Received([], s[8..])
      else
        var n := Min(Min(size, grant), |s| - 8);
        Received(s[8..8 + n], s[8 + n..])
  }

  /** The same with a payload read that is cut short by nothing but the end of the stream. */
  function Receive(s: ByteString): Received {
    ReceiveChunk(s, MAX_LENGTH_PAYLOAD)
  }

  lemma ReceiveFrame(m: ByteString, rest: ByteString, grant: Pos)
    requires Sendable(m)
    ensures var n := Min(|m|, grant);
            ReceiveChunk(Frame(m) + rest, grant) == Received(m[..n], m[n..] + rest)
  {
    var s := Frame(m) + rest;
    assert s == Header(|m|) + (m + rest);
    HeaderWords(|m|, m + rest);
    var n := Min(|m|, grant);
    assert Min(Min(|m|, grant), |s| - 8) == n;
    assert s[8..8 + n] == s[8..][..n] == m[..n];
    assert s[8 + n..] == s[8..][n..] == m[n..] + rest;
  }

  /** The words these bytes are read as. */
  lemma HeaderBytes(s: ByteString)
    requires |s| >= 8
    ensures FromLE32(s[..4]) == MAGIC <==> s[..4] == [0x69, 0x19, 0x04, 0x20]
    ensures FromLE32(s[4..8]) == (s[4] as int) + 256 * (s[5] as int) + 65536 * (s[6] as int) + 16777216 * (s[7] as int)
  {
    TagBytes();
    LE32Onto(s[..4]);
    LE32RoundTrip(MAGIC);
    hide LE32;
    WordValue(s[4..8]);
  }

  lemma WordValue(w: ByteString)
    requires |w| == 4
    ensures FromLE32(w) == (w[0] as int) + 256 * (w[1] as int) + 65536 * (w[2] as int) + 16777216 * (w[3] as int)
  {
  }

  /** What one call makes of any bytes: the four of the tag, the four of a size up to 4096, and the payload. */
  lemma ReceiveBytes(s: ByteString, grant: Pos)
    ensures |s| < 8 || s[..4] != [0x69, 0x19, 0x04, 0x20] ==> ReceiveChunk(s, grant).payload == []
    ensures |s| >= 8 && s[..4] == [0x69, 0x19, 0x04, 0x20] ==>
              var size := (s[4] as int) + 256 * (s[5] as int) + 65536 * (s[6] as int) + 16777216 * (s[7] as int);
              ReceiveChunk(s, grant)
              == if size > 4096 then Received([], s[8..])
                 else var n := Min(Min(size, grant), |s| - 8); Received(s[8..][..n], s[8..][n..])
  {
    if |s| >= 8 {
      HeaderBytes(s);
      hide FromLE32;
    }
  }

  /** A read that may deliver a whole buffer does not cut a payload. */
  lemma WholeRead(s: ByteString, grant: Pos)
    requires grant >= MAX_LENGTH_PAYLOAD
    ensures ReceiveChunk(s, grant) == Receive(s)
  {
  }

  /** A short read delivers some of the payload, but not all that has been sent of it. */
  lemma ShortRead(s: ByteString, grant: Pos)
    requires ReceiveChunk(s, grant) != Receive(s)
    ensures ReceiveChunk(s, grant).payload != [] && Receive(s).payload != []
    ensures |ReceiveChunk(s, grant).payload| < |Receive(s).payload|
  {
  }

  lemma ChunkSendable(s: ByteString, grant: Pos)
    ensures var m := ReceiveChunk(s, grant).payload; m != [] ==> Sendable(m)
  {
  }

  // ---------- Parsing a connection ----------

  /** The payloads the receive loop hands on before it meets a disconnect. */
  function Parse(s: ByteString): seq<ByteString>
    decreases |s|
  {
    var r := Receive(s);
    if r.payload == [] then [] else [r.payload] + Parse(r.rest)
  }

  /** The payloads of several connections served one after the other. */
  function ParseAll(conns: seq<ByteString>): seq<ByteString> {
    if conns == [] then [] else Parse(conns[0]) + ParseAll(conns[1..])
  }

  lemma ParseNothing()
    ensures Parse([]) == []
  {
    assert Receive([]).payload == [];
  }

  /** A frame the end of the stream cut short inside its payload. */
  ghost predicate Truncated(tail: ByteString, payload: ByteString) {
    exists size: nat :: |payload| < size <= MAX_LENGTH_PAYLOAD && tail == Header(size) + payload
  }

  /** What stops the loop: no whole header, a wrong tag, an oversize length, or no payload. */
  predicate Stops(tail: ByteString) {
    || |tail| < 8
    || FromLE32(tail[..4]) != MAGIC
    || FromLE32(tail[4..8]) > MAX_LENGTH_PAYLOAD
    || FromLE32(tail[4..8]) == 0
    || |tail| == 8
  }

  lemma ReceiveTruncated(s: ByteString, t: ByteString)
    requires t != [] && Truncated(s, t)
    ensures Receive(s) == Received(t, [])
  {
    var size: nat :| |t| < size <= MAX_LENGTH_PAYLOAD && s == Header(size) + t;
    HeaderWords(size, t);
  }

  lemma ReceiveStops(s: ByteString)
    ensures Stops(s) <==> Receive(s).payload == []
  {
  }

  /** What one call of the parser takes off a stream: a whole frame, or what is left of one. */
  lemma ReceiveSome(s: ByteString)
    requires !Stops(s)
    ensures var r := Receive(s);
            Sendable(r.payload) && (s == Frame(r.payload) + r.rest || (r.rest == [] && Truncated(s, r.payload)))
  {
    hide LE32, FromLE32;
    HeaderFromWords(s);
    var size := FromLE32(s[4..8]);
    var r := Receive(s);
    if size <= |s| - 8 {
      assert s[8..] == r.payload + r.rest;
      assert s == Frame(r.payload) + r.rest;
    } else {
      assert Truncated(s, r.payload);
    }
  }

  lemma ParseUnfold(s: ByteString)
    ensures var r := Receive(s);
            Parse(s) == if r.payload == [] then [] else [r.payload] + Parse(r.rest)
  {
  }

  lemma ParseFrame(m: ByteString, rest: ByteString)
    requires Sendable(m)
    ensures Parse(Frame(m) + rest) == [m] + Parse(rest)
  {
    ReceiveFrame(m, rest, MAX_LENGTH_PAYLOAD);
  }

  /** Whole frames come out as they went in, whatever follows them. */
  lemma {:induction false} ParseEncoded(ms: seq<ByteString>, tail: ByteString)
    requires AllSendable(ms)
    ensures Parse(Encode(ms) + tail) == ms + Parse(tail)
  {
    hide Frame, Receive;
    if ms == [] {
      assert Encode(ms) + tail == tail;
    } else {
      assert Encode(ms) + tail == Frame(ms[0]) + (Encode(ms[1..]) + tail);
      ParseFrame(ms[0], Encode(ms[1..]) + tail);
      ParseEncoded(ms[1..], tail);
    }
  }

  /** Round trip: the parser gives back exactly the framed messages. */
  lemma {:induction false} RoundTrip(ms: seq<ByteString>)
    requires AllSendable(ms)
    ensures Parse(Encode(ms)) == ms
  {
    ParseEncoded(ms, []);
    assert Encode(ms) + [] == Encode(ms);
    ParseNothing();
  }

  /**
   Unique decoding: two lists of sendable messages share an encoding only if they are the same list --
   even when one of the encodings is followed by bytes that start no frame.
   */
  lemma {:induction false} UniqueDecoding(xs: seq<ByteString>, ys: seq<ByteString>, tail: ByteString)
    requires AllSendable(xs) && AllSendable(ys)
    requires Encode(xs) == Encode(ys) + tail && Stops(tail)
    ensures xs == ys && tail == []
  {
    RoundTrip(xs);
    ParseEncoded(ys, tail);
    ReceiveStops(tail);
    assert Parse(tail) == [];
  }

  /**
   The parser on an arbitrary stream, one direction: once a stream is cut into whole frames and a
   tail, the loop gets exactly those messages, and one more if the tail is a truncated frame.
   */
  lemma {:induction false} ParseOfSplit(ms: seq<ByteString>, tail: ByteString)
    requires AllSendable(ms)
    ensures Stops(tail) ==> Parse(Encode(ms) + tail) == ms
    ensures forall t: ByteString :: t != [] && Truncated(tail, t) ==> Parse(Encode(ms) + tail) == ms + [t]
  {
    hide Receive, Truncated, Stops;
    ParseEncoded(ms, tail);
    ReceiveStops(tail);
    ParseNothing();
    forall t: ByteString | t != [] && Truncated(tail, t) ensures Parse(tail) == [t] {
      ReceiveTruncated(tail, t);
    }
  }

  /** The other direction: every stream can be cut that way, so the two cases above are all there is. */
  lemma {:induction false} ParseSplits(s: ByteString) returns (ms: seq<ByteString>, tail: ByteString)
    ensures AllSendable(ms) && s == Encode(ms) + tail
    ensures (Stops(tail) && Parse(s) == ms)
         || (exists t: ByteString :: t != [] && Truncated(tail, t) && Parse(s) == ms + [t])
    decreases |s|
  {
    hide Receive, Frame, Stops, Truncated;
    ReceiveStops(s);
    var r := Receive(s);
    if !Stops(s) {
      ReceiveSome(s);
    }
    if Stops(s) {
      ms, tail := [], s;
    } else if s == Frame(r.payload) + r.rest {
      var ms', tail' := ParseSplits(r.rest);
      ms, tail := [r.payload] + ms', tail';
      assert ms[1..] == ms';
      if !(Stops(tail') && Parse(r.rest) == ms') {
        var t: ByteString :| t != [] && Truncated(tail', t) && Parse(r.rest) == ms' + [t];
        assert Parse(s) == ms + [t];
      }
    } else {
      ms, tail := [], s;
      ParseNothing();
      assert Parse(s) == ms + [r.payload];
    }
  }

  // ---------- Short payload reads ----------

  /** The receive loop when the i-th payload read delivers at most grants[i] bytes. */
  function ParseChunked(s: ByteString, grants: seq<Pos>): seq<ByteString> {
    if grants == [] then []
    else
      var r := ReceiveChunk(s, grants[0]);
      if r.payload == [] then [] else [r.payload] + ParseChunked(r.rest, grants[1..])
  }

  /** A read in front of a frame takes its share of the payload, and the loop goes on behind it. */
  lemma ChunkedFrame(m: ByteString, rest: ByteString, grant: Pos, later: seq<Pos>)
    requires Sendable(m)
    ensures var n := Min(|m|, grant);
            ParseChunked(Frame(m) + rest, [grant] + later) == [m[..n]] + ParseChunked(m[n..] + rest, later)
  {
    hide Frame, ReceiveChunk;
    ReceiveFrame(m, rest, grant);
    assert ([grant] + later)[1..] == later;
    assert m[..Min(|m|, grant)] != [];
  }

  /** In front of what is left of a frame it takes its share of that. */
  lemma ChunkedTruncated(s: ByteString, t: ByteString, grant: Pos, later: seq<Pos>)
    requires t != [] && Truncated(s, t)
    ensures var n := Min(|t|, grant);
            ParseChunked(s, [grant] + later) == [t[..n]] + ParseChunked(t[n..], later)
  {
    hide LE32, FromLE32;
    var size: nat :| |t| < size <= MAX_LENGTH_PAYLOAD && s == Header(size) + t;
    HeaderWords(size, t);
    assert ([grant] + later)[1..] == later;
    var n := Min(|t|, grant);
    assert s[8..8 + n] == s[8..][..n] == t[..n];
    assert s[8 + n..] == s[8..][n..] == t[n..];
    assert ReceiveChunk(s, grant) == Received(t[..n], t[n..]);
  }

  /** In front of anything else it is the last. */
  lemma ChunkedStops(s: ByteString, grant: Pos, later: seq<Pos>)
    requires Stops(s)
    ensures ParseChunked(s, [grant] + later) == []
  {
    ReceiveStops(s);
    hide FromLE32;
  }

  /** Reads that are never short give the first messages of the stream, as many as there were reads. */
  lemma {:induction false} FullReads(s: ByteString, grants: seq<Pos>)
    requires forall i :: 0 <= i < |grants| ==> grants[i] >= MAX_LENGTH_PAYLOAD
    ensures ParseChunked(s, grants) == Parse(s)[..Min(|grants|, |Parse(s)|)]
  {
    if grants != [] {
      var r := ReceiveChunk(s, grants[0]);
      assert r == Receive(s);
      if r.payload != [] {
        FullReads(r.rest, grants[1..]);
      }
    }
  }

  /**
   The parser does not repeat a payload read that came back short. It recovers the framed messages
   exactly when every payload arrives in one piece.
   */
  lemma {:induction false} ChunkedExact(ms: seq<ByteString>, grants: seq<Pos>)
    requires AllSendable(ms)
    ensures ParseChunked(Encode(ms), grants) == ms
            <==> |grants| >= |ms| && forall i :: 0 <= i < |ms| ==> grants[i] >= |ms[i]|
  {
    hide Frame, ReceiveChunk;
    if ms == [] {
      assert ParseChunked([], grants) == [];
    } else if grants != [] {
      var m, rest, n := ms[0], Encode(ms[1..]), Min(|ms[0]|, grants[0]);
      ReceiveFrame(m, rest, grants[0]);
      ChunkedExact(ms[1..], grants[1..]);
      if grants[0] >= |m| {
        assert m[..n] == m && m[n..] + rest == rest;
        assert ParseChunked(Encode(ms), grants) == [m] + ParseChunked(rest, grants[1..]);
        assert ms == [m] + ms[1..];
        assert ParseChunked(Encode(ms), grants) == ms <==> ParseChunked(rest, grants[1..]) == ms[1..];
        if |grants| >= |ms| && forall i :: 0 <= i < |ms| ==> grants[i] >= |ms[i]| {
          forall i | 0 <= i < |ms[1..]| ensures grants[1..][i] >= |ms[1..][i]| {
            assert grants[i + 1] >= |ms[i + 1]|;
          }
        }
        if ParseChunked(rest, grants[1..]) == ms[1..] {
          forall i | 0 <= i < |ms| ensures grants[i] >= |ms[i]| {
            if i > 0 {
              assert grants[1..][i - 1] >= |ms[1..][i - 1]|;
            }
          }
        }
      } else {
        assert ParseChunked(Encode(ms), grants)[0] == m[..n];
      }
    }
  }

  /** A read of one byte cuts a message of two. */
  lemma OneByteRead(a: Byte, b: Byte)
    ensures ParseChunked(Encode([[a, b]]), [1]) == [[a]]
  {
    var m := [a, b];
    EncodeSnoc([], m);
    assert Encode([[a, b]]) == Frame(m) + [];
    ReceiveFrame(m, [], 1);
    assert m[..1] == [a];
    assert ParseChunked(m[1..] + [], []) == [];
  }

  /** A server that reads one client after the other: what is unread, the clients to come, the payloads so far. */
  datatype Reader = Reader(cur: ByteString, later: seq<ByteString>, taken: seq<ByteString>)

  function NextClient(later: seq<ByteString>, taken: seq<ByteString>): Reader {
    if later == [] then Reader([], [], taken) else Reader(later[0], later[1..], taken)
  }

  /** One call of the parser; a disconnect brings the next client. */
  function ReadOnce(r: Reader, grant: Pos): Reader {
    var c := ReceiveChunk(r.cur, grant);
    if c.payload == [] then NextClient(r.later, r.taken) else Reader(c.rest, r.later, r.taken + [c.payload])
  }

  function Reads(conns: seq<ByteString>, grants: seq<Pos>): Reader {
    if grants == [] then NextClient(conns, [])
    else ReadOnce(Reads(conns, grants[..|grants| - 1]), grants[|grants| - 1])
  }

  /** What the server takes in when its i-th payload read delivers at most grants[i] bytes. */
  function Intake(conns: seq<ByteString>, grants: seq<Pos>): seq<ByteString> {
    Reads(conns, grants).taken
  }

  lemma ReadsSnoc(conns: seq<ByteString>, grants: seq<Pos>, grant: Pos)
    ensures Reads(conns, grants + [grant]) == ReadOnce(Reads(conns, grants), grant)
  {
    assert (grants + [grant])[..|grants|] == grants;
  }

  /** The same, read on from some place. */
  function ReadsOn(r: Reader, grants: seq<Pos>): Reader
    decreases |grants|
  {
    if grants == [] then r else ReadsOn(ReadOnce(r, grants[0]), grants[1..])
  }

  lemma {:induction false} ReadsOnSnoc(r: Reader, grants: seq<Pos>, grant: Pos)
    ensures ReadsOn(r, grants + [grant]) == ReadOnce(ReadsOn(r, grants), grant)
    decreases |grants|
  {
    hide ReadOnce;
    if grants == [] {
      assert ([grant])[1..] == [];
      Nil([grant]);
    } else {
      ReadsOnSnoc(ReadOnce(r, grants[0]), grants[1..], grant);
      assert (grants + [grant])[1..] == grants[1..] + [grant];
    }
  }

  lemma {:induction false} ReadsIsReadsOn(conns: seq<ByteString>, grants: seq<Pos>)
    ensures Reads(conns, grants) == ReadsOn(NextClient(conns, []), grants)
  {
    hide ReadOnce;
    if grants != [] {
      var n := |grants| - 1;
      ReadsIsReadsOn(conns, grants[..n]);
      ReadsOnSnoc(NextClient(conns, []), grants[..n], grants[n]);
      assert grants[..n] + [grants[n]] == grants;
    }
  }

  /** The last client's receive loop reads what is taken in from there on. */
  lemma {:induction false} LastClient(s: ByteString, taken: seq<ByteString>, grants: seq<Pos>)
    ensures ReadsOn(Reader(s, [], taken), grants).taken == taken + ParseChunked(s, grants)
    decreases |grants|
  {
    hide ReceiveChunk;
    if grants == [] {
      Nil(taken);
    } else {
      var c := ReceiveChunk(s, grants[0]);
      if c.payload == [] {
        NobodyLeft(taken, grants[1..]);
        Nil(taken);
      } else {
        LastClient(c.rest, taken + [c.payload], grants[1..]);
        Assoc(taken, [c.payload], ParseChunked(c.rest, grants[1..]));
      }
    }
  }

  lemma {:induction false} NobodyLeft(taken: seq<ByteString>, grants: seq<Pos>)
    ensures ReadsOn(Reader([], [], taken), grants) == Reader([], [], taken)
    decreases |grants|
  {
    if grants != [] {
      assert ReceiveChunk([], grants[0]).payload == [];
      NobodyLeft(taken, grants[1..]);
    }
  }

  /** With one client, what is taken in is what its receive loop reads. */
  lemma {:induction false} IntakeOfOne(s: ByteString, grants: seq<Pos>)
    ensures Intake([s], grants) == ParseChunked(s, grants)
  {
    hide Reads, ReadsOn;
    ReadsIsReadsOn([s], grants);
    assert NextClient([s], []) == Reader(s, [], []);
    LastClient(s, [], grants);
    Nil(ParseChunked(s, grants));
  }

  /** The reads that are still worth making. */
  function Remaining(r: Reader): nat {
    |Parse(r.cur)| + |ParseAll(r.later)| + |r.later|
  }

  lemma WholeReadOnce(r: Reader, grant: Pos)
    requires grant >= MAX_LENGTH_PAYLOAD
    ensures var t := ReadOnce(r, grant);
            && t.taken + (Parse(t.cur) + ParseAll(t.later)) == r.taken + (Parse(r.cur) + ParseAll(r.later))
            && (Remaining(t) < Remaining(r) || Remaining(t) == Remaining(r) == 0)
  {
    hide Receive, ReceiveChunk, Parse;
    WholeRead(r.cur, grant);
    ParseUnfold(r.cur);
    ParseNothing();
    var c := Receive(r.cur);
    if c.payload == [] {
      Nil(ParseAll(r.later));
    } else {
      Assoc([c.payload], Parse(c.rest), ParseAll(r.later));
      Assoc(r.taken, [c.payload], Parse(c.rest) + ParseAll(r.later));
    }
  }

  /** Whole reads take in a prefix of what the clients framed; enough of them, everything. */
  lemma {:induction false} WholeIntake(conns: seq<ByteString>, grants: seq<Pos>)
    requires forall i :: 0 <= i < |grants| ==> grants[i] >= MAX_LENGTH_PAYLOAD
    ensures Intake(conns, grants) <= ParseAll(conns)
    ensures |grants| >= |ParseAll(conns)| + |conns| ==> Intake(conns, grants) == ParseAll(conns)
  {
    hide Parse, ParseAll, Reads, Remaining;
    WholeReadsLeave(conns, grants);
    var r := Reads(conns, grants);
    Prefix(r.taken, Parse(r.cur) + ParseAll(r.later));
    if Remaining(r) == 0 {
      NothingRemains(r);
    }
  }

  lemma NothingRemains(r: Reader)
    requires Remaining(r) == 0
    ensures r.taken + (Parse(r.cur) + ParseAll(r.later)) == r.taken
  {
    hide Parse, ParseAll;
  }

  lemma {:induction false} WholeReadsLeave(conns: seq<ByteString>, grants: seq<Pos>)
    requires forall i :: 0 <= i < |grants| ==> grants[i] >= MAX_LENGTH_PAYLOAD
    ensures var r := Reads(conns, grants);
            && r.taken + (Parse(r.cur) + ParseAll(r.later)) == ParseAll(conns)
            && (Remaining(r) + |grants| <= |ParseAll(conns)| + |conns| || Remaining(r) == 0)
  {
    hide Parse, ReadOnce;
    if grants == [] {
      ParseNothing();
      Nil(ParseAll(conns));
    } else {
      hide Remaining, ParseAll;
      var n := |grants| - 1;
      WholeReadsLeave(conns, grants[..n]);
      WholeReadOnce(Reads(conns, grants[..n]), grants[n]);
    }
  }

  /** Fewer reads take in any shorter prefix. */
  lemma {:induction false} IntakePrefix(conns: seq<ByteString>, grants: seq<Pos>, n: nat) returns (fewer: seq<Pos>)
    requires n <= |Intake(conns, grants)|
    ensures Intake(conns, fewer) == Intake(conns, grants)[..n]
  {
    hide ReceiveChunk;
    if n == |Intake(conns, grants)| {
      fewer := grants;
    } else {
      assert grants != [];
      fewer := IntakePrefix(conns, grants[..|grants| - 1], n);
    }
  }
}
