/**
 The Python client: it receives frames from a socket that delivers them in pieces, and sends numbered
 messages over a socket that takes them in pieces.
 */
module Peer {
  import opened Bytes
  import opened Framing

  // ---------- Receiving ----------

  /** What one recv() does: deliver some bytes (none if the peer has closed), fail with EAGAIN, or fail otherwise. */
  datatype RecvEvent = Chunk(n: Pos) | Again | Fail

  datatype Waited = Got(d: ByteString) | Raised(d: ByteString) | StillWaiting(d: ByteString)

  /** The bytes the socket is willing to deliver before it fails for good. */
  function Supply(es: seq<RecvEvent>): nat {
    if es == [] then 0
    else match es[0]
      case Chunk(n) => n + Supply(es[1..])
      case Again => Supply(es[1..])
      case Fail => 0
  }

  /** Events before the first failure add up; EAGAIN delivers nothing and ends nothing. */
  lemma {:induction false} SupplyAddsUp(es: seq<RecvEvent>, i: nat)
    requires i < |es| && Fail !in es[..i]
    ensures Supply(es) == Supply(es[..i]) + (match es[i]
                                             case Chunk(n) => n + Supply(es[i + 1..])
                                             case Again => Supply(es[i + 1..])
                                             case Fail => 0)
    ensures Supply([]) == 0
  {
    if i == 0 {
      assert es[..0] == [];
    } else {
      assert es[..i][0] == es[0];
      assert Fail !in es[1..][..i - 1] by {
        assert forall x :: x in es[1..][..i - 1] ==> x in es[..i];
      }
      SupplyAddsUp(es[1..], i - 1);
      assert es[1..][..i - 1] == es[..i][1..];
      assert es[1..][i..] == es[i + 1..];
    }
  }

  /** What one call of _recv_data makes of the unread bytes, when the socket delivers all that was sent. */
  datatype Step =
    | Message(data: ByteString, rest: ByteString) // (True, data)
    | Skipped(rest: ByteString)                   // (True, b"")
    | Closed                                      // (False, b"")
    | Malformed                                   // struct.error: the stream ends inside a word
    | Incomplete                                  // the data does not all come: the call does not return
    | SocketError                                 // raised by recv() while the call waits for the data

  function RecvStep(s: ByteString): (r: Step)
    ensures r.Message? ==> r.data != [] && |r.rest| < |s|
    ensures r.Skipped? ==> |r.rest| < |s|
  {
    if s == [] then Closed
    else if |s| < 4 then Malformed
    else if FromLE32(s[..4]) != MAGIC then Skipped(s[4..])
    else if |s| == 4 then Closed
    else if |s| < 8 then Malformed
    else
      var size := FromLE32(s[4..8]);
      if size == 0 then Skipped(s[8..])
      else if size <= |s| - 8 then Message(s[8..8 + size], s[8 + size..])
      else Incomplete
  }

  /** The tag and the size of a stream, as its bytes say. */
  predicate Tagged(s: ByteString) {
    |s| >= 4 && s[..4] == [0x69, 0x19, 0x04, 0x20]
  }

  /** Which bytes make which outcome. */
  lemma RecvStepBytes(s: ByteString)
    ensures RecvStep(s) == Closed <==> s == [] || (Tagged(s) && |s| == 4)
    ensures RecvStep(s) == Malformed <==> 1 <= |s| < 4 || (Tagged(s) && 4 < |s| < 8)
    ensures |s| >= 4 && !Tagged(s) ==> RecvStep(s) == Skipped(s[4..])
    ensures |s| >= 8 && Tagged(s) ==>
              var size := (s[4] as int) + 256 * (s[5] as int) + 65536 * (s[6] as int) + 16777216 * (s[7] as int);
              RecvStep(s) == if size == 0 then Skipped(s[8..])
                             else if size <= |s| - 8 then Message(s[8..][..size], s[8..][size..])
                             else Incomplete
  {
    if |s| >= 4 {
      TagWord(s);
    }
    if |s| >= 8 {
      HeaderBytes(s);
    }
    hide FromLE32;
  }

  lemma TagWord(s: ByteString)
    requires |s| >= 4
    ensures FromLE32(s[..4]) == MAGIC <==> Tagged(s)
  {
    var t := s[..4] + [0, 0, 0, 0];
    HeaderBytes(t);
    assert t[..4] == s[..4];
  }

  /** The messages the client gets out of a stream. */
  function Decode(s: ByteString): seq<ByteString>
    decreases |s|
  {
    match RecvStep(s)
    case Message(data, rest) => [data] + Decode(rest)
    case Skipped(rest) => Decode(rest)
    case Closed => []
    case Malformed => []
    case Incomplete => []
    case SocketError => []
  }

  /** The messages this client can tell from a closed connection and whose size fits a header. */
  predicate Receivable(m: ByteString) {
    1 <= |m| < U32
  }

  /** Across the languages: what the printer frames, of whatever size, the client decodes. */
  lemma {:induction false} DecodeEncoded(ms: seq<ByteString>)
    requires forall i :: 0 <= i < |ms| ==> Receivable(ms[i])
    ensures Decode(Encode(ms)) == ms
  {
    if ms != [] {
      var m, rest := ms[0], Encode(ms[1..]);
      RecvFrame(m, rest);
      hide Frame, RecvStep;
      DecodeEncoded(ms[1..]);
    }
  }

  lemma RecvFrame(m: ByteString, rest: ByteString)
    requires Receivable(m)
    ensures RecvStep(Frame(m) + rest) == Message(m, rest)
  {
    var s := Frame(m) + rest;
    assert s == Header(|m|) + (m + rest);
    HeaderWords(|m|, m + rest);
    assert s[8..8 + |m|] == s[8..][..|m|] == m;
    assert s[8 + |m|..] == s[8..][|m|..] == rest;
  }

  /** A frame in front of anything gives its message, one without data gives nothing, the end of the stream ends it. */
  lemma DecodeOnward(m: ByteString, s: ByteString)
    ensures Receivable(m) ==> Decode(Frame(m) + s) == [m] + Decode(s)
    ensures m == [] ==> Decode(Frame(m) + s) == Decode(s)
    ensures |s| < 4 || (Tagged(s) && |s| < 8) ==> Decode(s) == []
    ensures |s| >= 8 && Tagged(s) && FromLE32(s[4..8]) > |s| - 8 ==> Decode(s) == []
  {
    RecvStepBytes(s);
    if |s| >= 8 {
      HeaderBytes(s);
    }
    if Receivable(m) {
      RecvFrame(m, s);
    }
    if m == [] {
      EmptyFrame(s);
    }
    hide RecvStep, FromLE32, Frame;
  }

  lemma EmptyFrame(s: ByteString)
    ensures RecvStep(Frame([]) + s) == Skipped(s)
  {
    assert Frame([]) + s == Header(0) + s by {
      Nil(Header(0));
    }
    HeaderWords(0, s);
    hide Header, FromLE32;
  }

  /** A word that is not the tag ends the connection for the listener; the client goes on behind it. */
  lemma WrongTag(w: ByteString, s: ByteString)
    requires |w| == 4 && FromLE32(w) != MAGIC
    ensures Parse(w + s) == [] && Decode(w + s) == Decode(s)
  {
    assert (w + s)[..4] == w && (w + s)[4..] == s;
  }

  // ---------- Sending ----------

  /** What errno says after a send() that failed. */
  datatype Errno = EAGAIN | EPIPE | OtherErrno

  /** What one send() does: take some bytes, or fail. */
  datatype SendEvent = Took(n: Pos) | Fails(e: Errno)

  /** The exception classes that matter here; socket.error is another name of OSError. */
  datatype ExceptionClass = OSError | BlockingIOError | BrokenPipeError

  /** The class of the exception that Python raises for an errno. */
  function Raises(e: Errno): ExceptionClass {
    match e
    case EAGAIN => BlockingIOError
    case EPIPE => BrokenPipeError
    case OtherErrno => OSError
  }

  predicate IsA(c: ExceptionClass, d: ExceptionClass) {
    c == d || d == OSError
  }

  /** Which of the except clauses an exception enters: the first that fits, whatever comes after it. */
  function Clause(clauses: seq<ExceptionClass>, c: ExceptionClass): (i: nat)
    ensures i <= |clauses|
    ensures i < |clauses| ==> IsA(c, clauses[i])
    ensures forall j :: 0 <= j < i ==> !IsA(c, clauses[j])
  {
    if clauses == [] || IsA(c, clauses[0]) then 0 else 1 + Clause(clauses[1..], c)
  }

  /** The except clauses of _send_data, in the order they are written. */
  const CLAUSES: seq<ExceptionClass> := [OSError, BrokenPipeError]

  /**
   The second clause is never entered; in the other order a broken pipe would enter its clause, and nothing
   else would.
   */
  lemma BrokenPipeClauseDead(e: Errno)
    ensures Clause(CLAUSES, Raises(e)) == 0
    ensures Clause([BrokenPipeError, OSError], Raises(e)) == if e == EPIPE then 0 else 1
  {
    assert IsA(Raises(e), CLAUSES[0]);
    assert [BrokenPipeError, OSError][1..] == [OSError];
  }

  /** How the loop over the partial sends ends. */
  datatype LoopEnd = Complete | WouldBlock | Failed | Pending

  /** What the except clauses make of a failure: the first one raises all but EAGAIN, the second one nothing. */
  function Handled(e: Errno): LoopEnd {
    var i := Clause(CLAUSES, Raises(e));
    if i == 0 then (if e == EAGAIN then WouldBlock else Failed)
    else if i == 1 then WouldBlock
    else Failed
  }

  /** What stops a loop that is not done yet: the first event that takes nothing, or the want of events. */
  function FirstStop(es: seq<SendEvent>): (end: LoopEnd)
    ensures end != Complete
  {
    if es == [] then Pending
    else match es[0]
      case Took(_) => FirstStop(es[1..])
      case Fails(e) => if e == EAGAIN then WouldBlock else Failed
  }

  datatype SendResult = Returned(n: int) | Threw | Blocked

  /** What a call comes to that ends its loop like this, after k bytes. */
  function ResultOf(end: LoopEnd, k: int): SendResult {
    match end
    case Complete => Returned(k)
    case WouldBlock => Returned(-k)
    case Failed => Threw
    case Pending => Blocked
  }

  /** The bytes the socket takes before it first fails. */
  function Takes(es: seq<SendEvent>): nat {
    if es == [] then 0
    else match es[0]
      case Took(n) => n + Takes(es[1..])
      case Fails(_) => 0
  }

  /** All bytes that the first i events take. */
  function TookBefore(es: seq<SendEvent>, i: nat): nat
    requires i <= |es|
  {
    if i == 0 then 0 else TookBefore(es, i - 1) + if es[i - 1].Took? then es[i - 1].n else 0
  }

  predicate NoFailureBefore(es: seq<SendEvent>, i: nat)
    requires i <= |es|
  {
    forall j :: 0 <= j < i ==> es[j].Took?
  }

  lemma {:induction false} TookShift(es: seq<SendEvent>, i: nat)
    requires 1 <= i <= |es|
    ensures TookBefore(es, i) == (if es[0].Took? then es[0].n else 0) + TookBefore(es[1..], i - 1)
  {
    if i > 1 {
      TookShift(es, i - 1);
      assert es[1..][i - 2] == es[i - 1];
    }
  }

  /** Until a failure the bytes add up. */
  lemma {:induction false} TakesOn(es: seq<SendEvent>, i: nat)
    requires i <= |es| && NoFailureBefore(es, i)
    ensures Takes(es) == TookBefore(es, i) + Takes(es[i..]) && FirstStop(es) == FirstStop(es[i..])
  {
    if i > 0 {
      forall j | 0 <= j < i - 1 ensures es[1..][j].Took? {
        assert es[1..][j] == es[j + 1];
      }
      TakesOn(es[1..], i - 1);
      TookShift(es, i);
      assert es[1..][i - 1..] == es[i..];
    }
  }

  /** What the events make of a call that has size bytes to send: the first failure decides. */
  lemma {:induction false} CallByEvents(size: nat, es: seq<SendEvent>, r: SendResult)
    requires r == ResultOf(if Min(size, Takes(es)) == size then Complete else FirstStop(es), Min(size, Takes(es)))
    ensures forall i :: 0 <= i < |es| && es[i].Fails? && NoFailureBefore(es, i) && TookBefore(es, i) < size ==>
              r == if es[i].e == EAGAIN then Returned(0 - TookBefore(es, i)) else Threw
    ensures forall i :: 0 <= i <= |es| && NoFailureBefore(es, i) && TookBefore(es, i) >= size ==> r == Returned(size)
    ensures NoFailureBefore(es, |es|) && TookBefore(es, |es|) < size ==> r == Blocked
  {
    hide NoFailureBefore, TookBefore;
    forall i | 0 <= i < |es| && es[i].Fails? && NoFailureBefore(es, i) && TookBefore(es, i) < size
      ensures r == if es[i].e == EAGAIN then Returned(0 - TookBefore(es, i)) else Threw
    {
      TakesOn(es, i);
      assert es[i..][0] == es[i];
    }
    hide Takes, FirstStop;
    forall i | 0 <= i <= |es| && NoFailureBefore(es, i) && TookBefore(es, i) >= size ensures r == Returned(size) {
      TakesOn(es, i);
    }
    if NoFailureBefore(es, |es|) {
      TakesOn(es, |es|);
      NoEvents(es[|es|..]);
    }
  }

  lemma NoEvents(es: seq<SendEvent>)
    requires es == []
    ensures Takes(es) == 0 && FirstStop(es) == Pending
  {
  }

  /** str(n) in UTF-8. */
  function Dec(n: nat): (d: ByteString)
    ensures d != []
  {
    if n < 10 then [48 + n] else Dec(n / 10) + [48 + n % 10]
  }

  /** The number that decimal digits stand for. */
  function DecValue(d: ByteString): int {
    if d == [] then 0 else 10 * DecValue(d[..|d| - 1]) + (d[|d| - 1] as int - 48)
  }

  /** They are the digits '0' to '9', without a leading zero, and they stand for the number. */
  lemma {:induction false} DecDigits(n: nat)
    ensures forall i :: 0 <= i < |Dec(n)| ==> 48 <= Dec(n)[i] <= 57
    ensures Dec(n)[0] == 48 <==> n == 0
    ensures DecValue(Dec(n)) == n
  {
    if n < 10 {
      assert Dec(n)[..0] == [];
    } else {
      DecDigits(n / 10);
      assert Dec(n)[..|Dec(n)| - 1] == Dec(n / 10);
    }
  }

  lemma {:induction false} DecInjective(a: nat, b: nat)
    requires Dec(a) == Dec(b)
    ensures a == b
  {
    assert Dec(a)[|Dec(a)| - 1] == 48 + a % 10;
    assert Dec(b)[|Dec(b)| - 1] == 48 + b % 10;
    if a >= 10 && b >= 10 {
      assert Dec(a / 10) == Dec(a)[..|Dec(a)| - 1] == Dec(b)[..|Dec(b)| - 1] == Dec(b / 10);
      DecInjective(a / 10, b / 10);
    }
  }

  /** The message with its counter, as in "text #7". */
  function Numbered(msg: ByteString, n: nat): ByteString {
    msg + [32, 35] + Dec(n)
  }

  /** The text, a blank, '#' and the digits of the counter. */
  lemma NumberedBytes(msg: ByteString, n: nat)
    ensures var m, k := Numbered(msg, n), |msg|;
            |m| > k + 2 && m[..k] == msg && m[k] == 0x20 && m[k + 1] == 0x23 && DecValue(m[k + 2..]) == n
  {
    DecDigits(n);
    assert Numbered(msg, n)[|msg| + 2..] == Dec(n);
  }

  lemma NumberedInjective(msg: ByteString, a: nat, b: nat)
    requires Numbered(msg, a) == Numbered(msg, b)
    ensures a == b
  {
    assert Dec(a) == Numbered(msg, a)[|msg| + 2..] == Numbered(msg, b)[|msg| + 2..] == Dec(b);
    DecInjective(a, b);
  }

  /** The first n messages of a client that always sends the same text. */
  function Numbers(msg: ByteString, n: nat): (ms: seq<ByteString>)
    ensures |ms| == n
    ensures forall i :: 0 <= i < n ==> ms[i] == Numbered(msg, i + 1)
  {
    if n == 0 then [] else Numbers(msg, n - 1) + [Numbered(msg, n)]
  }

  /** What a client has put on the wire, and how many messages it counts as sent. */
  datatype Sender = Sender(wire: ByteString, count: nat)

  /** One call that gets k bytes of its frame onto the wire. */
  function Send(s: Sender, msg: ByteString, k: nat): Sender {
    var f := Frame(Numbered(msg, s.count + 1));
    var n := Min(k, |f|);
    Sender(s.wire + f[..n], if n == |f| then s.count + 1 else s.count)
  }

  lemma PackedIsFrame(m: ByteString)
    requires |m| < U32
    ensures LE32(MAGIC) + LE32(|m|) + m == Frame(m)
  {
    hide LE32;
  }

  lemma WholeOrNot(s: Sender, msg: ByteString, k: nat)
    requires k <= |Frame(Numbered(msg, s.count + 1))|
    ensures var f := Frame(Numbered(msg, s.count + 1));
            && Send(s, msg, k) == Sender(s.wire + f[..k], if k == |f| then s.count + 1 else s.count)
            && |Send(s, msg, k).wire| == |s.wire| + k
  {
    hide Frame, Numbered;
  }

  function SendAll(msg: ByteString, ks: seq<nat>): Sender {
    if ks == [] then Sender([], 0) else Send(SendAll(msg, ks[..|ks| - 1]), msg, ks[|ks| - 1])
  }

  /** No call failed after its first byte was out. */
  predicate NoTornFrame(msg: ByteString, ks: seq<nat>) {
    ks == []
    || (NoTornFrame(msg, ks[..|ks| - 1])
        && (ks[|ks| - 1] == 0
            || ks[|ks| - 1] >= |Frame(Numbered(msg, SendAll(msg, ks[..|ks| - 1]).count + 1))|))
  }

  /**
   The wire holds the frames of the messages #1 .. #count, in order, and nothing else, exactly if no
   call failed half-way: the bytes of a torn frame are never taken back, and the message is sent again.
   */
  lemma WireIsFrames(msg: ByteString, ks: seq<nat>)
    ensures var s := SendAll(msg, ks);
            s.wire == Encode(Numbers(msg, s.count)) <==> NoTornFrame(msg, ks)
  {
    if NoTornFrame(msg, ks) {
      CleanWire(msg, ks);
    } else {
      TornWire(msg, ks);
    }
  }

  /** A first call that fails after one byte leaves a wire that is no list of frames. */
  lemma TornByOneByte(msg: ByteString)
    ensures var s := SendAll(msg, [1]);
            |s.wire| == 1 && s.count == 0 && s.wire != Encode(Numbers(msg, s.count))
  {
    assert [1][..0] == [];
    assert SendAll(msg, []) == Sender([], 0);
    assert Encode(Numbers(msg, 0)) == [];
  }

  lemma {:induction false} CleanWire(msg: ByteString, ks: seq<nat>)
    requires NoTornFrame(msg, ks)
    ensures var s := SendAll(msg, ks); s.wire == Encode(Numbers(msg, s.count))
  {
    if ks != [] {
      hide Frame;
      CleanWire(msg, ks[..|ks| - 1]);
      var s := SendAll(msg, ks[..|ks| - 1]);
      EncodeSnoc(Numbers(msg, s.count), Numbered(msg, s.count + 1));
      Nil(s.wire);
    }
  }

  lemma {:induction false} TornWire(msg: ByteString, ks: seq<nat>)
    ensures var s, n := SendAll(msg, ks), |Encode(Numbers(msg, SendAll(msg, ks).count))|;
            |s.wire| >= n && (!NoTornFrame(msg, ks) ==> |s.wire| > n)
  {
    if ks != [] {
      hide Frame;
      TornWire(msg, ks[..|ks| - 1]);
      var s := SendAll(msg, ks[..|ks| - 1]);
      EncodeSnoc(Numbers(msg, s.count), Numbered(msg, s.count + 1));
    }
  }

  /** Then the listener's parser gets exactly these messages, no two of them alike. */
  lemma {:induction false} ListenerGetsNumbers(msg: ByteString, ks: seq<nat>)
    requires NoTornFrame(msg, ks)
    requires |Numbered(msg, SendAll(msg, ks).count)| <= MAX_LENGTH_PAYLOAD
    ensures var ms := Parse(SendAll(msg, ks).wire);
            && ms == Numbers(msg, SendAll(msg, ks).count)
            && forall i, j :: 0 <= i < j < |ms| ==> ms[i] != ms[j]
  {
    hide Parse, Encode, SendAll, NoTornFrame, Dec;
    var n := SendAll(msg, ks).count;
    var ms := Numbers(msg, n);
    WireIsFrames(msg, ks);
    NumbersSendable(msg, n);
    RoundTrip(ms);
    forall i, j | 0 <= i < j < n ensures ms[i] != ms[j] {
      if ms[i] == ms[j] {
        NumberedInjective(msg, i + 1, j + 1);
      }
    }
  }

  lemma NumbersSendable(msg: ByteString, n: nat)
    requires |Numbered(msg, n)| <= MAX_LENGTH_PAYLOAD
    ensures AllSendable(Numbers(msg, n))
  {
    hide Dec;
    var ms := Numbers(msg, n);
    forall i | 0 <= i < n ensures Sendable(ms[i]) {
      DecGrows(i + 1, n);
    }
  }

  lemma {:induction false} DecGrows(a: nat, b: nat)
    requires a <= b
    ensures |Dec(a)| <= |Dec(b)|
  {
    if a >= 10 {
      DecGrows(a / 10, b / 10);
    }
  }

  // ---------- The client ----------

  class SingleNode {
    var sentPcktCnt: nat
    var unread: ByteString // on its way from the listener
    var wire: ByteString   // sent to the listener

    constructor ()
      ensures sentPcktCnt == 0 && unread == [] && wire == []
    {
      sentPcktCnt, unread, wire := 0, [], [];
    }

    /**
     However the socket cuts the stream into pieces, _recv_wait returns exactly the first siz bytes and
     leaves the others unread -- if it returns. It does so if and only if that many bytes were sent and the
     socket delivers them before it fails; otherwise it raises the failure, or, on a socket that never
     fails -- also one whose connection was closed earlier -- waits for ever.
     */
    method RecvWait(siz: nat, events: seq<RecvEvent>) returns (r: Waited)
      modifies this`unread
      ensures |r.d| <= |old(unread)| && r.d == old(unread)[..|r.d|] && unread == old(unread)[|r.d|..]
      ensures r.Got? <==> |r.d| == siz
      ensures |r.d| == Min(Min(siz, |old(unread)|), Supply(events))
      ensures r.Got? <==> siz <= |old(unread)| && siz <= Supply(events)
      ensures !r.Got? ==> (r.Raised? <==> Fail in events)
    {
      var d: ByteString := [];
      var i := 0;
      ghost var offered := 0;
      assert events[0..] == events;
      while |d| < siz
        invariant 0 <= i <= |events|
        invariant offered + Supply(events[i..]) == Supply(events)
        invariant Fail !in events[..i]
        invariant |d| == Min(Min(siz, |old(unread)|), offered)
        invariant |d| <= |old(unread)| && d == old(unread)[..|d|] && unread == old(unread)[|d|..]
        decreases |events| - i
      {
        if i == |events| {
          return StillWaiting(d);
        }
        assert events[i..][1..] == events[i + 1..];
        match events[i] {
          case Chunk(n) =>
            var k := Min(Min(siz - |d|, n), |unread|);
            Cut(old(unread), |d|, k);
            d := d + unread[..k];
            unread := unread[k..];
            offered := offered + n;
          case Again =>
          case Fail =>
            return Raised(d);
        }
        i := i + 1;
      }
      return Got(d);
    }

    /** recv(4) for a header word, which arrives whole unless the stream ends in it. */
    method RecvWord() returns (w: ByteString)
      modifies this`unread
      ensures var k := Min(4, |old(unread)|); w == old(unread)[..k] && unread == old(unread)[k..]
    {
      var k := Min(4, |unread|);
      w := unread[..k];
      unread := unread[k..];
    }

    /**
     One call of _recv_data on one readable socket. It takes exactly the step of RecvStep, unless the socket
     does not deliver the data: then the call raises if the socket fails and waits for ever if it does not.
     */
    method RecvData(events: seq<RecvEvent>) returns (r: Step)
      modifies this`unread
      ensures var step := RecvStep(old(unread));
              if step.Incomplete? || (step.Message? && |step.data| > Supply(events))
              then r == if Fail in events then SocketError else Incomplete
              else r == step
      ensures r.Message? || r.Skipped? ==> unread == r.rest
    {
      ghost var s := unread;
      var word := RecvWord();
      if word != [] {
        if |word| < 4 {
          return Malformed;
        }
        if FromLE32(word) != MAGIC {
          return Skipped(unread);
        }
      }
      word := RecvWord();
      if word == [] {
        return Closed;
      }
      if |word| < 4 {
        return Malformed;
      }
      assert |s| >= 8 && word == s[4..8] && unread == s[8..];
      var size := FromLE32(word);
      if size > 0 {
        var data := RecvWait(size, events);
        if data.Raised? {
          return SocketError;
        }
        if data.StillWaiting? {
          return Incomplete;
        }
        assert data.d == s[8..8 + size];
        return Message(data.d, unread);
      }
      return Skipped(unread);
    }

    /** The loop of _send_data: send what is left until nothing is left or the socket fails. */
    method SendLoop(f: ByteString, events: seq<SendEvent>) returns (totalSent: nat, end: LoopEnd)
      modifies this`wire
      ensures totalSent == Min(|f|, Takes(events)) && wire == old(wire) + f[..totalSent]
      ensures end == if totalSent == |f| then Complete else FirstStop(events)
    {
      var data := f;
      totalSent := 0;
      var i := 0;
      assert events[0..] == events && f[0..] == f;
      Nil(wire);
      while data != []
        invariant 0 <= i <= |events|
        invariant totalSent <= |f| && data == f[totalSent..] && wire == old(wire) + f[..totalSent]
        invariant FirstStop(events[i..]) == FirstStop(events)
        invariant Takes(events) >= Takes(events[i..]) && totalSent == Min(|f|, Takes(events) - Takes(events[i..]))
        decreases |events| - i
      {
        if i == |events| {
          return totalSent, Pending;
        }
        assert events[i..][1..] == events[i + 1..];
        match events[i] {
          case Took(n) =>
            var sent := Min(n, |data|);
            Cut(f, totalSent, sent);
            Assoc(old(wire), f[..totalSent], f[totalSent..][..sent]);
            wire := wire + data[..sent];
            totalSent := totalSent + sent;
            data := data[sent..];
          case Fails(e) =>
            BrokenPipeClauseDead(e);
            return totalSent, Handled(e);
        }
        i := i + 1;
      }
      end := Complete;
    }

    /**
     One call of _send_data. The bytes it gets out are a prefix of the frame, the whole frame if and only
     if the socket takes them all before it fails. The result is the size of the frame, or minus the size
     of the prefix exactly if the first failure is EAGAIN; any other failure is raised, a broken pipe too,
     because it is an OSError like the others. The counter goes up exactly on a whole frame.
     */
    method SendData(msg: ByteString, events: seq<SendEvent>) returns (r: SendResult)
      modifies this`wire, this`sentPcktCnt
      ensures var m := Numbered(msg, old(sentPcktCnt) + 1);
              if |m| >= 0x1_0000_0000 then r == Threw && wire == old(wire) && sentPcktCnt == old(sentPcktCnt)
              else
                var f := Frame(m);
                && (forall i :: 0 <= i < |events| && events[i].Fails? && NoFailureBefore(events, i)
                                && TookBefore(events, i) < |f| ==>
                      r == (if events[i].e == EAGAIN then Returned(0 - TookBefore(events, i)) else Threw))
                && (forall i :: 0 <= i <= |events| && NoFailureBefore(events, i) && TookBefore(events, i) >= |f| ==>
                      r == Returned(|f|))
                && (NoFailureBefore(events, |events|) && TookBefore(events, |events|) < |f| ==> r == Blocked)
      ensures var m := Numbered(msg, old(sentPcktCnt) + 1);
              |m| < 0x1_0000_0000 ==>
                var k := Min(|Frame(m)|, Takes(events));
                && wire == old(wire) + Frame(m)[..k]
                && sentPcktCnt == (if k == |Frame(m)| then old(sentPcktCnt) + 1 else old(sentPcktCnt))
                && Sender(wire, sentPcktCnt) == Send(Sender(old(wire), old(sentPcktCnt)), msg, k)
                && r == ResultOf(if k == |Frame(m)| then Complete else FirstStop(events), k)
    {
      hide Frame, Numbered, Takes, FirstStop, Send, LE32, NoFailureBefore, TookBefore;
      var m := Numbered(msg, sentPcktCnt + 1);
      if |m| >= U32 {
        return Threw;
      }
      var data := LE32(MAGIC) + LE32(|m|) + m;
      PackedIsFrame(m);
      ghost var before := Sender(wire, sentPcktCnt);
      var totalSent: int, end := SendLoop(data, events);
      WholeOrNot(before, msg, totalSent);
      match end {
        case Complete =>
          sentPcktCnt := sentPcktCnt + 1;
          r := Returned(totalSent);
        case WouldBlock =>
          r := Returned(-totalSent);
        case Failed =>
          r := Threw;
        case Pending =>
          r := Blocked;
      }
      CallByEvents(|data|, events, r);
    }
  }
}
