/**
 The two classes of the module as they update their fields in place, proved against the
 specifications in Receiver, ListenerRuns and Framing. Sockets are a sequence of bytes to read and a
 sequence of bytes written; what the operating system decides is a parameter.
 */
module AppNet {
  import opened Bytes
  import opened Framing
  import opened Receiver
  import opened ReceiverOrder
  import L = Listener
  import R = ListenerRuns

  /** One pass through the receive loop: is there something to read, and how much does a payload read deliver. */
  datatype Poll = NotReady | Ready(grant: Pos)

  /** The return values of the three write() calls that send a frame; -1 is an error. */
  datatype Writes = Writes(tag: int, size: int, body: int)

  /** What write() may return when asked to write n bytes. */
  predicate WriteResult(k: int, n: nat) {
    -1 <= k <= n
  }

  predicate CanWrite(w: Writes, n: nat) {
    WriteResult(w.tag, 4) && WriteResult(w.size, 4) && WriteResult(w.body, n)
  }

  /** The grants of the polls that found something to read. */
  function Grants(polls: seq<Poll>): seq<Pos> {
    if polls == [] then []
    else if polls[0].Ready? then [polls[0].grant] + Grants(polls[1..])
    else Grants(polls[1..])
  }

  /** The receive loop as a function of the stream and the polls. */
  function Pump(s: ByteString, polls: seq<Poll>): seq<ByteString> {
    if polls == [] then []
    else match polls[0]
      case NotReady => Pump(s, polls[1..])
      case Ready(grant) =>
        var r := ReceiveChunk(s, grant);
        if r.payload == [] then [] else [r.payload] + Pump(r.rest, polls[1..])
  }

  /** Polls that find nothing to read do not matter. */
  lemma {:induction false} PumpIsParse(s: ByteString, polls: seq<Poll>)
    ensures Pump(s, polls) == ParseChunked(s, Grants(polls))
    decreases |polls|
  {
    hide ReceiveChunk;
    if polls != [] {
      match polls[0]
      case NotReady =>
        PumpIsParse(s, polls[1..]);
      case Ready(grant) =>
        assert Grants(polls)[1..] == Grants(polls[1..]);
        PumpIsParse(ReceiveChunk(s, grant).rest, polls[1..]);
    }
  }

  /** A client of the accept loop: what it sends, and the polls of its receive loop. */
  datatype Client = Client(stream: ByteString, polls: seq<Poll>)

  function Served(clients: seq<Client>): seq<ByteString> {
    if clients == [] then [] else Pump(clients[0].stream, clients[0].polls) + Served(clients[1..])
  }

  /** The i-th client, whatever its reads, adds what they give, between what those before and after it add. */
  lemma {:induction false} ServedEach(clients: seq<Client>, i: nat)
    requires i < |clients|
    ensures Served(clients)
            == Served(clients[..i]) + ParseChunked(clients[i].stream, Grants(clients[i].polls))
               + Served(clients[i + 1..])
    ensures Served([]) == []
  {
    hide Pump, ParseChunked, Grants;
    ServedAppend(clients[..i], clients[i..]);
    assert clients[..i] + clients[i..] == clients;
    assert clients[i..][1..] == clients[i + 1..];
    PumpIsParse(clients[i].stream, clients[i].polls);
    Assoc(Served(clients[..i]), Pump(clients[i].stream, clients[i].polls), Served(clients[i + 1..]));
  }

  lemma {:induction false} ServedAppend(xs: seq<Client>, ys: seq<Client>)
    ensures Served(xs + ys) == Served(xs) + Served(ys)
  {
    hide Pump;
    if xs == [] {
      assert xs + ys == ys;
    } else {
      ServedAppend(xs[1..], ys);
      assert (xs + ys)[1..] == xs[1..] + ys;
      Assoc(Pump(xs[0].stream, xs[0].polls), Served(xs[1..]), Served(ys));
    }
  }

  /** Every poll that finds something to read grants one read, in order. */
  lemma {:induction false} GrantsEach(polls: seq<Poll>, i: nat)
    requires i < |polls|
    ensures Grants(polls)
            == Grants(polls[..i]) + (match polls[i] case NotReady => [] case Ready(g) => [g]) + Grants(polls[i + 1..])
    ensures Grants([]) == []
  {
    if i == 0 {
      assert polls[..0] == [];
    } else {
      GrantsEach(polls[1..], i - 1);
      assert polls[1..][..i - 1] == polls[..i][1..];
      assert polls[1..][i..] == polls[i + 1..];
    }
  }

  /** The connection was read to its end, and no payload was cut short. */
  predicate ReadToTheEnd(c: Client) {
    && (forall i :: 0 <= i < |Grants(c.polls)| ==> Grants(c.polls)[i] >= MAX_LENGTH_PAYLOAD)
    && |Grants(c.polls)| >= |Parse(c.stream)|
  }

  /** Then the accept loop takes in exactly the framed messages of all connections. */
  lemma {:induction false} ServedIsParseAll(clients: seq<Client>)
    requires forall i :: 0 <= i < |clients| ==> ReadToTheEnd(clients[i])
    ensures Served(clients) == ParseAll(seq(|clients|, i requires 0 <= i < |clients| => clients[i].stream))
  {
    hide Pump, Parse, ReadToTheEnd;
    var streams := seq(|clients|, i requires 0 <= i < |clients| => clients[i].stream);
    if clients != [] {
      assert ReadToTheEnd(clients[0]);
      PumpToTheEnd(clients[0]);
      ServedIsParseAll(clients[1..]);
      assert streams[1..] == seq(|clients[1..]|, i requires 0 <= i < |clients[1..]| => clients[1..][i].stream);
    }
  }

  lemma PumpToTheEnd(c: Client)
    requires ReadToTheEnd(c)
    ensures Pump(c.stream, c.polls) == Parse(c.stream)
  {
    hide Pump, Parse, Grants;
    PumpIsParse(c.stream, c.polls);
    FullReads(c.stream, Grants(c.polls));
  }

  /** The steps of the worker thread that make one client's receive loop, if nothing comes between them. */
  function ClientMoves(s: ByteString, polls: seq<Poll>): seq<L.Move> {
    if polls == [] then []
    else match polls[0]
      case NotReady => R.Repeat(L.WorkerMove(false, false, 1), 2) + ClientMoves(s, polls[1..])
      case Ready(grant) =>
        var r := ReceiveChunk(s, grant);
        if r.payload == [] then R.Repeat(L.WorkerMove(true, false, grant), 4)
        else R.Repeat(L.WorkerMove(true, false, grant), 6) + ClientMoves(r.rest, polls[1..])
  }

  /** Their effect is that of HandleTCPclient: the queue and the counter grow by what ParseChunked reads. */
  lemma {:induction false} ClientIsWorkerSteps(s: L.Node, polls: seq<Poll>)
    requires s.w.pc == L.LoopTest && s.lock == L.Free && !s.stop
    ensures var t, ms := L.Exec(s, ClientMoves(s.w.cur, polls)), ParseChunked(s.w.cur, Grants(polls));
            && t.queue == s.queue + ms && t.w.enqueued == s.w.enqueued + ms && t.w.pushed == s.w.pushed + |ms|
            && t.w.conns == s.w.conns && t.m == s.m && t.lock == L.Free && !t.stop
            && (t.w.pc == L.LoopTest || (t.w.pc == L.RunTest && t.w.cur == []))
    decreases |polls|
  {
    hide L.Exec, L.Apply, R.Repeat, ReceiveChunk;
    PumpIsParse(s.w.cur, polls);
    if polls == [] {
      L.ExecEmpty(s);
      Nil(s.queue);
      Nil(s.w.enqueued);
    } else {
      var rest := polls[1..];
      match polls[0]
      case NotReady =>
        var mv := L.WorkerMove(false, false, 1);
        NothingToRead(s);
        R.ExecTwo(s, mv);
        L.ExecAppend(s, R.Repeat(mv, 2), ClientMoves(s.w.cur, rest));
        ClientIsWorkerSteps(s, rest);
        PumpIsParse(s.w.cur, rest);
      case Ready(grant) =>
        var mv, r := L.WorkerMove(true, false, grant), ReceiveChunk(s.w.cur, grant);
        R.ReadSteps(s, grant);
        if r.payload == [] {
          Nil(s.queue);
          Nil(s.w.enqueued);
        } else {
          L.ExecAppend(s, R.Repeat(mv, 6), ClientMoves(r.rest, rest));
          ClientIsWorkerSteps(R.AfterRead(s, grant), rest);
          PumpIsParse(r.rest, rest);
          Assoc(s.queue, [r.payload], Pump(r.rest, rest));
          Assoc(s.w.enqueued, [r.payload], Pump(r.rest, rest));
        }
    }
  }

  /** One of the reads found that the client has disconnected. */
  predicate Disconnects(c: Client) {
    |ParseChunked(c.stream, Grants(c.polls))| < |Grants(c.polls)|
  }

  /** Where the worker is after these steps: out of the receive loop exactly if the client has disconnected. */
  lemma {:induction false} ClientEnds(s: L.Node, polls: seq<Poll>)
    requires s.w.pc == L.LoopTest && s.lock == L.Free && !s.stop
    ensures L.Exec(s, ClientMoves(s.w.cur, polls)).w.pc
            == if Disconnects(Client(s.w.cur, polls)) then L.RunTest else L.LoopTest
    decreases |polls|
  {
    hide L.Exec, L.Apply, R.Repeat, ReceiveChunk;
    if polls == [] {
      L.ExecEmpty(s);
    } else {
      var rest := polls[1..];
      match polls[0]
      case NotReady =>
        var mv := L.WorkerMove(false, false, 1);
        NothingToRead(s);
        R.ExecTwo(s, mv);
        L.ExecAppend(s, R.Repeat(mv, 2), ClientMoves(s.w.cur, rest));
        ClientEnds(s, rest);
      case Ready(grant) =>
        var r := ReceiveChunk(s.w.cur, grant);
        R.ReadSteps(s, grant);
        assert Grants(polls)[1..] == Grants(rest);
        if r.payload != [] {
          L.ExecAppend(s, R.Repeat(L.WorkerMove(true, false, grant), 6), ClientMoves(r.rest, rest));
          ClientEnds(R.AfterRead(s, grant), rest);
        }
    }
  }

  function Streams(clients: seq<Client>): seq<ByteString> {
    seq(|clients|, i requires 0 <= i < |clients| => clients[i].stream)
  }

  /** The steps of the worker thread that make the accept loop: test, accept, receive loop, client by client. */
  function RunMoves(clients: seq<Client>): seq<L.Move> {
    if clients == [] then []
    else R.Repeat(L.WorkerMove(true, false, 1), 2) + ClientMoves(clients[0].stream, clients[0].polls)
         + RunMoves(clients[1..])
  }

  /** Their effect is that of Run, whatever the reads deliver: the queue and the counter grow by what is served. */
  lemma {:induction false} RunIsWorkerSteps(s: L.Node, clients: seq<Client>)
    requires s.w.pc == L.RunTest && s.lock == L.Free && !s.stop && s.w.conns == Streams(clients)
    requires forall i :: 0 <= i < |clients| - 1 ==> Disconnects(clients[i])
    ensures var t := L.Exec(s, RunMoves(clients));
            && t.queue == s.queue + Served(clients) && t.w.enqueued == s.w.enqueued + Served(clients)
            && t.w.pushed == s.w.pushed + |Served(clients)|
            && t.w.conns == [] && t.m == s.m && t.lock == L.Free && !t.stop
    decreases |clients|
  {
    hide L.Exec, L.Apply, R.Repeat, ClientMoves, ParseChunked, Pump, Grants;
    if clients == [] {
      L.ExecEmpty(s);
      Nil(s.queue);
      Nil(s.w.enqueued);
    } else {
      var c, rest := clients[0], clients[1..];
      var mv := L.WorkerMove(true, false, 1);
      var before := R.Repeat(mv, 2);
      var t := L.Exec(s, before);
      R.ExecTwo(s, mv);
      AcceptNext(s, mv);
      L.ExecAppend(s, before, ClientMoves(c.stream, c.polls));
      L.ExecAppend(s, before + ClientMoves(c.stream, c.polls), RunMoves(rest));
      ClientIsWorkerSteps(t, c.polls);
      ClientEnds(t, c.polls);
      PumpIsParse(c.stream, c.polls);
      var u := L.Exec(t, ClientMoves(c.stream, c.polls));
      assert Streams(clients)[1..] == Streams(rest);
      Assoc(s.queue, Pump(c.stream, c.polls), Served(rest));
      Assoc(s.w.enqueued, Pump(c.stream, c.polls), Served(rest));
      if rest == [] {
        L.ExecEmpty(u);
        Nil(Pump(c.stream, c.polls));
      } else {
        assert forall i :: 0 <= i < |rest| - 1 ==> rest[i] == clients[i + 1];
        RunIsWorkerSteps(u, rest);
      }
    }
  }

  lemma AcceptNext(s: L.Node, mv: L.Move)
    requires s.w.pc == L.RunTest && !s.stop && s.w.conns != [] && mv.WorkerMove? && !mv.acceptFails
    ensures L.Apply(L.Apply(s, mv), mv)
            == s.(w := s.w.(pc := L.LoopTest, cur := s.w.conns[0], conns := s.w.conns[1..]))
  {
  }

  lemma NothingToRead(s: L.Node)
    requires s.w.pc == L.LoopTest && !s.stop
    ensures var mv := L.WorkerMove(false, false, 1); L.Apply(L.Apply(s, mv), mv) == s
  {
  }

  class TcpListener {
    var clnSockDescr: nat   // 0: no client
    var unread: ByteString  // sent by the client, not read yet
    var written: ByteString // sent to the client
    const bufferMsg: array<Byte>
    var queuePckRead: seq<ByteString>
    const owner: AppNetModule

    ghost predicate Valid()
      reads this
    {
      bufferMsg.Length == MAX_LENGTH_PAYLOAD
    }

    constructor (owner: AppNetModule)
      ensures Valid() && fresh(bufferMsg) && this.owner == owner
      ensures clnSockDescr == 0 && queuePckRead == [] && unread == [] && written == []
    {
      this.owner := owner;
      bufferMsg := new Byte[MAX_LENGTH_PAYLOAD];
      clnSockDescr, unread, written, queuePckRead := 0, [], [], [];
    }

    /** write(): the first k bytes of d go out, none if k is negative. */
    method Write(d: ByteString, k: int) returns (n: int)
      requires WriteResult(k, |d|)
      modifies this`written
      ensures n == k && written == old(written) + d[..if k < 0 then 0 else k]
    {
      n := k;
      written := written + d[..if k < 0 then 0 else k];
    }

    /**
     A frame leaves completely or send_data says so. Without a client nothing is written; with one, the first
     write that fails or comes up short is the last, and what it and the others before it took is out.
     */
    method SendData(data: ByteString, w: Writes) returns (ok: bool)
      requires CanWrite(w, |data|)
      modifies this`written
      ensures ok <==> clnSockDescr != 0 && w.tag == 4 && w.size == 4 && w.body == |data|
      ensures clnSockDescr == 0 ==> written == old(written)
      ensures clnSockDescr != 0 && w.tag != 4 ==>
                written == old(written) + Frame(data)[..if w.tag < 0 then 0 else w.tag]
      ensures clnSockDescr != 0 && w.tag == 4 && w.size != 4 ==>
                written == old(written) + Frame(data)[..4 + if w.size < 0 then 0 else w.size]
      ensures clnSockDescr != 0 && w.tag == 4 && w.size == 4 ==>
                written == old(written) + Frame(data)[..8 + if w.body < 0 then 0 else w.body]
    {
      ghost var f, before := Frame(data), written;
      assert f[..0] == [];
      if clnSockDescr != 0 {
        var tag, size := LE32(MAGIC), LE32(|data| % U32);
        assert f == tag + size + data;
        var n := Write(tag, w.tag);
        if n != 4 {
          assert written == before + f[..if n < 0 then 0 else n];
          return false;
        }
        assert written == before + f[..4];
        n := Write(size, w.size);
        if n != 4 {
          assert written == before + f[..4 + if n < 0 then 0 else n];
          return false;
        }
        assert written == before + f[..8];
        n := Write(data, w.body);
        if n != |data| {
          assert written == before + f[..8 + if n < 0 then 0 else n];
          return false;
        }
        assert written == before + f;
        return true;
      }
      assert written == before + f[..0];
      return false;
    }

    /** read() of up to n bytes, of which at most grant are delivered. */
    method Read(n: nat, grant: Pos) returns (d: ByteString)
      modifies this`unread
      ensures var k := Min(Min(n, grant), |old(unread)|);
              d == old(unread)[..k] && unread == old(unread)[k..]
    {
      var k := Min(Min(n, grant), |unread|);
      d := unread[..k];
      unread := unread[k..];
    }

    /** read() into a buffer. */
    method ReadInto(buf: array<Byte>, n: nat, grant: Pos) returns (k: nat)
      requires n <= buf.Length
      modifies this`unread, buf
      ensures k == Min(Min(n, grant), |old(unread)|)
      ensures buf[..k] == old(unread)[..k] && unread == old(unread)[k..]
    {
      k := Min(Min(n, grant), |unread|);
      var i := 0;
      while i < k
        invariant 0 <= i <= k
        invariant unread == old(unread)
        invariant buf[..i] == unread[..i]
      {
        buf[i] := unread[i];
        i := i + 1;
      }
      unread := unread[k..];
    }

    /**
     One frame off the stream, into the buffer. The header variables are not initialised: junk is what the
     stack held. A header cut short by the end of the stream is compared with junk in its missing bytes --
     and whatever the junk is, the call returns 0, as if the stream had ended before the header.
     */
    method ReceivePacket(grant: Pos, junk: ByteString) returns (recvMsgSize: nat)
      requires Valid() && |junk| == 4
      modifies this`unread, bufferMsg
      ensures recvMsgSize <= MAX_LENGTH_PAYLOAD
      ensures Received(bufferMsg[..recvMsgSize], unread) == ReceiveChunk(old(unread), grant)
    {
      ghost var s := unread;
      var d := Read(4, 4);
      if |d| == 0 {
        return 0;
      }
      var magic := FromLE32(d + junk[|d|..]);
      if magic != MAGIC {
        assert |s| >= 4 ==> d + junk[|d|..] == s[..4];
        return 0;
      }
      d := Read(4, 4);
      if |d| == 0 {
        return 0;
      }
      var size := FromLE32(d + junk[|d|..]);
      assert |s| >= 8 ==> d + junk[|d|..] == s[4..8];
      if size > MAX_LENGTH_PAYLOAD {
        return 0;
      }
      recvMsgSize := ReadInto(bufferMsg, size, grant);
    }

    /**
     The receive loop of one client connection. `polls` has one entry for each time the loop finds no stop
     request; after the last of them it finds one. The queue gets exactly the payloads that Framing reads
     out of the stream, one for each ready poll until the disconnect, and each push is counted.
     */
    method HandleTCPclient(polls: seq<Poll>, junk: ByteString)
      requires Valid() && |junk| == 4
      modifies this`unread, this`queuePckRead, this`clnSockDescr, bufferMsg, owner`pktsPushQueue
      ensures queuePckRead == old(queuePckRead) + ParseChunked(old(unread), Grants(polls))
      ensures owner.pktsPushQueue == old(owner.pktsPushQueue) + |ParseChunked(old(unread), Grants(polls))|
      ensures clnSockDescr == 0
    {
      hide ReceiveChunk, ParseChunked, Grants;
      ghost var all := Pump(unread, polls);
      PumpIsParse(unread, polls);
      var i := 0;
      assert polls[0..] == polls;
      while i < |polls|
        invariant 0 <= i <= |polls|
        invariant queuePckRead + Pump(unread, polls[i..]) == old(queuePckRead) + all
        invariant owner.pktsPushQueue - |queuePckRead| == old(owner.pktsPushQueue) - |old(queuePckRead)|
      {
        var poll := polls[i];
        ghost var s, q := unread, queuePckRead;
        assert polls[i..][0] == poll && polls[i..][1..] == polls[i + 1..];
        i := i + 1;
        if poll.NotReady? {
          continue;
        }
        var recvMsgSize := ReceivePacket(poll.grant, junk);
        if recvMsgSize == 0 {
          Nil(q);
          assert queuePckRead == old(queuePckRead) + all;
          break;
        }
        queuePckRead := queuePckRead + [bufferMsg[..recvMsgSize]];
        owner.IncrPktsPushQueue();
        Assoc(q, [bufferMsg[..recvMsgSize]], Pump(unread, polls[i..]));
      }
      if i == |polls| {
        assert polls[i..] == [];
      }
      clnSockDescr := 0;
    }

    /**
     The accept loop: one entry for each client that is accepted, until a stop request or a failing accept().
     The queue gets what each connection yields, in the order of the connections. A client whose polls end
     without a disconnect has met a stop request, so it is the last one.
     */
    method Run(clients: seq<Client>, junk: ByteString)
      requires Valid() && |junk| == 4
      modifies this`unread, this`queuePckRead, this`clnSockDescr, bufferMsg, owner`pktsPushQueue
      ensures queuePckRead == old(queuePckRead) + Served(clients)
      ensures owner.pktsPushQueue == old(owner.pktsPushQueue) + |Served(clients)|
      ensures clnSockDescr == if clients == [] then old(clnSockDescr) else 0
    {
      hide Pump;
      var i := 0;
      assert clients[0..] == clients;
      while i < |clients|
        invariant 0 <= i <= |clients|
        invariant queuePckRead + Served(clients[i..]) == old(queuePckRead) + Served(clients)
        invariant owner.pktsPushQueue - |queuePckRead| == old(owner.pktsPushQueue) - |old(queuePckRead)|
        invariant clnSockDescr == if i == 0 then old(clnSockDescr) else 0
      {
        ghost var q, c := queuePckRead, clients[i];
        clnSockDescr := i + 1;
        unread := clients[i].stream;
        HandleTCPclient(clients[i].polls, junk);
        PumpIsParse(c.stream, c.polls);
        assert clients[i..][1..] == clients[i + 1..];
        Assoc(q, Pump(c.stream, c.polls), Served(clients[i + 1..]));
        i := i + 1;
      }
      assert clients[i..] == [];
    }

    /** One tick of the send timer does to the object what ListenerRuns.Tick does to the state of the two threads. */
    method InitPacketTCP(clock: real) returns (sent: seq<Packet>)
      modifies this`queuePckRead, owner`uidcnt, owner`txsn
      ensures old(queuePckRead) == [] ==> sent == []
      ensures old(queuePckRead) != [] ==>
                && |sent| == 1 && sent[0].data
                && sent[0].payload == old(queuePckRead)[0] && queuePckRead == old(queuePckRead)[1..]
                && sent[0].uid == owner.uidcnt == old(owner.uidcnt) + 1
                && owner.txsn == old(owner.txsn) + 1 && sent[0].sn == owner.txsn % 0x1_0000
                && sent[0].timestamp == clock
                && (sent[0].rfttValid <==> owner.rftt >= 0)
                && (owner.rftt >= 0 ==> sent[0].rftt == 10000 * owner.rftt)
      ensures R.Outbox(queuePckRead, owner.uidcnt, owner.txsn, sent)
              == R.SendOne(R.Outbox(old(queuePckRead), old(owner.uidcnt), old(owner.txsn), []),
                                  clock, owner.rftt)
    {
      sent := [];
      if queuePckRead != [] {
        var msg := queuePckRead[0];
        queuePckRead := queuePckRead[1..];
        var uid := owner.IncrUidCnt();
        var sn := owner.IncrPktSent();
        var rftt, valid := 0, false;
        if owner.rftt >= 0 {
          rftt, valid := owner.rftt * 10000, true;
        }
        sent := [Packet(true, sn % U16, msg, clock, uid, rftt, valid)];
      }
    }
  }

  class AppNetModule {
    const dropOutOfOrder: int
    const snCheck: array<bool>
    var hrsn: nat
    var esn: nat
    var pktsLost: nat
    var pktsRecv: nat
    var pktsOoseq: nat
    var pktsInvalid: nat
    var pktsPushQueue: nat
    var uidcnt: nat
    var txsn: nat
    var rftt: int
    var lrtime: real
    var sumrtt: real
    var sumrtt2: real
    var rttsamples: int
    var sumftt: real
    var sumftt2: real
    var fttsamples: nat
    var sumbytes: real
    var sumdt: real
    var tcpListener: TcpListener?

    ghost var marked: set<nat>       // the numbers whose table entry is true

    ghost predicate Valid()
      reads this, snCheck
    {
      && snCheck.Length == SN_TABLE
      && (forall i :: i in marked ==> i < SN_TABLE)
      && (forall i :: 0 <= i < SN_TABLE ==> (snCheck[i] <==> i in marked))
    }

    /** The receiver's part of the state. */
    ghost function Abs(): State
      reads this
    {
      State(marked, hrsn, esn, pktsLost, pktsRecv, pktsOoseq, pktsInvalid, rftt, sumrtt, sumrtt2, rttsamples,
            sumftt, sumftt2, fttsamples, sumbytes, sumdt, lrtime)
    }

    constructor (dropOutOfOrder: int)
      ensures Valid() && fresh(snCheck) && this.dropOutOfOrder == dropOutOfOrder
      ensures Abs() == INIT
      ensures snCheck.Length == 65535 && forall i :: 0 <= i < 65535 ==> !snCheck[i]
      ensures hrsn == 0 && esn == 0 && pktsLost == 0 && pktsRecv == 0 && pktsOoseq == 0 && pktsInvalid == 0
      ensures rftt == 0 && lrtime == 0.0 && sumbytes == 0.0 && sumdt == 0.0
      ensures sumrtt == 0.0 && sumrtt2 == 0.0 && rttsamples == 0 && sumftt == 0.0 && sumftt2 == 0.0 && fttsamples == 0
      ensures uidcnt == 0 && txsn == 1 && pktsPushQueue == 0 && tcpListener == null
    {
      this.dropOutOfOrder := dropOutOfOrder;
      snCheck := new bool[SN_TABLE];
      hrsn, esn, pktsLost, pktsRecv, pktsOoseq, pktsInvalid, pktsPushQueue := 0, 0, 0, 0, 0, 0, 0;
      uidcnt, txsn, rftt, lrtime := 0, 1, 0, 0.0;
      sumrtt, sumrtt2, rttsamples, sumftt, sumftt2, fttsamples, sumbytes, sumdt := 0.0, 0.0, 0, 0.0, 0.0, 0, 0.0, 0.0;
      tcpListener := null;
      marked := {};
      new;
      var i := 0;
      while i < SN_TABLE
        invariant 0 <= i <= SN_TABLE
        invariant forall j :: 0 <= j < i ==> !snCheck[j]
        modifies snCheck
      {
        snCheck[i] := false;
        i := i + 1;
      }
    }

    method IncrPktsPushQueue()
      modifies this`pktsPushQueue
      ensures pktsPushQueue == old(pktsPushQueue) + 1
    {
      pktsPushQueue := pktsPushQueue + 1;
    }

    method IncrPktSent() returns (sn: nat)
      modifies this`txsn
      ensures sn == txsn == old(txsn) + 1
    {
      txsn := txsn + 1;
      sn := txsn;
    }

    method IncrUidCnt() returns (uid: nat)
      modifies this`uidcnt
      ensures uid == uidcnt == old(uidcnt) + 1
    {
      uidcnt := uidcnt + 1;
      uid := uidcnt;
    }

    method UpdateRTT(rtt: real)
      modifies this`sumrtt, this`sumrtt2, this`rttsamples
      ensures sumrtt == old(sumrtt) + rtt && sumrtt2 == old(sumrtt2) + Sq(rtt) && rttsamples == old(rttsamples) + 1
    {
      sumrtt, sumrtt2, rttsamples := sumrtt + rtt, sumrtt2 + rtt * rtt, rttsamples + 1;
    }

    method UpdateFTT(ftt: real)
      modifies this`sumftt, this`sumftt2, this`fttsamples
      ensures sumftt == old(sumftt) + ftt && sumftt2 == old(sumftt2) + Sq(ftt) && fttsamples == old(fttsamples) + 1
    {
      sumftt, sumftt2, fttsamples := sumftt + ftt, sumftt2 + ftt * ftt, fttsamples + 1;
    }

    method UpdateThroughput(size: nat, dt: real)
      modifies this`sumbytes, this`sumdt
      ensures sumbytes == old(sumbytes) + size as real && sumdt == old(sumdt) + dt
    {
      sumbytes, sumdt := sumbytes + size as real, sumdt + dt;
    }

    /** The first half of statistics(): the tests that drop a packet, and the table entry. */
    method Sift(p: Packet) returns (v: Verdict)
      requires Valid() && p.sn < snCheck.Length
      modifies this`esn, this`pktsInvalid, this`pktsOoseq, this`marked, snCheck
      ensures Valid()
      ensures v == Judge(UseDrop(dropOutOfOrder), old(Abs()), p)
      ensures Abs() == match v
                       case WrongType => old(Abs()).(invalid := old(pktsInvalid) + 1)
                       case Duplicate => old(Abs()).(invalid := old(pktsInvalid) + 1, esn := hrsn + 1)
                       case OutOfSequence =>
                         old(Abs()).(ooseq := old(pktsOoseq) + 1, esn := hrsn + 1, marked := old(marked) + {p.sn})
                       case Accepted => old(Abs()).(esn := hrsn + 1, marked := old(marked) + {p.sn})
    {
      if !p.data {
        pktsInvalid := pktsInvalid + 1;
        return WrongType;
      }
      esn := hrsn + 1;
      if UseDrop(dropOutOfOrder) {
        if snCheck[p.sn] {
          pktsInvalid := pktsInvalid + 1;
          return Duplicate;
        }
      }
      snCheck[p.sn] := true;
      marked := marked + {p.sn};
      if UseDrop(dropOutOfOrder) {
        if p.sn < esn {
          pktsOoseq := pktsOoseq + 1;
          return OutOfSequence;
        }
      }
      return Accepted;
    }

    /** The forward trip time, cut to an int, becomes a sample; so would the round trip time. */
    method SampleTripTime(p: Packet, now: real)
      modifies this`rftt, this`sumrtt, this`sumrtt2, this`rttsamples, this`sumftt, this`sumftt2, this`fttsamples
      ensures rftt == Trunc(now - p.timestamp)
      ensures var rtt := (rftt + p.rftt) as real;
              if RttGuard(p)
              then sumrtt == old(sumrtt) + rtt && sumrtt2 == old(sumrtt2) + Sq(rtt) && rttsamples == old(rttsamples) + 1
              else sumrtt == old(sumrtt) && sumrtt2 == old(sumrtt2) && rttsamples == old(rttsamples)
      ensures sumftt == old(sumftt) + rftt as real && sumftt2 == old(sumftt2) + Sq(rftt as real)
      ensures fttsamples == old(fttsamples) + 1
    {
      hide RttGuard, Sq;
      rftt := Trunc(now - p.timestamp);
      if RttGuard(p) {
        var rtt := (rftt + p.rftt) as real;
        UpdateRTT(rtt);
      }
      UpdateFTT(rftt as real);
    }

    /** The second half of statistics(): the packet passed every test and its table entry is set. */
    method Accept(p: Packet, now: real)
      requires esn == hrsn + 1
      modifies this`rftt, this`sumrtt, this`sumrtt2, this`rttsamples, this`sumftt, this`sumftt2, this`fttsamples,
               this`hrsn, this`pktsLost, this`sumbytes, this`sumdt, this`pktsRecv, this`lrtime
      ensures rftt == Trunc(now - p.timestamp)
      ensures var rtt := (rftt + p.rftt) as real;
              if RttGuard(p)
              then sumrtt == old(sumrtt) + rtt && sumrtt2 == old(sumrtt2) + Sq(rtt) && rttsamples == old(rttsamples) + 1
              else sumrtt == old(sumrtt) && sumrtt2 == old(sumrtt2) && rttsamples == old(rttsamples)
      ensures sumftt == old(sumftt) + rftt as real && sumftt2 == old(sumftt2) + Sq(rftt as real)
      ensures fttsamples == old(fttsamples) + 1
      ensures hrsn == p.sn && pktsRecv == old(pktsRecv) + 1
      ensures pktsLost == old(pktsLost) + (if UseDrop(dropOutOfOrder) && p.sn > esn then p.sn - esn else 0)
      ensures sumbytes == old(sumbytes) + |p.payload| as real
      ensures sumdt == old(sumdt) + (now - old(lrtime)) && lrtime == now
    {
      hide Trunc, RttGuard, Sq;
      SampleTripTime(p, now);
      hrsn := p.sn;
      if UseDrop(dropOutOfOrder) {
        if p.sn > esn {
          pktsLost := pktsLost + (p.sn - esn);
        }
      }
      var dt := now - lrtime;
      UpdateThroughput(|p.payload|, dt);
      pktsRecv := pktsRecv + 1;
      lrtime := now;
    }

    /** Everything statistics() does to the module itself. */
    method Count(p: Packet, now: real) returns (v: Verdict)
      requires Valid() && p.sn < snCheck.Length
      modifies this`esn, this`pktsInvalid, this`pktsOoseq, this`marked, snCheck,
               this`rftt, this`sumrtt, this`sumrtt2, this`rttsamples, this`sumftt, this`sumftt2, this`fttsamples,
               this`hrsn, this`pktsLost, this`sumbytes, this`sumdt, this`pktsRecv, this`lrtime
      ensures Valid()
      ensures v == Judge(UseDrop(dropOutOfOrder), old(Abs()), p)
      ensures Abs() == Step(UseDrop(dropOutOfOrder), old(Abs()), Arrival(p, now))
    {
      hide Trunc, RttGuard, Sq;
      v := Sift(p);
      if v == Accepted {
        Accept(p, now);
      }
    }

    /**
     What one packet does: the state takes the step of the specification, and the payload goes to the client,
     framed, exactly if the verdict is Accepted. A sequence number must have a table entry; the source does not
     check that.
     */
    method Statistics(p: Packet, now: real, w: Writes) returns (v: Verdict)
      requires Valid() && p.sn < snCheck.Length && CanWrite(w, |p.payload|)
      modifies this, snCheck, if tcpListener == null then {} else {tcpListener}
      ensures Valid() && tcpListener == old(tcpListener)
      ensures v == Judge(UseDrop(dropOutOfOrder), old(Abs()), p)
      ensures Abs() == Step(UseDrop(dropOutOfOrder), old(Abs()), Arrival(p, now))
      ensures pktsPushQueue == old(pktsPushQueue) && uidcnt == old(uidcnt) && txsn == old(txsn)
      ensures tcpListener != null ==>
                && tcpListener.clnSockDescr == old(tcpListener.clnSockDescr)
                && tcpListener.queuePckRead == old(tcpListener.queuePckRead)
                && tcpListener.unread == old(tcpListener.unread)
                && (v != Accepted || tcpListener.clnSockDescr == 0 ==> tcpListener.written == old(tcpListener.written))
      ensures tcpListener != null && v == Accepted && tcpListener.clnSockDescr != 0 ==>
                && (w.tag != 4 ==>
                      tcpListener.written
                      == old(tcpListener.written) + Frame(p.payload)[..if w.tag < 0 then 0 else w.tag])
                && (w.tag == 4 && w.size != 4 ==>
                      tcpListener.written
                      == old(tcpListener.written) + Frame(p.payload)[..4 + if w.size < 0 then 0 else w.size])
                && (w.tag == 4 && w.size == 4 ==>
                      tcpListener.written
                      == old(tcpListener.written) + Frame(p.payload)[..8 + if w.body < 0 then 0 else w.body])
    {
      hide Judge, Step, Frame;
      v := Count(p, now);
      if v == Accepted && tcpListener != null {
        var ok := tcpListener.SendData(p.payload, w);
      }
    }
  }

  /**
   A module fed with a stream of packets, from its construction on: the object ends in the state of Run, so
   everything proved about Run holds of the object, and its client gets the frames of what was delivered.
   */
  method RecvAll(useDropSetting: int, xs: seq<Arrival>) returns (m: AppNetModule)
    requires forall i :: 0 <= i < |xs| ==> xs[i].p.sn < SN_TABLE
    ensures m.Valid() && m.dropOutOfOrder == useDropSetting
    ensures m.Abs() == Run(UseDrop(useDropSetting), xs)
    ensures m.tcpListener != null
            && m.tcpListener.written == Encode(PayloadsOf(Delivered(UseDrop(useDropSetting), xs)))
  {
    m := new AppNetModule(useDropSetting);
    var l := new TcpListener(m);
    l.clnSockDescr := 1;
    m.tcpListener := l;
    var i := 0;
    assert xs[..0] == [];
    while i < |xs|
      invariant 0 <= i <= |xs|
      invariant fresh(m) && fresh(m.snCheck) && fresh(l)
      invariant m.Valid() && m.dropOutOfOrder == useDropSetting && m.tcpListener == l && l.clnSockDescr != 0
      invariant m.Abs() == Run(UseDrop(useDropSetting), xs[..i])
      invariant l.written == Encode(PayloadsOf(Delivered(UseDrop(useDropSetting), xs[..i])))
    {
      assert xs[..i + 1][..i] == xs[..i];
      ghost var ds := Delivered(UseDrop(useDropSetting), xs[..i]);
      var v := m.Statistics(xs[i].p, xs[i].now, Writes(4, 4, |xs[i].p.payload|));
      if v == Accepted {
        PayloadsOfSnoc(ds, xs[i]);
        EncodeSnoc(PayloadsOf(ds), xs[i].p.payload);
        WholeFrame(xs[i].p.payload);
      }
      i := i + 1;
    }
    assert xs[..|xs|] == xs;
  }

  lemma WholeFrame(m: ByteString)
    ensures Frame(m)[..8 + |m|] == Frame(m)
  {
    hide Frame;
  }

  function PayloadsOf(ds: seq<Arrival>): seq<ByteString> {
    seq(|ds|, i requires 0 <= i < |ds| => ds[i].p.payload)
  }

  lemma PayloadsOfSnoc(ds: seq<Arrival>, a: Arrival)
    ensures PayloadsOf(ds + [a]) == PayloadsOf(ds) + [a.p.payload]
  {
  }
}
