/**
 The listener's two threads as interleaved atomic steps. The worker accepts clients, parses their frames
 and pushes the payloads into a queue; the simulation thread pops them on every tick of the send timer,
 stamps and sends them, and stops the worker. The queue is guarded by one mutex, except for the
 simulation thread's first look at it.
 */
module Listener {
  import opened Bytes
  import opened Framing
  import opened Receiver

  /** Where the worker is; the message is the one it has parsed but not yet pushed. */
  datatype WorkerPc =
    | RunTest                  // about to test m_stop in Run
    | Accepting                // in accept()
    | LoopTest                 // about to test m_stop in HandleTCPclient
    | Polling                  // in ReadyToRead
    | Reading                  // in ReceivePacket
    | Locking(msg: ByteString) // waiting for the mutex
    | Pushing(msg: ByteString) // mutex held, about to push
    | Counting                 // mutex held, about to count the push and to release
    | Closing                  // about to close the client's socket
    | Leaving                  // Run has returned, m_running is still set
    | Ended

  /** Where the simulation thread is; the message is the one it has taken off the queue. */
  datatype MainPc =
    | Idle
    | ToLock                   // saw a non-empty queue, waiting for the mutex
    | Fronting                 // mutex held, about to read the front of the queue
    | Popping(msg: ByteString) // mutex held, about to pop and to release
    | Naming(msg: ByteString)  // about to take a uid
    | Numbering(msg: ByteString, uid: nat)
    | Sending(p: Packet)
    | Checking                 // in stop(), about to test Running()
    | Storing                  // about to set m_stop
    | Joining
    | Deleting
    | Gone                     // the listener has been deleted
    | Terminated               // its thread was not joined: the destructor of std::thread ends the process
    | Crashed                  // front() or pop() on an empty queue

  datatype Lock = Free | ByWorker | ByMain

  /** What only the worker writes. */
  datatype Worker = Worker(
    pc: WorkerPc,
    conns: seq<ByteString>,    // what the clients still to be accepted will send
    cur: ByteString,           // what the current client has sent and nobody has read
    running: bool,
    pushed: nat,               // pkts_push_queue
    enqueued: seq<ByteString>, // history: everything ever pushed
    grants: seq<Pos>,          // history: the most that each payload read could deliver
    short: bool)               // history: one of them has delivered less than had been sent

  /** What only the simulation thread writes. */
  datatype Simulator = Simulator(
    pc: MainPc,
    uidcnt: nat,
    txsn: nat,
    sent: seq<Packet>, // everything ever sent down
    pushesAtStop: nat, // history: the number of pushes when m_stop was set
    joined: bool)

  datatype Node = Node(
    w: Worker,
    m: Simulator,
    queue: seq<ByteString>,
    lock: Lock,
    stop: bool)

  /** The worker is running and nothing has happened yet. */
  function Start(conns: seq<ByteString>): Node {
    Node(Worker(RunTest, conns, [], true, 0, [], [], false), Simulator(Idle, 0, 1, [], 0, false), [], Free, false)
  }

  /** One step of one thread, with what the environment decides: sockets, the clock, who calls stop. */
  datatype Move =
    | WorkerMove(ready: bool, acceptFails: bool, grant: Pos)
    | MainMove(stopCalled: bool, now: real, rftt: int)

  /** A payload becomes a packet; its number is cut to 16 bits. */
  function Stamp(msg: ByteString, uid: nat, txsn: nat, rftt: int, now: real): Packet {
    Packet(true, txsn % U16, msg, now, uid, if rftt >= 0 then rftt * 10000 else 0, rftt >= 0)
  }

  /** A step that has to wait leaves the state as it is. */
  function WorkerStep(s: Node, ready: bool, acceptFails: bool, grant: Pos): Node {
    var w := s.w;
    match w.pc
    case RunTest => s.(w := w.(pc := if s.stop then Leaving else Accepting))
    case Accepting =>
      if acceptFails then s.(w := w.(pc := Leaving))
      else if w.conns == [] then s
      else s.(w := w.(cur := w.conns[0], conns := w.conns[1..], pc := LoopTest))
    case LoopTest => s.(w := w.(pc := if s.stop then Closing else Polling))
    case Polling => s.(w := w.(pc := if ready then Reading else LoopTest))
    case Reading =>
      var r := ReceiveChunk(w.cur, grant);
      s.(w := w.(cur := r.rest,
                 grants := w.grants + [grant],
                 short := w.short || r != Receive(w.cur),
                 pc := if r.payload == [] then Closing else Locking(r.payload)))
    case Locking(msg) => if s.lock == Free then s.(lock := ByWorker, w := w.(pc := Pushing(msg))) else s
    case Pushing(msg) => s.(queue := s.queue + [msg], w := w.(enqueued := w.enqueued + [msg], pc := Counting))
    case Counting => s.(lock := Free, w := w.(pushed := w.pushed + 1, pc := LoopTest))
    case Closing => s.(w := w.(cur := [], pc := RunTest))
    case Leaving => s.(w := w.(running := false, pc := Ended))
    case Ended => s
  }

  function MainStep(s: Node, stopCalled: bool, now: real, rftt: int): Node {
    var m := s.m;
    match m.pc
    case Idle =>
      if stopCalled then s.(m := m.(pc := Checking))
      else if s.queue != [] then s.(m := m.(pc := ToLock))
      else s
    case ToLock => if s.lock == Free then s.(lock := ByMain, m := m.(pc := Fronting)) else s
    case Fronting => s.(m := m.(pc := if s.queue == [] then Crashed else Popping(s.queue[0])))
    case Popping(msg) =>
      if s.queue == [] then s.(m := m.(pc := Crashed))
      else s.(queue := s.queue[1..], lock := Free, m := m.(pc := Naming(msg)))
    case Naming(msg) => s.(m := m.(uidcnt := m.uidcnt + 1, pc := Numbering(msg, m.uidcnt + 1)))
    case Numbering(msg, uid) =>
      s.(m := m.(txsn := m.txsn + 1, pc := Sending(Stamp(msg, uid, m.txsn + 1, rftt, now))))
    case Sending(p) => s.(m := m.(sent := m.sent + [p], pc := Idle))
    case Checking => s.(m := m.(pc := if s.w.running then Storing else Deleting))
    case Storing => s.(stop := true, m := m.(pushesAtStop := |s.w.enqueued|, pc := Joining))
    case Joining => if s.w.pc == Ended then s.(m := m.(joined := true, pc := Deleting)) else s
    case Deleting => s.(m := m.(pc := if m.joined then Gone else Terminated))
    case Gone => s
    case Terminated => s
    case Crashed => s
  }

  function Apply(s: Node, mv: Move): Node {
    match mv
    case WorkerMove(ready, acceptFails, grant) => WorkerStep(s, ready, acceptFails, grant)
    case MainMove(stopCalled, now, rftt) => MainStep(s, stopCalled, now, rftt)
  }

  /** Any interleaving is a list of moves. */
  function Exec(s: Node, moves: seq<Move>): Node {
    if moves == [] then s else Apply(Exec(s, moves[..|moves| - 1]), moves[|moves| - 1])
  }

  lemma {:induction false} ExecAppend(s: Node, xs: seq<Move>, ys: seq<Move>)
    ensures Exec(s, xs + ys) == Exec(Exec(s, xs), ys)
  {
    hide Apply;
    if ys == [] {
      assert xs + ys == xs;
    } else {
      ExecAppend(s, xs, ys[..|ys| - 1]);
      assert (xs + ys)[..|xs + ys| - 1] == xs + ys[..|ys| - 1];
    }
  }

  lemma ExecEmpty(s: Node)
    ensures Exec(s, []) == s
  {
  }

  lemma ExecOne(s: Node, mv: Move)
    ensures Exec(s, [mv]) == Apply(s, mv)
  {
    assert [mv][..0] == [];
    assert Exec(s, []) == s;
  }

  // ---------- What each thread leaves alone ----------

  lemma MainFrame(s: Node, stopCalled: bool, now: real, rftt: int)
    ensures var t := MainStep(s, stopCalled, now, rftt); t.w == s.w && (s.stop ==> t.stop)
  {
    hide Stamp;
  }

  lemma WorkerFrame(s: Node, ready: bool, acceptFails: bool, grant: Pos)
    ensures var t := WorkerStep(s, ready, acceptFails, grant); t.m == s.m && t.stop == s.stop
  {
    hide Receive, ReceiveChunk;
  }

  // ---------- The mutex and the queue ----------

  /** Each lock holder is in its critical section; a non-empty look at the queue stays true until the pop. */
  ghost predicate LockInv(s: Node) {
    && (s.lock == ByWorker <==> s.w.pc.Pushing? || s.w.pc.Counting?)
    && (s.lock == ByMain <==> s.m.pc.Fronting? || s.m.pc.Popping?)
    && (s.m.pc.ToLock? || s.m.pc.Fronting? || s.m.pc.Popping? ==> s.queue != [])
    && (s.m.pc.Popping? ==> s.queue[0] == s.m.pc.msg)
    && !s.m.pc.Crashed?
  }

  lemma LockWorker(s: Node, ready: bool, acceptFails: bool, grant: Pos)
    requires LockInv(s)
    ensures LockInv(WorkerStep(s, ready, acceptFails, grant))
  {
    hide Receive, ReceiveChunk;
    match s.w.pc
    case RunTest =>
    case Accepting =>
    case LoopTest =>
    case Polling =>
    case Reading =>
    case Locking(_) =>
    case Pushing(_) =>
    case Counting =>
    case Closing =>
    case Leaving =>
    case Ended =>
  }

  lemma LockMain(s: Node, stopCalled: bool, now: real, rftt: int)
    requires LockInv(s)
    ensures LockInv(MainStep(s, stopCalled, now, rftt))
  {
    hide Stamp;
    match s.m.pc
    case Idle =>
    case ToLock =>
    case Fronting =>
    case Popping(_) =>
    case Naming(_) =>
    case Numbering(_, _) =>
    case Sending(_) =>
    case Checking =>
    case Storing =>
    case Joining =>
    case Deleting =>
    case Gone =>
    case Terminated =>
  }

  // ---------- Conservation and stamping ----------

  function Payloads(ps: seq<Packet>): seq<ByteString> {
    seq(|ps|, i requires 0 <= i < |ps| => ps[i].payload)
  }

  /** The packet the simulation thread is working on, if it has popped one. */
  function InFlight(pc: MainPc): seq<ByteString> {
    match pc
    case Naming(m) => [m]
    case Numbering(m, _) => [m]
    case Sending(p) => [p.payload]
    case _ => []
  }

  /** The i-th packet sent, from 0. */
  ghost predicate StampedAs(p: Packet, i: nat) {
    p.data && p.uid == i + 1 && p.sn == (i + 2) % U16
  }

  ghost predicate CountInv(s: Node) {
    && s.w.enqueued == Payloads(s.m.sent) + InFlight(s.m.pc) + s.queue
    && s.w.pushed + (if s.w.pc.Counting? then 1 else 0) == |s.w.enqueued|
  }

  ghost predicate StampInv(s: Node) {
    && s.m.uidcnt == |s.m.sent| + (if s.m.pc.Numbering? || s.m.pc.Sending? then 1 else 0)
    && s.m.txsn == 1 + |s.m.sent| + (if s.m.pc.Sending? then 1 else 0)
    && (s.m.pc.Numbering? ==> s.m.pc.uid == s.m.uidcnt)
    && (s.m.pc.Sending? ==> StampedAs(s.m.pc.p, |s.m.sent|))
    && forall i :: 0 <= i < |s.m.sent| ==> StampedAs(s.m.sent[i], i)
  }

  lemma CountWorker(s: Node, ready: bool, acceptFails: bool, grant: Pos)
    requires CountInv(s)
    ensures CountInv(WorkerStep(s, ready, acceptFails, grant))
  {
    hide Receive, ReceiveChunk, Payloads, StampedAs, InFlight;
    match s.w.pc
    case RunTest =>
    case Accepting =>
    case LoopTest =>
    case Polling =>
    case Reading =>
    case Locking(_) =>
    case Pushing(m) =>
      assert s.w.enqueued + [m] == Payloads(s.m.sent) + InFlight(s.m.pc) + (s.queue + [m]);
    case Counting =>
    case Closing =>
    case Leaving =>
    case Ended =>
  }

  lemma StampWorker(s: Node, ready: bool, acceptFails: bool, grant: Pos)
    requires StampInv(s)
    ensures StampInv(WorkerStep(s, ready, acceptFails, grant))
  {
    hide WorkerStep, StampedAs;
    WorkerFrame(s, ready, acceptFails, grant);
  }

  lemma CountMain(s: Node, stopCalled: bool, now: real, rftt: int)
    requires LockInv(s) && CountInv(s)
    ensures CountInv(MainStep(s, stopCalled, now, rftt))
  {
    hide Payloads;
    match s.m.pc
    case Idle =>
    case ToLock =>
    case Fronting =>
    case Popping(m) =>
      assert s.queue == [m] + s.queue[1..];
      Assoc(Payloads(s.m.sent), [m], s.queue[1..]);
      Nil(Payloads(s.m.sent));
    case Naming(_) =>
    case Numbering(_, _) =>
    case Sending(p) =>
      PayloadsSnoc(s.m.sent, p);
      Nil(Payloads(s.m.sent + [p]));
    case Checking =>
    case Storing =>
    case Joining =>
    case Deleting =>
    case Gone =>
    case Terminated =>
  }

  lemma PayloadsSnoc(ps: seq<Packet>, p: Packet)
    ensures Payloads(ps + [p]) == Payloads(ps) + [p.payload]
  {
  }

  lemma StampMain(s: Node, stopCalled: bool, now: real, rftt: int)
    requires StampInv(s)
    ensures StampInv(MainStep(s, stopCalled, now, rftt))
  {
    if s.m.pc.Naming? || s.m.pc.Numbering? || s.m.pc.Sending? {
      match s.m.pc
      case Naming(_) =>
      case Numbering(_, _) =>
      case Sending(_) =>
    } else {
      hide StampedAs, MainStep;
      StampQuiet(s, stopCalled, now, rftt);
    }
  }

  /** The other steps take no number. */
  lemma StampQuiet(s: Node, stopCalled: bool, now: real, rftt: int)
    requires !s.m.pc.Naming? && !s.m.pc.Numbering? && !s.m.pc.Sending?
    ensures var t := MainStep(s, stopCalled, now, rftt);
            && t.m.uidcnt == s.m.uidcnt && t.m.txsn == s.m.txsn && t.m.sent == s.m.sent
            && !t.m.pc.Numbering? && !t.m.pc.Sending?
  {
    match s.m.pc
    case Idle =>
    case ToLock =>
    case Fronting =>
    case Popping(_) =>
    case Checking =>
    case Storing =>
    case Joining =>
    case Deleting =>
    case Gone =>
    case Terminated =>
    case Crashed =>
  }

  // ---------- Stopping ----------

  /** The worker is past a test of m_stop and will push once more if there is something to read. */
  predicate MayPush(pc: WorkerPc) {
    pc.Polling? || pc.Reading? || pc.Locking? || pc.Pushing?
  }

  ghost predicate StopInv(s: Node) {
    && (s.w.running <==> !s.w.pc.Ended?)
    && (s.stop ==> |s.w.enqueued| <= s.m.pushesAtStop + (if MayPush(s.w.pc) then 0 else 1))
    && (s.stop ==> |s.w.enqueued| >= s.m.pushesAtStop)
    && (s.m.pc.Joining? ==> s.stop && !s.m.joined)
    && (s.m.pc.Deleting? ==> s.w.pc.Ended? && (s.m.joined <==> s.stop))
    && (s.m.pc.Gone? ==> s.w.pc.Ended? && s.m.joined && s.stop)
    && (s.m.pc.Terminated? ==> s.w.pc.Ended? && !s.m.joined && !s.stop)
    && (s.stop || s.m.joined ==> s.m.pc.Joining? || s.m.pc.Deleting? || s.m.pc.Gone?)
  }

  lemma StopStep(s: Node, mv: Move)
    requires LockInv(s) && StopInv(s)
    ensures StopInv(Apply(s, mv))
    ensures s.stop ==> Apply(s, mv).stop && Apply(s, mv).m.pushesAtStop == s.m.pushesAtStop
    ensures |s.w.enqueued| <= |Apply(s, mv).w.enqueued|
    ensures s.w.pc.Ended? ==> Apply(s, mv).w.pc.Ended? && Apply(s, mv).w.enqueued == s.w.enqueued
  {
    hide Receive, ReceiveChunk;
  }

  // ---------- From the byte streams to the queue ----------

  /** Everything pushed, and the message about to be pushed. */
  function Taken(s: Node): seq<ByteString> {
    if s.w.pc.Locking? || s.w.pc.Pushing? then s.w.enqueued + [s.w.pc.msg] else s.w.enqueued
  }

  predicate Serving(pc: WorkerPc) {
    pc.LoopTest? || pc.Polling? || pc.Reading? || pc.Locking? || pc.Pushing? || pc.Counting?
  }

  /** What the worker will still push if nobody stops it. */
  function Todo(s: Node): seq<ByteString> {
    if Serving(s.w.pc) then Parse(s.w.cur) + ParseAll(s.w.conns) else ParseAll(s.w.conns)
  }

  /** As long as no read was short, the worker takes what the streams hold; after one, it has not. */
  ghost predicate StreamInv(s: Node, all: seq<ByteString>) {
    && (Taken(s) <= ParseAll(all) <==> !s.w.short)
    && (!s.w.short && (Serving(s.w.pc) || s.w.pc.Accepting?) ==> Taken(s) + Todo(s) == ParseAll(all))
    && (!s.w.short && (s.w.pc.Closing? || s.w.pc.RunTest?) ==> s.stop || Taken(s) + Todo(s) == ParseAll(all))
  }

  lemma StreamWorker(s: Node, ready: bool, acceptFails: bool, grant: Pos, all: seq<ByteString>)
    requires StreamInv(s, all)
    ensures StreamInv(WorkerStep(s, ready, acceptFails, grant), all)
  {
    hide StreamInv, WorkerStep;
    match s.w.pc
    case Accepting => StreamAccepting(s, ready, acceptFails, grant, all);
    case Reading => StreamReading(s, ready, acceptFails, grant, all);
    case Pushing(m) => StreamPushing(s, ready, acceptFails, grant, all);
    case _ => StreamQuiet(s, ready, acceptFails, grant, all);
  }

  lemma StreamAccepting(s: Node, ready: bool, acceptFails: bool, grant: Pos, all: seq<ByteString>)
    requires StreamInv(s, all) && s.w.pc.Accepting?
    ensures StreamInv(WorkerStep(s, ready, acceptFails, grant), all)
  {
    hide Parse, ParseAll;
    if s.w.conns != [] {
      ParseAllUnfold(s.w.conns);
    }
  }

  lemma StreamReading(s: Node, ready: bool, acceptFails: bool, grant: Pos, all: seq<ByteString>)
    requires StreamInv(s, all) && s.w.pc.Reading?
    ensures StreamInv(WorkerStep(s, ready, acceptFails, grant), all)
  {
    hide Receive, ReceiveChunk, Parse, ParseAll;
    var r, c := Receive(s.w.cur), ReceiveChunk(s.w.cur, grant);
    if s.w.short {
      PrefixShrinks(s.w.enqueued, c.payload, ParseAll(all));
    } else {
      ReadingSplits(s.w.enqueued, s.w.cur, ParseAll(s.w.conns));
      if r != c {
        ShortRead(s.w.cur, grant);
        OtherNext(s.w.enqueued, c.payload, r.payload, Parse(r.rest) + ParseAll(s.w.conns));
      }
    }
  }

  lemma PrefixShrinks(a: seq<ByteString>, m: ByteString, all: seq<ByteString>)
    ensures a + [m] <= all ==> a <= all
  {
    if a + [m] <= all {
      assert a == (a + [m])[..|a|] == all[..|a|];
    }
  }

  lemma OtherNext(a: seq<ByteString>, m: ByteString, n: ByteString, later: seq<ByteString>)
    requires m != n
    ensures !(a + [m] <= (a + [n]) + later)
  {
    assert (a + [m])[|a|] != ((a + [n]) + later)[|a|];
  }

  lemma StreamPushing(s: Node, ready: bool, acceptFails: bool, grant: Pos, all: seq<ByteString>)
    requires StreamInv(s, all) && s.w.pc.Pushing?
    ensures StreamInv(WorkerStep(s, ready, acceptFails, grant), all)
  {
    hide Parse, ParseAll;
  }

  /** The other steps neither read nor push. */
  lemma StreamQuiet(s: Node, ready: bool, acceptFails: bool, grant: Pos, all: seq<ByteString>)
    requires StreamInv(s, all) && !s.w.pc.Accepting? && !s.w.pc.Reading? && !s.w.pc.Pushing?
    ensures StreamInv(WorkerStep(s, ready, acceptFails, grant), all)
  {
    hide Parse, ParseAll;
    match s.w.pc
    case RunTest =>
    case LoopTest => Prefix(s.w.enqueued, Todo(s));
    case Polling =>
    case Locking(_) =>
    case Counting =>
    case Closing =>
    case Leaving =>
    case Ended =>
  }

  /** Reading takes the first message off what is still to come, or finds that nothing is. */
  lemma ReadingSplits(done: seq<ByteString>, cur: ByteString, later: seq<ByteString>)
    ensures var r := Receive(cur);
            if r.payload == [] then done + (Parse(cur) + later) == done + later
            else done + (Parse(cur) + later) == (done + [r.payload]) + (Parse(r.rest) + later)
                 && done + [r.payload] <= done + (Parse(cur) + later)
  {
    hide Receive, ReceiveChunk, Parse;
    ParseUnfold(cur);
    var r := Receive(cur);
    if r.payload == [] {
      Nil(later);
    } else {
      Assoc([r.payload], Parse(r.rest), later);
      Assoc(done, [r.payload], Parse(r.rest) + later);
      Prefix(done + [r.payload], Parse(r.rest) + later);
    }
  }

  lemma ParseAllUnfold(conns: seq<ByteString>)
    requires conns != []
    ensures ParseAll(conns) == Parse(conns[0]) + ParseAll(conns[1..])
  {
  }

  lemma StreamMain(s: Node, stopCalled: bool, now: real, rftt: int, all: seq<ByteString>)
    requires StreamInv(s, all)
    ensures StreamInv(MainStep(s, stopCalled, now, rftt), all)
  {
    hide MainStep, Parse, ParseAll;
    MainFrame(s, stopCalled, now, rftt);
  }

  /** The worker is a reader: it has taken in what the grants of its reads give, and goes on from there. */
  ghost predicate ReaderInv(s: Node, all: seq<ByteString>) {
    var r := Reads(all, s.w.grants);
    && r.taken == Taken(s)
    && (Serving(s.w.pc) ==> r.cur == s.w.cur && r.later == s.w.conns)
    && (s.w.pc.Accepting? ==> r == NextClient(s.w.conns, Taken(s)))
    && (s.w.pc.Closing? || s.w.pc.RunTest? ==> s.stop || r == NextClient(s.w.conns, Taken(s)))
  }

  lemma ReaderStep(s: Node, mv: Move, all: seq<ByteString>)
    requires ReaderInv(s, all)
    ensures ReaderInv(Apply(s, mv), all)
  {
    match mv
    case WorkerMove(ready, acceptFails, grant) =>
      hide MainStep, ReaderInv;
      if s.w.pc.Reading? {
        ReaderReading(s, ready, acceptFails, grant, all);
      } else {
        ReaderQuiet(s, ready, acceptFails, grant, all);
      }
    case MainMove(stopCalled, now, rftt) =>
      hide MainStep, Reads;
      MainFrame(s, stopCalled, now, rftt);
  }

  lemma ReaderReading(s: Node, ready: bool, acceptFails: bool, grant: Pos, all: seq<ByteString>)
    requires ReaderInv(s, all) && s.w.pc.Reading?
    ensures ReaderInv(WorkerStep(s, ready, acceptFails, grant), all)
  {
    hide Receive, ReceiveChunk, Reads;
    ReadsSnoc(all, s.w.grants, grant);
  }

  lemma ReaderQuiet(s: Node, ready: bool, acceptFails: bool, grant: Pos, all: seq<ByteString>)
    requires ReaderInv(s, all) && !s.w.pc.Reading?
    ensures ReaderInv(WorkerStep(s, ready, acceptFails, grant), all)
  {
    hide ReaderInv;
    QuietTakes(s, ready, acceptFails, grant);
    QuietReader(s, WorkerStep(s, ready, acceptFails, grant), all);
  }

  /** Steps that read nothing: what they do to the place in the streams. */
  lemma QuietTakes(s: Node, ready: bool, acceptFails: bool, grant: Pos)
    requires !s.w.pc.Reading?
    ensures QuietStep(s, WorkerStep(s, ready, acceptFails, grant))
  {
    hide QuietStep, WorkerStep;
    if s.w.pc.Locking? || s.w.pc.Pushing? || s.w.pc.Counting? {
      QueueingTakes(s, ready, acceptFails, grant);
    } else {
      MovingTakes(s, ready, acceptFails, grant);
    }
  }

  lemma QueueingTakes(s: Node, ready: bool, acceptFails: bool, grant: Pos)
    requires s.w.pc.Locking? || s.w.pc.Pushing? || s.w.pc.Counting?
    ensures QuietStep(s, WorkerStep(s, ready, acceptFails, grant))
  {
    hide Receive, ReceiveChunk;
  }

  lemma MovingTakes(s: Node, ready: bool, acceptFails: bool, grant: Pos)
    requires !s.w.pc.Reading? && !s.w.pc.Locking? && !s.w.pc.Pushing? && !s.w.pc.Counting?
    ensures QuietStep(s, WorkerStep(s, ready, acceptFails, grant))
  {
    hide Receive, ReceiveChunk;
    match s.w.pc
    case RunTest =>
    case Accepting =>
    case LoopTest =>
    case Polling =>
    case Closing =>
    case Leaving =>
    case Ended =>
  }

  ghost predicate QuietStep(s: Node, t: Node) {
    && t.w.grants == s.w.grants && Taken(t) == Taken(s) && t.stop == s.stop
    && (Serving(t.w.pc) ==>
          || (Serving(s.w.pc) && t.w.cur == s.w.cur && t.w.conns == s.w.conns)
          || (s.w.pc.Accepting? && s.w.conns != [] && t.w.cur == s.w.conns[0] && t.w.conns == s.w.conns[1..]))
    && (t.w.pc.Accepting? ==> t.w.conns == s.w.conns && (s.w.pc.Accepting? || (s.w.pc.RunTest? && !s.stop)))
    && (t.w.pc.Closing? || t.w.pc.RunTest? ==> s.stop || (t.w.conns == s.w.conns && s.w.pc.Closing?))
  }

  lemma QuietReader(s: Node, t: Node, all: seq<ByteString>)
    requires ReaderInv(s, all) && QuietStep(s, t)
    ensures ReaderInv(t, all)
  {
    hide Reads, Taken;
  }

  /** Whatever is pushed is neither empty nor longer than the buffer. */
  lemma SizeStep(s: Node, mv: Move)
    requires AllSendable(Taken(s))
    ensures AllSendable(Taken(Apply(s, mv)))
  {
    hide Sendable;
    match mv
    case WorkerMove(ready, acceptFails, grant) =>
      hide Receive, ReceiveChunk, MainStep;
      if s.w.pc.Reading? {
        ChunkSendable(s.w.cur, grant);
      }
    case MainMove(stopCalled, now, rftt) =>
      hide WorkerStep, MainStep;
      MainFrame(s, stopCalled, now, rftt);
  }

  // ---------- Every run ----------

  ghost predicate Inv(s: Node, all: seq<ByteString>) {
    && LockInv(s) && CountInv(s) && StampInv(s) && StopInv(s)
    && StreamInv(s, all) && ReaderInv(s, all) && AllSendable(Taken(s))
  }

  lemma StartInv(conns: seq<ByteString>)
    ensures Inv(Start(conns), conns)
  {
    Nil(ParseAll(conns));
  }

  lemma StepInv(s: Node, mv: Move, all: seq<ByteString>)
    requires Inv(s, all)
    ensures Inv(Apply(s, mv), all)
  {
    hide WorkerStep, MainStep, LockInv, CountInv, StampInv, StopInv, StreamInv, ReaderInv, Taken;
    StopStep(s, mv);
    ReaderStep(s, mv, all);
    SizeStep(s, mv);
    match mv
    case WorkerMove(ready, acceptFails, grant) =>
      LockWorker(s, ready, acceptFails, grant);
      CountWorker(s, ready, acceptFails, grant);
      StampWorker(s, ready, acceptFails, grant);
      StreamWorker(s, ready, acceptFails, grant, all);
    case MainMove(stopCalled, now, rftt) =>
      LockMain(s, stopCalled, now, rftt);
      CountMain(s, stopCalled, now, rftt);
      StampMain(s, stopCalled, now, rftt);
      StreamMain(s, stopCalled, now, rftt, all);
  }

  /** The invariants hold after every interleaving. */
  lemma {:induction false} Reachable(conns: seq<ByteString>, moves: seq<Move>)
    ensures Inv(Exec(Start(conns), moves), conns)
  {
    hide Apply, Inv;
    if moves == [] {
      StartInv(conns);
    } else {
      Reachable(conns, moves[..|moves| - 1]);
      StepInv(Exec(Start(conns), moves[..|moves| - 1]), moves[|moves| - 1], conns);
    }
  }

  /**
   The unlocked look at the queue is good enough: the simulation thread never touches an empty queue, and
   never both threads are between lock and unlock.
   */
  lemma {:induction false} QueueSafety(conns: seq<ByteString>, moves: seq<Move>)
    ensures var s := Exec(Start(conns), moves);
            && s.m.pc != Crashed
            && (s.m.pc == ToLock ==> s.queue != [])
            && !((s.w.pc.Pushing? || s.w.pc.Counting?) && (s.m.pc.Fronting? || s.m.pc.Popping?))
  {
    Reachable(conns, moves);
  }

  /** The packets sent are the first ones enqueued, in order; the i-th, from 0, has uid i+1 and sn i+2 (16 bits). */
  lemma {:induction false} SentInOrder(conns: seq<ByteString>, moves: seq<Move>)
    ensures var s := Exec(Start(conns), moves);
            && Payloads(s.m.sent) <= s.w.enqueued
            && forall i :: 0 <= i < |s.m.sent| ==>
                 StampedAs(s.m.sent[i], i) && s.m.sent[i].uid == i + 1 && s.m.sent[i].sn == (i + 2) % 0x1_0000
  {
    hide Exec, Payloads, InFlight, LockInv, StopInv, StreamInv, ReaderInv;
    Reachable(conns, moves);
    var s := Exec(Start(conns), moves);
    Assoc(Payloads(s.m.sent), InFlight(s.m.pc), s.queue);
    Prefix(Payloads(s.m.sent), InFlight(s.m.pc) + s.queue);
  }

  /** The n-th move gives packet i, from 0, its number and the rest of its header. */
  ghost predicate NumbersAt(conns: seq<ByteString>, moves: seq<Move>, n: nat, i: nat) {
    && n < |moves| && moves[n].MainMove?
    && Exec(Start(conns), moves[..n]).m.pc.Numbering? && |Exec(Start(conns), moves[..n]).m.sent| == i
  }

  /** A packet that carries the clock and the trip time of this move. */
  ghost predicate Carries(p: Packet, mv: Move) {
    && mv.MainMove? && p.timestamp == mv.now
    && (p.rfttValid <==> mv.rftt >= 0)
    && (mv.rftt >= 0 ==> p.rftt == 10000 * mv.rftt)
  }

  /** The packets sent and the one about to be sent. */
  function Stamped(m: Simulator): seq<Packet> {
    if m.pc.Sending? then m.sent + [m.pc.p] else m.sent
  }

  /** Every packet carries the clock and the trip time of the move that numbered it, in every run. */
  lemma {:induction false} SentCarriesClock(conns: seq<ByteString>, moves: seq<Move>, i: nat) returns (n: nat)
    requires i < |Stamped(Exec(Start(conns), moves).m)|
    ensures NumbersAt(conns, moves, n, i)
    ensures var p, mv := Stamped(Exec(Start(conns), moves).m)[i], moves[n];
            && p.timestamp == mv.now && (p.rfttValid <==> mv.rftt >= 0)
            && (mv.rftt >= 0 ==> p.rftt == 10000 * mv.rftt)
  {
    hide Apply, Stamped;
    if moves == [] {
      NothingStamped(conns);
    }
    var k := |moves| - 1;
    var s := Exec(Start(conns), moves[..k]);
    StampedStep(s, moves[k]);
    if i < |Stamped(s.m)| {
      n := SentCarriesClock(conns, moves[..k], i);
      assert moves[..k][..n] == moves[..n];
    } else {
      n := k;
    }
  }

  lemma NothingStamped(conns: seq<ByteString>)
    ensures Stamped(Exec(Start(conns), []).m) == []
  {
  }

  lemma StampedStep(s: Node, mv: Move)
    ensures var ps, qs := Stamped(s.m), Stamped(Apply(s, mv).m);
            || qs == ps
            || (&& s.m.pc.Numbering? && |s.m.sent| == |ps| && |qs| == |ps| + 1 && qs[..|ps|] == ps
                && Carries(qs[|ps|], mv))
  {
    match mv
    case WorkerMove(ready, acceptFails, grant) =>
      hide WorkerStep;
      WorkerFrame(s, ready, acceptFails, grant);
    case MainMove(stopCalled, now, rftt) =>
      hide WorkerStep;
      match s.m.pc
      case Numbering(_, _) =>
      case Sending(_) =>
      case Naming(_) =>
      case _ =>
        hide MainStep;
        StampQuiet(s, stopCalled, now, rftt);
  }

  /**
   In every state, getPktSent() plus the queue plus the packet popped but not yet numbered is the number of
   pushes counted -- and one more while the worker holds the mutex between push and count.
   */
  lemma {:induction false} QueueConservation(conns: seq<ByteString>, moves: seq<Move>)
    ensures var s := Exec(Start(conns), moves);
            s.w.pushed + (if s.w.pc.Counting? then 1 else 0)
            == (s.m.txsn - 1) + |s.queue| + (if s.m.pc.Naming? || s.m.pc.Numbering? then 1 else 0)
  {
    Reachable(conns, moves);
  }

  /**
   What the worker takes in is what its reads give, whatever they deliver. It is a prefix of what the clients
   framed if and only if no payload read was short, and all of it once the streams are used up.
   */
  lemma {:induction false} QueueFromStreams(conns: seq<ByteString>, moves: seq<Move>)
    ensures var s := Exec(Start(conns), moves);
            && Taken(s) == Intake(conns, s.w.grants)
            && (Taken(s) <= ParseAll(conns) <==> !s.w.short)
            && (!s.w.short ==> s.w.enqueued <= ParseAll(conns))
            && (!s.w.short && s.w.pc.Accepting? && s.w.conns == [] ==> s.w.enqueued == ParseAll(conns))
  {
    hide Exec, Parse, Reads, LockInv, CountInv, StampInv, StopInv;
    Reachable(conns, moves);
    var s := Exec(Start(conns), moves);
    Prefix(s.w.enqueued, Taken(s)[|s.w.enqueued|..]);
    Nil(s.w.enqueued);
  }

  /** No read is short if the socket never delivers less than it could. */
  lemma {:induction false} WholeReads(conns: seq<ByteString>, moves: seq<Move>)
    requires forall i :: 0 <= i < |moves| && moves[i].WorkerMove? ==> moves[i].grant >= MAX_LENGTH_PAYLOAD
    ensures !Exec(Start(conns), moves).w.short
  {
    if moves != [] {
      hide Apply;
      var n := |moves| - 1;
      WholeReads(conns, moves[..n]);
      WholeReadStep(Exec(Start(conns), moves[..n]), moves[n]);
    }
  }

  lemma WholeReadStep(s: Node, mv: Move)
    requires mv.WorkerMove? ==> mv.grant >= MAX_LENGTH_PAYLOAD
    ensures Apply(s, mv).w.short == s.w.short
  {
    match mv
    case WorkerMove(ready, acceptFails, grant) =>
      hide Receive, ReceiveChunk, MainStep;
      WholeRead(s.w.cur, grant);
    case MainMove(stopCalled, now, rftt) =>
      hide WorkerStep, MainStep;
      MainFrame(s, stopCalled, now, rftt);
  }

  /** Every number sent has an entry in the receivers' tables exactly as long as at most 65533 packets were sent. */
  lemma {:induction false} NumbersInTable(conns: seq<ByteString>, moves: seq<Move>)
    ensures var s := Exec(Start(conns), moves);
            (forall i :: 0 <= i < |s.m.sent| ==> s.m.sent[i].sn < 65535) <==> |s.m.sent| <= 65533
  {
    hide Exec;
    SentInOrder(conns, moves);
    var s := Exec(Start(conns), moves);
    if |s.m.sent| > SN_TABLE - 2 {
      assert StampedAs(s.m.sent[SN_TABLE - 2], SN_TABLE - 2);
    }
  }

  /** A stop request is never withdrawn, and at most one more packet is pushed after it. */
  lemma {:induction false} StopSafety(conns: seq<ByteString>, before: seq<Move>, after: seq<Move>)
    requires Exec(Start(conns), before).stop
    ensures var s, t := Exec(Start(conns), before), Exec(Start(conns), before + after);
            && t.stop && t.m.pushesAtStop == s.m.pushesAtStop
            && s.m.pushesAtStop <= |s.w.enqueued| <= |t.w.enqueued| <= s.m.pushesAtStop + 1
  {
    Reachable(conns, before);
    Reachable(conns, before + after);
    StopStays(conns, before, after);
  }

  lemma {:induction false} StopStays(conns: seq<ByteString>, before: seq<Move>, after: seq<Move>)
    requires Exec(Start(conns), before).stop
    ensures var s, t := Exec(Start(conns), before), Exec(Start(conns), before + after);
            t.stop && t.m.pushesAtStop == s.m.pushesAtStop && |s.w.enqueued| <= |t.w.enqueued|
  {
    hide Apply, LockInv, CountInv, StampInv, StopInv, StreamInv, ReaderInv;
    if after == [] {
      assert before + after == before;
    } else {
      var n := |after| - 1;
      StopStays(conns, before, after[..n]);
      Reachable(conns, before + after[..n]);
      StopStep(Exec(Start(conns), before + after[..n]), after[n]);
      assert (before + after)[..|before + after| - 1] == before + after[..n];
    }
  }

  /** Once stop() has joined the worker, or found it ended, nothing is pushed any more, whatever happens. */
  lemma {:induction false} NothingAfterEnd(conns: seq<ByteString>, before: seq<Move>, after: seq<Move>)
    requires var s := Exec(Start(conns), before);
             s.m.joined || s.m.pc.Deleting? || s.m.pc.Gone? || s.m.pc.Terminated?
    ensures var s, t := Exec(Start(conns), before), Exec(Start(conns), before + after);
            s.w.pc == Ended && t.w.pc == Ended && t.w.enqueued == s.w.enqueued
  {
    hide Apply, LockInv, CountInv, StreamInv, ReaderInv;
    Reachable(conns, before);
    if after == [] {
      assert before + after == before;
    } else {
      var n := |after| - 1;
      NothingAfterEnd(conns, before, after[..n]);
      Reachable(conns, before + after[..n]);
      StopStep(Exec(Start(conns), before + after[..n]), after[n]);
      assert (before + after)[..|before + after| - 1] == before + after[..n];
    }
  }
}
