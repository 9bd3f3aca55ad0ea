/**
 Runs of a node: one tick of the timer, the receive loop of one client, what fair schedules achieve, and which
 runs exist.
 */
module ListenerRuns {
  import opened Bytes
  import opened Framing
  import opened Receiver
  import opened Listener

  // ---------- One tick of the timer, undisturbed ----------

  /** What init_Packet_TCP works on. */
  datatype Outbox = Outbox(queue: seq<ByteString>, uidcnt: nat, txsn: nat, sent: seq<Packet>)

  /** What one undisturbed call of it does. */
  function SendOne(o: Outbox, now: real, rftt: int): Outbox {
    if o.queue == [] then o
    else Outbox(o.queue[1..], o.uidcnt + 1, o.txsn + 1,
                o.sent + [Stamp(o.queue[0], o.uidcnt + 1, o.txsn + 1, rftt, now)])
  }

  function Tick(s: Node, now: real, rftt: int): Node {
    var o := SendOne(Outbox(s.queue, s.m.uidcnt, s.m.txsn, s.m.sent), now, rftt);
    s.(queue := o.queue, m := s.m.(uidcnt := o.uidcnt, txsn := o.txsn, sent := o.sent))
  }

  function Repeat(mv: Move, n: nat): (ms: seq<Move>)
    ensures |ms| == n && forall i :: 0 <= i < n ==> ms[i] == mv
  {
    if n == 0 then [] else [mv] + Repeat(mv, n - 1)
  }

  lemma ExecRepeat(s: Node, mv: Move, n: nat)
    requires n > 0
    ensures Exec(s, Repeat(mv, n)) == Exec(Apply(s, mv), Repeat(mv, n - 1))
  {
    hide Apply;
    ExecAppend(s, [mv], Repeat(mv, n - 1));
    ExecOne(s, mv);
  }

  /** A tick that nothing interrupts takes seven steps and has the effect of one call of init_Packet_TCP. */
  lemma TickIsMainSteps(s: Node, now: real, rftt: int)
    requires s.m.pc == Idle && s.lock == Free
    ensures Exec(s, Repeat(MainMove(false, now, rftt), 7)) == Tick(s, now, rftt)
  {
    var mv := MainMove(false, now, rftt);
    if s.queue == [] {
      ExecIdle(s, mv, 7);
    } else {
      hide Exec, Apply, Repeat, Tick;
      var s1 := Apply(s, mv);
      var s2 := Apply(s1, mv);
      var s3 := Apply(s2, mv);
      var s4 := Apply(s3, mv);
      var s5 := Apply(s4, mv);
      var s6 := Apply(s5, mv);
      TickSteps(s, now, rftt);
      ExecRepeat(s, mv, 7);
      ExecRepeat(s1, mv, 6);
      ExecRepeat(s2, mv, 5);
      ExecRepeat(s3, mv, 4);
      ExecRepeat(s4, mv, 3);
      ExecRepeat(s5, mv, 2);
      ExecRepeat(s6, mv, 1);
      ExecNothing(Apply(s6, mv), mv);
    }
  }

  lemma ExecNothing(s: Node, mv: Move)
    ensures Exec(s, Repeat(mv, 0)) == s
  {
  }

  lemma {:induction false} ExecIdle(s: Node, mv: Move, n: nat)
    requires Apply(s, mv) == s
    ensures Exec(s, Repeat(mv, n)) == s
  {
    hide Apply;
    if n > 0 {
      ExecRepeat(s, mv, n);
      ExecIdle(s, mv, n - 1);
    }
  }

  lemma TickSteps(s: Node, now: real, rftt: int)
    requires s.m.pc == Idle && s.lock == Free && s.queue != []
    ensures var mv := MainMove(false, now, rftt);
            var s1 := Apply(s, mv);
            var s2 := Apply(s1, mv);
            var s3 := Apply(s2, mv);
            var s4 := Apply(s3, mv);
            var s5 := Apply(s4, mv);
            var s6 := Apply(s5, mv);
            Apply(s6, mv) == Tick(s, now, rftt)
  {
    hide Stamp;
  }

  // ---------- One payload read, undisturbed ----------

  /** The node after one payload read and what the worker does about it. */
  function AfterRead(s: Node, grant: Pos): Node {
    var r := ReceiveChunk(s.w.cur, grant);
    var w := s.w.(cur := r.rest, grants := s.w.grants + [grant], short := s.w.short || r != Receive(s.w.cur));
    if r.payload == [] then s.(w := w.(cur := [], pc := RunTest))
    else s.(queue := s.queue + [r.payload],
            w := w.(enqueued := w.enqueued + [r.payload], pushed := w.pushed + 1, pc := LoopTest))
  }

  /** The worker takes six steps for a message: test, poll, read, lock, push, count. */
  lemma MessageSteps(s: Node, grant: Pos)
    requires s.w.pc == LoopTest && s.lock == Free && !s.stop && ReceiveChunk(s.w.cur, grant).payload != []
    ensures var mv := WorkerMove(true, false, grant);
            Apply(Apply(Apply(Apply(Apply(Apply(s, mv), mv), mv), mv), mv), mv) == AfterRead(s, grant)
  {
    hide Receive, ReceiveChunk;
    var mv := WorkerMove(true, false, grant);
    var s3 := Apply(Apply(Apply(s, mv), mv), mv);
    var m := ReceiveChunk(s.w.cur, grant).payload;
    assert s3.w.pc == Locking(m) && s3.lock == Free && s3.queue == s.queue;
    hide MainStep;
    PushSteps(s3, m, mv);
  }

  lemma PushSteps(s: Node, m: ByteString, mv: Move)
    requires mv.WorkerMove? && s.w.pc == Locking(m) && s.lock == Free
    ensures Apply(Apply(Apply(s, mv), mv), mv)
            == s.(queue := s.queue + [m],
                  w := s.w.(enqueued := s.w.enqueued + [m], pushed := s.w.pushed + 1, pc := LoopTest))
  {
    hide Receive, ReceiveChunk;
  }

  /** And four for a disconnect: test, poll, read, close. */
  lemma DisconnectSteps(s: Node, grant: Pos)
    requires s.w.pc == LoopTest && !s.stop && ReceiveChunk(s.w.cur, grant).payload == []
    ensures var mv := WorkerMove(true, false, grant);
            Apply(Apply(Apply(Apply(s, mv), mv), mv), mv) == AfterRead(s, grant)
  {
    hide Receive, ReceiveChunk;
  }

  lemma ReadSteps(s: Node, grant: Pos)
    requires s.w.pc == LoopTest && s.lock == Free && !s.stop
    ensures var n := if ReceiveChunk(s.w.cur, grant).payload == [] then 4 else 6;
            Exec(s, Repeat(WorkerMove(true, false, grant), n)) == AfterRead(s, grant)
  {
    hide Exec, Apply, Repeat, ReceiveChunk, AfterRead;
    var mv := WorkerMove(true, false, grant);
    if ReceiveChunk(s.w.cur, grant).payload == [] {
      DisconnectSteps(s, grant);
      ExecFour(s, mv, 0);
      ExecNothing(Apply(Apply(Apply(Apply(s, mv), mv), mv), mv), mv);
    } else {
      MessageSteps(s, grant);
      ExecFour(s, mv, 2);
      ExecTwo(Apply(Apply(Apply(Apply(s, mv), mv), mv), mv), mv);
    }
  }

  lemma ExecFour(s: Node, mv: Move, n: nat)
    ensures Exec(s, Repeat(mv, n + 4)) == Exec(Apply(Apply(Apply(Apply(s, mv), mv), mv), mv), Repeat(mv, n))
  {
    hide Exec, Apply, Repeat;
    ExecRepeat(s, mv, n + 4);
    ExecRepeat(Apply(s, mv), mv, n + 3);
    ExecRepeat(Apply(Apply(s, mv), mv), mv, n + 2);
    ExecRepeat(Apply(Apply(Apply(s, mv), mv), mv), mv, n + 1);
  }

  lemma ExecTwo(s: Node, mv: Move)
    ensures Exec(s, Repeat(mv, 2)) == Apply(Apply(s, mv), mv)
  {
    hide Exec, Apply, Repeat;
    ExecRepeat(s, mv, 2);
    ExecRepeat(Apply(s, mv), mv, 1);
    ExecNothing(Apply(Apply(s, mv), mv), mv);
  }

  // ---------- Every list of short reads happens ----------

  /** Everything taken in is sent; the reader is where the worker is, or there is no client left. */
  ghost predicate Caught(s: Node, r: Reader) {
    && s.m.pc == Idle && s.lock == Free && !s.stop && s.queue == []
    && s.w.enqueued == r.taken && |s.m.sent| == |r.taken|
    && (|| (s.w.pc == LoopTest && s.w.cur == r.cur && s.w.conns == r.later)
        || (s.w.pc == Accepting && s.w.conns == [] == r.later && r.cur == []))
  }

  /** The two steps to the next client. */
  lemma NextSteps(s: Node, mv: Move)
    requires s.w.pc == RunTest && !s.stop && mv.WorkerMove? && !mv.acceptFails
    requires s.m.pc == Idle && s.lock == Free && s.queue == [] && |s.m.sent| == |s.w.enqueued|
    ensures Caught(Apply(Apply(s, mv), mv), NextClient(s.w.conns, s.w.enqueued))
  {
    hide MainStep;
  }

  /** Six steps of the worker and seven of the simulation thread make one read. */
  lemma CaughtRead(s: Node, r: Reader, grant: Pos, now: real)
    requires Caught(s, r)
    ensures Caught(Exec(s, Repeat(WorkerMove(true, false, grant), 6) + Repeat(MainMove(false, now, 0), 7)),
                   ReadOnce(r, grant))
  {
    hide Exec, Apply, Repeat, ReceiveChunk;
    var mv, mm := WorkerMove(true, false, grant), MainMove(false, now, 0);
    ExecAppend(s, Repeat(mv, 6), Repeat(mm, 7));
    var t := Exec(s, Repeat(mv, 6));
    if s.w.pc == Accepting {
      NobodyReads(r, grant);
      WaitsForClient(s, mv);
      ExecIdle(s, mv, 6);
    } else if ReceiveChunk(s.w.cur, grant).payload == [] {
      var u := AfterRead(s, grant);
      DisconnectSteps(s, grant);
      ExecFour(s, mv, 2);
      ExecTwo(u, mv);
      NextSteps(u, mv);
    } else {
      ReadSteps(s, grant);
    }
    TickIsMainSteps(t, now, 0);
  }

  lemma NobodyReads(r: Reader, grant: Pos)
    requires r.cur == [] && r.later == []
    ensures ReadOnce(r, grant) == r
  {
  }

  lemma WaitsForClient(s: Node, mv: Move)
    requires s.w.pc == Accepting && s.w.conns == [] && mv.WorkerMove? && !mv.acceptFails
    ensures Apply(s, mv) == s
  {
  }

  /** Some schedule makes the reads deliver as the list says, and sends what they give. */
  lemma {:induction false} SendsIntake(conns: seq<ByteString>, grants: seq<Pos>, now: real)
    returns (moves: seq<Move>)
    ensures var s := Exec(Start(conns), moves);
            Taken(s) == s.w.enqueued == Intake(conns, grants) && |s.m.sent| == |Intake(conns, grants)|
  {
    moves := Catches(conns, grants, now);
  }

  lemma {:induction false} Catches(conns: seq<ByteString>, grants: seq<Pos>, now: real) returns (moves: seq<Move>)
    ensures Caught(Exec(Start(conns), moves), Reads(conns, grants))
  {
    hide Exec, Apply, Repeat, Caught, ReadOnce;
    if grants == [] {
      var mv := WorkerMove(true, false, 1);
      moves := Repeat(mv, 2);
      ExecTwo(Start(conns), mv);
      NextSteps(Start(conns), mv);
    } else {
      var n := |grants| - 1;
      var before := Catches(conns, grants[..n], now);
      var round := Repeat(WorkerMove(true, false, grants[n]), 6) + Repeat(MainMove(false, now, 0), 7);
      moves := before + round;
      ExecAppend(Start(conns), before, round);
      CaughtRead(Exec(Start(conns), before), Reads(conns, grants[..n]), grants[n], now);
    }
  }

  /** In one of them a read delivers one byte of a message of two: the queue gets a message that nobody framed. */
  lemma {:induction false} ShortReadHappens(a: Byte, b: Byte, now: real) returns (moves: seq<Move>)
    ensures var s := Exec(Start([Encode([[a, b]])]), moves);
            && ParseAll([Encode([[a, b]])]) == [[a, b]]
            && s.w.short && s.w.enqueued == [[a]] && |s.m.sent| == 1
  {
    hide Exec, Encode, Parse, ReceiveChunk;
    var conns := [Encode([[a, b]])];
    moves := SendsIntake(conns, [1], now);
    OneByteIntake(a, b);
    RoundTrip([[a, b]]);
    assert conns[1..] == [];
    Nil([[a, b]]);
    QueueFromStreams(conns, moves);
    assert [[a]][0] != [[a, b]][0];
  }

  lemma OneByteIntake(a: Byte, b: Byte)
    ensures Intake([Encode([[a, b]])], [1]) == [[a]]
  {
    hide ReceiveChunk, Encode, Frame;
    var m := [a, b];
    var conns := [Encode([m])];
    OneFrame(m);
    ReceiveFrame(m, [], 1);
    Nil(Frame(m));
    assert [1][..0] == [];
    assert Reads(conns, []) == Reader(Frame(m), [], []);
    assert m[..1] == [a];
  }

  lemma OneFrame(m: ByteString)
    ensures Encode([m]) == Frame(m)
  {
    hide Frame;
    assert Encode([m][1..]) == [];
  }

  // ---------- Every fair schedule sends everything ----------

  /** Nobody calls stop(), accept() does not fail, there is always something to read, and reads are whole. */
  predicate Undisturbed(mv: Move) {
    match mv
    case WorkerMove(ready, acceptFails, grant) => ready && !acceptFails && grant >= MAX_LENGTH_PAYLOAD
    case MainMove(stopCalled, _, _) => !stopCalled
  }

  /** The messages that the current client and the clients to come have framed and nobody has read. */
  function Unread(w: Worker): nat {
    (if Serving(w.pc) then |Parse(w.cur)| else 0) + |ParseAll(w.conns)|
  }

  /** The steps the worker still has to take: six for each message and six for each client. */
  function WorkerLeft(w: Worker): nat {
    6 * Unread(w) + 6 * |w.conns| + StepsToNext(w.pc)
  }

  function StepsToNext(pc: WorkerPc): nat {
    match pc
    case RunTest => 1
    case Closing => 2
    case Reading => 3
    case Polling => 4
    case LoopTest => 5
    case Counting => 6
    case Pushing(_) => 7
    case Locking(_) => 8
    case _ => 0
  }

  /** The messages the simulation thread has yet to take off the queue. */
  function Unsent(s: Node): nat {
    Unread(s.w) + (if s.w.pc.Locking? || s.w.pc.Pushing? then 1 else 0) + |s.queue|
  }

  /** The steps it still has to take: seven for each message, less those it has taken for the next one. */
  function MainLeft(s: Node): int {
    7 * Unsent(s) + StepsToIdle(s.m.pc)
  }

  function StepsToIdle(pc: MainPc): int {
    match pc
    case ToLock => -1
    case Fronting => -2
    case Popping(_) => -3
    case Naming(_) => 3
    case Numbering(_, _) => 2
    case Sending(_) => 1
    case _ => 0
  }

  ghost predicate Going(s: Node) {
    && LockInv(s) && !s.stop && !s.w.pc.Leaving? && !s.w.pc.Ended?
    && (s.m.pc.Idle? || s.m.pc.ToLock? || s.m.pc.Fronting? || s.m.pc.Popping?
        || s.m.pc.Naming? || s.m.pc.Numbering? || s.m.pc.Sending?)
  }

  predicate WorkerWaits(s: Node) {
    (s.w.pc.Accepting? && s.w.conns == []) || (s.w.pc.Locking? && s.lock != Free)
  }

  predicate MainWaits(s: Node) {
    (s.m.pc.Idle? && s.queue == []) || (s.m.pc.ToLock? && s.lock != Free)
  }

  function Left(s: Node): int {
    WorkerLeft(s.w) + MainLeft(s)
  }

  lemma GoesOn(s: Node, mv: Move)
    requires Going(s) && Undisturbed(mv)
    ensures Going(Apply(s, mv))
  {
    match mv
    case WorkerMove(ready, acceptFails, grant) =>
      LockWorker(s, ready, acceptFails, grant);
      WorkerFrame(s, ready, acceptFails, grant);
      hide LockInv, ReceiveChunk, MainStep;
    case MainMove(stopCalled, now, rftt) =>
      LockMain(s, stopCalled, now, rftt);
      MainFrame(s, stopCalled, now, rftt);
      NotCrashed(MainStep(s, stopCalled, now, rftt));
      hide LockInv, WorkerStep, Stamp;
  }

  lemma NotCrashed(s: Node)
    requires LockInv(s)
    ensures s.m.pc != Crashed
  {
  }

  predicate Waits(s: Node, mv: Move) {
    if mv.WorkerMove? then WorkerWaits(s) else MainWaits(s)
  }

  /** A step waits, or it is one less to take. */
  lemma StepCounts(s: Node, mv: Move)
    requires Going(s) && Undisturbed(mv)
    ensures var t := Apply(s, mv);
            Going(t) && if Waits(s, mv) then t == s else Left(t) == Left(s) - 1
  {
    GoesOn(s, mv);
    match mv
    case WorkerMove(ready, acceptFails, grant) =>
      WorkerCounts(s, ready, grant);
      hide Going, WorkerLeft, Unsent, WorkerStep, MainStep, WorkerWaits;
    case MainMove(stopCalled, now, rftt) =>
      MainCounts(s, now, rftt);
      MainFrame(s, false, now, rftt);
      hide Going, WorkerLeft, MainLeft, WorkerStep, MainStep, MainWaits;
  }

  lemma WorkerCounts(s: Node, ready: bool, grant: Pos)
    requires ready && grant >= MAX_LENGTH_PAYLOAD && !s.stop && !s.w.pc.Leaving? && !s.w.pc.Ended?
    ensures var t := WorkerStep(s, ready, false, grant);
            if WorkerWaits(s) then t == s
            else t.m == s.m && WorkerLeft(t.w) == WorkerLeft(s.w) - 1 && Unsent(t) == Unsent(s)
  {
    hide WorkerStep, WorkerLeft, Unsent;
    WorkerFrame(s, ready, false, grant);
    match s.w.pc
    case Reading => ReadingCounts(s, ready, grant);
    case Accepting => AcceptingCounts(s, ready, grant);
    case _ => QuietCounts(s, ready, grant);
  }

  lemma ReadingCounts(s: Node, ready: bool, grant: Pos)
    requires s.w.pc == Reading && grant >= MAX_LENGTH_PAYLOAD
    ensures var t := WorkerStep(s, ready, false, grant);
            WorkerLeft(t.w) == WorkerLeft(s.w) - 1 && Unsent(t) == Unsent(s)
  {
    hide Parse, ParseAll, Receive, ReceiveChunk;
    WholeRead(s.w.cur, grant);
    ParseUnfold(s.w.cur);
  }

  lemma AcceptingCounts(s: Node, ready: bool, grant: Pos)
    requires s.w.pc == Accepting
    ensures var t := WorkerStep(s, ready, false, grant);
            if s.w.conns == [] then t == s
            else WorkerLeft(t.w) == WorkerLeft(s.w) - 1 && Unsent(t) == Unsent(s)
  {
    hide Parse, ParseAll;
    if s.w.conns != [] {
      ParseAllUnfold(s.w.conns);
    }
  }

  lemma QuietCounts(s: Node, ready: bool, grant: Pos)
    requires !s.w.pc.Reading? && !s.w.pc.Accepting? && ready && !s.stop && !s.w.pc.Leaving? && !s.w.pc.Ended?
    ensures var t := WorkerStep(s, ready, false, grant);
            if WorkerWaits(s) then t == s
            else WorkerLeft(t.w) == WorkerLeft(s.w) - 1 && Unsent(t) == Unsent(s)
  {
    hide Parse, ParseAll, ReceiveChunk;
    match s.w.pc
    case RunTest =>
    case LoopTest =>
    case Polling =>
    case Locking(_) =>
    case Pushing(_) =>
    case Counting =>
    case Closing =>
  }

  lemma MainCounts(s: Node, now: real, rftt: int)
    requires Going(s)
    ensures var t := MainStep(s, false, now, rftt);
            if MainWaits(s) then t == s else MainLeft(t) == MainLeft(s) - 1
  {
    assert s.m.pc.Fronting? || s.m.pc.Popping? ==> s.queue != [];
    hide LockInv;
    if s.m.pc.Popping? {
      hide MainStep, MainLeft;
      PopCounts(s, now, rftt);
    } else {
      hide Unsent, MainStep;
      SameUnsent(s, MainStep(s, false, now, rftt));
      OtherCounts(s, now, rftt);
    }
  }

  lemma OtherCounts(s: Node, now: real, rftt: int)
    requires Going(s) && !s.m.pc.Popping? && (s.m.pc.Fronting? ==> s.queue != [])
    ensures var t := MainStep(s, false, now, rftt);
            && t.w == s.w && t.queue == s.queue
            && if MainWaits(s) then t == s else StepsToIdle(t.m.pc) == StepsToIdle(s.m.pc) - 1
  {
    hide LockInv, Stamp;
  }

  lemma PopCounts(s: Node, now: real, rftt: int)
    requires s.m.pc.Popping? && s.queue != []
    ensures MainLeft(MainStep(s, false, now, rftt)) == MainLeft(s) - 1
  {
    hide Unread, Stamp;
  }

  lemma SameUnsent(s: Node, t: Node)
    ensures t.w == s.w && t.queue == s.queue ==> Unsent(t) == Unsent(s)
  {
    hide Unread;
  }

  /** When both threads wait, nothing is left. */
  lemma BothWait(s: Node)
    requires Going(s)
    ensures Left(s) >= 0
    ensures Left(s) == 0 <==> WorkerWaits(s) && MainWaits(s)
    ensures Left(s) == 0 ==> s.w.pc == Accepting && s.w.conns == [] && s.queue == [] && s.m.pc == Idle
  {
    hide Parse;
  }

  /** Both threads take at least one step. */
  predicate Fair(round: seq<Move>) {
    && (forall i :: 0 <= i < |round| ==> Undisturbed(round[i]))
    && (exists i :: 0 <= i < |round| && round[i].WorkerMove?)
    && (exists i :: 0 <= i < |round| && round[i].MainMove?)
  }

  ghost predicate AllWait(s: Node, moves: seq<Move>) {
    forall i :: 0 <= i < |moves| ==> Waits(s, moves[i])
  }

  lemma AllWaitSnoc(s: Node, moves: seq<Move>)
    requires moves != []
    ensures var n := |moves| - 1; AllWait(s, moves) <==> AllWait(s, moves[..n]) && Waits(s, moves[n])
  {
    var n := |moves| - 1;
    assert forall i :: 0 <= i < n ==> moves[..n][i] == moves[i];
  }

  lemma {:induction false} StepsCount(s: Node, moves: seq<Move>)
    requires Going(s) && forall i :: 0 <= i < |moves| ==> Undisturbed(moves[i])
    ensures var t := Exec(s, moves);
            && Going(t)
            && (Left(t) < Left(s) || (t == s && AllWait(s, moves)))
  {
    if moves != [] {
      hide Apply, Going, Left, AllWait, Undisturbed;
      var n := |moves| - 1;
      StepsCount(s, moves[..n]);
      StepCounts(Exec(s, moves[..n]), moves[n]);
      AllWaitSnoc(s, moves);
    }
  }

  lemma RoundCounts(s: Node, round: seq<Move>)
    requires Going(s) && Fair(round)
    ensures var t := Exec(s, round); Going(t) && (0 <= Left(t) < Left(s) || Left(t) == 0)
  {
    hide Exec, Going, Left, WorkerWaits, MainWaits, Undisturbed;
    StepsCount(s, round);
    BothWait(s);
    BothWait(Exec(s, round));
  }

  function Flat(rounds: seq<seq<Move>>): seq<Move> {
    if rounds == [] then [] else Flat(rounds[..|rounds| - 1]) + rounds[|rounds| - 1]
  }

  lemma {:induction false} RoundsCount(s: Node, rounds: seq<seq<Move>>)
    requires Going(s) && forall i :: 0 <= i < |rounds| ==> Fair(rounds[i])
    ensures var t := Exec(s, Flat(rounds));
            Going(t) && (Left(t) + |rounds| <= Left(s) || Left(t) == 0)
  {
    hide Exec, Going, Left, Fair;
    if rounds == [] {
      ExecEmpty(s);
    } else {
      var n := |rounds| - 1;
      RoundsCount(s, rounds[..n]);
      ExecAppend(s, Flat(rounds[..n]), rounds[n]);
      RoundCounts(Exec(s, Flat(rounds[..n])), rounds[n]);
    }
  }

  /**
   Whatever byte streams the clients send and however the two threads are interleaved: if the schedule can be
   cut into 13 rounds for each message in the streams, 6 for each client and one more, such that both threads
   take a step in every round, then all messages have been sent, in order, and both threads wait for more.
   */
  lemma {:induction false} FairRunsSendAll(conns: seq<ByteString>, rounds: seq<seq<Move>>)
    requires forall i :: 0 <= i < |rounds| ==> Fair(rounds[i])
    requires |rounds| >= 13 * |ParseAll(conns)| + 6 * |conns| + 1
    ensures var s := Exec(Start(conns), Flat(rounds));
            && Payloads(s.m.sent) == ParseAll(conns)
            && s.w.pc == Accepting && s.w.conns == [] && s.m.pc == Idle && s.queue == []
  {
    hide Exec, ParseAll, Flat, Fair, Undisturbed, Payloads, StampInv, StopInv, ReaderInv;
    var s := Exec(Start(conns), Flat(rounds));
    assert Going(Start(conns)) && Left(Start(conns)) == 13 * |ParseAll(conns)| + 6 * |conns| + 1;
    RoundsCount(Start(conns), rounds);
    BothWait(s);
    Reachable(conns, Flat(rounds));
    FairIsWhole(rounds);
    WholeReads(conns, Flat(rounds));
    QueueFromStreams(conns, Flat(rounds));
    Nil(Payloads(s.m.sent));
  }

  lemma {:induction false} FairIsWhole(rounds: seq<seq<Move>>)
    requires forall i :: 0 <= i < |rounds| ==> Fair(rounds[i])
    ensures forall i :: 0 <= i < |Flat(rounds)| && Flat(rounds)[i].WorkerMove? ==>
              Flat(rounds)[i].grant >= MAX_LENGTH_PAYLOAD
  {
    if rounds != [] {
      var n := |rounds| - 1;
      FairIsWhole(rounds[..n]);
      assert Fair(rounds[n]);
    }
  }
}
