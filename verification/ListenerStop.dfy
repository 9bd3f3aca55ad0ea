/**
 How the worker is stopped: what stop() finds when it looks, what becomes of the thread object, and how long
 stop() waits.
 */
module ListenerStop {
  import opened Bytes
  import opened Framing
  import opened Receiver
  import opened Listener

  // ---------- Joined or not ----------

  /** stop() has tested Running(). */
  predicate PastTest(pc: MainPc) {
    pc.Storing? || pc.Joining? || pc.Deleting? || pc.Gone? || pc.Terminated?
  }

  /** The n-th move is the test of Running() in stop(). */
  ghost predicate TestAt(conns: seq<ByteString>, moves: seq<Move>, n: nat) {
    n < |moves| && moves[n].MainMove? && Exec(Start(conns), moves[..n]).m.pc == Checking
  }

  /** The n-th move is an accept() that fails. */
  ghost predicate AcceptFailsAt(conns: seq<ByteString>, moves: seq<Move>, n: nat) {
    n < |moves| && moves[n].WorkerMove? && moves[n].acceptFails && Exec(Start(conns), moves[..n]).w.pc == Accepting
  }

  ghost predicate AcceptFailed(conns: seq<ByteString>, moves: seq<Move>) {
    exists n: nat :: AcceptFailsAt(conns, moves, n)
  }

  /** While nobody has asked it to stop, the worker leaves its loops for one reason alone. */
  lemma {:induction false} LeavesByAccept(conns: seq<ByteString>, moves: seq<Move>)
    requires !Exec(Start(conns), moves).stop
    ensures var pc := Exec(Start(conns), moves).w.pc;
            pc.Leaving? || pc.Ended? <==> AcceptFailed(conns, moves)
  {
    if moves != [] {
      hide Apply, AcceptFailed;
      var k := |moves| - 1;
      LeavesStep(Exec(Start(conns), moves[..k]), moves[k]);
      LeavesByAccept(conns, moves[..k]);
      AcceptFailedSnoc(conns, moves);
    } else {
      hide Exec;
      assert Exec(Start(conns), []) == Start(conns) by {
        ExecEmpty(Start(conns));
      }
    }
  }

  lemma AcceptFailedSnoc(conns: seq<ByteString>, moves: seq<Move>)
    requires moves != []
    ensures var k := |moves| - 1;
            AcceptFailed(conns, moves) <==> AcceptFailed(conns, moves[..k]) || AcceptFailsAt(conns, moves, k)
  {
    hide Exec;
    var k := |moves| - 1;
    var ys := moves[..k];
    forall n: nat | n < k ensures AcceptFailsAt(conns, ys, n) <==> AcceptFailsAt(conns, moves, n) {
      assert moves[..n] == ys[..n];
    }
    if AcceptFailed(conns, ys) {
      var n: nat :| AcceptFailsAt(conns, ys, n);
      assert AcceptFailsAt(conns, moves, n);
    }
  }

  lemma LeavesStep(s: Node, mv: Move)
    requires !Apply(s, mv).stop
    ensures !s.stop
    ensures var pc := Apply(s, mv).w.pc;
            pc.Leaving? || pc.Ended?
            <==> s.w.pc.Leaving? || s.w.pc.Ended? || (mv.WorkerMove? && mv.acceptFails && s.w.pc == Accepting)
  {
    hide Receive, ReceiveChunk, Stamp;
  }

  /** Everything after the test of Running() follows from its outcome. */
  ghost predicate Decided(s: Node, running: bool) {
    if running
    then s.m.pc.Storing? || s.m.pc.Joining? || ((s.m.pc.Deleting? || s.m.pc.Gone?) && s.m.joined)
    else (s.m.pc.Deleting? || s.m.pc.Terminated?) && !s.m.joined
  }

  lemma DecidedStep(s: Node, mv: Move, running: bool)
    requires if s.m.pc == Checking then mv.MainMove? && running == s.w.running && !s.m.joined else Decided(s, running)
    ensures Decided(Apply(s, mv), running)
  {
    hide Receive, ReceiveChunk, Stamp;
  }

  lemma {:induction false} TestDecides(conns: seq<ByteString>, moves: seq<Move>, n: nat)
    requires TestAt(conns, moves, n)
    ensures Decided(Exec(Start(conns), moves), Exec(Start(conns), moves[..n]).w.running)
  {
    hide Apply, Decided;
    var k := |moves| - 1;
    Reachable(conns, moves[..n]);
    if n < k {
      assert moves[..k][..n] == moves[..n];
      TestDecides(conns, moves[..k], n);
      DecidedNotChecking(Exec(Start(conns), moves[..k]), Exec(Start(conns), moves[..n]).w.running);
    }
    DecidedStep(Exec(Start(conns), moves[..k]), moves[k], Exec(Start(conns), moves[..n]).w.running);
  }

  lemma DecidedNotChecking(s: Node, running: bool)
    requires Decided(s, running)
    ensures s.m.pc != Checking
  {
  }

  /** A run that has deleted the listener contains that test. */
  lemma {:induction false} DeletedAfterTest(conns: seq<ByteString>, moves: seq<Move>) returns (n: nat)
    requires PastTest(Exec(Start(conns), moves).m.pc)
    ensures TestAt(conns, moves, n)
  {
    hide Apply;
    var k := |moves| - 1;
    TestStep(Exec(Start(conns), moves[..k]), moves[k]);
    if PastTest(Exec(Start(conns), moves[..k]).m.pc) {
      n := DeletedAfterTest(conns, moves[..k]);
      assert moves[..k][..n] == moves[..n];
    } else {
      n := k;
    }
  }

  lemma TestStep(s: Node, mv: Move)
    requires PastTest(Apply(s, mv).m.pc)
    ensures PastTest(s.m.pc) || (s.m.pc == Checking && mv.MainMove?)
  {
    hide Receive, ReceiveChunk, Stamp;
  }

  /**
   stop() gets to the end of its delete only after the worker has ended. The listener is gone if and only if
   Running() was true at the test. Otherwise its thread has not been joined, and destroying it terminates the
   simulator: this happens if and only if, before the test, an accept() had failed and the worker had already
   finished because of it.
   */
  lemma {:induction false} DeletedAfterEnd(conns: seq<ByteString>, moves: seq<Move>, n: nat)
    requires var pc := Exec(Start(conns), moves).m.pc; pc == Gone || pc == Terminated
    requires TestAt(conns, moves, n)
    ensures var s, atTest := Exec(Start(conns), moves), Exec(Start(conns), moves[..n]);
            && s.w.pc == Ended
            && (s.m.pc == Gone <==> atTest.w.running)
            && (s.m.pc == Terminated <==> AcceptFailed(conns, moves[..n]) && atTest.w.pc != Leaving)
  {
    hide Exec, LockInv, CountInv, StampInv, StreamInv, ReaderInv;
    Reachable(conns, moves);
    Reachable(conns, moves[..n]);
    TestDecides(conns, moves, n);
    LeavesByAccept(conns, moves[..n]);
  }

  /** Such a run: accept() fails, the worker ends, stop() is called. */
  lemma StopTerminates(now: real)
    ensures var w, m := WorkerMove(true, false, 1), MainMove(true, now, 0);
            Exec(Start([]), [w, WorkerMove(true, true, 1), w, m, m, m]).m.pc == Terminated
  {
    hide Exec, Receive, ReceiveChunk;
    var w, f, m := WorkerMove(true, false, 1), WorkerMove(true, true, 1), MainMove(true, now, 0);
    var s0 := Start([]);
    ExecSix(s0, w, f, w, m, m, m);
    var s1 := Apply(s0, w);
    var s2 := Apply(s1, f);
    var s3 := Apply(s2, w);
    var s4 := Apply(s3, m);
    assert s3.w.pc == Ended && !s3.w.running && !s3.m.joined;
    var s5 := Apply(s4, m);
    assert s4.m.pc == Checking && s4.w == s3.w && !s4.m.joined;
    assert s5.m.pc == Deleting && !s5.m.joined;
  }

  lemma ExecSix(s: Node, a: Move, b: Move, c: Move, d: Move, e: Move, f: Move)
    ensures Exec(s, [a, b, c, d, e, f]) == Apply(Apply(Apply(Apply(Apply(Apply(s, a), b), c), d), e), f)
  {
    hide Exec, Apply;
    ExecThree(s, a, b, c);
    ExecThree(Exec(s, [a, b, c]), d, e, f);
    ExecAppend(s, [a, b, c], [d, e, f]);
    assert [a, b, c] + [d, e, f] == [a, b, c, d, e, f];
  }

  lemma ExecThree(s: Node, a: Move, b: Move, c: Move)
    ensures Exec(s, [a, b, c]) == Apply(Apply(Apply(s, a), b), c)
  {
    hide Exec, Apply;
    assert [a, b, c] == [a] + [b] + [c];
    ExecAppend(s, [a] + [b], [c]);
    ExecAppend(s, [a], [b]);
    ExecOne(s, a);
    ExecOne(Apply(s, a), b);
    ExecOne(Apply(Apply(s, a), b), c);
  }

  // ---------- How long stop() waits ----------

  /** The number of steps the worker still takes once m_stop is set. */
  function Distance(pc: WorkerPc): nat {
    match pc
    case Polling => 9
    case Reading => 8
    case Locking(_) => 7
    case Pushing(_) => 6
    case Accepting => 5
    case Counting => 5
    case LoopTest => 4
    case Closing => 3
    case RunTest => 2
    case Leaving => 1
    case Ended => 0
  }

  /** The worker waits for a client that does not come. */
  predicate Blocked(s: Node, mv: Move) {
    mv.WorkerMove? && s.w.pc.Accepting? && s.w.conns == [] && !mv.acceptFails
  }

  lemma StopProgress(s: Node, mv: Move)
    requires LockInv(s) && s.m.pc == Joining && s.stop && mv.WorkerMove?
    ensures var t := Apply(s, mv);
            && t.m.pc == Joining && t.stop && LockInv(t)
            && (if Blocked(s, mv) then t == s
                else Distance(t.w.pc) < Distance(s.w.pc) || s.w.pc == t.w.pc == Ended)
            && (t.w.pc.Accepting? ==> s == t)
  {
    LockWorker(s, mv.ready, mv.acceptFails, mv.grant);
    WorkerProgress(s, mv.ready, mv.acceptFails, mv.grant);
  }

  lemma WorkerProgress(s: Node, ready: bool, acceptFails: bool, grant: Pos)
    requires LockInv(s) && s.m.pc == Joining && s.stop
    ensures var t := WorkerStep(s, ready, acceptFails, grant);
            && t.m.pc == Joining && t.stop
            && (if s.w.pc.Accepting? && s.w.conns == [] && !acceptFails then t == s
                else !t.w.pc.Accepting? && (Distance(t.w.pc) < Distance(s.w.pc) || s.w.pc == t.w.pc == Ended))
  {
    hide Receive, ReceiveChunk;
    match s.w.pc
    case RunTest =>
    case Accepting =>
    case LoopTest =>
    case Polling =>
    case Reading =>
    case Locking(_) =>
    case Pushing(_) =>
    case Counting =>
    case Closing =>
    case Leaving =>
    case Ended =>
  }

  /** The worker's part of a schedule. */
  function OfWorker(moves: seq<Move>): (ws: seq<Move>)
    ensures forall i :: 0 <= i < |ws| ==> ws[i].WorkerMove?
  {
    if moves == [] then []
    else
      var ws, mv := OfWorker(moves[..|moves| - 1]), moves[|moves| - 1];
      if mv.WorkerMove? then ws + [mv] else ws
  }

  /** Everything a step of the worker depends on. */
  predicate SameForWorker(s: Node, t: Node) {
    s.w == t.w && s.queue == t.queue && s.lock == t.lock && s.stop == t.stop
  }

  /** The join has not returned yet, or it has. */
  predicate Ending(s: Node) {
    s.stop && if s.m.joined then s.m.pc == Deleting || s.m.pc == Gone else s.m.pc == Joining
  }

  lemma WorkerAlone(s: Node, t: Node, ready: bool, acceptFails: bool, grant: Pos)
    requires SameForWorker(s, t)
    ensures SameForWorker(WorkerStep(s, ready, acceptFails, grant), WorkerStep(t, ready, acceptFails, grant))
  {
    hide Receive, ReceiveChunk;
    match s.w.pc
    case RunTest =>
    case Accepting =>
    case LoopTest =>
    case Polling =>
    case Reading =>
    case Locking(_) =>
    case Pushing(_) =>
    case Counting =>
    case Closing =>
    case Leaving =>
    case Ended =>
  }

  lemma EndingMain(s: Node, t: Node, mv: Move)
    requires SameForWorker(s, t) && Ending(t) && (t.m.joined ==> t.w.pc == Ended) && mv.MainMove?
    ensures var u := Apply(t, mv);
            SameForWorker(s, u) && Ending(u) && (u.m.joined <==> t.w.pc == Ended) && u.w == t.w
  {
    hide WorkerStep;
  }

  lemma EndingWorker(s: Node, t: Node, mv: Move)
    requires SameForWorker(s, t) && Ending(t) && (t.m.joined ==> t.w.pc == Ended) && mv.WorkerMove?
    ensures var u := Apply(t, mv);
            SameForWorker(Apply(s, mv), u) && Ending(u) && u.m == t.m && (u.m.joined ==> u.w.pc == Ended)
  {
    WorkerAlone(s, t, mv.ready, mv.acceptFails, mv.grant);
    WorkerFrame(t, mv.ready, mv.acceptFails, mv.grant);
    if t.w.pc == Ended {
    } else {
      hide WorkerStep;
    }
  }

  /** The simulation thread, which is in stop(), leaves the worker to itself. */
  lemma {:induction false} OnlyWorkerMatters(s: Node, moves: seq<Move>)
    requires Ending(s) && !s.m.joined
    ensures var t := Exec(s, moves);
            Ending(t) && SameForWorker(Exec(s, OfWorker(moves)), t) && (t.m.joined ==> t.w.pc == Ended)
  {
    hide Apply, Ending, SameForWorker;
    if moves == [] {
      Itself(s);
    } else {
      var n, ws := |moves| - 1, OfWorker(moves[..|moves| - 1]);
      var t, mv := Exec(s, moves[..n]), moves[n];
      OnlyWorkerMatters(s, moves[..n]);
      if mv.WorkerMove? {
        EndingWorker(Exec(s, ws), t, mv);
        assert (ws + [mv])[..|ws|] == ws;
      } else {
        EndingMain(Exec(s, ws), t, mv);
      }
    }
  }

  lemma Itself(s: Node)
    ensures SameForWorker(s, s)
  {
  }

  /** Nine steps of the worker end it, whatever its sockets do, unless it sits in accept() and no client connects. */
  lemma {:induction false} WorkerEnds(s: Node, ws: seq<Move>)
    requires LockInv(s) && s.m.pc == Joining && s.stop
    requires |ws| >= 9 && forall i :: 0 <= i < |ws| ==> ws[i].WorkerMove?
    ensures Exec(s, ws).w.pc == Ended <==>
            !(s.w.pc.Accepting? && s.w.conns == [] && forall i :: 0 <= i < |ws| - 1 ==> !ws[i].acceptFails)
  {
    hide Exec, Apply, LockInv;
    if s.w.pc.Accepting? && s.w.conns == [] {
      WaitingWorker(s, ws, |ws|);
      assert ws[..|ws|] == ws;
    } else if s.w.pc.Accepting? {
      StopProgress(s, ws[0]);
      assert [ws[0]] + ws[1..] == ws;
      ExecAppend(s, [ws[0]], ws[1..]);
      ExecOne(s, ws[0]);
      BusyWorker(Apply(s, ws[0]), ws[1..]);
    } else {
      BusyWorker(s, ws);
    }
  }

  /**
   The wait in stop() is bounded by nine steps of the worker, however they are interleaved with the simulation
   thread's and whatever the sockets do: then the next step of the simulation thread returns from the join --
   unless the worker sits in accept() and no client connects: then the join returns if and only if accept()
   fails before the worker's last step.
   */
  lemma {:induction false} StopCompletes(conns: seq<ByteString>, before: seq<Move>, after: seq<Move>, next: Move)
    requires Exec(Start(conns), before).m.pc == Joining
    requires |OfWorker(after)| >= 9 && next.MainMove?
    ensures var s, ws := Exec(Start(conns), before), OfWorker(after);
            Exec(Start(conns), before + after + [next]).m.joined <==>
            !(s.w.pc.Accepting? && s.w.conns == [] && forall i :: 0 <= i < |ws| - 1 ==> !ws[i].acceptFails)
  {
    hide Exec, Apply, LockInv, CountInv, StampInv, StreamInv, ReaderInv;
    var s := Exec(Start(conns), before);
    Reachable(conns, before);
    ExecAppend(Start(conns), before, after);
    ExecAppend(Start(conns), before + after, [next]);
    var t := Exec(s, after);
    ExecOne(t, next);
    OnlyWorkerMatters(s, after);
    EndingMain(Exec(s, OfWorker(after)), t, next);
    WorkerEnds(s, OfWorker(after));
  }

  lemma {:induction false} BusyWorker(s: Node, after: seq<Move>)
    requires LockInv(s) && s.m.pc == Joining && s.stop && !s.w.pc.Accepting?
    requires forall i :: 0 <= i < |after| ==> after[i].WorkerMove?
    ensures var t := Exec(s, after);
            && t.m.pc == Joining && t.stop && LockInv(t) && !t.w.pc.Accepting?
            && Distance(t.w.pc) + |after| <= (if Distance(s.w.pc) >= |after| then Distance(s.w.pc) else |after|)
  {
    hide Apply, LockInv;
    if after != [] {
      var n := |after| - 1;
      BusyWorker(s, after[..n]);
      StopProgress(Exec(s, after[..n]), after[n]);
    }
  }

  predicate NoneFails(moves: seq<Move>, n: nat)
    requires n <= |moves| && forall i :: 0 <= i < |moves| ==> moves[i].WorkerMove?
  {
    forall i :: 0 <= i < n ==> !moves[i].acceptFails
  }

  /** The worker waits in accept() until it fails, and ends one step later. */
  lemma {:induction false} WaitingWorker(s: Node, after: seq<Move>, n: nat)
    requires LockInv(s) && s.m.pc == Joining && s.stop && s.w.pc.Accepting? && s.w.conns == []
    requires n <= |after| && forall i :: 0 <= i < |after| ==> after[i].WorkerMove?
    ensures var t := Exec(s, after[..n]);
            && t.m.pc == Joining && t.stop
            && (if NoneFails(after, n) then t == s
                else if NoneFails(after, n - 1) then t.w.pc.Leaving? else t.w.pc.Ended?)
  {
    if n == 0 {
      hide Exec;
      ExecEmpty(s);
      assert after[..0] == [];
    } else {
      var r := Exec(s, after[..n - 1]);
      WaitingWorker(s, after, n - 1);
      WaitingStep(r, after[n - 1].ready, after[n - 1].acceptFails, after[n - 1].grant);
      NoneFailsStep(after, n);
      assert after[..n][..n - 1] == after[..n - 1];
      assert Exec(s, after[..n]) == Apply(r, after[n - 1]);
      hide Exec, WorkerStep, LockInv, NoneFails;
    }
  }

  lemma NoneFailsStep(moves: seq<Move>, n: nat)
    requires 1 <= n <= |moves| && forall i :: 0 <= i < |moves| ==> moves[i].WorkerMove?
    ensures NoneFails(moves, n) <==> NoneFails(moves, n - 1) && !moves[n - 1].acceptFails
  {
  }

  lemma WaitingStep(s: Node, ready: bool, acceptFails: bool, grant: Pos)
    requires s.m.pc == Joining && s.stop
    requires s.w.pc.Leaving? || s.w.pc.Ended? || (s.w.pc.Accepting? && s.w.conns == [])
    ensures var t := WorkerStep(s, ready, acceptFails, grant);
            && t.m.pc == Joining && t.stop
            && (s.w.pc.Accepting? ==> if acceptFails then t.w.pc.Leaving? else t == s)
            && (!s.w.pc.Accepting? ==> t.w.pc.Ended?)
  {
  }
}
