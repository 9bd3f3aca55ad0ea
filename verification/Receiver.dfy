/**
 The receiving side of the module: what one arriving packet does to the receiver's state, and what
 a whole stream of arrivals leaves behind. The state is that of one module from its construction
 on; `useDrop` is the answer of useDropOutOfOrder(), that is drop_out_of_order == 1.
 */
module Receiver {
  import opened Bytes

  /** Length of the table of processed sequence numbers (USHRT_MAX): sn 65535 has no entry. */
  const SN_TABLE: nat := 65535

  datatype Packet = Packet(
    data: bool,          // ptype_ is PT_DATA_APPLICATION
    sn: nat,             // 16 bits wide
    payload: ByteString,
    timestamp: real,
    uid: nat,
    rftt: int,
    rfttValid: bool)

  /** A packet handed to recv(), and the reading of the scheduler's clock at that moment. */
  datatype Arrival = Arrival(p: Packet, now: real)

  datatype Verdict = WrongType | Duplicate | OutOfSequence | Accepted

  datatype State = State(
    marked: set<nat>,    // the true entries of sn_check
    hrsn: nat, esn: nat,
    lost: nat, recv: nat, ooseq: nat, invalid: nat,
    rftt: int,
    sumrtt: real, sumrtt2: real, rttsamples: int,
    sumftt: real, sumftt2: real, fttsamples: nat,
    sumbytes: real, sumdt: real, lrtime: real)

  const INIT: State := State({}, 0, 0, 0, 0, 0, 0, 0, 0.0, 0.0, 0, 0.0, 0.0, 0, 0.0, 0.0, 0.0)

  /** Conversion of a double to an int: towards zero. */
  function Trunc(x: real): int {
    if x >= 0.0 then x.Floor else -((-x).Floor)
  }

  /** The forward trip time is kept in an int before it becomes a sample. */
  function Ftt(a: Arrival): int {
    Trunc(a.now - a.p.timestamp)
  }

  function Sq(d: real): real {
    d * d
  }

  /** The guard of the round trip time update: a bool, divided by 10000 as an int. */
  predicate RttGuard(p: Packet) {
    (if p.rfttValid then 1 else 0) / 10000 != 0
  }

  /** Which branch an arrival takes. */
  function Judge(useDrop: bool, s: State, p: Packet): Verdict {
    if !p.data then WrongType
    else if useDrop && p.sn in s.marked then Duplicate
    else if useDrop && p.sn < s.hrsn + 1 then OutOfSequence
    else Accepted
  }

  /** What a branch does to the state. */
  function Branch(useDrop: bool, s: State, a: Arrival, v: Verdict): State {
    match v
    case WrongType => s.(invalid := s.invalid + 1)
    case Duplicate => s.(esn := s.hrsn + 1, invalid := s.invalid + 1)
    case OutOfSequence => s.(esn := s.hrsn + 1, marked := s.marked + {a.p.sn}, ooseq := s.ooseq + 1)
    case Accepted =>
      var ftt := Ftt(a);
      var rtt := (ftt + a.p.rftt) as real;
      var guard := RttGuard(a.p);
      var dt := a.now - s.lrtime;
      s.(esn := s.hrsn + 1,
         marked := s.marked + {a.p.sn},
         rftt := ftt,
         sumrtt := if guard then s.sumrtt + rtt else s.sumrtt,
         sumrtt2 := if guard then s.sumrtt2 + Sq(rtt) else s.sumrtt2,
         rttsamples := if guard then s.rttsamples + 1 else s.rttsamples,
         sumftt := s.sumftt + ftt as real,
         sumftt2 := s.sumftt2 + Sq(ftt as real),
         fttsamples := s.fttsamples + 1,
         hrsn := a.p.sn,
         lost := if useDrop && a.p.sn > s.hrsn + 1 then s.lost + (a.p.sn - (s.hrsn + 1)) else s.lost,
         sumbytes := s.sumbytes + |a.p.payload| as real,
         sumdt := s.sumdt + dt,
         recv := s.recv + 1,
         lrtime := a.now)
  }

  function Step(useDrop: bool, s: State, a: Arrival): State {
    Branch(useDrop, s, a, Judge(useDrop, s, a.p))
  }

  /** The state after a whole stream of arrivals. */
  function Run(useDrop: bool, xs: seq<Arrival>): State {
    if xs == [] then INIT else Step(useDrop, Run(useDrop, xs[..|xs| - 1]), xs[|xs| - 1])
  }

  /** The verdict on the last arrival of a non-empty stream. */
  function LastVerdict(useDrop: bool, xs: seq<Arrival>): Verdict
    requires xs != []
  {
    Judge(useDrop, Run(useDrop, xs[..|xs| - 1]), xs[|xs| - 1].p)
  }

  /** The arrivals that were passed on to the client, in order. */
  function Delivered(useDrop: bool, xs: seq<Arrival>): seq<Arrival> {
    if xs == [] then []
    else
      var ds := Delivered(useDrop, xs[..|xs| - 1]);
      if LastVerdict(useDrop, xs).Accepted? then ds + [xs[|xs| - 1]] else ds
  }

  // ---------- What a stream is, without any receiver ----------

  /** The sequence numbers of the DATA packets. */
  function Sns(xs: seq<Arrival>): set<nat> {
    set i | 0 <= i < |xs| && xs[i].p.data :: xs[i].p.sn
  }

  /** The same, in order and with repetitions. */
  function DataSns(xs: seq<Arrival>): seq<nat> {
    if xs == [] then []
    else
      var ns, p := DataSns(xs[..|xs| - 1]), xs[|xs| - 1].p;
      if p.data then ns + [p.sn] else ns
  }

  /** top is the largest of the numbers, or 0 if there are none. */
  ghost predicate IsTop(top: nat, sns: set<nat>) {
    && (top in sns || top == 0)
    && forall n :: n in sns ==> n <= top
  }

  /** The arrival is DATA, and its number is above 0 and above that of every earlier DATA packet. */
  ghost predicate IsRecord(xs: seq<Arrival>, i: nat)
    requires i < |xs|
  {
    xs[i].p.data && xs[i].p.sn > 0 && forall j :: 0 <= j < i && xs[j].p.data ==> xs[j].p.sn < xs[i].p.sn
  }

  /** An earlier DATA packet carried the same number. */
  ghost predicate IsRepeat(xs: seq<Arrival>, i: nat)
    requires i < |xs|
  {
    xs[i].p.data && exists j :: 0 <= j < i && xs[j].p.data && xs[j].p.sn == xs[i].p.sn
  }

  lemma SnsSnoc(xs: seq<Arrival>)
    requires xs != []
    ensures var a := xs[|xs| - 1];
            Sns(xs) == Sns(xs[..|xs| - 1]) + (if a.p.data then {a.p.sn} else {})
  {
    var ys, a := xs[..|xs| - 1], xs[|xs| - 1];
    forall n ensures n in Sns(xs) <==> n in Sns(ys) || (a.p.data && n == a.p.sn) {
      if n in Sns(xs) {
        var i :| 0 <= i < |xs| && xs[i].p.data && xs[i].p.sn == n;
        if i < |ys| {
          assert ys[i].p.sn == n;
        }
      }
      if n in Sns(ys) {
        var i :| 0 <= i < |ys| && ys[i].p.data && ys[i].p.sn == n;
        assert xs[i].p.sn == n;
      }
    }
  }

  lemma SnsNil()
    ensures Sns([]) == {}
  {
    assert forall n :: n in Sns([]) ==> false;
  }

  lemma {:induction false} DataSnsAreSns(xs: seq<Arrival>)
    ensures forall n :: n in DataSns(xs) <==> n in Sns(xs)
  {
    hide Sns;
    if xs == [] {
      SnsNil();
    } else {
      DataSnsAreSns(xs[..|xs| - 1]);
      SnsSnoc(xs);
    }
  }

  // ---------- The table and the counters, drop mode ----------

  /** In drop mode the table holds exactly the numbers that arrived, and hrsn is the largest of them. */
  lemma {:induction false} TableIsArrivals(xs: seq<Arrival>)
    ensures var s := Run(true, xs);
            s.marked == Sns(xs) && IsTop(s.hrsn, s.marked)
  {
    hide Ftt, RttGuard, Sns;
    if xs == [] {
      SnsNil();
    } else {
      TableIsArrivals(xs[..|xs| - 1]);
      SnsSnoc(xs);
    }
  }

  /**
   Conservation over every run in drop mode: hrsn is received plus lost, the entries of the table are
   the received and the out-of-sequence packets, and each arrival is counted exactly once.
   */
  lemma {:induction false} Conservation(xs: seq<Arrival>)
    ensures var s := Run(true, xs);
            && s.hrsn == s.recv + s.lost
            && |s.marked| == s.recv + s.ooseq
            && s.recv + s.ooseq + s.invalid == |xs|
            && (s.recv == 0 <==> s.hrsn == 0)
  {
    hide Ftt, RttGuard, Sns;
    if xs != [] {
      Conservation(xs[..|xs| - 1]);
      TableIsArrivals(xs[..|xs| - 1]);
    }
  }

  /** In every other mode nothing is ever counted as lost or out of sequence. */
  lemma {:induction false} ConservationNoDrop(xs: seq<Arrival>)
    ensures var s := Run(false, xs);
            && s.marked == Sns(xs)
            && s.lost == 0 && s.ooseq == 0
            && s.recv == |DataSns(xs)|
            && s.recv + s.invalid == |xs|
            && s.hrsn == LastButOr0(DataSns(xs), 1)
            && (s.recv > 0 ==> s.esn == 1 + LastButOr0(DataSns(xs), 2))
            && (s.recv == 0 ==> s.esn == 0)
  {
    hide Ftt, RttGuard, Sns;
    if xs == [] {
      SnsNil();
    } else {
      ConservationNoDrop(xs[..|xs| - 1]);
      SnsSnoc(xs);
    }
  }

  /** The k-th number from the end (from 1), or 0 if the list is too short. */
  function LastButOr0(ns: seq<nat>, k: Pos): nat {
    if |ns| >= k then ns[|ns| - k] else 0
  }

  function Upto(n: nat): (r: set<nat>)
    ensures forall k :: k in r <==> 1 <= k <= n
    ensures |r| == n
  {
    if n == 0 then {} else Upto(n - 1) + {n}
  }

  /**
   pkts_lost is never corrected when a missing packet turns up late; pkts_ooseq makes up for it. What is
   left is the number of sequence numbers up to hrsn that never arrived (a packet numbered 0 is the
   one arrival that counts as out of sequence without having been counted as lost).
   */
  lemma {:induction false} NeverArrived(xs: seq<Arrival>)
    ensures var s := Run(true, xs);
            |Upto(s.hrsn) - Sns(xs)| == s.lost - s.ooseq + (if 0 in Sns(xs) then 1 else 0)
    ensures 0 !in Sns(xs) ==> Run(true, xs).ooseq <= Run(true, xs).lost
  {
    hide Run, Sns, Upto;
    var s := Run(true, xs);
    Conservation(xs);
    TableIsArrivals(xs);
    var m := Sns(xs) - {0};
    assert m <= Upto(s.hrsn);
    assert Upto(s.hrsn) * Sns(xs) == m;
    assert |m| == |Sns(xs)| - (if 0 in Sns(xs) then 1 else 0) by {
      if 0 in Sns(xs) {
        assert Sns(xs) == m + {0};
      } else {
        assert Sns(xs) == m;
      }
    }
  }

  /**
   Senders number their packets from 2. Then number 1 is missing for ever and counted as lost, and
   the packets that are really missing are one fewer than pkts_lost - pkts_ooseq.
   */
  lemma {:induction false} NeverArrivedFromTwo(xs: seq<Arrival>)
    requires forall i :: 0 <= i < |xs| && xs[i].p.data ==> xs[i].p.sn >= 2
    requires Run(true, xs).recv > 0
    ensures var s := Run(true, xs);
            |Upto(s.hrsn) - {1} - Sns(xs)| == s.lost - s.ooseq - 1
  {
    hide Run, Upto;
    var s := Run(true, xs);
    Conservation(xs);
    TableIsArrivals(xs);
    NeverArrived(xs);
    assert 1 !in Sns(xs) && 0 !in Sns(xs);
    var missing := Upto(s.hrsn) - Sns(xs);
    assert missing == (Upto(s.hrsn) - {1} - Sns(xs)) + {1};
  }

  /** None of the int counters that drop mode keeps of sequence numbers can overflow. */
  lemma CountersBounded(xs: seq<Arrival>)
    requires forall i :: 0 <= i < |xs| ==> xs[i].p.sn < SN_TABLE
    ensures var s := Run(true, xs);
            s.hrsn < SN_TABLE && s.recv < SN_TABLE && s.lost < SN_TABLE && s.ooseq <= SN_TABLE
  {
    hide Run;
    Conservation(xs);
    TableIsArrivals(xs);
    NeverArrived(xs);
    if Run(true, xs).hrsn > 0 {
      assert Run(true, xs).hrsn in Sns(xs);
    }
  }

  /**
   Outside drop mode hrsn is the number of the last DATA packet, and so the highest one received exactly
   if no earlier one was higher.
   */
  lemma HighestOnlyIfLast(xs: seq<Arrival>)
    ensures var ns := DataSns(xs);
            IsTop(Run(false, xs).hrsn, Sns(xs))
            <==> forall i :: 0 <= i < |ns| - 1 ==> ns[i] <= ns[|ns| - 1]
  {
    hide Run, Sns, DataSns;
    ConservationNoDrop(xs);
    DataSnsAreSns(xs);
    var ns := DataSns(xs);
    forall i | 0 <= i < |ns| ensures ns[i] in Sns(xs) {
      assert ns[i] in ns;
    }
  }

  /** Packets 3 and 2 leave hrsn at 2. */
  lemma HighestNotLast(p3: Packet, p2: Packet, now: real)
    requires p3.data && p3.sn == 3 && p2.data && p2.sn == 2
    ensures var xs := [Arrival(p3, now), Arrival(p2, now)];
            Run(false, xs).hrsn == 2 && 3 in Sns(xs) && !IsTop(Run(false, xs).hrsn, Sns(xs))
  {
    var a, b := Arrival(p3, now), Arrival(p2, now);
    var xs := [a, b];
    assert xs[..1] == [a] && [a][..0] == [];
    assert DataSns([]) == [];
    assert DataSns([a]) == [3];
    assert DataSns(xs) == [3, 2];
    ConservationNoDrop(xs);
    assert xs[0].p.sn in Sns(xs);
  }

  // ---------- What else a run leaves behind ----------

  /** A trip time loses its fraction, whatever its sign. */
  lemma TruncValue(x: real)
    ensures x >= 0.0 ==> 0.0 <= Trunc(x) as real <= x < Trunc(x) as real + 1.0
    ensures x <= 0.0 ==> Trunc(x) as real - 1.0 < x <= Trunc(x) as real <= 0.0
  {
  }

  /** The trip time kept for the packets to be sent is that of the last packet delivered. */
  lemma {:induction false} LastTripTime(useDrop: bool, xs: seq<Arrival>)
    ensures var ds := Delivered(useDrop, xs);
            Run(useDrop, xs).rftt
            == if ds == [] then 0 else Trunc(ds[|ds| - 1].now - ds[|ds| - 1].p.timestamp)
  {
    if xs != [] {
      hide Trunc, RttGuard, Sq;
      LastTripTime(useDrop, xs[..|xs| - 1]);
    }
  }

  /** In drop mode esn is one above the largest number that arrived before the last DATA packet. */
  lemma {:induction false} ExpectedNumber(xs: seq<Arrival>)
    ensures Run(true, xs).esn == 0 <==> DataSns(xs) == []
    ensures DataSns(xs) != [] ==>
              var ns, n := DataSns(xs), |DataSns(xs)| - 1;
              && (forall i :: 0 <= i < n ==> ns[i] < Run(true, xs).esn)
              && (Run(true, xs).esn == 1 || Run(true, xs).esn - 1 in ns[..n])
  {
    if xs != [] {
      hide Ftt, RttGuard, Sq, IsTop, Sns;
      var ys := xs[..|xs| - 1];
      ExpectedNumber(ys);
      if xs[|xs| - 1].p.data {
        TableIsArrivals(ys);
        DataSnsAreSns(ys);
        TopOfDataSns(ys, Run(true, ys).hrsn);
        assert DataSns(xs)[..|DataSns(ys)|] == DataSns(ys);
      }
    }
  }

  lemma TopOfDataSns(xs: seq<Arrival>, top: nat)
    requires IsTop(top, Sns(xs)) && forall n :: n in DataSns(xs) <==> n in Sns(xs)
    ensures top == 0 || top in DataSns(xs)
    ensures forall i :: 0 <= i < |DataSns(xs)| ==> DataSns(xs)[i] <= top
  {
    hide Sns, DataSns;
    forall i | 0 <= i < |DataSns(xs)| ensures DataSns(xs)[i] <= top {
      assert DataSns(xs)[i] in DataSns(xs);
    }
  }

  // ---------- Refinement: the verdict as a property of the stream ----------

  /**
   Drop mode decides from its table and its counter what can be read off the stream alone: the
   accepted packets are exactly the strict running maxima, the duplicates exactly the repeats.
   */
  lemma VerdictIsHistory(xs: seq<Arrival>, i: nat)
    requires i < |xs|
    ensures var v := LastVerdict(true, xs[..i + 1]);
            && (v == WrongType <==> !xs[i].p.data)
            && (v == Duplicate <==> IsRepeat(xs, i))
            && (v == Accepted <==> IsRecord(xs, i))
  {
    var ys := xs[..i];
    assert xs[..i + 1][..i] == ys && xs[..i + 1][i] == xs[i];
    TableIsArrivals(ys);
    var s := Run(true, ys);
    if xs[i].p.data {
      if xs[i].p.sn in s.marked {
        var j :| 0 <= j < |ys| && ys[j].p.data && ys[j].p.sn == xs[i].p.sn;
        assert xs[j].p.sn == xs[i].p.sn;
      }
      if IsRepeat(xs, i) {
        var j :| 0 <= j < i && xs[j].p.data && xs[j].p.sn == xs[i].p.sn;
        assert ys[j].p.data;
      }
      if xs[i].p.sn > s.hrsn {
        forall j | 0 <= j < i && xs[j].p.data ensures xs[j].p.sn < xs[i].p.sn {
          assert ys[j].p.sn in s.marked;
        }
      }
      if IsRecord(xs, i) && s.hrsn != 0 {
        var j :| 0 <= j < |ys| && ys[j].p.data && ys[j].p.sn == s.hrsn;
        assert xs[j].p.sn < xs[i].p.sn;
      }
    }
  }

  /** In the other modes every DATA packet is passed on, in the order of arrival and with repetitions. */
  lemma {:induction false} NoDropDeliversAll(xs: seq<Arrival>)
    ensures |Delivered(false, xs)| == |DataSns(xs)|
    ensures forall i :: 0 <= i < |DataSns(xs)| ==>
              Delivered(false, xs)[i].p.sn == DataSns(xs)[i] && Delivered(false, xs)[i] in xs
  {
    if xs != [] {
      NoDropDeliversAll(xs[..|xs| - 1]);
      var ys := xs[..|xs| - 1];
      forall i | 0 <= i < |DataSns(ys)| ensures Delivered(false, ys)[i] in xs {
        assert Delivered(false, ys)[i] in ys;
      }
    }
  }

  // ---------- The table decides nothing about delivery ----------

  function JudgeWithoutTable(s: State, p: Packet): Verdict {
    if !p.data then WrongType else if p.sn < s.hrsn + 1 then OutOfSequence else Accepted
  }

  /** Drop mode with the look-up in sn_check taken out. */
  function RunWithoutTable(xs: seq<Arrival>): State {
    if xs == [] then INIT
    else
      var s, a := RunWithoutTable(xs[..|xs| - 1]), xs[|xs| - 1];
      Branch(true, s, a, JudgeWithoutTable(s, a.p))
  }

  function Repeats(xs: seq<Arrival>): nat {
    if xs == [] then 0
    else Repeats(xs[..|xs| - 1]) + (if LastVerdict(true, xs) == Duplicate then 1 else 0)
  }

  /**
   Every marked number is at most hrsn, so the look-up only moves packets from one drop counter to the
   other: without it the whole state is the same but for the repeats, which count as out of sequence.
   */
  lemma {:induction false} TableOnlySplitsDrops(xs: seq<Arrival>)
    ensures var s, n := Run(true, xs), Repeats(xs);
            n <= s.invalid && RunWithoutTable(xs) == s.(ooseq := s.ooseq + n, invalid := s.invalid - n)
    ensures xs != [] ==>
              (JudgeWithoutTable(RunWithoutTable(xs[..|xs| - 1]), xs[|xs| - 1].p) == Accepted
               <==> LastVerdict(true, xs) == Accepted)
  {
    hide Branch, Sns;
    if xs != [] {
      var ys, a := xs[..|xs| - 1], xs[|xs| - 1];
      TableOnlySplitsDrops(ys);
      TableIsArrivals(ys);
      var s, n := Run(true, ys), Repeats(ys);
      var t := s.(ooseq := s.ooseq + n, invalid := s.invalid - n);
      if LastVerdict(true, xs) == Duplicate {
        assert s.marked + {a.p.sn} == s.marked;
        assert a.p.sn <= s.hrsn;
        RepeatBranches(s, t, a);
      } else {
        BranchFrame(s, t, a, LastVerdict(true, xs));
      }
    }
  }

  /** A branch only counts up ooseq and invalid, it does not look at them. */
  lemma BranchFrame(s: State, t: State, a: Arrival, v: Verdict)
    requires t == s.(ooseq := t.ooseq, invalid := t.invalid)
    ensures var s', t' := Branch(true, s, a, v), Branch(true, t, a, v);
            t' == s'.(ooseq := t'.ooseq, invalid := t'.invalid)
            && t'.ooseq - t.ooseq == s'.ooseq - s.ooseq && t'.invalid - t.invalid == s'.invalid - s.invalid
  {
  }

  lemma RepeatBranches(s: State, t: State, a: Arrival)
    requires t == s.(ooseq := t.ooseq, invalid := t.invalid)
    requires a.p.sn in s.marked
    ensures var s', t' := Branch(true, s, a, Duplicate), Branch(true, t, a, OutOfSequence);
            t' == s'.(ooseq := t.ooseq + 1, invalid := t.invalid) && s'.ooseq == s.ooseq && s'.invalid == s.invalid + 1
  {
    assert s.marked + {a.p.sn} == s.marked;
  }
}
