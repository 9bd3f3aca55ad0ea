/**
 What does and what does not depend on the order of arrival: delivery in drop mode, the counters,
 and the packet error rate.
 */
module ReceiverOrder {
  import opened Bytes
  import opened Receiver

  // ---------- Delivery in drop mode ----------

  /** The sequence numbers passed on to the client grow strictly, from 1 up to hrsn. */
  lemma {:induction false} DeliveredIncreasing(xs: seq<Arrival>)
    ensures var s, ds := Run(true, xs), Delivered(true, xs);
            && |ds| == s.recv
            && (forall i, j :: 0 <= i < j < |ds| ==> ds[i].p.sn < ds[j].p.sn)
            && (forall i :: 0 <= i < |ds| ==> 1 <= ds[i].p.sn <= s.hrsn)
            && (ds != [] ==> ds[|ds| - 1].p.sn == s.hrsn)
  {
    hide Ftt, RttGuard;
    if xs != [] {
      DeliveredIncreasing(xs[..|xs| - 1]);
    }
  }

  /** The positions of the running maxima. */
  ghost function Records(xs: seq<Arrival>): seq<nat> {
    if xs == [] then []
    else
      var rs := Records(xs[..|xs| - 1]);
      if IsRecord(xs, |xs| - 1) then rs + [|xs| - 1] else rs
  }

  lemma {:induction false} RecordsAreAll(xs: seq<Arrival>)
    ensures StrictlyIncreasing(Records(xs))
    ensures forall i: nat :: i in Records(xs) <==> i < |xs| && IsRecord(xs, i)
  {
    if xs != [] {
      hide IsRecord;
      var ys := xs[..|xs| - 1];
      RecordsAreAll(ys);
      forall i: nat | i < |ys| ensures IsRecord(xs, i) <==> IsRecord(ys, i) {
        RecordOfPrefix(xs, i);
      }
      forall j | 0 <= j < |Records(ys)| ensures Records(ys)[j] < |ys| {
        assert Records(ys)[j] in Records(ys);
      }
    }
  }

  /** Whether a packet is a record does not depend on what comes later. */
  lemma RecordOfPrefix(xs: seq<Arrival>, i: nat)
    requires i < |xs| - 1
    ensures IsRecord(xs, i) <==> IsRecord(xs[..|xs| - 1], i)
  {
    var ys := xs[..|xs| - 1];
    assert forall j :: 0 <= j < |ys| ==> ys[j] == xs[j];
    if IsRecord(ys, i) {
      forall j | 0 <= j < i && xs[j].p.data ensures xs[j].p.sn < xs[i].p.sn {
        assert ys[j].p.data;
      }
    }
  }

  /**
   Refinement over whole runs: what drop mode passes on is exactly the subsequence of the running maxima
   of the stream -- none left out, none added, none twice, order kept.
   */
  lemma {:induction false} DeliveredAreTheRecords(xs: seq<Arrival>)
    ensures Embeds(Records(xs), Delivered(true, xs), xs)
  {
    if xs != [] {
      var ys := xs[..|xs| - 1];
      DeliveredAreTheRecords(ys);
      RecordsAreAll(xs);
      assert xs[..|xs| - 1 + 1] == xs;
      VerdictIsHistory(xs, |xs| - 1);
      forall j | 0 <= j < |Records(ys)| ensures Delivered(true, ys)[j] == xs[Records(ys)[j]] {
        assert Records(ys)[j] < |ys|;
        assert ys[Records(ys)[j]] == xs[Records(ys)[j]];
      }
    }
  }

  // ---------- Permutations ----------

  function Packets(xs: seq<Arrival>): seq<Packet> {
    seq(|xs|, i requires 0 <= i < |xs| => xs[i].p)
  }

  /** The same packets, in some other order and at other times. */
  ghost predicate SamePackets(xs: seq<Arrival>, ys: seq<Arrival>) {
    multiset(Packets(xs)) == multiset(Packets(ys))
  }

  lemma SnsWithin(xs: seq<Arrival>, ys: seq<Arrival>)
    requires SamePackets(xs, ys)
    ensures Sns(xs) <= Sns(ys)
  {
    forall n | n in Sns(xs) ensures n in Sns(ys) {
      var i :| 0 <= i < |xs| && xs[i].p.data && xs[i].p.sn == n;
      assert Packets(xs)[i] in multiset(Packets(xs));
      var j :| 0 <= j < |Packets(ys)| && Packets(ys)[j] == Packets(xs)[i];
      assert ys[j].p.data && ys[j].p.sn == n;
    }
  }

  /** Drop mode: all of this is the same for every order in which the same packets arrive. */
  lemma OrderIndependence(xs: seq<Arrival>, ys: seq<Arrival>)
    requires SamePackets(xs, ys)
    ensures var s, t := Run(true, xs), Run(true, ys);
            && s.marked == t.marked
            && s.hrsn == t.hrsn
            && s.recv + s.lost == t.recv + t.lost
            && s.recv + s.ooseq == t.recv + t.ooseq
            && s.invalid == t.invalid
            && s.lost - s.ooseq == t.lost - t.ooseq
  {
    hide Run, Sns;
    SnsWithin(xs, ys);
    SnsWithin(ys, xs);
    TableIsArrivals(xs);
    TableIsArrivals(ys);
    Conservation(xs);
    Conservation(ys);
    assert |multiset(Packets(xs))| == |xs| && |multiset(Packets(ys))| == |ys|;
  }

  // ---------- The packet error rate ----------

  /** GetPER() under a setting of drop_out_of_order; any non-zero setting takes the first branch. */
  function Per(mode: int, s: State): real {
    if mode != 0 then
      if s.recv + s.lost > 0 then s.lost as real / (s.recv + s.lost) as real else 0.0
    else if s.esn > 1 then 1.0 - s.recv as real / (s.esn - 1) as real
    else 0.0
  }

  /** useDropOutOfOrder() is true under the setting 1 alone. */
  predicate UseDrop(mode: int) {
    mode == 1
  }

  lemma Quotient(a: nat, b: nat)
    requires b > 0
    ensures 0.0 <= a as real / b as real
    ensures a < b <==> a as real / b as real < 1.0
    ensures a == b <==> a as real / b as real == 1.0
  {
    var q := a as real / b as real;
    assert q * b as real == a as real;
  }

  lemma QuotientOrder(a: nat, c: nat, b: nat)
    requires b > 0
    ensures a <= c <==> a as real / b as real <= c as real / b as real
  {
    var q, r := a as real / b as real, c as real / b as real;
    assert q * b as real == a as real && r * b as real == c as real;
    assert (r - q) * b as real == (c - a) as real;
  }

  /**
   Drop mode: the rate is a proper rate, and it is the share of 1..hrsn that is either missing from the
   set of arrived numbers or arrived too late. Only the second part depends on the order.
   */
  lemma {:induction false} PerDropMode(xs: seq<Arrival>)
    ensures var s := Run(true, xs);
            && 0.0 <= Per(1, s) < 1.0
            && (s.hrsn == 0 ==> Per(1, s) == 0.0)
            && (s.hrsn > 0 ==> 0 <= s.hrsn - |Sns(xs)| + s.ooseq
                               && Per(1, s) == (s.hrsn - |Sns(xs)| + s.ooseq) as real / s.hrsn as real)
  {
    hide Run, Sns;
    Conservation(xs);
    TableIsArrivals(xs);
    var s := Run(true, xs);
    if s.hrsn > 0 {
      Quotient(s.lost, s.hrsn);
    }
  }

  /** The packet numbered 0 is out of sequence in every order. */
  lemma {:induction false} ZeroIsLate(xs: seq<Arrival>)
    ensures 0 in Run(true, xs).marked ==> Run(true, xs).ooseq > 0
  {
    if xs != [] {
      ZeroIsLate(xs[..|xs| - 1]);
    }
  }

  ghost predicate SortedBySn(ps: seq<Packet>) {
    forall i, j :: 0 <= i < j < |ps| ==> ps[i].sn <= ps[j].sn
  }

  lemma {:induction false} InsertBySn(ps: seq<Packet>, p: Packet) returns (qs: seq<Packet>)
    requires SortedBySn(ps)
    ensures SortedBySn(qs) && multiset(qs) == multiset(ps) + multiset{p}
  {
    if ps == [] {
      qs := [p];
    } else {
      hide SortedBySn;
      var n := |ps| - 1;
      assert ps == ps[..n] + [ps[n]];
      SortedSnoc(ps[..n], ps[n]);
      if ps[n].sn <= p.sn {
        qs := ps + [p];
        SortedSnoc(ps, p);
      } else {
        var rs := InsertBySn(ps[..n], p);
        qs := rs + [ps[n]];
        InsertedBelow(ps[..n], p, rs, ps[n].sn);
        SortedSnoc(rs, ps[n]);
      }
    }
  }

  lemma SortedSnoc(ps: seq<Packet>, p: Packet)
    ensures SortedBySn(ps + [p]) <==> SortedBySn(ps) && forall i :: 0 <= i < |ps| ==> ps[i].sn <= p.sn
  {
    var qs := ps + [p];
    assert forall i :: 0 <= i < |ps| ==> qs[i] == ps[i];
    if SortedBySn(qs) {
      assert qs[|ps|] == p;
    }
  }

  lemma InsertedBelow(ps: seq<Packet>, p: Packet, rs: seq<Packet>, top: nat)
    requires multiset(rs) == multiset(ps) + multiset{p}
    requires p.sn <= top && forall i :: 0 <= i < |ps| ==> ps[i].sn <= top
    ensures forall i :: 0 <= i < |rs| ==> rs[i].sn <= top
  {
    forall i | 0 <= i < |rs| ensures rs[i].sn <= top {
      assert rs[i] in multiset(rs);
      assert rs[i] in multiset(ps) || rs[i] == p;
    }
  }

  lemma {:induction false} SortBySn(ps: seq<Packet>) returns (qs: seq<Packet>)
    ensures SortedBySn(qs) && multiset(qs) == multiset(ps)
  {
    if ps == [] {
      qs := [];
    } else {
      var rs := SortBySn(ps[..|ps| - 1]);
      qs := InsertBySn(rs, ps[|ps| - 1]);
      assert ps == ps[..|ps| - 1] + [ps[|ps| - 1]];
    }
  }

  /** In the order of the numbers nothing is late but a packet numbered 0. */
  lemma {:induction false} SortedIsNeverLate(xs: seq<Arrival>)
    requires SortedBySn(Packets(xs))
    ensures Run(true, xs).ooseq == (if 0 in Run(true, xs).marked then 1 else 0)
  {
    if xs != [] {
      var ys := xs[..|xs| - 1];
      assert Packets(ys) == Packets(xs)[..|xs| - 1];
      SortedIsNeverLate(ys);
      TableIsArrivals(ys);
      var s, p := Run(true, ys), xs[|xs| - 1].p;
      if s.hrsn in s.marked {
        var j :| 0 <= j < |ys| && ys[j].p.data && ys[j].p.sn == s.hrsn;
        assert Packets(xs)[j].sn <= Packets(xs)[|xs| - 1].sn;
      }
    }
  }

  /**
   Reordering never makes the rate smaller: a stream has the smallest rate among all orders of its
   packets exactly when nothing in it came late (but for a packet numbered 0, which always does).
   */
  lemma PerSmallestInOrder(xs: seq<Arrival>)
    ensures Run(true, xs).ooseq == (if 0 in Sns(xs) then 1 else 0)
            <==> forall ys :: SamePackets(xs, ys) ==> Per(1, Run(true, xs)) <= Per(1, Run(true, ys))
  {
    hide Run, Sns;
    var s := Run(true, xs);
    TableIsArrivals(xs);
    Conservation(xs);
    ZeroIsLate(xs);
    forall ys | SamePackets(xs, ys)
      ensures Per(1, s) <= Per(1, Run(true, ys)) <==> s.ooseq <= Run(true, ys).ooseq || s.hrsn == 0
    {
      OrderIndependence(xs, ys);
      Conservation(ys);
      if s.hrsn > 0 {
        QuotientOrder(s.lost, Run(true, ys).lost, s.hrsn);
      }
    }
    forall ys | SamePackets(xs, ys) ensures Run(true, ys).ooseq >= (if 0 in Sns(xs) then 1 else 0) {
      OrderIndependence(xs, ys);
      ZeroIsLate(ys);
    }
    var qs := SortBySn(Packets(xs));
    var zs := seq(|qs|, i requires 0 <= i < |qs| => Arrival(qs[i], 0.0));
    assert Packets(zs) == qs;
    SortedIsNeverLate(zs);
    OrderIndependence(xs, zs);
    if s.hrsn == 0 {
      assert s.marked <= {0};
      assert |s.marked| <= 1 by {
        assert s.marked == {} || s.marked == {0};
      }
    }
  }

  /** The order does matter to pkts_recv and to the rate: packets 2, 3 and packets 3, 2. */
  lemma OrderMatters(p2: Packet, p3: Packet, now: real)
    requires p2.data && p2.sn == 2 && p3.data && p3.sn == 3
    ensures var xs, ys := [Arrival(p2, now), Arrival(p3, now)], [Arrival(p3, now), Arrival(p2, now)];
            && SamePackets(xs, ys)
            && Run(true, xs).recv == 2 && Per(1, Run(true, xs)) == 1.0 / 3.0
            && Run(true, ys).recv == 1 && Per(1, Run(true, ys)) == 2.0 / 3.0
  {
    hide Ftt, RttGuard;
    var a, b := Arrival(p2, now), Arrival(p3, now);
    var xs, ys := [a, b], [b, a];
    assert Packets(xs) == [p2, p3] && Packets(ys) == [p3, p2];
    assert Run(true, []) == INIT;
    assert xs[..1] == [a] && [a][..0] == [];
    assert ys[..1] == [b] && [b][..0] == [];
    assert Run(true, [a]) == Step(true, INIT, a);
    assert Run(true, [b]) == Step(true, INIT, b);
    assert Run(true, xs) == Step(true, Run(true, [a]), b);
    assert Run(true, ys) == Step(true, Run(true, [b]), a);
  }

  /** The numbers 2, 3, 4, ... in order, as one sender stamps them and a loss-free channel delivers them. */
  predicate Gapless(ns: seq<nat>) {
    forall i :: 0 <= i < |ns| ==> ns[i] == i + 2
  }

  lemma {:induction false} GaplessRun(xs: seq<Arrival>)
    requires Gapless(DataSns(xs))
    ensures var s, n := Run(true, xs), |DataSns(xs)|;
            && s.recv == n && s.ooseq == 0
            && s.hrsn == (if n == 0 then 0 else n + 1)
            && |Delivered(true, xs)| == n
            && (forall i :: 0 <= i < n ==> Delivered(true, xs)[i].p.sn == i + 2)
  {
    hide Ftt, RttGuard;
    if xs != [] {
      var ys := xs[..|xs| - 1];
      assert Gapless(DataSns(ys)) by {
        forall i | 0 <= i < |DataSns(ys)| ensures DataSns(ys)[i] == i + 2 {
          assert DataSns(xs)[i] == i + 2;
        }
      }
      GaplessRun(ys);
      TableIsArrivals(ys);
      if xs[|xs| - 1].p.data {
        assert DataSns(xs)[|DataSns(xs)| - 1] == |DataSns(xs)| + 1;
      }
    }
  }

  /** Without any loss the rate is not 0 but 1/(n+1): the sender never uses number 1. */
  lemma PerLossless(xs: seq<Arrival>)
    requires Gapless(DataSns(xs)) && DataSns(xs) != []
    ensures Per(1, Run(true, xs)) == 1.0 / (|DataSns(xs)| + 1) as real
  {
    hide Run;
    GaplessRun(xs);
    Conservation(xs);
  }

  /** Mode 0 compares the packets received with the number of the last DATA packet but one. */
  lemma PerNoDrop(xs: seq<Arrival>)
    ensures var ns := DataSns(xs);
            var last := LastButOr0(ns, 2);
            && Per(0, Run(false, xs)) == (if last == 0 then 0.0 else 1.0 - |ns| as real / last as real)
            && (0.0 <= Per(0, Run(false, xs)) < 1.0 <==> last == 0 || |ns| <= last)
  {
    hide Run;
    ConservationNoDrop(xs);
    var ns := DataSns(xs);
    var last := LastButOr0(ns, 2);
    if last > 0 {
      Quotient(|ns|, last);
      assert |ns| as real / last as real > 0.0;
    }
  }

  /** It is not always a rate: the same packet three times gives -1/2. */
  lemma PerNoDropNegative(p: Packet, now: real)
    requires p.data && p.sn == 2
    ensures var a := Arrival(p, now); Per(0, Run(false, [a, a, a])) == -0.5
  {
    var a := Arrival(p, now);
    assert DataSns([a, a, a]) == [2, 2, 2] by {
      assert [a, a, a][..2] == [a, a] && [a, a][..1] == [a] && [a][..0] == [];
      assert DataSns([]) == [];
      assert DataSns([a]) == [2];
    }
    PerNoDrop([a, a, a]);
  }

  lemma {:induction false} IncreasingFloor(ns: seq<nat>, i: nat)
    requires StrictlyIncreasing(ns) && (ns != [] ==> ns[0] >= 2) && i < |ns|
    ensures ns[i] >= i + 2
  {
    if i > 0 {
      IncreasingFloor(ns, i - 1);
    }
  }

  lemma {:induction false} GaplessBelow(ns: seq<nat>, k: nat, i: nat)
    requires StrictlyIncreasing(ns) && (ns != [] ==> ns[0] >= 2) && i <= k < |ns| && ns[k] == k + 2
    ensures ns[i] == i + 2
    decreases k - i
  {
    if i < k {
      IncreasingFloor(ns, k - 1);
      GaplessBelow(ns, k - 1, i);
    }
  }

  /**
   Mode 0 on a channel that loses packets but keeps their order: the rate is a proper rate, and it is 0
   exactly when nothing is missing before the last arrival -- esn lags one packet behind, which makes
   up for the numbering from 2.
   */
  lemma PerNoDropInOrder(xs: seq<Arrival>)
    requires StrictlyIncreasing(DataSns(xs)) && (DataSns(xs) != [] ==> DataSns(xs)[0] >= 2)
    ensures var ns := DataSns(xs);
            && 0.0 <= Per(0, Run(false, xs)) < 1.0
            && (Per(0, Run(false, xs)) == 0.0 <==> |ns| == 0 || Gapless(ns[..|ns| - 1]))
  {
    hide Run;
    PerNoDrop(xs);
    var ns := DataSns(xs);
    if |ns| >= 2 {
      var k := |ns| - 2;
      IncreasingFloor(ns, k);
      Quotient(|ns|, ns[k]);
      if ns[k] == k + 2 {
        var ms := ns[..|ns| - 1];
        forall i | 0 <= i < |ms| ensures ms[i] == i + 2 {
          GaplessBelow(ns, k, i);
        }
      } else {
        assert ns[..|ns| - 1][k] == ns[k];
      }
    }
  }

  /** Drop mode is the setting 1 and no other: of the same packet twice, only then one is passed on. */
  lemma OnlyOneDrops(mode: int, p: Packet, now: real)
    requires p.data && p.sn > 0
    ensures var a := Arrival(p, now);
            Delivered(UseDrop(mode), [a, a]) == if mode == 1 then [a] else [a, a]
  {
    var a := Arrival(p, now);
    assert [a, a][..1] == [a];
    FirstPacket(UseDrop(mode), a);
    hide Run, Step;
    assert Delivered(UseDrop(mode), [a, a])
           == Delivered(UseDrop(mode), [a]) + (if mode == 1 then [] else [a]);
  }

  lemma FirstPacket(useDrop: bool, a: Arrival)
    requires a.p.data && a.p.sn > 0
    ensures Delivered(useDrop, [a]) == [a]
    ensures Run(useDrop, [a]).marked == {a.p.sn}
  {
    hide Ftt, RttGuard, Sq;
    assert [a][..0] == [];
    assert Run(useDrop, []) == INIT;
    assert Delivered(useDrop, []) == [];
  }

  /** Any other setting drops nothing, counts nothing as lost, and so reports no errors at all. */
  lemma PerOtherModes(mode: int, xs: seq<Arrival>)
    requires mode != 0 && mode != 1
    ensures Per(mode, Run(UseDrop(mode), xs)) == 0.0
  {
    ConservationNoDrop(xs);
  }
}
