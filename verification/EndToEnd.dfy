/**
 The whole pipeline: clients frame messages, listeners queue and stamp them, a network loses, repeats
 and reorders packets, one receiver filters what arrives and frames it for its own client. The network
 may hand over any packet ever sent, at any time and any number of times, but it does not alter it.
 */
module EndToEnd {
  import opened Bytes
  import opened Framing
  import opened Receiver
  import opened ReceiverOrder
  import AppNet
  import L = Listener
  import R = ListenerRuns
  import Peer

  /** The i-th packet, from 0, that the k-th node has sent. */
  datatype Tag = Tag(k: nat, i: nat)

  datatype System = System(
    nodes: seq<L.Node>,     // the sending nodes
    r: State,               // the receiving module
    wire: ByteString,       // written to the receiving client
    overrun: bool,          // a number without an entry in sn_check has arrived
    arrivals: seq<Arrival>, // history: all packets handed to the receiver,
    arrived: seq<Tag>,      // the DATA packets among them,
    delivered: seq<Tag>)    // and those passed on to the client

  datatype Event =
    | Local(k: nat, mv: L.Move)               // a step of one of the threads of node k
    | Deliver(k: nat, i: nat, now: real)      // the network hands over a packet
    | Foreign(p: Packet, now: real)           // a packet of some other type comes in

  /** conns[k] is what the clients of node k send, one connection after the other. */
  function Start(conns: seq<seq<ByteString>>): System {
    System(seq(|conns|, k requires 0 <= k < |conns| => L.Start(conns[k])), INIT, [], false, [], [], [])
  }

  function Arrive(useDrop: bool, s: System, a: Arrival): System {
    s.(r := Step(useDrop, s.r, a), arrivals := s.arrivals + [a])
  }

  function Apply(useDrop: bool, s: System, e: Event): System {
    match e
    case Local(k, mv) => if k < |s.nodes| then s.(nodes := s.nodes[k := L.Apply(s.nodes[k], mv)]) else s
    case Deliver(k, i, now) =>
      if k >= |s.nodes| || i >= |s.nodes[k].m.sent| then s
      else
        var p := s.nodes[k].m.sent[i];
        if p.sn >= SN_TABLE then s.(overrun := true)
        else
          var t := Arrive(useDrop, s, Arrival(p, now)).(arrived := s.arrived + [Tag(k, i)]);
          if Judge(useDrop, s.r, p) == Accepted
          then t.(delivered := s.delivered + [Tag(k, i)], wire := s.wire + Frame(p.payload))
          else t
    case Foreign(p, now) => if p.data then s else Arrive(useDrop, s, Arrival(p, now))
  }

  /** Any run of the whole system is a list of events. */
  function Exec(useDrop: bool, s: System, es: seq<Event>): System {
    if es == [] then s else Apply(useDrop, Exec(useDrop, s, es[..|es| - 1]), es[|es| - 1])
  }

  // ---------- Invariants ----------

  ghost predicate NodesInv(s: System, conns: seq<seq<ByteString>>) {
    && |s.nodes| == |conns|
    && forall k :: 0 <= k < |conns| ==> L.Inv(s.nodes[k], conns[k])
  }

  /** The tag names a packet that was sent. */
  predicate Names(s: System, t: Tag) {
    t.k < |s.nodes| && t.i < |s.nodes[t.k].m.sent|
  }

  function PacketOf(s: System, t: Tag): Packet
    requires Names(s, t)
  {
    s.nodes[t.k].m.sent[t.i]
  }

  ghost predicate ArrivedInv(useDrop: bool, s: System) {
    && s.r == Run(useDrop, s.arrivals)
    && |s.arrived| == |DataSns(s.arrivals)|
    && forall j :: 0 <= j < |s.arrived| ==>
         Names(s, s.arrived[j]) && DataSns(s.arrivals)[j] == PacketOf(s, s.arrived[j]).sn
  }

  ghost predicate DeliveredInv(useDrop: bool, s: System) {
    && |s.delivered| == |Delivered(useDrop, s.arrivals)|
    && (forall j :: 0 <= j < |s.delivered| ==>
          Names(s, s.delivered[j]) && Delivered(useDrop, s.arrivals)[j].p == PacketOf(s, s.delivered[j]))
    && s.wire == Encode(AppNet.PayloadsOf(Delivered(useDrop, s.arrivals)))
    && (!useDrop ==> s.delivered == s.arrived)
  }

  /** No node has used up the 16 bits of its sequence numbers. */
  predicate WithinNumbers(s: System) {
    forall k :: 0 <= k < |s.nodes| ==> |s.nodes[k].m.sent| <= SN_TABLE - 2
  }

  /** Every payload was read in one piece. */
  predicate NoShortRead(s: System) {
    forall k :: 0 <= k < |s.nodes| ==> !s.nodes[k].w.short
  }

  ghost predicate Inv(useDrop: bool, s: System, conns: seq<seq<ByteString>>) {
    && NodesInv(s, conns)
    && ArrivedInv(useDrop, s)
    && DeliveredInv(useDrop, s)
    && (s.overrun ==> !WithinNumbers(s))
  }

  /** A step of a node takes back nothing that was sent. */
  lemma SentGrows(n: L.Node, mv: L.Move)
    ensures n.m.sent <= L.Apply(n, mv).m.sent
  {
    hide Receive, ReceiveChunk, L.Stamp;
    if mv.MainMove? {
      match n.m.pc
      case Sending(_) =>
      case _ =>
    }
  }

  lemma LocalInv(useDrop: bool, s: System, k: nat, mv: L.Move, conns: seq<seq<ByteString>>)
    requires Inv(useDrop, s, conns)
    ensures Inv(useDrop, Apply(useDrop, s, Local(k, mv)), conns)
  {
    hide L.Apply, L.Inv, Run, Delivered, DataSns, Encode;
    if k < |s.nodes| {
      var t := Apply(useDrop, s, Local(k, mv));
      SentGrows(s.nodes[k], mv);
      L.StepInv(s.nodes[k], mv, conns[k]);
      forall g: Tag | Names(s, g) ensures Names(t, g) && PacketOf(t, g) == PacketOf(s, g) {
      }
      if WithinNumbers(t) {
        forall j | 0 <= j < |s.nodes| ensures |s.nodes[j].m.sent| <= SN_TABLE - 2 {
          assert |t.nodes[j].m.sent| <= SN_TABLE - 2;
        }
      }
    }
  }

  lemma RunSnoc(useDrop: bool, xs: seq<Arrival>, a: Arrival)
    ensures var v, ys := Judge(useDrop, Run(useDrop, xs), a.p), xs + [a];
            && Run(useDrop, ys) == Step(useDrop, Run(useDrop, xs), a)
            && DataSns(ys) == DataSns(xs) + (if a.p.data then [a.p.sn] else [])
            && Delivered(useDrop, ys) == Delivered(useDrop, xs) + (if v == Accepted then [a] else [])
  {
    hide Step, Judge;
    assert (xs + [a])[..|xs|] == xs;
    Nil(DataSns(xs));
    Nil(Delivered(useDrop, xs));
  }

  /** One more DATA packet has arrived. */
  lemma ArrivedStep(useDrop: bool, s: System, t: System, a: Arrival, g: Tag)
    requires ArrivedInv(useDrop, s) && Names(s, g) && a.p == PacketOf(s, g) && a.p.data
    requires t.nodes == s.nodes && t.r == Step(useDrop, s.r, a)
    requires t.arrivals == s.arrivals + [a] && t.arrived == s.arrived + [g]
    ensures ArrivedInv(useDrop, t)
  {
    hide Run, Delivered, DataSns, Step, Judge;
    RunSnoc(useDrop, s.arrivals, a);
  }

  /** It has been passed on, or it has not. */
  lemma DeliveredStep(useDrop: bool, s: System, t: System, a: Arrival, g: Tag)
    requires s.r == Run(useDrop, s.arrivals)
    requires DeliveredInv(useDrop, s) && Names(s, g) && a.p == PacketOf(s, g) && a.p.data
    requires t.nodes == s.nodes && t.arrivals == s.arrivals + [a] && t.arrived == s.arrived + [g]
    requires if Judge(useDrop, s.r, a.p) == Accepted
             then t.delivered == s.delivered + [g] && t.wire == s.wire + Frame(a.p.payload)
             else t.delivered == s.delivered && t.wire == s.wire
    ensures DeliveredInv(useDrop, t)
  {
    hide Run, Delivered, DataSns, Encode, Frame;
    RunSnoc(useDrop, s.arrivals, a);
    var ds := Delivered(useDrop, s.arrivals);
    if Judge(useDrop, s.r, a.p) == Accepted {
      AppNet.PayloadsOfSnoc(ds, a);
      EncodeSnoc(AppNet.PayloadsOf(ds), a.p.payload);
    } else {
      Nil(ds);
    }
  }

  lemma DeliverInv(useDrop: bool, s: System, k: nat, i: nat, now: real, conns: seq<seq<ByteString>>)
    requires Inv(useDrop, s, conns)
    requires Names(s, Tag(k, i))
    ensures Inv(useDrop, Apply(useDrop, s, Deliver(k, i, now)), conns)
  {
    hide L.Inv, Run, Step, Judge, Frame, ArrivedInv, DeliveredInv;
    var p, t := s.nodes[k].m.sent[i], Apply(useDrop, s, Deliver(k, i, now));
    StampOf(s, Tag(k, i), conns);
    if p.sn < SN_TABLE {
      ArrivedStep(useDrop, s, t, Arrival(p, now), Tag(k, i));
      assert s.r == Run(useDrop, s.arrivals) by {
        ArrivedRun(useDrop, s);
      }
      DeliveredStep(useDrop, s, t, Arrival(p, now), Tag(k, i));
    } else {
      OverrunInv(useDrop, s, t);
    }
  }

  lemma ArrivedRun(useDrop: bool, s: System)
    requires ArrivedInv(useDrop, s)
    ensures s.r == Run(useDrop, s.arrivals)
  {
  }

  lemma OverrunInv(useDrop: bool, s: System, t: System)
    requires ArrivedInv(useDrop, s) && DeliveredInv(useDrop, s) && t == s.(overrun := true)
    ensures ArrivedInv(useDrop, t) && DeliveredInv(useDrop, t)
  {
    hide Run, Delivered, DataSns, Encode;
  }

  lemma ForeignInv(useDrop: bool, s: System, p: Packet, now: real, conns: seq<seq<ByteString>>)
    requires Inv(useDrop, s, conns) && !p.data
    ensures Inv(useDrop, Apply(useDrop, s, Foreign(p, now)), conns)
  {
    hide L.Inv, Run, Delivered, DataSns, Encode, Step;
    RunSnoc(useDrop, s.arrivals, Arrival(p, now));
    Nil(Delivered(useDrop, s.arrivals));
    Nil(DataSns(s.arrivals));
  }

  /** What the sender's invariant says of one packet. */
  lemma StampOf(s: System, t: Tag, conns: seq<seq<ByteString>>)
    requires NodesInv(s, conns) && Names(s, t)
    ensures var p, n := PacketOf(s, t), s.nodes[t.k];
            && p.data && p.sn == (t.i + 2) % U16
            && |n.m.sent| <= |n.w.enqueued| && p.payload == n.w.enqueued[t.i] && Sendable(p.payload)
            && (!n.w.short ==> |n.w.enqueued| <= |ParseAll(conns[t.k])| && p.payload == ParseAll(conns[t.k])[t.i])
  {
    hide ParseAll;
    var n := s.nodes[t.k];
    assert L.Inv(n, conns[t.k]);
    assert L.StampedAs(n.m.sent[t.i], t.i);
    assert L.Payloads(n.m.sent)[t.i] == n.m.sent[t.i].payload;
    assert n.w.enqueued[t.i] == n.m.sent[t.i].payload;
    assert L.Taken(n)[t.i] == n.w.enqueued[t.i];
  }

  lemma {:induction false} Reachable(useDrop: bool, conns: seq<seq<ByteString>>, es: seq<Event>)
    ensures Inv(useDrop, Exec(useDrop, Start(conns), es), conns)
  {
    if es == [] {
      forall k | 0 <= k < |conns| ensures L.Inv(L.Start(conns[k]), conns[k]) {
        L.StartInv(conns[k]);
      }
    } else {
      hide Inv, Apply;
      var s, e := Exec(useDrop, Start(conns), es[..|es| - 1]), es[|es| - 1];
      Reachable(useDrop, conns, es[..|es| - 1]);
      EventInv(useDrop, s, e, conns);
    }
  }

  lemma EventInv(useDrop: bool, s: System, e: Event, conns: seq<seq<ByteString>>)
    requires Inv(useDrop, s, conns)
    ensures Inv(useDrop, Apply(useDrop, s, e), conns)
  {
    hide Inv;
    match e
    case Local(k, mv) => LocalInv(useDrop, s, k, mv, conns);
    case Deliver(k, i, now) =>
      if Names(s, Tag(k, i)) {
        DeliverInv(useDrop, s, k, i, now, conns);
      }
    case Foreign(p, now) =>
      if !p.data {
        ForeignInv(useDrop, s, p, now, conns);
      }
  }

  // ---------- What the receiving client decodes ----------

  /** The listener of its sender has taken in m at this position; its client framed it there if no read was short. */
  ghost predicate Stands(s: System, conns: seq<seq<ByteString>>, t: Tag, m: ByteString) {
    && Names(s, t) && t.k < |conns|
    && t.i < |s.nodes[t.k].w.enqueued| && m == s.nodes[t.k].w.enqueued[t.i]
    && (!s.nodes[t.k].w.short ==> t.i < |ParseAll(conns[t.k])| && m == ParseAll(conns[t.k])[t.i])
  }

  /**
   In every mode and after every run in which no number outside the table arrived, the receiving client
   decodes exactly the messages of the delivered packets, one frame each. Each of them is the message that
   its sender's listener took in at that position -- and, unless a payload read of that listener was short,
   the message that was framed for it at that position.
   */
  lemma {:induction false} ClientDecodesDelivered(useDrop: bool, conns: seq<seq<ByteString>>, es: seq<Event>)
    requires !Exec(useDrop, Start(conns), es).overrun
    ensures var s := Exec(useDrop, Start(conns), es);
            && |Peer.Decode(s.wire)| == |s.delivered|
            && forall j :: 0 <= j < |s.delivered| ==> Stands(s, conns, s.delivered[j], Peer.Decode(s.wire)[j])
    ensures !useDrop ==> var s := Exec(useDrop, Start(conns), es); s.delivered == s.arrived
  {
    hide L.Inv, Exec, Run, Encode, DataSns, ParseAll, Peer.Decode, Delivered;
    Reachable(useDrop, conns, es);
    var s := Exec(useDrop, Start(conns), es);
    var ms := AppNet.PayloadsOf(Delivered(useDrop, s.arrivals));
    forall j | 0 <= j < |ms| ensures Stands(s, conns, s.delivered[j], ms[j]) && Peer.Receivable(ms[j]) {
      StampOf(s, s.delivered[j], conns);
    }
    Peer.DecodeEncoded(ms);
  }

  /** The positions, in the list of its messages, of those delivered packets that node k sent. */
  function From(ts: seq<Tag>, k: nat): seq<nat> {
    if ts == [] then []
    else
      var ps, t := From(ts[..|ts| - 1], k), ts[|ts| - 1];
      if t.k == k then ps + [t.i] else ps
  }

  predicate Ascending(ts: seq<Tag>) {
    forall a, b :: 0 <= a < b < |ts| ==> ts[a].i < ts[b].i
  }

  lemma {:induction false} FromIncreasing(ts: seq<Tag>, k: nat)
    requires Ascending(ts)
    ensures StrictlyIncreasing(From(ts, k))
    ensures forall j :: 0 <= j < |From(ts, k)| ==> From(ts, k)[j] <= ts[|ts| - 1].i && Tag(k, From(ts, k)[j]) in ts
  {
    if ts != [] {
      var us := ts[..|ts| - 1];
      FromIncreasing(us, k);
      forall j | 0 <= j < |From(us, k)| ensures From(us, k)[j] < ts[|ts| - 1].i && Tag(k, From(us, k)[j]) in ts {
        assert Tag(k, From(us, k)[j]) in us;
        var a :| 0 <= a < |us| && us[a] == Tag(k, From(us, k)[j]);
        assert ts[a] == us[a];
      }
    }
  }

  /**
   End to end in drop mode, with any number of senders and every interleaving of threads and packets, as
   long as no sender sends more than 65533 packets: no number outside the table ever arrives; the
   positions of the delivered messages grow strictly -- over all senders together, so no sequence number
   is delivered twice; each sender's messages come out in order and without repetition; and once
   anything is delivered there are at most hrsn - 1 deliveries.
   */
  lemma {:induction false} DropModeInOrder(conns: seq<seq<ByteString>>, es: seq<Event>)
    requires WithinNumbers(Exec(true, Start(conns), es))
    ensures var s := Exec(true, Start(conns), es);
            && !s.overrun && |s.nodes| == |conns|
            && Ascending(s.delivered)
            && (forall k :: 0 <= k < |conns| ==>
                  StrictlyIncreasing(From(s.delivered, k))
                  && forall j :: 0 <= j < |From(s.delivered, k)| ==> From(s.delivered, k)[j] < |s.nodes[k].w.enqueued|)
            && |s.delivered| == s.r.recv
            && (s.delivered != [] ==> |s.delivered| <= s.r.hrsn - 1)
  {
    hide L.Inv, Exec, Run, Encode, DataSns, ParseAll, Delivered, From;
    Reachable(true, conns, es);
    var s := Exec(true, Start(conns), es);
    var ds := Delivered(true, s.arrivals);
    DeliveredIncreasing(s.arrivals);
    forall j | 0 <= j < |ds| ensures ds[j].p.sn == s.delivered[j].i + 2 {
      StampOf(s, s.delivered[j], conns);
      assert |s.nodes[s.delivered[j].k].m.sent| <= SN_TABLE - 2;
    }
    forall k | 0 <= k < |conns|
      ensures StrictlyIncreasing(From(s.delivered, k))
      ensures forall j :: 0 <= j < |From(s.delivered, k)| ==> From(s.delivered, k)[j] < |s.nodes[k].w.enqueued|
    {
      FromIncreasing(s.delivered, k);
      forall j | 0 <= j < |From(s.delivered, k)| ensures From(s.delivered, k)[j] < |s.nodes[k].w.enqueued| {
        var t := Tag(k, From(s.delivered, k)[j]);
        assert t in s.delivered;
        StampOf(s, t, conns);
      }
    }
    if s.delivered != [] {
      var sns := seq(|ds|, j requires 0 <= j < |ds| => ds[j].p.sn);
      IncreasingFit(sns, 2, s.r.hrsn);
    }
  }

  /**
   Drop mode decides by the position of a packet in its own sender's list, but compares it with the positions
   of all senders: a packet handed over next is delivered if and only if every packet that arrived earlier,
   whoever sent it, has a smaller position.
   */
  lemma {:induction false} DeliveryExact(conns: seq<seq<ByteString>>, es: seq<Event>, k: nat, i: nat, now: real)
    requires var s := Exec(true, Start(conns), es); WithinNumbers(s) && Names(s, Tag(k, i))
    ensures var s := Exec(true, Start(conns), es);
            Apply(true, s, Deliver(k, i, now)).delivered
            == if forall j :: 0 <= j < |s.arrived| ==> s.arrived[j].i < i then s.delivered + [Tag(k, i)]
               else s.delivered
  {
    hide Exec, Step, Frame, NodesInv, ArrivedInv, DeliveredInv;
    Reachable(true, conns, es);
    var s := Exec(true, Start(conns), es);
    StampOf(s, Tag(k, i), conns);
    assert |s.nodes[k].m.sent| <= SN_TABLE - 2;
    AheadOfAll(s, conns, i);
  }

  /** hrsn in terms of the positions that have arrived; nothing above it is marked. */
  lemma {:induction false} AheadOfAll(s: System, conns: seq<seq<ByteString>>, i: nat)
    requires NodesInv(s, conns) && ArrivedInv(true, s) && WithinNumbers(s)
    ensures s.r.hrsn < i + 2 <==> forall j :: 0 <= j < |s.arrived| ==> s.arrived[j].i < i
    ensures i + 2 in s.r.marked ==> i + 2 <= s.r.hrsn
  {
    hide L.Inv, Run, DataSns, Sns;
    var ns := DataSns(s.arrivals);
    TableIsArrivals(s.arrivals);
    DataSnsAreSns(s.arrivals);
    forall j | 0 <= j < |ns| ensures ns[j] == s.arrived[j].i + 2 && ns[j] <= s.r.hrsn {
      StampOf(s, s.arrived[j], conns);
      assert |s.nodes[s.arrived[j].k].m.sent| <= SN_TABLE - 2;
      assert ns[j] in ns;
    }
    if s.r.hrsn != 0 {
      var j :| 0 <= j < |ns| && ns[j] == s.r.hrsn;
      assert s.arrived[j].i + 2 == s.r.hrsn;
    }
  }

  lemma ExecSnoc(useDrop: bool, s: System, es: seq<Event>, e: Event)
    ensures Exec(useDrop, s, es + [e]) == Apply(useDrop, Exec(useDrop, s, es), e)
  {
    hide Apply;
    assert (es + [e])[..|es|] == es;
  }

  /** The packets that are ahead of all earlier ones in the list, whoever sent them. */
  function Leaders(ts: seq<Tag>): seq<Tag> {
    if ts == [] then []
    else
      var us, t := ts[..|ts| - 1], ts[|ts| - 1];
      Leaders(us) + if forall j :: 0 <= j < |us| ==> us[j].i < t.i then [t] else []
  }

  /** They are all there are if and only if the positions grow strictly. */
  lemma {:induction false} AllLead(ts: seq<Tag>)
    ensures |Leaders(ts)| <= |ts|
    ensures Leaders(ts) == ts <==> Ascending(ts)
  {
    if ts != [] {
      hide Leaders, Ascending;
      var us, t := ts[..|ts| - 1], ts[|ts| - 1];
      assert ts == us + [t];
      AllLead(us);
      LeadersSnoc(us, t);
      AscendingSnoc(us, t);
      SnocEqual(Leaders(us), us, t);
    }
  }

  lemma SnocEqual(xs: seq<Tag>, ys: seq<Tag>, t: Tag)
    ensures xs + [t] == ys + [t] <==> xs == ys
  {
    if xs + [t] == ys + [t] {
      assert xs == (xs + [t])[..|xs|] == (ys + [t])[..|ys|] == ys;
    }
  }

  lemma AscendingSnoc(ts: seq<Tag>, t: Tag)
    ensures Ascending(ts + [t]) <==> Ascending(ts) && forall j :: 0 <= j < |ts| ==> ts[j].i < t.i
  {
    var us := ts + [t];
    if Ascending(us) {
      assert forall j :: 0 <= j < |ts| ==> ts[j] == us[j];
      assert us[|ts|] == t;
    }
  }

  /** In drop mode exactly these packets are delivered, in every run of any number of senders. */
  lemma {:induction false} DeliveredAreLeaders(conns: seq<seq<ByteString>>, es: seq<Event>)
    requires WithinNumbers(Exec(true, Start(conns), es))
    ensures var s := Exec(true, Start(conns), es); s.delivered == Leaders(s.arrived)
  {
    if es != [] {
      var ys, e := es[..|es| - 1], es[|es| - 1];
      var s := Exec(true, Start(conns), ys);
      hide Exec, Apply, Leaders;
      assert es == ys + [e];
      ExecSnoc(true, Start(conns), ys, e);
      EarlierWithin(s, e);
      DeliveredAreLeaders(conns, ys);
      if e.Deliver? && Names(s, Tag(e.k, e.i)) {
        DeliveryExact(conns, ys, e.k, e.i, e.now);
        HandedOver(true, conns, ys, e.k, e.i, e.now);
        LeadersSnoc(s.arrived, Tag(e.k, e.i));
      } else {
        NothingHandedOver(true, s, e);
      }
    }
  }

  lemma LeadersSnoc(ts: seq<Tag>, t: Tag)
    ensures Leaders(ts + [t]) ==
            if forall j :: 0 <= j < |ts| ==> ts[j].i < t.i then Leaders(ts) + [t] else Leaders(ts)
  {
    assert (ts + [t])[..|ts|] == ts;
    Nil(Leaders(ts));
  }

  lemma NothingHandedOver(useDrop: bool, s: System, e: Event)
    requires e.Deliver? ==> !Names(s, Tag(e.k, e.i))
    ensures var t := Apply(useDrop, s, e); t.arrived == s.arrived && t.delivered == s.delivered
  {
    hide L.Apply, Step;
  }

  lemma EarlierWithin(s: System, e: Event)
    requires WithinNumbers(Apply(true, s, e))
    ensures WithinNumbers(s)
  {
    hide L.Apply, Step, Judge, Frame;
    var t := Apply(true, s, e);
    forall k | 0 <= k < |s.nodes| ensures |s.nodes[k].m.sent| <= SN_TABLE - 2 {
      assert |t.nodes[k].m.sent| <= SN_TABLE - 2;
      if e.Local? {
        SentGrows(s.nodes[k], e.mv);
      }
    }
  }

  /** A packet the network hands over arrives, and takes nothing of the nodes. */
  lemma HandedOver(useDrop: bool, conns: seq<seq<ByteString>>, es: seq<Event>, k: nat, i: nat, now: real)
    requires var s := Exec(useDrop, Start(conns), es); WithinNumbers(s) && Names(s, Tag(k, i))
    ensures var s, t := Exec(useDrop, Start(conns), es), Exec(useDrop, Start(conns), es + [Deliver(k, i, now)]);
            t.arrived == s.arrived + [Tag(k, i)] && t.nodes == s.nodes
  {
    hide Exec, Step, Judge, Frame, NodesInv, ArrivedInv, DeliveredInv;
    Reachable(useDrop, conns, es);
    ExecSnoc(useDrop, Start(conns), es, Deliver(k, i, now));
    var s := Exec(useDrop, Start(conns), es);
    StampOf(s, Tag(k, i), conns);
    assert |s.nodes[k].m.sent| <= SN_TABLE - 2;
  }

  /**
   So several senders, over a channel that loses nothing, get everything through if and only if their packets
   happen to arrive at strictly growing positions.
   */
  lemma {:induction false} AllDelivered(conns: seq<seq<ByteString>>, es: seq<Event>)
    requires WithinNumbers(Exec(true, Start(conns), es))
    ensures var s := Exec(true, Start(conns), es);
            s.delivered == s.arrived <==> Ascending(s.arrived)
  {
    hide Exec, Leaders, Ascending;
    DeliveredAreLeaders(conns, es);
    AllLead(Exec(true, Start(conns), es).arrived);
  }

  // ---------- One sender ----------

  /**
   What client B decodes is a subsequence of what the listener has taken in, and of what client A framed as long
   as no payload read was short -- order kept, nothing twice, nothing made up -- whatever the channel and the
   threads do.
   */
  lemma {:induction false} EndToEndSubsequence(msgs: seq<ByteString>, es: seq<Event>)
    requires AllSendable(msgs)
    requires WithinNumbers(Exec(true, Start([[Encode(msgs)]]), es))
    ensures var s := Exec(true, Start([[Encode(msgs)]]), es);
            && !s.overrun && |s.nodes| == 1
            && IsSubsequence(Peer.Decode(s.wire), s.nodes[0].w.enqueued)
            && (!s.nodes[0].w.short ==> IsSubsequence(Peer.Decode(s.wire), msgs))
  {
    hide Exec, From, Encode, Parse, Peer.Decode, WithinNumbers;
    var conns := [[Encode(msgs)]];
    var s := Exec(true, Start(conns), es);
    SingleConnection(msgs);
    DropModeInOrder(conns, es);
    ClientDecodesDelivered(true, conns, es);
    var idx := seq(|s.delivered|, j requires 0 <= j < |s.delivered| => s.delivered[j].i);
    assert Embeds(idx, Peer.Decode(s.wire), s.nodes[0].w.enqueued);
    if !s.nodes[0].w.short {
      assert Embeds(idx, Peer.Decode(s.wire), msgs);
    }
  }

  lemma {:induction false} SingleConnection(msgs: seq<ByteString>)
    requires AllSendable(msgs)
    ensures ParseAll([Encode(msgs)]) == msgs
  {
    hide Parse, Encode;
    RoundTrip(msgs);
    assert [Encode(msgs)][1..] == [];
    Nil(msgs);
  }

  /** The channel has handed over each packet of the only sender, once and in order. */
  ghost predicate LosslessFifo(s: System) {
    && |s.nodes| == 1
    && |s.arrived| == |s.nodes[0].m.sent|
    && forall j :: 0 <= j < |s.arrived| ==> s.arrived[j] == Tag(0, j)
  }

  /** Then everything is delivered, and the reported error rate is not 0 but 1/(n+1). */
  lemma {:induction false} LosslessDelivered(conns: seq<seq<ByteString>>, es: seq<Event>)
    requires |conns| == 1
    requires var s := Exec(true, Start(conns), es); WithinNumbers(s) && LosslessFifo(s)
    ensures var s := Exec(true, Start(conns), es);
            var n := |s.nodes[0].m.sent|;
            && |s.delivered| == n && (forall j :: 0 <= j < n ==> s.delivered[j] == Tag(0, j))
            && (n > 0 ==> Per(1, s.r) == 1.0 / (n + 1) as real)
  {
    hide Exec, Run, DataSns, Delivered, L.Inv, ParseAll, Encode;
    Reachable(true, conns, es);
    var s := Exec(true, Start(conns), es);
    var n, ns := |s.nodes[0].m.sent|, DataSns(s.arrivals);
    forall j | 0 <= j < |ns| ensures ns[j] == j + 2 {
      assert s.arrived[j] == Tag(0, j);
      StampOf(s, Tag(0, j), conns);
    }
    GaplessRun(s.arrivals);
    forall j | 0 <= j < n ensures s.delivered[j] == Tag(0, j) {
      StampOf(s, s.delivered[j], conns);
    }
    if n > 0 {
      StampOf(s, Tag(0, n - 1), conns);
      PerLossless(s.arrivals);
    }
  }

  /** So client B decodes the first messages of client A, as many as were sent. */
  lemma {:induction false} EndToEndLossless(msgs: seq<ByteString>, es: seq<Event>)
    requires AllSendable(msgs)
    requires var s := Exec(true, Start([[Encode(msgs)]]), es); WithinNumbers(s) && LosslessFifo(s)
    ensures var s := Exec(true, Start([[Encode(msgs)]]), es);
            var n := |s.nodes[0].m.sent|;
            && n <= |s.nodes[0].w.enqueued| && Peer.Decode(s.wire) == s.nodes[0].w.enqueued[..n]
            && (!s.nodes[0].w.short ==> n <= |msgs| && Peer.Decode(s.wire) == msgs[..n])
            && (n > 0 ==> Per(1, s.r) == 1.0 / (n + 1) as real)
  {
    hide Exec, Encode, Parse, Peer.Decode, WithinNumbers, Per;
    var conns := [[Encode(msgs)]];
    var s := Exec(true, Start(conns), es);
    SingleConnection(msgs);
    DropModeInOrder(conns, es);
    LosslessDelivered(conns, es);
    ClientDecodesDelivered(true, conns, es);
    var n, got := |s.nodes[0].m.sent|, Peer.Decode(s.wire);
    forall j | 0 <= j < |got| ensures n <= |s.nodes[0].w.enqueued| && got[j] == s.nodes[0].w.enqueued[j] {
      assert s.delivered[j] == Tag(0, j);
    }
    if !s.nodes[0].w.short {
      forall j | 0 <= j < |got| ensures n <= |msgs| && got[j] == msgs[j] {
        assert s.delivered[j] == Tag(0, j);
      }
    }
  }

  /**
   From one Python client to another: if no call of the sending client failed half-way, its messages fit the
   listener's buffer and no payload read of the listener was short, the receiving client decodes numbered
   messages of it, in order, none twice.
   */
  lemma {:induction false} ClientToClient(msg: ByteString, ks: seq<nat>, es: seq<Event>)
    requires Peer.NoTornFrame(msg, ks)
    requires var c := Peer.SendAll(msg, ks); |Peer.Numbered(msg, c.count)| <= MAX_LENGTH_PAYLOAD
    requires var s := Exec(true, Start([[Peer.SendAll(msg, ks).wire]]), es);
             WithinNumbers(s) && NoShortRead(s)
    ensures var s := Exec(true, Start([[Peer.SendAll(msg, ks).wire]]), es);
            var got := Peer.Decode(s.wire);
            && IsSubsequence(got, Peer.Numbers(msg, Peer.SendAll(msg, ks).count))
            && forall a, b :: 0 <= a < b < |got| ==> got[a] != got[b]
  {
    hide Exec, Encode, Parse, Peer.Decode, Peer.SendAll, Peer.NoTornFrame, Peer.Dec, WithinNumbers;
    var n := Peer.SendAll(msg, ks).count;
    var ms := Peer.Numbers(msg, n);
    Peer.WireIsFrames(msg, ks);
    Peer.NumbersSendable(msg, n);
    EndToEndSubsequence(ms, es);
    var got := Peer.Decode(Exec(true, Start([[Encode(ms)]]), es).wire);
    var idx: seq<nat> :| Embeds(idx, got, ms);
    forall a, b | 0 <= a < b < |got| ensures got[a] != got[b] {
      assert idx[a] < idx[b];
      if got[a] == got[b] {
        Peer.NumberedInjective(msg, idx[a] + 1, idx[b] + 1);
      }
    }
  }

  // ---------- Every such run exists ----------

  function Locals(k: nat, moves: seq<L.Move>): seq<Event> {
    seq(|moves|, i requires 0 <= i < |moves| => Local(k, moves[i]))
  }

  /** The network hands over these packets, one after the other. */
  function Hand(ts: seq<Tag>, now: real): seq<Event> {
    seq(|ts|, j requires 0 <= j < |ts| => Deliver(ts[j].k, ts[j].i, now))
  }

  lemma {:induction false} ExecAppend(useDrop: bool, s: System, xs: seq<Event>, ys: seq<Event>)
    ensures Exec(useDrop, s, xs + ys) == Exec(useDrop, Exec(useDrop, s, xs), ys)
  {
    hide Apply;
    if ys == [] {
      assert xs + ys == xs;
    } else {
      ExecAppend(useDrop, s, xs, ys[..|ys| - 1]);
      assert (xs + ys)[..|xs + ys| - 1] == xs + ys[..|ys| - 1];
    }
  }

  /** The threads of one node run in the system as they run alone. */
  lemma {:induction false} LiftLocal(useDrop: bool, s: System, k: nat, moves: seq<L.Move>)
    requires k < |s.nodes|
    ensures Exec(useDrop, s, Locals(k, moves)) == s.(nodes := s.nodes[k := L.Exec(s.nodes[k], moves)])
  {
    hide L.Apply;
    if moves == [] {
      assert s.nodes[k := s.nodes[k]] == s.nodes;
    } else {
      var n := |moves| - 1;
      LiftLocal(useDrop, s, k, moves[..n]);
      assert Locals(k, moves)[..n] == Locals(k, moves[..n]);
    }
  }

  lemma {:induction false} HandsOver(useDrop: bool, conns: seq<seq<ByteString>>, es: seq<Event>, ts: seq<Tag>,
                                     now: real)
    requires var s := Exec(useDrop, Start(conns), es);
             WithinNumbers(s) && forall j :: 0 <= j < |ts| ==> Names(s, ts[j])
    ensures var s := Exec(useDrop, Start(conns), es);
            var t := Exec(useDrop, Start(conns), es + Hand(ts, now));
            t.nodes == s.nodes && t.arrived == s.arrived + ts
  {
    hide Exec;
    var s := Exec(useDrop, Start(conns), es);
    if ts == [] {
      Nil(es);
      Nil(s.arrived);
    } else {
      var n := |ts| - 1;
      HandsOver(useDrop, conns, es, ts[..n], now);
      HandedOver(useDrop, conns, es + Hand(ts[..n], now), ts[n].k, ts[n].i, now);
      assert es + Hand(ts, now) == es + Hand(ts[..n], now) + [Deliver(ts[n].k, ts[n].i, now)];
      assert s.arrived + ts == s.arrived + ts[..n] + [ts[n]];
    }
  }

  /** What each listener takes in when the payload reads on its connections deliver at most so much. */
  function Intakes(conns: seq<seq<ByteString>>, grants: seq<seq<Pos>>): (all: seq<seq<ByteString>>)
    requires |grants| == |conns|
    ensures |all| == |conns|
  {
    seq(|conns|, k requires 0 <= k < |conns| => Intake(conns[k], grants[k]))
  }

  /** No list has more messages than there are sequence numbers. */
  predicate InTable(msgs: seq<seq<ByteString>>) {
    forall k :: 0 <= k < |msgs| ==> |msgs[k]| <= SN_TABLE - 2
  }

  ghost predicate HasSent(n: L.Node, msgs: seq<ByteString>) {
    L.Taken(n) == n.w.enqueued == msgs && |n.m.sent| == |msgs|
  }

  /** The first n nodes have sent all they could take in, and nothing else has happened. */
  ghost predicate SentByFirst(s: System, conns: seq<seq<ByteString>>, msgs: seq<seq<ByteString>>, n: nat) {
    && |s.nodes| == |conns| == |msgs| && s.arrived == []
    && forall k :: 0 <= k < |conns| ==> if k < n then HasSent(s.nodes[k], msgs[k]) else s.nodes[k] == L.Start(conns[k])
  }

  /** They do so one node after the other. */
  lemma {:induction false} AllSend(useDrop: bool, conns: seq<seq<ByteString>>, grants: seq<seq<Pos>>, n: nat, now: real)
    returns (es: seq<Event>)
    requires n <= |conns| == |grants|
    ensures SentByFirst(Exec(useDrop, Start(conns), es), conns, Intakes(conns, grants), n)
  {
    hide Exec, L.Exec, L.Start, Intake, HasSent;
    if n == 0 {
      es := [];
      ExecNone(useDrop, Start(conns));
    } else {
      var before := AllSend(useDrop, conns, grants, n - 1, now);
      var moves := OneSends(conns[n - 1], grants[n - 1], now);
      es := before + Locals(n - 1, moves);
      ExecAppend(useDrop, Start(conns), before, Locals(n - 1, moves));
      LiftLocal(useDrop, Exec(useDrop, Start(conns), before), n - 1, moves);
    }
  }

  lemma {:induction false} OneSends(conns: seq<ByteString>, grants: seq<Pos>, now: real) returns (moves: seq<L.Move>)
    ensures HasSent(L.Exec(L.Start(conns), moves), Intake(conns, grants))
  {
    hide L.Exec, L.Start, Intake;
    moves := R.SendsIntake(conns, grants, now);
  }

  lemma ExecNone(useDrop: bool, s: System)
    ensures Exec(useDrop, s, []) == s
  {
  }

  /** The messages at these positions in the lists; positions beyond the sequence numbers do not exist. */
  ghost predicate Selects(msgs: seq<seq<ByteString>>, ts: seq<Tag>, got: seq<ByteString>) {
    && |ts| == |got|
    && forall j :: 0 <= j < |ts| ==>
         ts[j].k < |msgs| && ts[j].i < |msgs[ts[j].k]| && ts[j].i < SN_TABLE - 2 && got[j] == msgs[ts[j].k][ts[j].i]
  }

  /**
   Whatever byte streams the clients send and however the payload reads cut them: for every list of positions
   there is a run in which all that is taken in is sent and just these packets arrive, in this order. In drop
   mode the leaders among them are delivered, in the other modes all of them.
   */
  lemma {:induction false} EveryArrivalHappens(useDrop: bool, conns: seq<seq<ByteString>>, grants: seq<seq<Pos>>,
                                               ts: seq<Tag>, now: real)
    returns (es: seq<Event>)
    requires |grants| == |conns| && InTable(Intakes(conns, grants))
    requires var all := Intakes(conns, grants);
             forall j :: 0 <= j < |ts| ==> ts[j].k < |all| && ts[j].i < |all[ts[j].k]|
    ensures var s, all := Exec(useDrop, Start(conns), es), Intakes(conns, grants);
            && WithinNumbers(s)
            && |s.nodes| == |conns| && (forall k :: 0 <= k < |conns| ==> HasSent(s.nodes[k], all[k]))
            && s.arrived == ts && s.delivered == (if useDrop then Leaders(ts) else ts)
            && Selects(all, s.delivered, Peer.Decode(s.wire))
  {
    hide Exec, Peer.Decode, Leaders, Selects, Intake, L.Taken;
    var all := Intakes(conns, grants);
    var sends := AllSend(useDrop, conns, grants, |conns|, now);
    es := sends + Hand(ts, now);
    HandsOver(useDrop, conns, sends, ts, now);
    assert [] + ts == ts;
    var s := Exec(useDrop, Start(conns), es);
    assert forall k :: 0 <= k < |conns| ==> HasSent(s.nodes[k], all[k]);
    hide HasSent;
    DeliveredSelects(useDrop, conns, es);
    if useDrop {
      DeliveredAreLeaders(conns, es);
    } else {
      ClientDecodesDelivered(useDrop, conns, es);
    }
    assert TakenIn(s) == all by {
      SentIsTakenIn(s, all);
    }
  }

  lemma SentIsTakenIn(s: System, all: seq<seq<ByteString>>)
    requires |s.nodes| == |all| && forall k :: 0 <= k < |all| ==> HasSent(s.nodes[k], all[k])
    ensures TakenIn(s) == all
  {
  }

  lemma WithinNotOverrun(useDrop: bool, conns: seq<seq<ByteString>>, es: seq<Event>)
    requires WithinNumbers(Exec(useDrop, Start(conns), es))
    ensures !Exec(useDrop, Start(conns), es).overrun
  {
    hide Exec, NodesInv, ArrivedInv, DeliveredInv, WithinNumbers;
    Reachable(useDrop, conns, es);
  }

  function TakenIn(s: System): seq<seq<ByteString>> {
    seq(|s.nodes|, k requires 0 <= k < |s.nodes| => s.nodes[k].w.enqueued)
  }

  /** What is decoded is what the listeners took in, at the delivered positions. */
  lemma {:induction false} DeliveredSelects(useDrop: bool, conns: seq<seq<ByteString>>, es: seq<Event>)
    requires WithinNumbers(Exec(useDrop, Start(conns), es))
    ensures var s := Exec(useDrop, Start(conns), es);
            !s.overrun && |s.nodes| == |conns| && Selects(TakenIn(s), s.delivered, Peer.Decode(s.wire))
  {
    hide Exec, Peer.Decode, ParseAll, NodesInv, ArrivedInv, DeliveredInv;
    var s := Exec(useDrop, Start(conns), es);
    WithinNotOverrun(useDrop, conns, es);
    ClientDecodesDelivered(useDrop, conns, es);
    SameNodes(useDrop, conns, es);
    forall j | 0 <= j < |s.delivered|
      ensures var t := s.delivered[j];
              && t.k < |s.nodes| && t.i < |TakenIn(s)[t.k]| && t.i < SN_TABLE - 2
              && Peer.Decode(s.wire)[j] == TakenIn(s)[t.k][t.i]
    {
      assert Stands(s, conns, s.delivered[j], Peer.Decode(s.wire)[j]);
      assert |s.nodes[s.delivered[j].k].m.sent| <= SN_TABLE - 2;
    }
  }

  lemma SameNodes(useDrop: bool, conns: seq<seq<ByteString>>, es: seq<Event>)
    ensures |Exec(useDrop, Start(conns), es).nodes| == |conns|
  {
    hide Exec, ArrivedInv, DeliveredInv;
    Reachable(useDrop, conns, es);
  }

  /** No read is short if no socket ever delivers less than it could. */
  lemma {:induction false} WholeReads(useDrop: bool, conns: seq<seq<ByteString>>, es: seq<Event>)
    requires forall i :: 0 <= i < |es| && es[i].Local? && es[i].mv.WorkerMove? ==> es[i].mv.grant >= MAX_LENGTH_PAYLOAD
    ensures NoShortRead(Exec(useDrop, Start(conns), es))
  {
    if es != [] {
      hide Apply, NoShortRead;
      var n := |es| - 1;
      WholeReads(useDrop, conns, es[..n]);
      WholeReadsStep(useDrop, Exec(useDrop, Start(conns), es[..n]), es[n]);
    }
  }

  lemma WholeReadsStep(useDrop: bool, s: System, e: Event)
    requires NoShortRead(s)
    requires e.Local? && e.mv.WorkerMove? ==> e.mv.grant >= MAX_LENGTH_PAYLOAD
    ensures NoShortRead(Apply(useDrop, s, e))
  {
    hide L.Apply, Step, Judge, Frame;
    if e.Local? && e.k < |s.nodes| {
      L.WholeReadStep(s.nodes[e.k], e.mv);
    }
  }

  // ---------- What can come out, exactly ----------

  /** The receiving client can decode this list when the clients send these bytes. */
  ghost predicate Decodable(useDrop: bool, conns: seq<seq<ByteString>>, got: seq<ByteString>) {
    exists es: seq<Event> ::
      var s := Exec(useDrop, Start(conns), es); WithinNumbers(s) && Peer.Decode(s.wire) == got
  }

  /** The list is made of what the listeners take in with these reads; in drop mode, at growing positions. */
  ghost predicate Selectable(useDrop: bool, conns: seq<seq<ByteString>>, grants: seq<seq<Pos>>, ts: seq<Tag>,
                             got: seq<ByteString>) {
    |grants| == |conns| && Selects(Intakes(conns, grants), ts, got) && (useDrop ==> Ascending(ts))
  }

  /**
   What any number of senders and one receiver do, exactly, for arbitrary byte streams, any short reads and any
   network. The receiving client can decode the messages at any positions of what the listeners can take in --
   in drop mode at strictly growing ones, wherever they come from -- and nothing else.
   */
  lemma {:induction false} DecodableExactly(useDrop: bool, conns: seq<seq<ByteString>>, got: seq<ByteString>)
    ensures Decodable(useDrop, conns, got)
            <==> exists grants: seq<seq<Pos>>, ts: seq<Tag> :: Selectable(useDrop, conns, grants, ts, got)
  {
    hide Exec, Peer.Decode, Selectable, WithinNumbers;
    if Decodable(useDrop, conns, got) {
      var es: seq<Event> :|
        var s := Exec(useDrop, Start(conns), es); WithinNumbers(s) && Peer.Decode(s.wire) == got;
      DecodedSelectable(useDrop, conns, es);
    }
    if grants: seq<seq<Pos>>, ts: seq<Tag> :| Selectable(useDrop, conns, grants, ts, got) {
      var es := SelectableHappens(useDrop, conns, grants, ts, got);
    }
  }

  /** One direction: the reads that were made explain what was decoded. */
  lemma {:induction false} DecodedSelectable(useDrop: bool, conns: seq<seq<ByteString>>, es: seq<Event>)
    requires WithinNumbers(Exec(useDrop, Start(conns), es))
    ensures var s := Exec(useDrop, Start(conns), es);
            Selectable(useDrop, conns, GrantsOf(s), s.delivered, Peer.Decode(s.wire))
  {
    hide Exec, Peer.Decode, Intake, Ascending, Selects;
    var s := Exec(useDrop, Start(conns), es);
    DeliveredSelects(useDrop, conns, es);
    if useDrop {
      DropModeInOrder(conns, es);
    }
    forall k | 0 <= k < |conns| ensures TakenIn(s)[k] <= Intakes(conns, GrantsOf(s))[k] {
      TakenInByReads(useDrop, conns, es, k);
    }
    SelectsMore(TakenIn(s), Intakes(conns, GrantsOf(s)), s.delivered, Peer.Decode(s.wire));
  }

  function GrantsOf(s: System): seq<seq<Pos>> {
    seq(|s.nodes|, k requires 0 <= k < |s.nodes| => s.nodes[k].w.grants)
  }

  lemma TakenInByReads(useDrop: bool, conns: seq<seq<ByteString>>, es: seq<Event>, k: nat)
    requires k < |conns|
    ensures var s := Exec(useDrop, Start(conns), es);
            && |s.nodes| == |conns| && s.nodes[k].w.enqueued <= Intake(conns[k], s.nodes[k].w.grants)
            && (s.nodes[k].w.short <==> !(L.Taken(s.nodes[k]) <= ParseAll(conns[k])))
            && (!s.nodes[k].w.short ==> s.nodes[k].w.enqueued <= ParseAll(conns[k]))
  {
    hide Exec, ArrivedInv, DeliveredInv, ParseAll, Reads;
    Reachable(useDrop, conns, es);
    var n := Exec(useDrop, Start(conns), es).nodes[k];
    assert L.Inv(n, conns[k]);
    hide L.LockInv, L.CountInv, L.StampInv, L.StopInv;
    assert n.w.enqueued <= L.Taken(n);
    if !n.w.short {
      PrefixOfPrefix(n.w.enqueued, L.Taken(n), ParseAll(conns[k]));
    }
  }

  lemma PrefixOfPrefix(a: seq<ByteString>, b: seq<ByteString>, c: seq<ByteString>)
    requires a <= b <= c
    ensures a <= c
  {
  }

  lemma SelectsMore(msgs: seq<seq<ByteString>>, more: seq<seq<ByteString>>, ts: seq<Tag>, got: seq<ByteString>)
    requires Selects(msgs, ts, got) && |msgs| == |more| && forall k :: 0 <= k < |msgs| ==> msgs[k] <= more[k]
    ensures Selects(more, ts, got)
  {
  }

  /** The other: with no more reads than there are numbers, some run delivers just that. */
  lemma {:induction false} SelectableHappens(useDrop: bool, conns: seq<seq<ByteString>>, grants: seq<seq<Pos>>,
                                             ts: seq<Tag>, got: seq<ByteString>)
    returns (es: seq<Event>)
    requires Selectable(useDrop, conns, grants, ts, got)
    ensures var s := Exec(useDrop, Start(conns), es);
            && WithinNumbers(s) && Peer.Decode(s.wire) == got
            && |s.nodes| == |conns|
            && forall k :: 0 <= k < |conns| ==> L.Taken(s.nodes[k]) <= Intakes(conns, grants)[k]
  {
    hide Exec, Peer.Decode, Intake, Ascending, Leaders, L.Taken;
    var fewer := CutAll(conns, grants, |conns|);
    assert Selects(Intakes(conns, fewer), ts, got) by {
      SelectsFewer(Intakes(conns, grants), Intakes(conns, fewer), ts, got);
    }
    hide Selects;
    SelectsNames(Intakes(conns, fewer), ts, got);
    es := EveryArrivalHappens(useDrop, conns, fewer, ts, 0.0);
    AllLead(ts);
    SelectsOne(Intakes(conns, fewer), ts, got, Peer.Decode(Exec(useDrop, Start(conns), es).wire));
  }

  function Cut(msgs: seq<ByteString>): seq<ByteString> {
    msgs[..Min(|msgs|, SN_TABLE - 2)]
  }

  lemma {:induction false} CutAll(conns: seq<seq<ByteString>>, grants: seq<seq<Pos>>, n: nat)
    returns (fewer: seq<seq<Pos>>)
    requires n <= |conns| == |grants|
    ensures |fewer| == n && forall k :: 0 <= k < n ==> Intake(conns[k], fewer[k]) == Cut(Intake(conns[k], grants[k]))
  {
    hide Intake;
    if n == 0 {
      fewer := [];
    } else {
      var rest := CutAll(conns, grants, n - 1);
      var all := Intake(conns[n - 1], grants[n - 1]);
      var last := IntakePrefix(conns[n - 1], grants[n - 1], Min(|all|, SN_TABLE - 2));
      fewer := rest + [last];
    }
  }

  lemma SelectsFewer(msgs: seq<seq<ByteString>>, fewer: seq<seq<ByteString>>, ts: seq<Tag>, got: seq<ByteString>)
    requires Selects(msgs, ts, got) && |msgs| == |fewer| && forall k :: 0 <= k < |msgs| ==> fewer[k] == Cut(msgs[k])
    ensures Selects(fewer, ts, got)
  {
  }

  lemma SelectsNames(msgs: seq<seq<ByteString>>, ts: seq<Tag>, got: seq<ByteString>)
    requires Selects(msgs, ts, got)
    ensures forall j :: 0 <= j < |ts| ==> ts[j].k < |msgs| && ts[j].i < |msgs[ts[j].k]|
  {
  }

  lemma SelectsOne(msgs: seq<seq<ByteString>>, ts: seq<Tag>, xs: seq<ByteString>, ys: seq<ByteString>)
    requires Selects(msgs, ts, xs) && Selects(msgs, ts, ys)
    ensures xs == ys
  {
  }

  // ---------- What can come out when payloads are read in one piece ----------

  ghost predicate DecodableWhole(useDrop: bool, conns: seq<seq<ByteString>>, got: seq<ByteString>) {
    exists es: seq<Event> ::
      var s := Exec(useDrop, Start(conns), es); WithinNumbers(s) && NoShortRead(s) && Peer.Decode(s.wire) == got
  }

  /** What the clients have framed, according to the parser. */
  function Framed(conns: seq<seq<ByteString>>): seq<seq<ByteString>> {
    seq(|conns|, k requires 0 <= k < |conns| => ParseAll(conns[k]))
  }

  /** Then the messages are those that were framed. */
  lemma {:induction false} DecodableWholeExactly(useDrop: bool, conns: seq<seq<ByteString>>, got: seq<ByteString>)
    ensures DecodableWhole(useDrop, conns, got)
            <==> exists ts: seq<Tag> :: Selects(Framed(conns), ts, got) && (useDrop ==> Ascending(ts))
  {
    hide Exec, Peer.Decode, Selects, Ascending, WithinNumbers, NoShortRead, Framed;
    if DecodableWhole(useDrop, conns, got) {
      var es: seq<Event> :|
        var s := Exec(useDrop, Start(conns), es); WithinNumbers(s) && NoShortRead(s) && Peer.Decode(s.wire) == got;
      WholeSelects(useDrop, conns, es);
      if useDrop {
        DropModeInOrder(conns, es);
      }
    }
    if ts: seq<Tag> :| Selects(Framed(conns), ts, got) && (useDrop ==> Ascending(ts)) {
      var es := WholeHappens(useDrop, conns, ts, got);
    }
  }

  lemma {:induction false} WholeSelects(useDrop: bool, conns: seq<seq<ByteString>>, es: seq<Event>)
    requires var s := Exec(useDrop, Start(conns), es); WithinNumbers(s) && NoShortRead(s)
    ensures var s := Exec(useDrop, Start(conns), es); Selects(Framed(conns), s.delivered, Peer.Decode(s.wire))
  {
    hide Exec, Peer.Decode, ParseAll, Selects, Intake, L.Taken;
    var s := Exec(useDrop, Start(conns), es);
    DeliveredSelects(useDrop, conns, es);
    forall k | 0 <= k < |conns| ensures TakenIn(s)[k] <= Framed(conns)[k] {
      TakenInByReads(useDrop, conns, es, k);
    }
    SelectsMore(TakenIn(s), Framed(conns), s.delivered, Peer.Decode(s.wire));
  }

  lemma {:induction false} WholeHappens(useDrop: bool, conns: seq<seq<ByteString>>, ts: seq<Tag>, got: seq<ByteString>)
    returns (es: seq<Event>)
    requires Selects(Framed(conns), ts, got) && (useDrop ==> Ascending(ts))
    ensures var s := Exec(useDrop, Start(conns), es); WithinNumbers(s) && NoShortRead(s) && Peer.Decode(s.wire) == got
  {
    hide Exec, Peer.Decode, Ascending, Selects, Intake, ParseAll, L.Taken;
    var grants := WholeGrants(conns, |conns|);
    assert Intakes(conns, grants) == Framed(conns);
    es := SelectableHappens(useDrop, conns, grants, ts, got);
    TakenWhole(useDrop, conns, es);
  }

  /** Listeners that have taken in framed messages only have read all their payloads in one piece. */
  lemma TakenWhole(useDrop: bool, conns: seq<seq<ByteString>>, es: seq<Event>)
    requires var s := Exec(useDrop, Start(conns), es);
             |s.nodes| == |conns| && forall k :: 0 <= k < |conns| ==> L.Taken(s.nodes[k]) <= ParseAll(conns[k])
    ensures NoShortRead(Exec(useDrop, Start(conns), es))
  {
    hide Exec, ParseAll, Intake, L.Taken;
    forall k | 0 <= k < |conns| ensures !Exec(useDrop, Start(conns), es).nodes[k].w.short {
      TakenInByReads(useDrop, conns, es, k);
    }
  }

  /** And they send no more than their clients framed. */
  lemma {:induction false} NoShortReadWithin(useDrop: bool, conns: seq<seq<ByteString>>, es: seq<Event>)
    requires NoShortRead(Exec(useDrop, Start(conns), es)) && InTable(Framed(conns))
    ensures WithinNumbers(Exec(useDrop, Start(conns), es))
  {
    hide Exec, ParseAll, ArrivedInv, DeliveredInv;
    Reachable(useDrop, conns, es);
    var s := Exec(useDrop, Start(conns), es);
    forall k | 0 <= k < |s.nodes| ensures |s.nodes[k].m.sent| <= SN_TABLE - 2 {
      assert |Framed(conns)[k]| <= SN_TABLE - 2;
      if s.nodes[k].m.sent != [] {
        StampOf(s, Tag(k, 0), conns);
      }
    }
  }

  lemma {:induction false} WholeGrants(conns: seq<seq<ByteString>>, n: nat) returns (grants: seq<seq<Pos>>)
    requires n <= |conns|
    ensures |grants| == n && forall k :: 0 <= k < n ==> Intake(conns[k], grants[k]) == ParseAll(conns[k])
  {
    hide Intake, ParseAll;
    if n == 0 {
      grants := [];
    } else {
      var rest := WholeGrants(conns, n - 1);
      var last: seq<Pos> := seq(|ParseAll(conns[n - 1])| + |conns[n - 1]|, _ => MAX_LENGTH_PAYLOAD);
      WholeIntake(conns[n - 1], last);
      grants := rest + [last];
    }
  }

  /** With one sender these are the subsequences of what its client framed. */
  lemma {:induction false} DecodableFromOne(msgs: seq<ByteString>, got: seq<ByteString>)
    requires AllSendable(msgs) && |msgs| <= SN_TABLE - 2
    ensures (exists es: seq<Event> ::
               var s := Exec(true, Start([[Encode(msgs)]]), es); NoShortRead(s) && Peer.Decode(s.wire) == got)
            <==> IsSubsequence(got, msgs)
  {
    hide Exec, Encode, Parse, Peer.Decode, NoShortRead, WithinNumbers;
    var conns := [[Encode(msgs)]];
    SingleConnection(msgs);
    assert Framed(conns) == [msgs];
    DecodableWholeExactly(true, conns, got);
    if es: seq<Event> :|
         var s := Exec(true, Start(conns), es); NoShortRead(s) && Peer.Decode(s.wire) == got {
      NoShortReadWithin(true, conns, es);
    }
    SelectsFromOne(msgs, got);
  }

  lemma SelectsFromOne(msgs: seq<ByteString>, got: seq<ByteString>)
    requires |msgs| <= SN_TABLE - 2
    ensures (exists ts: seq<Tag> :: Selects([msgs], ts, got) && Ascending(ts)) <==> IsSubsequence(got, msgs)
  {
    if ts: seq<Tag> :| Selects([msgs], ts, got) && Ascending(ts) {
      var idx := seq(|ts|, j requires 0 <= j < |ts| => ts[j].i);
      assert Embeds(idx, got, msgs);
    }
    if idx: seq<nat> :| Embeds(idx, got, msgs) {
      var ts := seq(|idx|, j requires 0 <= j < |idx| => Tag(0, idx[j]));
      assert Selects([msgs], ts, got) && Ascending(ts);
    }
  }

  /** Whole reads of well-formed connections, one to a node. */
  lemma {:induction false} FramedIntakes(msgs: seq<seq<ByteString>>)
    returns (conns: seq<seq<ByteString>>, grants: seq<seq<Pos>>)
    requires forall k :: 0 <= k < |msgs| ==> AllSendable(msgs[k])
    ensures |conns| == |msgs|
    ensures forall k :: 0 <= k < |msgs| ==> conns[k] == [Encode(msgs[k])] && ParseAll(conns[k]) == msgs[k]
    ensures |grants| == |conns| && Intakes(conns, grants) == msgs
  {
    hide Encode, ParseAll, Intake;
    conns := seq(|msgs|, k requires 0 <= k < |msgs| => [Encode(msgs[k])]);
    grants := WholeGrants(conns, |conns|);
    forall k | 0 <= k < |msgs| ensures Intake(conns[k], grants[k]) == msgs[k] {
      SingleConnection(msgs[k]);
    }
  }

  /** There is a loss-free run that delivers everything. */
  lemma {:induction false} LosslessRun(msgs: seq<ByteString>, now: real) returns (es: seq<Event>)
    requires AllSendable(msgs) && |msgs| <= SN_TABLE - 2
    ensures var s := Exec(true, Start([[Encode(msgs)]]), es);
            && WithinNumbers(s) && LosslessFifo(s) && NoShortRead(s) && |s.nodes[0].m.sent| == |msgs|
            && Peer.Decode(s.wire) == msgs
  {
    hide Exec, Encode, Peer.Decode, Intake, ParseAll, Selects, L.Taken, NoShortRead;
    var ts := seq(|msgs|, j requires 0 <= j < |msgs| => Tag(0, j));
    var conns, grants := FramedIntakes([msgs]);
    assert conns == [[Encode(msgs)]];
    es := EveryArrivalHappens(true, conns, grants, ts, now);
    EndToEndLossless(msgs, es);
    TakenWhole(true, conns, es);
  }

  /**
   Senders that share a receiver take messages from one another, even without any loss: for any two clients
   there is a run in which each node sends all its client framed, the first packets of both arrive, and only
   the one that arrives first is delivered.
   */
  lemma {:induction false} SendersCollide(msgsA: seq<ByteString>, msgsB: seq<ByteString>, now: real)
    returns (es: seq<Event>)
    requires AllSendable(msgsA) && 1 <= |msgsA| <= SN_TABLE - 2
    requires AllSendable(msgsB) && 1 <= |msgsB| <= SN_TABLE - 2
    ensures var s := Exec(true, Start([[Encode(msgsA)], [Encode(msgsB)]]), es);
            && |s.nodes| == 2 && |s.nodes[0].m.sent| == |msgsA| && |s.nodes[1].m.sent| == |msgsB|
            && WithinNumbers(s) && NoShortRead(s)
            && s.arrived == [Tag(0, 0), Tag(1, 0)] && s.delivered == [Tag(0, 0)]
            && Peer.Decode(s.wire) == [msgsA[0]]
  {
    hide Exec, Encode, Peer.Decode, Leaders, Intake, ParseAll, L.Taken, NoShortRead;
    var conns, grants := FramedIntakes([msgsA, msgsB]);
    assert conns == [[Encode(msgsA)], [Encode(msgsB)]];
    es := EveryArrivalHappens(true, conns, grants, [Tag(0, 0), Tag(1, 0)], now);
    LeadersOfTwo(Tag(0, 0), Tag(1, 0));
    TakenWhole(true, conns, es);
  }

  lemma LeadersOfTwo(t: Tag, u: Tag)
    requires u.i <= t.i
    ensures Leaders([t, u]) == [t]
  {
    LeadersSnoc([], t);
    LeadersSnoc([t], u);
    assert [t] + [u] == [t, u];
    assert [t][0].i >= u.i;
  }
}
