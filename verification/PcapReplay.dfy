/**
 * Choosing and batching captured UDP packets: duplicates within a window are dropped, and what is
 * kept goes out in batches, one for each tick. Times and rates are reals.
 */
module PcapReplay {
  import opened Reals
  import opened Sequences
  import opened Wrappers

  type Payload = seq<int>

  datatype Packet = Packet(time: real, srcIp: string, srcPort: int, dstIp: string, dstPort: int, payload: Payload)

  /** A captured packet, UDP over IP or anything else. */
  datatype Raw = Udp(packet: Packet) | Other

  datatype Options = Options(
    dstIp: string,
    dstPort: Option<int>,
    srcIp: Option<string>,
    srcPort: Option<int>,
    limit: Option<int>,
    dedupeWindow: real)

  datatype Key = Key(srcIp: string, srcPort: int, dstIp: string, dstPort: int, payload: Payload)

  // ---------------------------------------------------------------------------------------
  // Packets
  // ---------------------------------------------------------------------------------------

  /** Addresses and ports are replaced where the options say so; this comes before looking for duplicates. */
  function Rewritten(p: Packet, o: Options): Packet {
    p.(dstIp := if o.dstIp != "" then o.dstIp else p.dstIp,
       srcIp := if o.srcIp.Some? then o.srcIp.value else p.srcIp,
       dstPort := if o.dstPort.Some? then o.dstPort.value else p.dstPort,
       srcPort := if o.srcPort.Some? then o.srcPort.value else p.srcPort)
  }

  function KeyOf(p: Packet): Key {
    Key(p.srcIp, p.srcPort, p.dstIp, p.dstPort, p.payload)
  }

  function UdpPackets(raw: seq<Raw>, o: Options): seq<Packet> {
    if raw == [] then []
    else UdpPackets(Front(raw), o) + if Last(raw).Udp? then [Rewritten(Last(raw).packet, o)] else []
  }

  // ---------------------------------------------------------------------------------------
  // What is kept
  // ---------------------------------------------------------------------------------------

  /** A packet repeats a kept one if it has the same key and comes no later than the window after it. */
  predicate Repeats(p: Packet, earlier: Packet, window: real) {
    KeyOf(p) == KeyOf(earlier) && p.time - earlier.time <= window
  }

  /** Only a positive window makes duplicates. */
  predicate Duplicate(p: Packet, kept: seq<Packet>, window: real) {
    window > 0.0 && exists i :: 0 <= i < |kept| && Repeats(p, kept[i], window)
  }

  /** A packet is kept unless it repeats one kept before. */
  function Kept(packets: seq<Packet>, window: real): seq<Packet> {
    if packets == [] then []
    else
      var kept := Kept(Front(packets), window);
      var p := Last(packets);
      if Duplicate(p, kept, window) then kept else kept + [p]
  }

  ghost predicate Apart(kept: seq<Packet>, window: real) {
    forall i, j :: 0 <= i < j < |kept| && KeyOf(kept[i]) == KeyOf(kept[j]) ==> kept[j].time - kept[i].time > window
  }

  /** Kept packets with the same key are pairwise more than the window apart, in the order they were captured. */
  lemma {:induction false} KeptAreApart(packets: seq<Packet>, window: real)
    requires window > 0.0
    ensures Apart(Kept(packets, window), window)
  {
    if packets != [] {
      KeptAreApart(Front(packets), window);
      var kept, p := Kept(Front(packets), window), Last(packets);
      forall i | 0 <= i < |kept| && !Repeats(p, kept[i], window) && KeyOf(kept[i]) == KeyOf(p)
        ensures p.time - kept[i].time > window
      {
      }
    }
  }

  /** What is kept of a longer capture begins with what is kept of a shorter one. */
  lemma {:induction false} KeptGrows(packets: seq<Packet>, n: nat, window: real)
    requires n <= |packets|
    ensures Kept(packets[..n], window) <= Kept(packets, window)
  {
    if n == |packets| {
      assert packets[..n] == packets;
    } else {
      KeptGrows(Front(packets), n, window);
      assert Front(packets)[..n] == packets[..n];
    }
  }

  /** A packet is dropped exactly when it repeats one that was captured and kept before it. */
  lemma DroppedIffRepeats(packets: seq<Packet>, n: nat, window: real)
    requires window > 0.0 && n < |packets|
    ensures var kept := Kept(packets[..n], window);
            var dropped := Kept(packets[..n + 1], window) == kept;
            && (dropped <==> exists i :: 0 <= i < |kept| && Repeats(packets[n], kept[i], window))
            && (!dropped ==> Kept(packets[..n + 1], window) == kept + [packets[n]])
  {
    assert Front(packets[..n + 1]) == packets[..n] && Last(packets[..n + 1]) == packets[n];
  }

  // ---------------------------------------------------------------------------------------
  // The selection loop
  // ---------------------------------------------------------------------------------------

  /** The last time a key was kept stands for all of them, since kept times grow. */
  ghost predicate Remembers(seen: map<Key, real>, kept: seq<Packet>) {
    && (forall i :: 0 <= i < |kept| ==> KeyOf(kept[i]) in seen && kept[i].time <= seen[KeyOf(kept[i])])
    && (forall k :: k in seen ==> exists i :: 0 <= i < |kept| && KeyOf(kept[i]) == k && kept[i].time == seen[k])
  }

  lemma LatestDecides(seen: map<Key, real>, kept: seq<Packet>, p: Packet, window: real)
    requires window > 0.0 ==> Remembers(seen, kept)
    ensures Duplicate(p, kept, window) <==> window > 0.0 && KeyOf(p) in seen && p.time - seen[KeyOf(p)] <= window
  {
    if window > 0.0 && KeyOf(p) in seen && p.time - seen[KeyOf(p)] <= window {
      var i :| 0 <= i < |kept| && KeyOf(kept[i]) == KeyOf(p) && kept[i].time == seen[KeyOf(p)];
      assert Repeats(p, kept[i], window);
    }
  }

  lemma RemembersNext(seen: map<Key, real>, kept: seq<Packet>, p: Packet, window: real)
    requires window > 0.0 && Remembers(seen, kept) && !Duplicate(p, kept, window)
    ensures Remembers(seen[KeyOf(p) := p.time], kept + [p])
  {
    var longer, later := kept + [p], seen[KeyOf(p) := p.time];
    forall i | 0 <= i < |longer| ensures KeyOf(longer[i]) in later && longer[i].time <= later[KeyOf(longer[i])] {
      if i < |kept| {
        assert longer[i] == kept[i] && !Repeats(p, kept[i], window);
      }
    }
    forall k | k in later ensures exists i :: 0 <= i < |longer| && KeyOf(longer[i]) == k && longer[i].time == later[k] {
      if k == KeyOf(p) {
        assert KeyOf(longer[|kept|]) == k && longer[|kept|].time == later[k];
      } else {
        var i :| 0 <= i < |kept| && KeyOf(kept[i]) == k && kept[i].time == seen[k];
        assert KeyOf(longer[i]) == k && longer[i].time == later[k];
      }
    }
  }

  predicate Full(count: nat, limit: Option<int>) {
    limit.Some? && count >= limit.value
  }

  /** The UDP packets among the first packets of a capture, and what is kept of them. */
  function UdpOf(raw: seq<Raw>, n: nat, o: Options): seq<Packet>
    requires n <= |raw|
  {
    UdpPackets(raw[..n], o)
  }

  function KeptOf(raw: seq<Raw>, n: nat, o: Options): seq<Packet>
    requires n <= |raw|
  {
    Kept(UdpOf(raw, n, o), o.dedupeWindow)
  }

  lemma FirstPackets(raw: seq<Raw>, o: Options)
    ensures UdpOf(raw, 0, o) == [] && KeptOf(raw, 0, o) == [] && Remembers(map[], [])
  {
  }

  lemma NextPacket(raw: seq<Raw>, n: nat, o: Options)
    requires n < |raw|
    ensures UdpOf(raw, n + 1, o) == UdpOf(raw, n, o) + if raw[n].Udp? then [Rewritten(raw[n].packet, o)] else []
    ensures KeptOf(raw, n + 1, o) ==
            if raw[n].Udp? && !Duplicate(Rewritten(raw[n].packet, o), KeptOf(raw, n, o), o.dedupeWindow)
            then KeptOf(raw, n, o) + [Rewritten(raw[n].packet, o)]
            else KeptOf(raw, n, o)
  {
    assert Front(raw[..n + 1]) == raw[..n] && Last(raw[..n + 1]) == raw[n];
    var before := UdpPackets(raw[..n], o);
    if raw[n].Udp? {
      var p := Rewritten(raw[n].packet, o);
      assert Front(before + [p]) == before && Last(before + [p]) == p;
    } else {
      assert before + [] == before;
    }
  }

  ghost predicate Unfilled(raw: seq<Raw>, n: nat, o: Options)
    requires n <= |raw|
  {
    KeptOf(raw, n, o) == [] || o.limit.None? || |KeptOf(raw, n, o)| < o.limit.value
  }

  /**
   * Keeps what is to be kept of the packets read, and reads no further than the packet that fills the
   * limit.
   */
  method SelectUdpPackets(raw: seq<Raw>, o: Options) returns (read: nat, udp: nat, selected: seq<Packet>)
    ensures read <= |raw| && udp == |UdpOf(raw, read, o)| && selected == KeptOf(raw, read, o)
    ensures read < |raw| ==> o.limit.Some? && o.limit.value <= |selected|
    ensures forall n :: 0 <= n < read ==> Unfilled(raw, n, o)
  {
    hide Remembers, Duplicate, KeptOf, UdpOf, Rewritten, Unfilled;
    read, udp, selected := 0, 0, [];
    var seen: map<Key, real> := map[];
    FirstPackets(raw, o);
    while read < |raw|
      invariant read <= |raw| && udp == |UdpOf(raw, read, o)| && selected == KeptOf(raw, read, o)
      invariant o.dedupeWindow > 0.0 ==> Remembers(seen, selected)
      invariant selected == [] || !Full(|selected|, o.limit)
      invariant forall n :: 0 <= n < read ==> Unfilled(raw, n, o)
    {
      NextPacket(raw, read, o);
      StillUnfilled(raw, read, o);
      var item := raw[read];
      read := read + 1;
      if item.Udp? {
        var p := Rewritten(item.packet, o);
        udp := udp + 1;
        LatestDecides(seen, selected, p, o.dedupeWindow);
        if o.dedupeWindow > 0.0 {
          var key := KeyOf(p);
          if key in seen && p.time - seen[key] <= o.dedupeWindow {
            continue;
          }
          RemembersNext(seen, selected, p, o.dedupeWindow);
          seen := seen[key := p.time];
        }
        selected := selected + [p];
        if o.limit.Some? && |selected| >= o.limit.value {
          break;
        }
      }
    }
  }

  lemma StillUnfilled(raw: seq<Raw>, n: nat, o: Options)
    requires n <= |raw|
    requires KeptOf(raw, n, o) == [] || !Full(|KeptOf(raw, n, o)|, o.limit)
    ensures Unfilled(raw, n, o)
  {
  }

  /** A packet repeats another of the same sender, receiver and payload that is no more than the window older. */
  lemma RepeatsIff(p: Packet, earlier: Packet, window: real)
    ensures Repeats(p, earlier, window) <==>
            && p.srcIp == earlier.srcIp && p.srcPort == earlier.srcPort
            && p.dstIp == earlier.dstIp && p.dstPort == earlier.dstPort
            && p.payload == earlier.payload && p.time <= earlier.time + window
  {
  }

  /** Rewriting keeps time and payload, and every address and port that no option replaces. */
  lemma RewrittenIs(p: Packet, o: Options)
    ensures var q := Rewritten(p, o);
            && q.time == p.time && q.payload == p.payload
            && q.dstIp == (if |o.dstIp| > 0 then o.dstIp else p.dstIp) && (o.srcIp.None? ==> q.srcIp == p.srcIp)
            && (forall ip :: o.srcIp == Some(ip) ==> q.srcIp == ip)
            && (forall port :: o.dstPort == Some(port) ==> q.dstPort == port)
            && (forall port :: o.srcPort == Some(port) ==> q.srcPort == port)
            && (o.dstPort.None? ==> q.dstPort == p.dstPort) && (o.srcPort.None? ==> q.srcPort == p.srcPort)
  {
  }

  /** Keys are compared after rewriting: packets to different hosts count as one when the host is replaced. */
  lemma HostsMergeIffReplaced(p: Packet, host: string, o: Options)
    ensures KeyOf(Rewritten(p, o)) == KeyOf(Rewritten(p.(dstIp := host), o)) <==> o.dstIp != "" || host == p.dstIp
  {
  }

  // ---------------------------------------------------------------------------------------
  // Batches
  // ---------------------------------------------------------------------------------------

  /** The tick a packet falls into, counted from the first packet; earlier ones fall into the first. */
  function Tick(p: Packet, first: real, rate: real): (tick: int)
    requires rate > 0.0
  {
    (Max(0.0, p.time - first) / (1.0 / rate)).Floor
  }

  /** A tick is the interval of one over the rate that the packet's offset lies in, its start included. */
  lemma TickIsInterval(p: Packet, first: real, rate: real)
    requires rate > 0.0
    ensures var k, offset := Tick(p, first, rate), Max(0.0, p.time - first);
            k >= 0 && k as real * (1.0 / rate) <= offset < (k + 1) as real * (1.0 / rate)
  {
    var tick, offset := 1.0 / rate, Max(0.0, p.time - first);
    QuotientGrows(0.0, offset, rate);
    var q := offset / tick;
    var k := q.Floor;
    assert q * tick == offset;
    Scales(k as real, q, tick);
    StrictlyScales(q, (k + 1) as real, tick);
  }

  lemma Scales(a: real, b: real, c: real)
    requires a <= b && c > 0.0
    ensures a * c <= b * c
  {
  }

  lemma StrictlyScales(a: real, b: real, c: real)
    requires a < b && c > 0.0
    ensures a * c < b * c
  {
  }

  /** The packets of one tick, in order. */
  function OfTick(packets: seq<Packet>, first: real, rate: real, tick: int): seq<Packet>
    requires rate > 0.0
  {
    if packets == [] then []
    else
      OfTick(Front(packets), first, rate, tick)
      + if Tick(Last(packets), first, rate) == tick then [Last(packets)] else []
  }

  /** A new batch begins where the tick changes. */
  function Batches(packets: seq<Packet>, first: real, rate: real): (batches: seq<seq<Packet>>)
    requires rate > 0.0
    ensures forall i :: 0 <= i < |batches| ==> batches[i] != []
    ensures batches != [] <==> packets != []
    ensures packets != [] ==> Last(Last(batches)) == Last(packets)
  {
    if packets == [] then []
    else
      var before := Batches(Front(packets), first, rate);
      var p := Last(packets);
      if before != [] && Tick(Last(Last(before)), first, rate) == Tick(p, first, rate)
      then Front(before) + [Last(before) + [p]]
      else before + [[p]]
  }

  /** No packet is lost or moved. */
  lemma {:induction false} BatchesFlatten(packets: seq<Packet>, first: real, rate: real)
    requires rate > 0.0
    ensures Flatten(Batches(packets, first, rate)) == packets
  {
    if packets != [] {
      BatchesFlatten(Front(packets), first, rate);
      var before, after := Batches(Front(packets), first, rate), Batches(packets, first, rate);
      var p := Last(packets);
      assert packets == Front(packets) + [p];
      if |after| == |before| {
        assert Front(after) == Front(before) && Last(after) == Last(before) + [p];
      } else {
        assert Front(after) == before && Last(after) == [p];
      }
    }
  }

  ghost predicate InOrder(packets: seq<Packet>) {
    forall i, j :: 0 <= i < j < |packets| ==> packets[i].time <= packets[j].time
  }

  lemma TicksGrow(p: Packet, q: Packet, first: real, rate: real)
    requires rate > 0.0 && p.time <= q.time
    ensures Tick(p, first, rate) <= Tick(q, first, rate)
  {
    QuotientGrows(Max(0.0, p.time - first), Max(0.0, q.time - first), rate);
  }

  lemma QuotientGrows(a: real, b: real, rate: real)
    requires rate > 0.0 && 0.0 <= a <= b
    ensures 1.0 / rate > 0.0 && a / (1.0 / rate) <= b / (1.0 / rate)
  {
    var tick := 1.0 / rate;
    assert tick * rate == 1.0;
    assert tick > 0.0;
    var x, y := a / tick, b / tick;
    assert x * tick == a && y * tick == b;
    assert (y - x) * tick == b - a;
  }

  ghost predicate OneTick(batch: seq<Packet>, packets: seq<Packet>, first: real, rate: real)
    requires rate > 0.0
  {
    batch != [] && batch == OfTick(packets, first, rate, Tick(batch[0], first, rate))
  }

  /** The batches are the ticks that have packets, in order. */
  ghost predicate ByTick(batches: seq<seq<Packet>>, packets: seq<Packet>, first: real, rate: real)
    requires rate > 0.0
  {
    && (forall i :: 0 <= i < |batches| ==> OneTick(batches[i], packets, first, rate))
    && (forall i, j :: 0 <= i < j < |batches| ==>
          batches[i] != [] && batches[j] != [] && Tick(batches[i][0], first, rate) < Tick(batches[j][0], first, rate))
  }

  lemma {:induction false} NothingOfLaterTick(packets: seq<Packet>, first: real, rate: real, tick: int)
    requires rate > 0.0 && forall i :: 0 <= i < |packets| ==> Tick(packets[i], first, rate) != tick
    ensures OfTick(packets, first, rate, tick) == []
  {
    if packets != [] {
      NothingOfLaterTick(Front(packets), first, rate, tick);
    }
  }

  lemma {:induction false} OfTickHasTick(packets: seq<Packet>, first: real, rate: real, tick: int)
    requires rate > 0.0
    ensures forall i :: 0 <= i < |OfTick(packets, first, rate, tick)| ==>
              Tick(OfTick(packets, first, rate, tick)[i], first, rate) == tick
  {
    if packets != [] {
      OfTickHasTick(Front(packets), first, rate, tick);
    }
  }

  lemma TicksInOrder(packets: seq<Packet>, first: real, rate: real)
    requires rate > 0.0 && InOrder(packets) && packets != []
    ensures forall i :: 0 <= i < |packets| ==> Tick(packets[i], first, rate) <= Tick(Last(packets), first, rate)
  {
    forall i | 0 <= i < |packets| ensures Tick(packets[i], first, rate) <= Tick(Last(packets), first, rate) {
      TicksGrow(packets[i], Last(packets), first, rate);
    }
  }

  function Added(before: seq<seq<Packet>>, p: Packet, first: real, rate: real): seq<seq<Packet>>
    requires rate > 0.0 && before != [] && Last(before) != []
  {
    if Tick(Last(Last(before)), first, rate) == Tick(p, first, rate)
    then Front(before) + [Last(before) + [p]]
    else before + [[p]]
  }

  lemma AddToTicks(before: seq<seq<Packet>>, front: seq<Packet>, p: Packet, first: real, rate: real)
    requires rate > 0.0 && front != [] && before != [] && Last(before) != [] && ByTick(before, front, first, rate)
    requires Last(Last(before)) == Last(front)
    requires forall i :: 0 <= i < |front| ==> Tick(front[i], first, rate) <= Tick(Last(front), first, rate)
    requires Tick(Last(front), first, rate) <= Tick(p, first, rate)
    ensures ByTick(Added(before, p, first, rate), front + [p], first, rate)
  {
    hide Tick;
    var last, tick := Last(before), Tick(p, first, rate);
    var packets := front + [p];
    assert Front(packets) == front && Last(packets) == p;
    assert OneTick(last, front, first, rate);
    OfTickHasTick(front, first, rate, Tick(last[0], first, rate));
    assert Tick(last[0], first, rate) == Tick(Last(last), first, rate);
    if Tick(last[0], first, rate) == tick {
      assert OneTick(last + [p], packets, first, rate);
      forall i | 0 <= i < |before| - 1 ensures OneTick(before[i], packets, first, rate) {
        assert OneTick(before[i], front, first, rate);
      }
    } else {
      NothingOfLaterTick(front, first, rate, tick);
      assert OneTick([p], packets, first, rate);
      forall i | 0 <= i < |before| ensures OneTick(before[i], packets, first, rate) {
        assert OneTick(before[i], front, first, rate);
      }
    }
  }

  /** When the capture times do not fall, each batch is exactly the packets of one tick, and ticks strictly increase. */
  lemma {:induction false} BatchesAreTicks(packets: seq<Packet>, first: real, rate: real)
    requires rate > 0.0 && InOrder(packets)
    ensures ByTick(Batches(packets, first, rate), packets, first, rate)
  {
    hide Tick;
    if packets != [] {
      var front, p := Front(packets), Last(packets);
      BatchesAreTicks(front, first, rate);
      TicksInOrder(packets, first, rate);
      if front == [] {
        assert OfTick(front, first, rate, Tick(p, first, rate)) == [];
        assert OneTick([p], packets, first, rate);
        assert Batches(front, first, rate) == [] && Batches(packets, first, rate) == [[p]];
      } else {
        TicksInOrder(front, first, rate);
        assert Last(front) == packets[|packets| - 2] && packets == front + [p];
        var before := Batches(front, first, rate);
        AddToTicks(before, front, p, first, rate);
        assert Batches(packets, first, rate) == Added(before, p, first, rate);
        hide ByTick, Batches, Added;
      }
    }
  }

  method FixedRatePacketBatches(packets: seq<Packet>, rate: real) returns (batches: seq<seq<Packet>>)
    ensures rate > 0.0 && packets != [] ==> batches == Batches(packets, packets[0].time, rate)
    ensures rate <= 0.0 ==> |batches| == |packets| && forall i :: 0 <= i < |packets| ==> batches[i] == [packets[i]]
    ensures packets == [] ==> batches == []
  {
    batches := [];
    if packets == [] {
      return;
    }
    if rate <= 0.0 {
      return seq(|packets|, i requires 0 <= i < |packets| => [packets[i]]);
    }
    var tick, first := 1.0 / rate, packets[0].time;
    var currentIndex, current: seq<Packet> := 0, [];
    for n := 0 to |packets|
      invariant current == [] <==> n == 0
      invariant n == 0 ==> batches == []
      invariant n > 0 ==> currentIndex == Tick(Last(current), first, rate)
      invariant n > 0 ==> batches + [current] == Batches(packets[..n], first, rate)
    {
      var p := packets[n];
      assert Front(packets[..n + 1]) == packets[..n] && Last(packets[..n + 1]) == p;
      var offset := Max(0.0, p.time - first);
      var index := (offset / tick).Floor;
      assert index == Tick(p, first, rate);
      if current == [] {
        currentIndex := index;
        current := current + [p];
        assert current == [p] && Batches(packets[..n], first, rate) == [] && [] + [[p]] == [[p]];
        continue;
      }
      assert Front(batches + [current]) == batches && Last(batches + [current]) == current;
      if index == currentIndex {
        current := current + [p];
        continue;
      }
      batches := batches + [current];
      currentIndex := index;
      current := [p];
    }
    assert packets[..|packets|] == packets;
    if current != [] {
      batches := batches + [current];
    }
  }
}
