/**
 * The probe (core/modules/probe.c): for each IPv4 TCP/UDP packet whose
 * identification field shares a bit with the marker the sampler writes, it
 * takes a report record from the pool and fills it with the packet's
 * addresses, ports and protocol, the probe's id and one timestamp read before
 * the loop; the filled records are then offered to the ring in one burst.
 * The packets are only read.
 *
 * The pool, the ring and the clock are parameters: whether each pool get
 * succeeds, how many records the ring accepts, and the timestamp value.
 */
module Probe {
  import opened Bits
  import opened Headers
  import FlowCount
  import FlowTable

  /** `struct report` of core/modules/probe.c. */
  datatype Report = Report(srcAddr: u64, dstAddr: u64, srcPort: u64, dstPort: u64, protocol: u64,
                           probeId: u32, timeStamp: real)

  /** `(ip->packet_id & rte_cpu_to_be_16(0xBEEF)) != 0`. */
  predicate SharesMarkBit(p: Packet)
  {
    And(Load16(p, PACKET_ID), CpuToBe16(MARK)) != 0
  }

  /** The packets the probe reports on. */
  predicate Reportable(p: Packet)
  {
    IsIPv4(p) && IsTcpOrUdp(p) && SharesMarkBit(p)
  }

  /** The record filled for packet `p`: `probe_id` is the `int` id cast to `uint32_t`. */
  function MakeReport(p: Packet, id: int, now: real): (r: Report)
    ensures r.protocol == Protocol(p) && r.probeId == id % 0x1_0000_0000 && r.timeStamp == now
  {
    Report(Load32(p, SRC_ADDR), Load32(p, DST_ADDR), SrcPort(p), DstPort(p), Protocol(p),
           id % 0x1_0000_0000, now)
  }

  /** The records of `probe_process_batch` in packet order: one for each reportable
      packet whose pool get (`poolOk[i]`) succeeds. */
  function Reports(batch: seq<Packet>, poolOk: seq<bool>, id: int, now: real): (r: seq<Report>)
    requires |poolOk| == |batch|
    decreases |batch|
  {
    if batch == [] then []
    else
      var m := |batch| - 1;
      Reports(batch[..m], poolOk[..m], id, now) +
      (if Reportable(batch[m]) && poolOk[m] then [MakeReport(batch[m], id, now)] else [])
  }

  /** The number of packets that are reported on. */
  function Reported(batch: seq<Packet>, poolOk: seq<bool>): (c: nat)
    requires |poolOk| == |batch|
    ensures c <= |batch|
    decreases |batch|
  {
    if batch == [] then 0
    else
      var m := |batch| - 1;
      Reported(batch[..m], poolOk[..m]) + (if Reportable(batch[m]) && poolOk[m] then 1 else 0)
  }

  /** At most one record per packet: exactly one per reported packet. */
  lemma {:induction false} ReportsCount(batch: seq<Packet>, poolOk: seq<bool>, id: int, now: real)
    requires |poolOk| == |batch|
    ensures |Reports(batch, poolOk, id, now)| == Reported(batch, poolOk) <= |batch|
    decreases |batch|
  {
    if batch != [] {
      var m := |batch| - 1;
      ReportsCount(batch[..m], poolOk[..m], id, now);
    }
  }

  /** Every record comes from a reportable packet of the batch whose pool get succeeded,
      and carries that packet's fields, the probe's id and the batch's timestamp. */
  lemma {:induction false} ReportsFromPackets(batch: seq<Packet>, poolOk: seq<bool>, id: int, now: real)
    requires |poolOk| == |batch|
    ensures forall r :: r in Reports(batch, poolOk, id, now) ==>
      exists i :: 0 <= i < |batch| && Reportable(batch[i]) && poolOk[i] && r == MakeReport(batch[i], id, now)
    decreases |batch|
  {
    if batch != [] {
      var m := |batch| - 1;
      ReportsFromPackets(batch[..m], poolOk[..m], id, now);
      forall r | r in Reports(batch, poolOk, id, now)
        ensures exists i :: 0 <= i < |batch| && Reportable(batch[i]) && poolOk[i] && r == MakeReport(batch[i], id, now)
      {
        if r in Reports(batch[..m], poolOk[..m], id, now) {
          var i :| 0 <= i < m && Reportable(batch[..m][i]) && poolOk[..m][i] && r == MakeReport(batch[..m][i], id, now);
          assert batch[..m][i] == batch[i] && poolOk[..m][i] == poolOk[i];
        } else {
          assert r == MakeReport(batch[m], id, now);
        }
      }
    }
  }

  /** One more packet adds at most one record at the end. */
  lemma ReportsSnoc(batch: seq<Packet>, poolOk: seq<bool>, id: int, now: real)
    requires |poolOk| == |batch| && batch != []
    ensures Reports(batch[..|batch| - 1], poolOk[..|batch| - 1], id, now) <= Reports(batch, poolOk, id, now)
  {
  }

  /** Records keep the packet order: the records of a longer batch extend those of its
      prefix. */
  lemma {:induction false} ReportsPrefix(batch: seq<Packet>, poolOk: seq<bool>, id: int, now: real, k: nat)
    requires |poolOk| == |batch| && k <= |batch|
    ensures Reports(batch[..k], poolOk[..k], id, now) <= Reports(batch, poolOk, id, now)
    decreases |batch|
  {
    if k < |batch| {
      var m := |batch| - 1;
      assert batch[..m][..k] == batch[..k] && poolOk[..m][..k] == poolOk[..k];
      ReportsPrefix(batch[..m], poolOk[..m], id, now, k);
      ReportsSnoc(batch, poolOk, id, now);
      var r0, r1, r2 := Reports(batch[..k], poolOk[..k], id, now),
        Reports(batch[..m], poolOk[..m], id, now), Reports(batch, poolOk, id, now);
      assert r0 == r1[..|r0|] && r1 == r2[..|r1|];
      assert r0 == r2[..|r0|];
    } else {
      assert batch[..k] == batch && poolOk[..k] == poolOk;
    }
  }

  /** A packet the sampler marked is reported on, if it is IPv4 TCP/UDP and long enough
      to hold the identification field. */
  lemma MarkedPacketReportable(p: Packet)
    requires IsIPv4(p) && IsTcpOrUdp(p) && PACKET_ID + 2 <= |p|
    ensures Reportable(FlowCount.MarkPacket(p))
  {
    var q := FlowCount.MarkPacket(p);
    Store16Load16(p, PACKET_ID, CpuToBe16(MARK));
    assert forall j :: j != PACKET_ID && j != PACKET_ID + 1 ==> ByteAt(q, j) == ByteAt(p, j);
    assert CpuToBe16(MARK) == 0xEFBE;
    AndSelf(0xEFBE);
  }

  /** The test is for a shared bit, not for the marker: an identification field with
      the bytes 0x02 0x00, which the sampler never writes, is reported on too. */
  lemma SharedBitIsEnough(p: Packet)
    requires PACKET_ID + 2 <= |p| && p[PACKET_ID] == 0x02 && p[PACKET_ID + 1] == 0x00
    ensures SharesMarkBit(p)
  {
    assert Load16(p, PACKET_ID) == 2;
    assert CpuToBe16(MARK) == 0xEFBE;
    assert And(1, 0x77DF) == 1;
    assert And(2, 0xEFBE) == 2 * And(1, 0x77DF);
  }

  /** A report carries the 5-tuple of the packet's flow, as `extract_flow` of the
      sampler reads it: same addresses, same ports (the L4 header `ihl` bytes past
      the IPv4 header) and same protocol, whatever the padding. */
  lemma ReportCarriesFlow(p: Packet, id: int, now: real, pad: FlowCount.Padding)
    requires Reportable(p)
    ensures var r := MakeReport(p, id, now); var f := FlowCount.ExtractFlow(p, pad);
      f.Some? && r.srcAddr == f.value.srcAddr && r.dstAddr == f.value.dstAddr &&
      r.srcPort == f.value.srcPort && r.dstPort == f.value.dstPort && r.protocol == f.value.protocol
  {
  }

  /** The report on a packet the sampler marked carries the flow the sampler counted
      the packet under, as long as the header length is at least five words: the
      marker does not overwrite any field of the flow. */
  lemma MarkedReportCarriesCountedFlow(p: Packet, id: int, now: real, pad: FlowCount.Padding)
    requires IsIPv4(p) && IsTcpOrUdp(p) && PACKET_ID + 2 <= |p| && IhlBytes(p) >= 20
    ensures var r := MakeReport(FlowCount.MarkPacket(p), id, now); var f := FlowCount.ExtractFlow(p, pad);
      f.Some? && r.srcAddr == f.value.srcAddr && r.dstAddr == f.value.dstAddr &&
      r.srcPort == f.value.srcPort && r.dstPort == f.value.dstPort && r.protocol == f.value.protocol
  {
    var q := FlowCount.MarkPacket(p);
    MarkedPacketReportable(p);
    FlowCount.MarkKeepsFlow(p, pad);
    ReportCarriesFlow(q, id, now, pad);
  }

  /** `r[cnt++] = ...`: one more record after the first `count`. */
  method Put(records: array<Report>, count: nat, r: Report)
    requires count < records.Length
    modifies records
    ensures records[..count + 1] == old(records[..count]) + [r]
  {
    records[count] := r;
    assert records[..count + 1] == records[..count] + [r];
  }

  /** One more packet adds its record, if any, after those of the packets before it. */
  lemma ReportsStep(batch: seq<Packet>, poolOk: seq<bool>, id: int, now: real, i: nat)
    requires |poolOk| == |batch| && i < |batch|
    ensures Reports(batch[..i + 1], poolOk[..i + 1], id, now) == Reports(batch[..i], poolOk[..i], id, now) +
      (if Reportable(batch[i]) && poolOk[i] then [MakeReport(batch[i], id, now)] else [])
  {
    assert batch[..i + 1][..i] == batch[..i] && poolOk[..i + 1][..i] == poolOk[..i];
  }

  /** `ship_burst`: nothing for an empty burst, otherwise the records the ring has room
      for (`rte_ring_enqueue_burst`), in order.  The others are not handed back to
      the pool. */
  function ShipBurst(tbl: seq<Report>, room: nat): (shipped: seq<Report>)
    ensures |tbl| == 0 ==> shipped == []
    ensures shipped <= tbl && |shipped| == if room < |tbl| then room else |tbl|
  {
    if |tbl| == 0 then [] else tbl[..if room < |tbl| then room else |tbl|]
  }

  /** `struct probe_priv`; the pool and the ring are represented by whether the lookup
      found them. */
  class ProbeModule {
    var id: int
    var n: u32
    var hasPool: bool
    var hasRing: bool

    constructor ()
      ensures id == 0 && n == 0 && !hasPool && !hasRing
    {
      id := 0;
      n := 0;
      hasPool := false;
      hasRing := false;
    }

    /** `probe_init`: 0 stands for the NULL reply.  The ring is looked up only once
        the pool has been found. */
    method Init(idArg: int, poolFound: bool, ringFound: bool) returns (err: int)
      modifies this
      ensures id == idArg && n == 0 && hasPool == poolFound
      ensures hasRing == (if poolFound then ringFound else old(hasRing))
      ensures err == (if poolFound && ringFound then 0 else FlowTable.ENOENT)
    {
      id := idArg;
      n := 0;
      hasPool := poolFound;
      if !hasPool {
        return FlowTable.ENOENT;
      }
      hasRing := ringFound;
      if !hasRing {
        return FlowTable.ENOENT;
      }
      return 0;
    }

    /** `probe_process_batch`: `poolOk[i]` is whether the pool get for packet `i`
        succeeds, `now` the timestamp read before the loop and `room` the free space
        of the ring.  The batch is a value: the packets are only read.  The loop
        counters are `uint8_t`, so the batch is below 256 packets. */
    method ProcessBatch(batch: seq<Packet>, poolOk: seq<bool>, now: real, room: nat)
      returns (tbl: seq<Report>, shipped: seq<Report>)
      requires |poolOk| == |batch| && |batch| < 256
      ensures tbl == Reports(batch, poolOk, id, now)
      ensures shipped == ShipBurst(tbl, room)
    {
      var records := new Report[|batch|]((_) => Report(0, 0, 0, 0, 0, 0, now));
      var count := 0;
      var i := 0;
      while i < |batch|
        invariant 0 <= count <= i <= |batch|
        invariant records[..count] == Reports(batch[..i], poolOk[..i], id, now)
      {
        ReportsStep(batch, poolOk, id, now, i);
        var p := batch[i];
        if Reportable(p) && poolOk[i] {
          Put(records, count, MakeReport(p, id, now));
          count := count + 1;
        }
        i := i + 1;
      }
      assert batch[..i] == batch && poolOk[..i] == poolOk;
      tbl := records[..count];
      shipped := ShipBurst(tbl, room);
    }
  }
}
