/**
 * The flow-count sampler (core/modules/fc.c): for each IPv4 TCP/UDP packet it
 * finds or inserts the packet's flow in the flow table, marks the packet's
 * IPv4 identification field with 0xBEEF when the flow's counter is below
 * SAMPLE_SIZE or a random draw in `[0, n)` is, and counts the packet.
 *
 * `rand_fast_range` is a parameter: a step from the seed and the range to the
 * draw and the next seed.  The padding bytes of the on-stack `struct flow`,
 * which `extract_flow` never writes, are a parameter per packet as well.
 */
module FlowCount {
  import opened Bits
  import opened Headers
  import opened FlowTable

  /** `rand_fast_range(&seed, range)`: (seed, range) to (draw, next seed). */
  type Rand = (u64, u64) -> (u64, u64)

  /** The three padding bytes of an uninitialised `struct flow`. */
  datatype Padding = Padding(d0: byte, d1: byte, d2: byte)

  const INITIAL_SEED: u64 := 1234

  // ----------------------------------------------------------------------------
  // Flow extraction

  /** `extract_flow`: the flow of an IPv4 TCP or UDP packet, with the given padding. */
  function ExtractFlow(p: Packet, pad: Padding): (r: Option<Flow>)
    ensures r.Some? <==> IsIPv4(p) && IsTcpOrUdp(p)
    ensures r.Some? ==> (r.value.protocol == Protocol(p) &&
      r.value.dummy0 == pad.d0 && r.value.dummy1 == pad.d1 && r.value.dummy2 == pad.d2)
  {
    if !IsIPv4(p) then None
    else if !IsTcpOrUdp(p) then None
    else Some(Flow(Load32(p, SRC_ADDR), Load32(p, DST_ADDR), SrcPort(p), DstPort(p), Protocol(p),
                   pad.d0, pad.d1, pad.d2))
  }

  /** The flow's addresses are the IPv4 header's address bytes and its ports the
      first four bytes at `IHL * 4` past the IPv4 header's start, each in wire order. */
  lemma ExtractFlowFields(p: Packet, pad: Padding)
    requires ExtractFlow(p, pad).Some?
    ensures var f := ExtractFlow(p, pad).value;
      LeBytes(f.srcAddr, 4) == [ByteAt(p, 26), ByteAt(p, 27), ByteAt(p, 28), ByteAt(p, 29)] &&
      LeBytes(f.dstAddr, 4) == [ByteAt(p, 30), ByteAt(p, 31), ByteAt(p, 32), ByteAt(p, 33)] &&
      LeBytes(f.srcPort, 2) == [ByteAt(p, L4Offset(p)), ByteAt(p, L4Offset(p) + 1)] &&
      LeBytes(f.dstPort, 2) == [ByteAt(p, L4Offset(p) + 2), ByteAt(p, L4Offset(p) + 3)] &&
      L4Offset(p) == 14 + 4 * (ByteAt(p, 14) % 16)
  {
    Load32Bytes(p, SRC_ADDR);
    Load32Bytes(p, DST_ADDR);
    Load16Bytes(p, L4Offset(p));
    Load16Bytes(p, L4Offset(p) + 2);
  }

  /** `*pkt_id = rte_cpu_to_be_16(0xBEEF)`. */
  function MarkPacket(p: Packet): (r: Packet)
    ensures |r| == |p|
  {
    Store16(p, PACKET_ID, CpuToBe16(MARK))
  }

  /** Marking writes the bytes 0xBE 0xEF into the identification field and nothing else. */
  lemma MarkPacketBytes(p: Packet)
    requires PACKET_ID + 2 <= |p|
    ensures MarkPacket(p)[PACKET_ID] == 0xBE && MarkPacket(p)[PACKET_ID + 1] == 0xEF
    ensures forall j :: 0 <= j < |p| && j != PACKET_ID && j != PACKET_ID + 1 ==> MarkPacket(p)[j] == p[j]
  {
    Store16Load16(p, PACKET_ID, CpuToBe16(MARK));
  }

  /** Marking leaves the fields the flow is made of alone, so a marked packet
      belongs to the same flow, as long as the header length is at least the five
      words RFC 791 demands (the code does not check it: with IHL 1 the source port
      would be read from the identification field). */
  lemma MarkKeepsFlow(p: Packet, pad: Padding)
    requires IhlBytes(p) >= 20
    ensures ExtractFlow(MarkPacket(p), pad) == ExtractFlow(p, pad)
  {
    var q := MarkPacket(p);
    assert forall j :: j != PACKET_ID && j != PACKET_ID + 1 ==> ByteAt(q, j) == ByteAt(p, j);
  }

  // ----------------------------------------------------------------------------
  // Configuration

  datatype SnObj = SInt(v: int) | SMap(fields: map<string, SnObj>) | SOther

  /** Which check of `flow_from_snobj` failed; every failure is reported as EINVAL. */
  datatype FlowError = NotAMap | BadSrcAddr | BadDstAddr | BadSrcPort | BadDstPort | BadProtocol | BadGate

  datatype Parsed = Parsed(flow: Flow) | Invalid(why: FlowError)

  /** `snobj_map_get` followed by the `TYPE_INT` test. */
  function IntField(entry: map<string, SnObj>, name: string): Option<int>
  {
    if name in entry && entry[name].SInt? then Some(entry[name].v) else None
  }

  predicate FieldAtMost(entry: map<string, SnObj>, name: string, max: int)
  {
    IntField(entry, name).Some? && IntField(entry, name).value <= max
  }

  /** `flow_from_snobj`: the checks in order, then the five fields written with C's
      unsigned casts; the other bytes of `flow` keep their value.  `invalidGate` is
      `INVALID_GATE`, a constant of a header that is not part of this model. */
  function FlowFromSnobj(entry: SnObj, flow: Flow, invalidGate: int): (r: Parsed)
    ensures r.Parsed? ==> r.flow.dummy0 == flow.dummy0 && r.flow.dummy1 == flow.dummy1 && r.flow.dummy2 == flow.dummy2
  {
    if !entry.SMap? then Invalid(NotAMap)
    else
      var m := entry.fields;
      if IntField(m, "src_addr").None? then Invalid(BadSrcAddr)
      else if IntField(m, "dst_addr").None? then Invalid(BadDstAddr)
      else if !FieldAtMost(m, "src_port", 0xffff) then Invalid(BadSrcPort)
      else if !FieldAtMost(m, "dst_port", 0xffff) then Invalid(BadDstPort)
      else if !FieldAtMost(m, "protocol", 0xff) then Invalid(BadProtocol)
      else if !(IntField(m, "gate").Some? && IntField(m, "gate").value < invalidGate) then Invalid(BadGate)
      else
        Parsed(flow.(srcAddr := IntField(m, "src_addr").value % 0x1_0000_0000,
                     dstAddr := IntField(m, "dst_addr").value % 0x1_0000_0000,
                     srcPort := IntField(m, "src_port").value % 0x1_0000,
                     dstPort := IntField(m, "dst_port").value % 0x1_0000,
                     protocol := IntField(m, "protocol").value % 0x100))
  }

  /** A configuration is accepted exactly when it is a map with integer fields for all
      six names, ports at most 65535, protocol at most 255 and gate below INVALID_GATE;
      in-range values are stored as given, and the gate is checked but not stored. */
  lemma FlowFromSnobjAccepts(entry: SnObj, flow: Flow, invalidGate: int)
    ensures FlowFromSnobj(entry, flow, invalidGate).Parsed? <==>
      entry.SMap? &&
      IntField(entry.fields, "src_addr").Some? && IntField(entry.fields, "dst_addr").Some? &&
      FieldAtMost(entry.fields, "src_port", 0xffff) && FieldAtMost(entry.fields, "dst_port", 0xffff) &&
      FieldAtMost(entry.fields, "protocol", 0xff) &&
      IntField(entry.fields, "gate").Some? && IntField(entry.fields, "gate").value < invalidGate
    ensures FlowFromSnobj(entry, flow, invalidGate).Parsed? ==>
      var m := entry.fields;
      var f := FlowFromSnobj(entry, flow, invalidGate).flow;
      (0 <= IntField(m, "src_port").value ==> f.srcPort == IntField(m, "src_port").value) &&
      (0 <= IntField(m, "dst_port").value ==> f.dstPort == IntField(m, "dst_port").value) &&
      (0 <= IntField(m, "protocol").value ==> f.protocol == IntField(m, "protocol").value) &&
      (0 <= IntField(m, "src_addr").value < 0x1_0000_0000 ==> f.srcAddr == IntField(m, "src_addr").value) &&
      (0 <= IntField(m, "dst_addr").value < 0x1_0000_0000 ==> f.dstAddr == IntField(m, "dst_addr").value)
  {
  }

  /** The range checks are one-sided: a negative port passes and wraps around. */
  lemma NegativePortWraps(flow: Flow, invalidGate: int)
    requires invalidGate > 0
    ensures var m := map["src_addr" := SInt(1), "dst_addr" := SInt(2), "src_port" := SInt(-1),
                         "dst_port" := SInt(80), "protocol" := SInt(6), "gate" := SInt(0)];
      FlowFromSnobj(SMap(m), flow, invalidGate) == Parsed(flow.(srcAddr := 1, dstAddr := 2, srcPort := 0xffff, dstPort := 80, protocol := 6))
  {
    var m := map["src_addr" := SInt(1), "dst_addr" := SInt(2), "src_port" := SInt(-1),
                 "dst_port" := SInt(80), "protocol" := SInt(6), "gate" := SInt(0)];
    assert IntField(m, "src_port") == Some(-1);
    assert IntField(m, "gate") == Some(0);
  }

  // ----------------------------------------------------------------------------
  // The per-packet rule

  /** The find-or-insert of one packet's key: the slot to count in, if any. */
  function Track(st: Store, g: Geometry, hash: Hash, k: Key): (r: (Store, Option<nat>))
    requires Fits(st.slots, g)
    ensures Fits(r.0.slots, g)
    ensures r.1.Some? ==> r.1.value < |r.0.slots|
  {
    match Lookup(st.slots, g, hash, k)
    case Some(o) => (st, Some(o))
    case None =>
      var (st1, out) := Insert(st, g, hash, k);
      (st1, if out.Added? then Some(out.offset) else None)
  }

  /** The sampling decision on the flow's counter before this packet: marked when it is
      below SAMPLE_SIZE, otherwise when a draw in `[0, n)` is; only the draw advances
      the seed. */
  function Decide(n: u64, seed: u64, rand: Rand): (r: (bool, u64))
  {
    if n < SAMPLE_SIZE then (true, seed)
    else (rand(seed, n).0 < SAMPLE_SIZE, rand(seed, n).1)
  }

  /** One iteration of the loop of `fc_process_batch`. */
  function Step(st: Store, seed: u64, g: Geometry, hash: Hash, rand: Rand, p: Packet, pad: Padding)
    : (r: (Store, u64, Packet))
    requires Fits(st.slots, g)
    ensures Fits(r.0.slots, g) && |r.2| == |p|
  {
    match ExtractFlow(p, pad)
    case None => (st, seed, p)
    case Some(f) =>
      var (st1, slot) := Track(st, g, hash, KeyOf(f));
      match slot
      case None => (st1, seed, p)
      case Some(off) => Count(st1, seed, rand, p, off)
  }

  /** The sampling decision for a packet of the flow in slot `off`, then `*n = *n + 1`. */
  function Count(st: Store, seed: u64, rand: Rand, p: Packet, off: nat): (r: (Store, u64, Packet))
    requires off < |st.slots|
    ensures |r.0.slots| == |st.slots| && |r.2| == |p|
  {
    var n := st.slots[off].n;
    var (mark, seed') := Decide(n, seed, rand);
    (Store(st.slots[off := st.slots[off].(n := Inc64(n))], st.count), seed',
     if mark then MarkPacket(p) else p)
  }

  /** The whole batch, packet by packet, in order. */
  function Run(st: Store, seed: u64, g: Geometry, hash: Hash, rand: Rand, pkts: seq<Packet>, pads: seq<Padding>)
    : (r: (Store, u64, seq<Packet>))
    requires Fits(st.slots, g) && |pads| == |pkts|
    ensures Fits(r.0.slots, g) && |r.2| == |pkts|
    decreases |pkts|
  {
    if pkts == [] then (st, seed, [])
    else
      var m := |pkts| - 1;
      var (st1, seed1, out) := Run(st, seed, g, hash, rand, pkts[..m], pads[..m]);
      var (st2, seed2, q) := Step(st1, seed1, g, hash, rand, pkts[m], pads[m]);
      (st2, seed2, out + [q])
  }

  // ----------------------------------------------------------------------------
  // Properties of the per-packet rule

  /** A packet that is not IPv4 TCP/UDP changes nothing and is forwarded as it came. */
  lemma UntrackedPacketUnchanged(st: Store, seed: u64, g: Geometry, hash: Hash, rand: Rand, p: Packet, pad: Padding)
    requires Fits(st.slots, g) && !(IsIPv4(p) && IsTcpOrUdp(p))
    ensures Step(st, seed, g, hash, rand, p, pad) == (st, seed, p)
  {
  }

  /** A new flow that cannot be inserted changes nothing either. */
  lemma FullTableUnchanged(st: Store, seed: u64, g: Geometry, hash: Hash, rand: Rand, p: Packet, pad: Padding)
    requires Fits(st.slots, g) && ExtractFlow(p, pad).Some?
    requires Insert(st, g, hash, KeyOf(ExtractFlow(p, pad).value)).1.Full?
    ensures Step(st, seed, g, hash, rand, p, pad) == (st, seed, p)
  {
    var k := KeyOf(ExtractFlow(p, pad).value);
    AddFullUnchanged(st, g, hash, k);
    if Lookup(st.slots, g, hash, k).Some? {
      AddExisting(st, g, hash, k);
    }
  }

  /** A tracked packet adds exactly one to its flow's counter (modulo 2^64) and changes no
      other counter or key; whether it is marked is the sampling decision on the counter
      before it, and nothing but its identification field changes. */
  lemma TrackedPacketCounted(st: Store, seed: u64, g: Geometry, hash: Hash, rand: Rand, p: Packet, pad: Padding)
    requires Fits(st.slots, g) && ExtractFlow(p, pad).Some?
    requires Track(st, g, hash, KeyOf(ExtractFlow(p, pad).value)).1.Some?
    ensures var (st1, slot) := Track(st, g, hash, KeyOf(ExtractFlow(p, pad).value));
      var off := slot.value;
      var (st2, seed2, q) := Step(st, seed, g, hash, rand, p, pad);
      var n := st1.slots[off].n;
      st2.count == st1.count && |st2.slots| == |st1.slots| &&
      st2.slots[off].n == Inc64(n) && st2.slots[off].key == st1.slots[off].key &&
      (forall i :: 0 <= i < |st1.slots| && i != off ==> st2.slots[i] == st1.slots[i]) &&
      q == (if Decide(n, seed, rand).0 then MarkPacket(p) else p) &&
      seed2 == Decide(n, seed, rand).1
  {
  }

  /** A packet is marked for certain while its flow has counted fewer than SAMPLE_SIZE
      packets; beyond that the draw decides. */
  lemma DecideMarksFirstPackets(n: u64, seed: u64, rand: Rand)
    ensures n < SAMPLE_SIZE ==> Decide(n, seed, rand) == (true, seed)
    ensures n >= SAMPLE_SIZE ==> (Decide(n, seed, rand).0 <==> rand(seed, n).0 < SAMPLE_SIZE)
  {
  }

  /** The first packet of a new flow that fits in the table is inserted with counter 0,
      marked, and leaves counter 1 behind. */
  lemma NewFlowFirstPacket(st: Store, seed: u64, g: Geometry, hash: Hash, rand: Rand, p: Packet, pad: Padding)
    requires Fits(st.slots, g) && ExtractFlow(p, pad).Some?
    requires Lookup(st.slots, g, hash, KeyOf(ExtractFlow(p, pad).value)).None?
    requires Insert(st, g, hash, KeyOf(ExtractFlow(p, pad).value)).1.Added?
    ensures var k := KeyOf(ExtractFlow(p, pad).value);
      var off := Insert(st, g, hash, k).1.offset;
      var (st2, seed2, q) := Step(st, seed, g, hash, rand, p, pad);
      q == MarkPacket(p) && seed2 == seed && st2.slots[off].n == 1 &&
      st2.slots[off].key == Stored(k).key
  {
    var k := KeyOf(ExtractFlow(p, pad).value);
    AddNew(st, g, hash, k);
  }

  /** So the first two packets of a new flow are both marked, provided the padding
      bytes are clean: the second packet then finds the slot the first one created. */
  lemma FirstTwoPacketsMarked(st: Store, seed: u64, g: Geometry, hash: Hash, rand: Rand,
                              p1: Packet, p2: Packet, pad: Padding)
    requires Fits(st.slots, g) && ExtractFlow(p1, pad).Some? && ExtractFlow(p2, pad).Some?
    requires KeyOf(ExtractFlow(p1, pad).value) == KeyOf(ExtractFlow(p2, pad).value)
    requires pad.d1 == 0 && pad.d2 % 0x80 == 0
    requires Lookup(st.slots, g, hash, KeyOf(ExtractFlow(p1, pad).value)).None?
    requires Insert(st, g, hash, KeyOf(ExtractFlow(p1, pad).value)).1.Added?
    ensures var r := Run(st, seed, g, hash, rand, [p1, p2], [pad, pad]);
      r.2 == [MarkPacket(p1), MarkPacket(p2)] && r.1 == seed
  {
    var k := KeyOf(ExtractFlow(p1, pad).value);
    KeyOfClean(ExtractFlow(p1, pad).value);
    var (st1, out) := Insert(st, g, hash, k);
    var off := out.offset;
    NewFlowFirstPacket(st, seed, g, hash, rand, p1, pad);
    AddThenFind(st, g, hash, k);
    var r1 := Step(st, seed, g, hash, rand, p1, pad);
    assert r1.0.slots == st1.slots[off := st1.slots[off].(n := 1)];
    LookupOnlyKeys(st1.slots, r1.0.slots, g, hash, k);
    FoundFlowStep(r1.0, r1.1, g, hash, rand, p2, pad, off);
    RunTwo(st, seed, g, hash, rand, p1, p2, pad, pad);
  }

  /** Lookup only looks at the keys of the slots, so changing counters changes no
      lookup. */
  lemma LookupOnlyKeys(s: seq<Entry>, s': seq<Entry>, g: Geometry, hash: Hash, k: Key)
    requires Fits(s, g) && |s'| == |s|
    requires forall i :: 0 <= i < |s| ==> s[i].key == s'[i].key
    ensures Lookup(s', g, hash, k) == Lookup(s, g, hash, k)
  {
    BucketKeys(s, s', g, PrimaryIndex(g, hash, k));
    BucketKeys(s, s', g, AlternateIndex(g, hash, k));
    SameKeysSameFind(Bucket(s, g, PrimaryIndex(g, hash, k)), Bucket(s', g, PrimaryIndex(g, hash, k)), k, 0);
    SameKeysSameFind(Bucket(s, g, AlternateIndex(g, hash, k)), Bucket(s', g, AlternateIndex(g, hash, k)), k, 0);
  }

  lemma BucketKeys(s: seq<Entry>, s': seq<Entry>, g: Geometry, index: nat)
    requires Fits(s, g) && |s'| == |s| && index < g.size
    requires forall i :: 0 <= i < |s| ==> s[i].key == s'[i].key
    ensures forall b :: 0 <= b < g.bucket ==> Bucket(s, g, index)[b].key == Bucket(s', g, index)[b].key
  {
    forall b | 0 <= b < g.bucket
      ensures Bucket(s, g, index)[b].key == Bucket(s', g, index)[b].key
    {
      BucketAt(s, g, index, b);
      BucketAt(s', g, index, b);
    }
  }

  /** The scan only looks at the keys of the slots. */
  lemma {:induction false} SameKeysSameFind(t: seq<Entry>, t': seq<Entry>, k: Key, from: nat)
    requires |t| == |t'| && from <= |t|
    requires forall i :: 0 <= i < |t| ==> t[i].key == t'[i].key
    ensures FindIndex(t, k, from) == FindIndex(t', k, from)
    decreases |t| - from
  {
    if from < |t| {
      SameKeysSameFind(t, t', k, from + 1);
    }
  }

  /** A packet of a flow that is already in the table counts in the slot the lookup
      reports. */
  lemma FoundFlowStep(st: Store, seed: u64, g: Geometry, hash: Hash, rand: Rand, p: Packet, pad: Padding, off: nat)
    requires Fits(st.slots, g) && ExtractFlow(p, pad).Some?
    requires Lookup(st.slots, g, hash, KeyOf(ExtractFlow(p, pad).value)) == Some(off)
    ensures off < |st.slots|
    ensures var n := st.slots[off].n;
      Step(st, seed, g, hash, rand, p, pad) ==
        (Store(st.slots[off := st.slots[off].(n := Inc64(n))], st.count), Decide(n, seed, rand).1,
         if Decide(n, seed, rand).0 then MarkPacket(p) else p)
  {
  }

  /** Two packets in a row. */
  lemma RunTwo(st: Store, seed: u64, g: Geometry, hash: Hash, rand: Rand, p1: Packet, p2: Packet, a: Padding, b: Padding)
    requires Fits(st.slots, g)
    ensures var r1 := Step(st, seed, g, hash, rand, p1, a);
      var r2 := Step(r1.0, r1.1, g, hash, rand, p2, b);
      Run(st, seed, g, hash, rand, [p1, p2], [a, b]) == (r2.0, r2.1, [r1.2, r2.2])
  {
    assert [p1, p2][..1] == [p1] && [a, b][..1] == [a];
    assert [p1][..0] == [] && [a][..0] == [];
    var r1 := Step(st, seed, g, hash, rand, p1, a);
    assert Run(st, seed, g, hash, rand, [], []) == (st, seed, []);
    assert [] + [r1.2] == [r1.2];
    assert Run(st, seed, g, hash, rand, [p1], [a]) == (r1.0, r1.1, [r1.2]);
    assert [r1.2] + [Step(r1.0, r1.1, g, hash, rand, p2, b).2] == [r1.2, Step(r1.0, r1.1, g, hash, rand, p2, b).2];
  }

  /** With padding bits set, a flow is never found: each of its packets inserts a fresh
      entry with counter 0 and is marked, until the table has no room for it. */
  lemma DirtyPaddingMarksEveryPacket(st: Store, seed: u64, g: Geometry, hash: Hash, rand: Rand,
                                     p: Packet, pad: Padding)
    requires Fits(st.slots, g) && ExtractFlow(p, pad).Some?
    requires pad.d1 != 0 || pad.d2 % 0x80 != 0
    ensures var k := KeyOf(ExtractFlow(p, pad).value);
      Lookup(st.slots, g, hash, k).None? &&
      (Insert(st, g, hash, k).1.Added? ==> Step(st, seed, g, hash, rand, p, pad).2 == MarkPacket(p))
  {
    var k := KeyOf(ExtractFlow(p, pad).value);
    KeyOfClean(ExtractFlow(p, pad).value);
    DirtyKeyNeverFound(st.slots, g, hash, k);
    if Insert(st, g, hash, k).1.Added? {
      AddNew(st, g, hash, k);
    }
  }

  /** The batch is forwarded with the same packets in the same order, each one either as
      it came or with its identification field marked. */
  lemma {:induction false} RunForwardsBatch(st: Store, seed: u64, g: Geometry, hash: Hash, rand: Rand,
                                            pkts: seq<Packet>, pads: seq<Padding>)
    requires Fits(st.slots, g) && |pads| == |pkts|
    ensures var out := Run(st, seed, g, hash, rand, pkts, pads).2;
      |out| == |pkts| && forall i :: 0 <= i < |pkts| ==> out[i] == pkts[i] || out[i] == MarkPacket(pkts[i])
    decreases |pkts|
  {
    if pkts != [] {
      var m := |pkts| - 1;
      RunForwardsBatch(st, seed, g, hash, rand, pkts[..m], pads[..m]);
    }
  }

  // ----------------------------------------------------------------------------
  // The module instance

  /** `struct fc_priv`: whether the table was set up, the table and the draw seed. */
  class Sampler {
    var init: bool
    const flowTable: Table
    var seed: u64

    ghost predicate Valid()
      reads this, flowTable
    {
      flowTable.Valid() && (init ==> flowTable.table != null)
    }

    /** A zeroed instance. */
    constructor (hash: Hash)
      ensures fresh(flowTable) && flowTable.hash == hash && flowTable.table == null
      ensures flowTable.refCount == 0 && !init && seed == 0
      ensures Valid()
    {
      init := false;
      seed := 0;
      flowTable := new Table(hash);
    }

    /** `fc_init`: 0 stands for the NULL reply, otherwise the errno reported. */
    method Init(size: int, bucket: int, allocOk: bool) returns (err: int)
      requires Valid()
      modifies this, flowTable
      ensures Valid() && seed == INITIAL_SEED
      ensures var sz := if size == 0 then DEFAULT_TABLE_SIZE else size;
        var b := if bucket == 0 then MAX_BUCKET_SIZE else bucket;
        err == (if !InitArgsOk(sz, b) then EINVAL else if !allocOk then ENOMEM else 0) &&
        (err == 0 ==> flowTable.table != null && flowTable.size == sz && flowTable.bucket == b && flowTable.refCount == 1 &&
                      flowTable.table[..] == seq(sz * b, _ => EMPTY))
      ensures init <==> err == 0
    {
      init := false;
      seed := INITIAL_SEED;
      var sz := size;
      var b := bucket;
      if sz == 0 {
        sz := DEFAULT_TABLE_SIZE;
      }
      if b == 0 {
        b := MAX_BUCKET_SIZE;
      }
      var ret := flowTable.Init(sz, b, allocOk);
      if ret != 0 {
        return -ret;
      }
      init := true;
      return 0;
    }

    /** `fc_deinit`. */
    method Deinit()
      requires Valid()
      modifies this, flowTable
      ensures Valid() && !init
      ensures !old(init) ==> flowTable.table == old(flowTable.table) && flowTable.refCount == old(flowTable.refCount)
      ensures old(init) && old(flowTable.size) != 0 && old(flowTable.bucket) != 0 && old(flowTable.refCount) == 1 ==>
        flowTable.table == null && flowTable.refCount == 0
      ensures old(init) && old(flowTable.size) != 0 && old(flowTable.bucket) != 0 && old(flowTable.refCount) > 1 ==>
        flowTable.refCount == old(flowTable.refCount) - 1
    {
      if init {
        init := false;
        var _ := flowTable.Deinit();
      }
    }

    /** The body of the loop of `fc_process_batch` for one packet: its flow found or
        inserted, the packet marked or not, the counter incremented.  The packet is
        passed in and the possibly marked packet returned. */
    method SamplePacket(p: Packet, pad: Padding, rand: Rand) returns (q: Packet)
      requires Valid() && init && flowTable.size >= 2
      modifies this`seed, flowTable`count, flowTable.table
      ensures (Store(flowTable.table[..], flowTable.count), seed, q) ==
        Step(old(Store(flowTable.table[..], flowTable.count)), old(seed), flowTable.Geom(), flowTable.hash, rand, p, pad)
    {
      ghost var st := Store(flowTable.table[..], flowTable.count);
      q := p;
      var flow := ExtractFlow(p, pad);
      if flow.None? {
        return;
      }
      var tracked, off := TrackFlow(KeyOf(flow.value));
      if !tracked {
        return;
      }
      q := CountPacket(p, off, rand);
    }

    /** `ftb_find`, then `ftb_add_entry` when the flow is not found. */
    method TrackFlow(k: Key) returns (tracked: bool, off: nat)
      requires Valid() && init && flowTable.size >= 2
      modifies flowTable`count, flowTable.table
      ensures (Store(flowTable.table[..], flowTable.count), if tracked then Some(off) else None) ==
        Track(old(Store(flowTable.table[..], flowTable.count)), flowTable.Geom(), flowTable.hash, k)
    {
      var r;
      r, off := flowTable.Find(k);
      if r != 0 {
        r, off := flowTable.AddEntry(k);
      }
      tracked := r == 0;
    }

    /** Marking and counting the packet of the flow in slot `off`. */
    method CountPacket(p: Packet, off: nat, rand: Rand) returns (q: Packet)
      requires Valid() && init && off < flowTable.size * flowTable.bucket
      modifies this`seed, flowTable.table
      ensures (Store(flowTable.table[..], flowTable.count), seed, q) ==
        Count(old(Store(flowTable.table[..], flowTable.count)), old(seed), rand, p, off)
    {
      var n := flowTable.table[off].n;
      var mark := false;
      if n < SAMPLE_SIZE {
        mark := true;
      } else {
        var (draw, next) := rand(seed, n);
        seed := next;
        mark := draw < SAMPLE_SIZE;
      }
      q := p;
      if mark {
        q := MarkPacket(p);
      }
      flowTable.table[off] := flowTable.table[off].(n := Inc64(n));
    }

    /** `fc_process_batch`; `pads[i]` are the padding bytes of the flow of packet i. */
    method ProcessBatch(batch: array<Packet>, pads: seq<Padding>, rand: Rand)
      requires Valid() && init && flowTable.size >= 2 && |pads| == batch.Length
      modifies this`seed, batch, flowTable`count, flowTable.table
      ensures var r := Run(old(Store(flowTable.table[..], flowTable.count)), old(seed), flowTable.Geom(),
                           flowTable.hash, rand, old(batch[..]), pads);
        Store(flowTable.table[..], flowTable.count) == r.0 && seed == r.1 && batch[..] == r.2
    {
      ghost var st0 := Store(flowTable.table[..], flowTable.count);
      ghost var pkts := batch[..];
      ghost var g := flowTable.Geom();
      var i := 0;
      while i < batch.Length
        invariant 0 <= i <= batch.Length
        invariant Valid() && init && flowTable.Geom() == g
        invariant batch[i..] == pkts[i..]
        invariant Run(st0, old(seed), g, flowTable.hash, rand, pkts[..i], pads[..i]) ==
          (Store(flowTable.table[..], flowTable.count), seed, batch[..i])
      {
        assert pkts[..i + 1][..i] == pkts[..i] && pads[..i + 1][..i] == pads[..i];
        assert batch[i] == pkts[i];
        var q := SamplePacket(batch[i], pads[i], rand);
        batch[i] := q;
        i := i + 1;
        assert batch[..i] == batch[..i - 1] + [batch[i - 1]];
      }
      assert batch[..] == batch[..i] && pkts[..i] == pkts && pads[..i] == pads;
    }
  }
}
