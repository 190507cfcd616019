/**
 * The path matcher of the profiler (profiler/profiler.go): each report a probe
 * sends says that a flow went from the probe `prevProbe` to the probe
 * `probe`.  `analyze` records the report under that edge of an adjacency map
 * and then checks the query paths of the first policy flow whose source
 * prefix holds the report's source address; a path matches when each of its
 * hops is an edge seen so far.  `main` turns the C records of the ring into
 * reports, reading the little-endian address and port fields big-endian.
 *
 * Go's `uint` is 64 bits wide; the values stored here are 32-bit addresses
 * and masks, 16-bit ports and probe ids below 2^63, so they are naturals.
 */
module Profiler {
  import opened Bits
  import opened Headers

  /** `flow`: the key of a query. */
  datatype Flow = Flow(srcAddr: nat, srcMask: nat, dstAddr: nat, dstMask: nat,
                       srcPort: nat, dstPort: nat, proto: nat)

  /** `flow{}`. */
  const ZERO_FLOW := Flow(0, 0, 0, 0, 0, 0, 0)

  /** `meta`: the hop a report stands for and its time; `float32` is a real here. */
  datatype Meta = Meta(prevProbe: nat, probe: nat, timeStamp: real)

  /** `report`. */
  datatype Report = Report(f: Flow, m: Meta)

  /** `adj`: the reports seen, by the hop `u -> v` they took. */
  type Adjacency = map<nat, map<nat, seq<Report>>>

  /** `policy.queries`: for each flow, the paths to look for, each the probe ids of a
      chain with the last probe first. */
  type Queries = map<Flow, seq<seq<nat>>>

  /** `_, ok := A[u][v]`: a nil inner map has no entries. */
  predicate HasEdge(a: Adjacency, u: nat, v: nat)
  {
    u in a && v in a[u]
  }

  /** The reports recorded for the hop `u -> v`, none when there is no entry. */
  function Hop(a: Adjacency, u: nat, v: nat): seq<Report>
  {
    if HasEdge(a, u, v) then a[u][v] else []
  }

  /** The adjacency map after report `r`: its hop exists and its list ends with `r`;
      every other hop, present or not, is as it was. */
  function Record(a: Adjacency, r: Report): (b: Adjacency)
    ensures HasEdge(b, r.m.prevProbe, r.m.probe)
    ensures Hop(b, r.m.prevProbe, r.m.probe) == Hop(a, r.m.prevProbe, r.m.probe) + [r]
    ensures forall u, v :: (u != r.m.prevProbe || v != r.m.probe) ==>
      Hop(b, u, v) == Hop(a, u, v) && (HasEdge(b, u, v) <==> HasEdge(a, u, v))
    ensures b.Keys == a.Keys + {r.m.prevProbe}
  {
    var u, v := r.m.prevProbe, r.m.probe;
    var row := if u in a then a[u] else map[];
    a[u := row[v := Hop(a, u, v) + [r]]]
  }

  /** A query path, last probe first, is there when each hop `p[i+1] -> p[i]` has been
      seen. */
  predicate PathIn(a: Adjacency, p: seq<nat>)
  {
    forall i {:trigger HasEdge(a, p[i + 1], p[i])} :: 0 <= i < |p| - 1 ==> HasEdge(a, p[i + 1], p[i])
  }

  /** The hops of a chain `q[0] -> q[1] -> ...` in textual order have all been seen. */
  predicate WalkIn(a: Adjacency, q: seq<nat>)
  {
    forall i {:trigger HasEdge(a, q[i], q[i + 1])} :: 0 <= i < |q| - 1 ==> HasEdge(a, q[i], q[i + 1])
  }

  /** Read backwards, a path is a walk in textual order: the reversed ids of a chain
      `q[0] -> q[1] -> ...` are there exactly when each hop `q[i] -> q[i+1]` is. */
  lemma PathInTextOrder(a: Adjacency, q: seq<nat>)
    ensures PathIn(a, Reverse(q)) <==> WalkIn(a, q)
  {
    var p := Reverse(q);
    var n := |q|;
    if PathIn(a, p) {
      forall i | 0 <= i < n - 1
        ensures HasEdge(a, q[i], q[i + 1])
      {
        var j := n - 2 - i;
        assert p[j + 1] == q[i] && p[j] == q[i + 1];
      }
    }
    if WalkIn(a, q) {
      forall j | 0 <= j < n - 1
        ensures HasEdge(a, p[j + 1], p[j])
      {
        var i := n - 2 - j;
        assert p[j + 1] == q[i] && p[j] == q[i + 1];
      }
    }
  }

  /** The paths of `ps` that are there, in their order. */
  function MatchingPaths(a: Adjacency, ps: seq<seq<nat>>): (r: seq<seq<nat>>)
    ensures |r| <= |ps|
    ensures forall p :: p in r <==> p in ps && PathIn(a, p)
    decreases |ps|
  {
    if ps == [] then []
    else
      var m := |ps| - 1;
      MatchingPaths(a, ps[..m]) + if PathIn(a, ps[m]) then [ps[m]] else []
  }

  /** `r.f.srcAddr&f.srcMask == f.srcAddr`: Go's `&` binds tighter than `==`.  Only the
      source address of the report is looked at. */
  predicate Selected(r: Report, f: Flow)
  {
    And(r.f.srcAddr, f.srcMask) == f.srcAddr
  }

  /** The flow the query loop stops at: the first of `order` that selects `r`, or
      `|order|` when none does. */
  function SelectedIndex(r: Report, order: seq<Flow>): (k: nat)
    ensures k <= |order|
    ensures forall j :: 0 <= j < k ==> !Selected(r, order[j])
    ensures k < |order| ==> Selected(r, order[k])
  {
    if order == [] then 0
    else if Selected(r, order[0]) then 0
    else 1 + SelectedIndex(r, order[1..])
  }

  /** Two reports from the same source address check the same flow, whatever their
      destinations, ports and protocols. */
  lemma {:induction false} OnlySourceAddressSelects(r1: Report, r2: Report, order: seq<Flow>)
    requires r1.f.srcAddr == r2.f.srcAddr
    ensures SelectedIndex(r1, order) == SelectedIndex(r2, order)
  {
    if order != [] {
      OnlySourceAddressSelects(r1, r2, order[1..]);
    }
  }

  /** A query for 0.0.0.0/0 selects every report, so the flows after it in the
      iteration order are never checked. */
  lemma CatchAllSelects(r: Report, f: Flow)
    requires f.srcAddr == 0 && f.srcMask == 0
    ensures Selected(r, f)
  {
  }

  /** The analyzer goroutine's state: the adjacency map `A`. */
  class Analyzer {
    var adj: Adjacency

    constructor ()
      ensures adj == map[]
    {
      adj := map[];
    }

    /** The adjacency update of `analyze`: the inner map and the list are made when
        missing, then the report is appended. */
    method AddReport(r: Report)
      modifies this
      ensures adj == Record(old(adj), r)
    {
      var u, v := r.m.prevProbe, r.m.probe;
      ghost var row := if u in adj then adj[u] else map[];
      if u !in adj {
        adj := adj[u := map[]];
      }
      if v !in adj[u] {
        adj := adj[u := adj[u][v := []]];
      }
      assert adj[u][v] == Hop(old(adj), u, v);
      assert adj[u][v := adj[u][v] + [r]] == row[v := Hop(old(adj), u, v) + [r]];
      adj := adj[u := adj[u][v := adj[u][v] + [r]]];
    }

    /** The walk over one query path, from its last element to its first: it fails at
        the first hop that is not there.  A path of one probe always matches. */
    method PathMatch(p: seq<nat>) returns (succ: bool)
      requires |p| > 0
      ensures succ <==> PathIn(adj, p)
      ensures |p| == 1 ==> succ
    {
      succ := true;
      var u := p[|p| - 1];
      var i := |p| - 2;
      while i >= 0
        invariant -1 <= i <= |p| - 2 && u == p[i + 1]
        invariant forall k :: i < k < |p| - 1 ==> HasEdge(adj, p[k + 1], p[k])
      {
        var v := p[i];
        if !(u in adj && v in adj[u]) {
          assert !HasEdge(adj, p[i + 1], p[i]);
          succ := false;
          break;
        }
        u := v;
        i := i - 1;
      }
    }

    /** The loop over the paths of the selected flow: the paths printed are those
        that match, in their order. */
    method CheckPaths(paths: seq<seq<nat>>) returns (printed: seq<seq<nat>>)
      requires forall k :: 0 <= k < |paths| ==> |paths[k]| > 0
      ensures printed == MatchingPaths(adj, paths)
    {
      printed := [];
      var i := 0;
      while i < |paths|
        invariant 0 <= i <= |paths| && printed == MatchingPaths(adj, paths[..i])
      {
        assert paths[..i + 1][..i] == paths[..i];
        var succ := PathMatch(paths[i]);
        if succ {
          printed := printed + [paths[i]];
        }
        i := i + 1;
      }
      assert paths[..i] == paths;
    }

    /** One iteration of `analyze`'s loop over the report channel.  `order` is the
        order in which `range p.queries` visits the flows, each once; the paths of
        the first flow that selects the report are checked against the map with the
        report in it, and those that match are the ones printed. */
    method Analyze(r: Report, queries: Queries, order: seq<Flow>) returns (printed: seq<seq<nat>>)
      requires forall f :: f in queries <==> f in order
      requires forall i, j :: 0 <= i < j < |order| ==> order[i] != order[j]
      requires forall f :: f in queries ==> forall k :: 0 <= k < |queries[f]| ==> |queries[f][k]| > 0
      modifies this
      ensures adj == Record(old(adj), r)
      ensures var k := SelectedIndex(r, order);
        printed == if k < |order| then MatchingPaths(adj, queries[order[k]]) else []
    {
      AddReport(r);
      printed := [];
      var i := 0;
      while i < |order|
        invariant 0 <= i <= |order| && forall j :: 0 <= j < i ==> !Selected(r, order[j])
        invariant printed == []
      {
        var f := order[i];
        if And(r.f.srcAddr, f.srcMask) == f.srcAddr {
          printed := CheckPaths(queries[f]);
          return;
        }
        i := i + 1;
      }
    }
  }

  /** `binary.LittleEndian.PutUint32` followed by `binary.BigEndian.Uint32`. */
  function SwapBytes32(x: u32): (r: u32)
  {
    BigEndianBound(LeBytes(x, 4));
    BigEndian(LeBytes(x, 4))
  }

  /** `binary.LittleEndian.PutUint16` followed by `binary.BigEndian.Uint16`. */
  function SwapBytes16(x: u16): (r: u16)
  {
    BigEndianBound(LeBytes(x, 2));
    BigEndian(LeBytes(x, 2))
  }

  /** The conversion reverses the four bytes. */
  lemma SwapBytes32Reverses(x: u32)
    ensures LeBytes(SwapBytes32(x), 4) == Reverse(LeBytes(x, 4))
  {
    var bs := LeBytes(x, 4);
    BigEndianIsReversed(bs);
    LeBytesOfLittleEndian(Reverse(bs));
  }

  /** Converting twice gives the value back. */
  lemma SwapBytes32Involutive(x: u32)
    ensures SwapBytes32(SwapBytes32(x)) == x
  {
    var bs := LeBytes(x, 4);
    SwapBytes32Reverses(x);
    BigEndianIsReversed(Reverse(bs));
    ReverseReverse(bs);
    LittleEndianOfLeBytes(x, 4);
  }

  lemma SwapBytes16Reverses(x: u16)
    ensures LeBytes(SwapBytes16(x), 2) == Reverse(LeBytes(x, 2))
  {
    var bs := LeBytes(x, 2);
    BigEndianIsReversed(bs);
    LeBytesOfLittleEndian(Reverse(bs));
  }

  lemma SwapBytes16Involutive(x: u16)
    ensures SwapBytes16(SwapBytes16(x)) == x
  {
    var bs := LeBytes(x, 2);
    SwapBytes16Reverses(x);
    BigEndianIsReversed(Reverse(bs));
    ReverseReverse(bs);
    LittleEndianOfLeBytes(x, 2);
  }

  /** An address loaded from a packet on a little-endian host comes out of the
      conversion as the packet's four bytes read most significant first, the order
      in which a dotted quad is written. */
  lemma SwapBytes32OfLoad(p: Packet, o: nat)
    ensures SwapBytes32(Load32(p, o)) == BigEndian([ByteAt(p, o), ByteAt(p, o + 1), ByteAt(p, o + 2), ByteAt(p, o + 3)])
  {
    Load32Bytes(p, o);
  }

  /** The fields of `struct report` as `main` reads them from the ring. */
  datatype CReport = CReport(srcAddr: nat, dstAddr: nat, srcPort: nat, dstPort: nat, protocol: nat,
                             prevProbeId: nat, probeId: nat, timeStamp: real)

  /** The report `main` sends to `analyze`: addresses truncated to `uint32` and ports
      to `uint16`, each with its bytes reversed, and exact-match masks. */
  function FromC(c: CReport): (r: Report)
    ensures r.f.srcMask == 0xFFFF_FFFF && r.f.dstMask == 0xFFFF_FFFF
    ensures LeBytes(r.f.srcAddr, 4) == Reverse(LeBytes(c.srcAddr % 0x1_0000_0000, 4))
    ensures LeBytes(r.f.dstAddr, 4) == Reverse(LeBytes(c.dstAddr % 0x1_0000_0000, 4))
    ensures LeBytes(r.f.srcPort, 2) == Reverse(LeBytes(c.srcPort % 0x1_0000, 2))
    ensures LeBytes(r.f.dstPort, 2) == Reverse(LeBytes(c.dstPort % 0x1_0000, 2))
    ensures r.f.proto == c.protocol && r.m == Meta(c.prevProbeId, c.probeId, c.timeStamp)
  {
    SwapBytes32Reverses(c.srcAddr % 0x1_0000_0000);
    SwapBytes32Reverses(c.dstAddr % 0x1_0000_0000);
    SwapBytes16Reverses(c.srcPort % 0x1_0000);
    SwapBytes16Reverses(c.dstPort % 0x1_0000);
    Report(Flow(SwapBytes32(c.srcAddr % 0x1_0000_0000), 0xFFFF_FFFF,
                SwapBytes32(c.dstAddr % 0x1_0000_0000), 0xFFFF_FFFF,
                SwapBytes16(c.srcPort % 0x1_0000), SwapBytes16(c.dstPort % 0x1_0000),
                c.protocol),
           Meta(c.prevProbeId, c.probeId, c.timeStamp))
  }
}
