/**
 * From the syntax tree of a policy to the profiler's `policy`
 * (profiler/parser.go): the Connection sections become a map from a probe to
 * the probes it connects to, and each Check becomes a query, a flow and the
 * chains of probes to look for.  The walks go over the children of a node,
 * the first one first (the `up` and `next` links of `node32`).
 *
 * The library calls are parameters or written out: `net.ParseCIDR` and
 * `net.ParseIP` are the functions of a `Net` value, `strconv.Atoi` is
 * written out for the digit strings the grammar lets through.  The slices
 * `buffer[p.begin:p.end]` take byte offsets of the text with the rune offsets
 * of the tokens; the two agree on ASCII text, which the text here is taken to
 * be.
 */
module PolicyParser {
  import opened Bits
  import opened PolicyGrammar
  import opened PolicyTree
  import opened Profiler
  import PolicyFacts

  /** `math.MaxInt64`: `strconv.Atoi` gives it for a number that does not fit. */
  const MAX_INT: nat := 0x7fff_ffff_ffff_ffff

  predicate IsDigitChar(c: char)
  {
    '0' <= c <= '9'
  }

  predicate AllDigits(s: string)
  {
    forall i :: 0 <= i < |s| ==> IsDigitChar(s[i])
  }

  /** The value of a string of decimal digits. */
  function Decimal(s: string): nat
    requires AllDigits(s)
  {
    if s == [] then 0 else 10 * Decimal(s[..|s| - 1]) + (s[|s| - 1] as int - '0' as int)
  }

  /** `strconv.Atoi` on a string of digits, with the error dropped as `parser.go`
      drops it: the value, clamped at MaxInt64; 0 for anything else. */
  function Atoi(s: string): (i: nat)
    ensures i <= MAX_INT
  {
    if |s| > 0 && AllDigits(s) then (if Decimal(s) <= MAX_INT then Decimal(s) else MAX_INT) else 0
  }

  /** The decimal digits of `n`, the most significant first. */
  function DecimalText(n: nat): (s: string)
    ensures |s| > 0 && AllDigits(s)
  {
    if n < 10 then [('0' as int + n) as char]
    else DecimalText(n / 10) + [('0' as int + n % 10) as char]
  }

  lemma {:induction false} DecimalOfText(n: nat)
    ensures Decimal(DecimalText(n)) == n
  {
    if n >= 10 {
      DecimalOfText(n / 10);
      var s := DecimalText(n);
      assert s[..|s| - 1] == DecimalText(n / 10);
    }
  }

  /** `Atoi` reads back every probe id it can return. */
  lemma AtoiOfDecimalText(n: nat)
    requires n <= MAX_INT
    ensures Atoi(DecimalText(n)) == n
  {
    DecimalOfText(n);
  }

  /** The span of a token lies inside the text. */
  predicate SpanIn(t: Token, text: string)
  {
    t.begin <= t.end <= |text|
  }

  /** Every span of a tree lies inside the text, so `buffer[p.begin:p.end]` does not
      panic anywhere in it. */
  predicate NodeInText(n: Node, text: string)
    decreases n
  {
    SpanIn(n.token, text) && forall i :: 0 <= i < |n.children| ==> NodeInText(n.children[i], text)
  }

  predicate AllInText(ns: seq<Node>, text: string)
  {
    forall i :: 0 <= i < |ns| ==> NodeInText(ns[i], text)
  }

  /** `buffer[p.begin:p.end]`. */
  function TextOf(n: Node, text: string): string
    requires SpanIn(n.token, text)
  {
    text[n.token.begin..n.token.end]
  }

  /** `uint(strconv.Atoi(buffer[p.begin:p.end]))`. */
  function ProbeId(n: Node, text: string): nat
    requires SpanIn(n.token, text)
  {
    Atoi(TextOf(n, text))
  }

  /** The ids of the `probe` nodes of a sibling list, in order. */
  function ProbeIds(ns: seq<Node>, text: string): seq<nat>
    requires AllInText(ns, text)
    decreases |ns|
  {
    if ns == [] then []
    else
      var m := |ns| - 1;
      ProbeIds(ns[..m], text) + if ns[m].token.rule == RuleProbe then [ProbeId(ns[m], text)] else []
  }

  /** The texts of the `prefix` nodes of a sibling list, in order. */
  function PrefixTexts(ns: seq<Node>, text: string): seq<string>
    requires AllInText(ns, text)
    decreases |ns|
  {
    if ns == [] then []
    else
      var m := |ns| - 1;
      PrefixTexts(ns[..m], text) + if ns[m].token.rule == RulePrefix then [TextOf(ns[m], text)] else []
  }

  /** One more sibling: its id and its text, if it has one, come after the others. */
  lemma SiblingStep(ns: seq<Node>, text: string, i: nat)
    requires AllInText(ns, text) && i < |ns|
    ensures AllInText(ns[..i], text) && AllInText(ns[..i + 1], text)
    ensures ProbeIds(ns[..i + 1], text) ==
      ProbeIds(ns[..i], text) + if ns[i].token.rule == RuleProbe then [ProbeId(ns[i], text)] else []
    ensures PrefixTexts(ns[..i + 1], text) ==
      PrefixTexts(ns[..i], text) + if ns[i].token.rule == RulePrefix then [TextOf(ns[i], text)] else []
  {
    assert ns[..i + 1][..i] == ns[..i];
  }

  /** The prefix texts of the first siblings begin those of all of them. */
  lemma {:induction false} PrefixTextsPrefix(ns: seq<Node>, text: string, k: nat)
    requires AllInText(ns, text) && k <= |ns|
    ensures AllInText(ns[..k], text) && PrefixTexts(ns[..k], text) <= PrefixTexts(ns, text)
    decreases |ns|
  {
    if k < |ns| {
      var m := |ns| - 1;
      assert ns[..m][..k] == ns[..k];
      PrefixTextsPrefix(ns[..m], text, k);
    } else {
      assert ns[..k] == ns;
    }
  }

  // ---------------------------------------------------------------- parseConnection

  /** The probes `u` connects to; none when `u` has no entry. */
  function Targets(c: map<nat, set<nat>>, u: nat): set<nat>
  {
    if u in c then c[u] else {}
  }

  /** The probes after the first. */
  function Later(ps: seq<nat>): set<nat>
    requires |ps| > 0
  {
    set v | v in ps[1..]
  }

  /** The connections after a Connection whose probes are `ps`: `ps[0]` gets an entry,
      and it connects to every later probe besides the probes it connected to. */
  function AddEdges(c: map<nat, set<nat>>, ps: seq<nat>): (r: map<nat, set<nat>>)
    ensures r.Keys == c.Keys + (if |ps| > 0 then {ps[0]} else {})
    ensures forall u, v :: (u in r && v in r[u]) <==>
      (u in c && v in c[u]) || (|ps| > 0 && u == ps[0] && v in ps[1..])
  {
    if ps == [] then c else c[ps[0] := Targets(c, ps[0]) + Later(ps)]
  }

  /** One more probe after the first adds one edge from the first. */
  lemma AddEdgesStep(c: map<nat, set<nat>>, ps: seq<nat>, v: nat)
    requires |ps| > 0
    ensures AddEdges(c, ps + [v]) == AddEdges(c, ps)[ps[0] := AddEdges(c, ps)[ps[0]] + {v}]
  {
    var qs := ps + [v];
    assert qs[0] == ps[0] && qs[1..] == ps[1..] + [v];
    var t := Targets(c, ps[0]);
    assert Later(qs) == Later(ps) + {v};
    assert (t + Later(ps)) + {v} == t + Later(qs);
  }

  /** The first probe alone gives it an entry if it has none. */
  lemma AddEdgesFirst(c: map<nat, set<nat>>, u: nat)
    ensures AddEdges(c, [u]) == if u in c then c else c[u := {}]
  {
    assert [u][1..] == [];
    assert Later([u]) == {};
    assert Targets(c, u) + Later([u]) == Targets(c, u);
    if u in c {
      assert c[u := c[u]] == c;
    }
  }

  // ---------------------------------------------------------------- parseChain

  /** `parseChain`: walking the siblings, `u` is the id of the last probe seen; at a
      Chain node the ids of its own walk come first and `u` is appended; at the end
      of the list, `u` alone (0 when no probe was seen). */
  function ParseChain(ns: seq<Node>, text: string, u: nat): (r: seq<nat>)
    requires AllInText(ns, text)
    ensures |r| > 0
    decreases ns
  {
    if ns == [] then [u]
    else
      var p := ns[0];
      var u' := if p.token.rule == RuleProbe then ProbeId(p, text) else u;
      if p.token.rule == RuleChain then ParseChain(p.children, text, 0) + [u']
      else ParseChain(ns[1..], text, u')
  }

  /** The shape the grammar gives a chain, `probe ws '->' ws Chain / probe`: one
      probe on each level, then the Chain of the next level or nothing.  `seen` says
      whether this level's probe has been passed. */
  predicate ChainForm(ns: seq<Node>, seen: bool)
    decreases ns
  {
    if ns == [] then seen
    else if ns[0].token.rule == RuleProbe then !seen && ChainForm(ns[1..], true)
    else if ns[0].token.rule == RuleChain then seen && ChainForm(ns[0].children, false)
    else ChainForm(ns[1..], seen)
  }

  /** The probe ids of a chain in textual order, down through the nested Chains. */
  function ChainProbes(ns: seq<Node>, text: string): seq<nat>
    requires AllInText(ns, text)
    decreases ns
  {
    if ns == [] then []
    else if ns[0].token.rule == RuleProbe then [ProbeId(ns[0], text)] + ChainProbes(ns[1..], text)
    else if ns[0].token.rule == RuleChain then ChainProbes(ns[0].children, text)
    else ChainProbes(ns[1..], text)
  }

  /** On a chain of the grammar's shape, `parseChain` gives the probe ids in reverse
      textual order, one per probe; `u`, this level's probe once seen, comes last. */
  lemma {:induction false} ParseChainReverses(ns: seq<Node>, text: string, u: nat, seen: bool)
    requires AllInText(ns, text) && ChainForm(ns, seen)
    ensures ParseChain(ns, text, u) == Reverse(ChainProbes(ns, text)) + (if seen then [u] else [])
    decreases ns
  {
    if ns != [] {
      var p := ns[0];
      if p.token.rule == RuleProbe {
        var id := ProbeId(p, text);
        ParseChainReverses(ns[1..], text, id, true);
        ReverseCons(id, ChainProbes(ns[1..], text));
      } else if p.token.rule == RuleChain {
        ParseChainReverses(p.children, text, 0, false);
      } else {
        ParseChainReverses(ns[1..], text, u, seen);
      }
    }
  }

  /** A chain of the grammar's shape: the path `analyze` checks is the reversed probe
      ids, with as many elements as the chain has probes. */
  lemma ChainPath(ns: seq<Node>, text: string)
    requires AllInText(ns, text) && ChainForm(ns, false)
    ensures ParseChain(ns, text, 0) == Reverse(ChainProbes(ns, text))
    ensures |ParseChain(ns, text, 0)| == |ChainProbes(ns, text)|
  {
    ParseChainReverses(ns, text, 0, false);
  }

  // ---------------------------------------------------------------- parseIP

  /** `net.ParseCIDR` (the address and the mask of the network, or an error) and
      `net.ParseIP` (the address bytes, or nil). */
  datatype Net = Net(parseCidr: string -> Option<(seq<byte>, seq<byte>)>, parseIp: string -> seq<byte>)

  /** `binary.BigEndian.Uint32(b[n-4 : n])`. */
  function LastWord(bs: seq<byte>): (r: nat)
    requires |bs| >= 4
    ensures r < 0x1_0000_0000
  {
    BigEndianBound(bs[|bs| - 4..]);
    BigEndian(bs[|bs| - 4..])
  }

  /** `parseIP`: an address and its mask, from the last four bytes of what the library
      returns; `None` where Go panics: an error from `ParseCIDR` leaves `snet` nil,
      and a nil or short address makes `[n-4 : n]` fail.  Without a '/' the mask is
      0xFFFFFFFF. */
  function ParseIp(s: string, net: Net): (r: Option<(nat, nat)>)
    ensures r.Some? ==> r.value.0 < 0x1_0000_0000 && r.value.1 < 0x1_0000_0000
    ensures '/' !in s ==> (r.Some? <==> |net.parseIp(s)| >= 4)
    ensures '/' !in s && r.Some? ==> r.value.1 == 0xFFFF_FFFF
    ensures '/' in s ==>
      (r.Some? <==> (net.parseCidr(s).Some? && |net.parseCidr(s).value.0| >= 4 && |net.parseCidr(s).value.1| >= 4))
  {
    if '/' in s then
      match net.parseCidr(s)
      case None => None
      case Some((ip, mask)) =>
        if |ip| < 4 || |mask| < 4 then None else Some((LastWord(ip), LastWord(mask)))
    else
      var ip := net.parseIp(s);
      if |ip| < 4 then None else Some((LastWord(ip), 0xFFFF_FFFF))
  }

  /** An address `a.b.c.d` without a mask, whatever form (4 or 16 bytes) the library
      returns it in, becomes the number with `a` as its most significant byte. */
  lemma ParseIpDottedQuad(s: string, net: Net, a: byte, b: byte, c: byte, d: byte)
    requires '/' !in s && |net.parseIp(s)| >= 4
    requires net.parseIp(s)[|net.parseIp(s)| - 4..] == [a, b, c, d]
    ensures ParseIp(s, net).Some?
    ensures ParseIp(s, net).value == ((a * 0x100_0000 + b * 0x1_0000 + c * 0x100 + d) as nat, 0xFFFF_FFFF)
  {
    var w := [a, b, c, d];
    assert w[..3] == [a, b, c] && w[..3][..2] == [a, b] && w[..3][..2][..1] == [a];
    assert BigEndian([a]) == a;
    assert BigEndian([a, b]) == 0x100 * a + b;
    assert BigEndian([a, b, c]) == 0x100 * (0x100 * a + b) + c;
    assert BigEndian(w) == 0x100 * (0x100 * (0x100 * a + b) + c) + d;
    assert LastWord(net.parseIp(s)) == BigEndian(w);
  }

  // ---------------------------------------------------------------- parseFlow

  /** Every prefix text is one `parseIP` accepts. */
  predicate AllParse(ps: seq<string>, net: Net)
  {
    forall i :: 0 <= i < |ps| ==> ParseIp(ps[i], net).Some?
  }

  /** The flow of a Flow node's children: the first prefix is the source, the last of
      the others the destination; the first probe is the protocol, the second the
      source port and the last of the others the destination port.  Fields with
      nothing to set them stay 0.  On the grammar's shape, two prefixes and three
      numbers, each goes to its own field. */
  function FlowSpec(ns: seq<Node>, text: string, net: Net): (f: Flow)
    requires AllInText(ns, text) && AllParse(PrefixTexts(ns, text), net)
    ensures var ps, ids := PrefixTexts(ns, text), ProbeIds(ns, text);
      |ps| == 2 && |ids| == 3 ==>
        f == Flow(ParseIp(ps[0], net).value.0, ParseIp(ps[0], net).value.1,
                  ParseIp(ps[1], net).value.0, ParseIp(ps[1], net).value.1, ids[1], ids[2], ids[0])
  {
    var ps, ids := PrefixTexts(ns, text), ProbeIds(ns, text);
    var src := if |ps| > 0 then ParseIp(ps[0], net).value else (0, 0);
    var dst := if |ps| > 1 then ParseIp(ps[|ps| - 1], net).value else (0, 0);
    Flow(src.0, src.1, dst.0, dst.1,
         if |ids| > 1 then ids[1] else 0,
         if |ids| > 2 then ids[|ids| - 1] else 0,
         if |ids| > 0 then ids[0] else 0)
  }

  /** `parseFlow`, with its panic as `None`. */
  function FlowOf(ns: seq<Node>, text: string, net: Net): Option<Flow>
    requires AllInText(ns, text)
  {
    if AllParse(PrefixTexts(ns, text), net) then Some(FlowSpec(ns, text, net)) else None
  }

  /** A prefix sets the source the first time and the destination after that. */
  lemma FlowPrefixStep(ns: seq<Node>, text: string, net: Net, i: nat)
    requires AllInText(ns, text) && i < |ns| && ns[i].token.rule == RulePrefix
    requires AllInText(ns[..i], text) && AllParse(PrefixTexts(ns[..i], text), net)
    requires ParseIp(TextOf(ns[i], text), net).Some?
    ensures AllInText(ns[..i + 1], text) && AllParse(PrefixTexts(ns[..i + 1], text), net)
    ensures var f, ip := FlowSpec(ns[..i], text, net), ParseIp(TextOf(ns[i], text), net).value;
      FlowSpec(ns[..i + 1], text, net) ==
        if |PrefixTexts(ns[..i], text)| == 0 then f.(srcAddr := ip.0, srcMask := ip.1)
        else f.(dstAddr := ip.0, dstMask := ip.1)
  {
    SiblingStep(ns, text, i);
  }

  /** A probe sets the protocol, then the source port, then the destination port,
      the last one winning. */
  lemma FlowProbeStep(ns: seq<Node>, text: string, net: Net, i: nat)
    requires AllInText(ns, text) && i < |ns| && ns[i].token.rule == RuleProbe
    requires AllInText(ns[..i], text) && AllParse(PrefixTexts(ns[..i], text), net)
    ensures AllInText(ns[..i + 1], text) && AllParse(PrefixTexts(ns[..i + 1], text), net)
    ensures var f, id, n := FlowSpec(ns[..i], text, net), ProbeId(ns[i], text), |ProbeIds(ns[..i], text)|;
      FlowSpec(ns[..i + 1], text, net) ==
        if n == 0 then f.(proto := id) else if n == 1 then f.(srcPort := id) else f.(dstPort := id)
  {
    SiblingStep(ns, text, i);
  }

  /** Any other sibling changes nothing. */
  lemma FlowOtherStep(ns: seq<Node>, text: string, net: Net, i: nat)
    requires AllInText(ns, text) && i < |ns| && ns[i].token.rule != RuleProbe && ns[i].token.rule != RulePrefix
    requires AllInText(ns[..i], text) && AllParse(PrefixTexts(ns[..i], text), net)
    ensures AllInText(ns[..i + 1], text) && AllParse(PrefixTexts(ns[..i + 1], text), net)
    ensures FlowSpec(ns[..i + 1], text, net) == FlowSpec(ns[..i], text, net)
  {
    SiblingStep(ns, text, i);
  }

  /** A prefix `parseIP` panics on makes the whole walk panic. */
  lemma FlowPanics(ns: seq<Node>, text: string, net: Net, i: nat)
    requires AllInText(ns, text) && i < |ns| && ns[i].token.rule == RulePrefix
    requires AllInText(ns[..i], text) && ParseIp(TextOf(ns[i], text), net).None?
    ensures !AllParse(PrefixTexts(ns, text), net)
  {
    SiblingStep(ns, text, i);
    PrefixTextsPrefix(ns, text, i + 1);
    assert PrefixTexts(ns, text)[|PrefixTexts(ns[..i], text)|] == TextOf(ns[i], text);
  }

  /** `parseFlow`: the flags `prefix1`, `proto` and `sport` say which fields have been
      set.  It panics (`None`) at the first prefix `parseIP` panics on. */
  method ParseFlow(ns: seq<Node>, text: string, net: Net) returns (r: Option<Flow>)
    requires AllInText(ns, text)
    ensures r == FlowOf(ns, text, net)
  {
    var f := ZERO_FLOW;
    var prefix1, proto, sport := false, false, false;
    var i := 0;
    while i < |ns|
      invariant 0 <= i <= |ns| && AllInText(ns[..i], text)
      invariant var ps, ids := PrefixTexts(ns[..i], text), ProbeIds(ns[..i], text);
        AllParse(ps, net) && prefix1 == (|ps| > 0) && proto == (|ids| > 0) && sport == (|ids| > 1) &&
        f == FlowSpec(ns[..i], text, net)
    {
      SiblingStep(ns, text, i);
      var p := ns[i];
      if p.token.rule == RulePrefix {
        var ip := ParseIp(TextOf(p, text), net);
        if ip.None? {
          FlowPanics(ns, text, net, i);
          return None;
        }
        FlowPrefixStep(ns, text, net, i);
        if !prefix1 {
          f := f.(srcAddr := ip.value.0, srcMask := ip.value.1);
          prefix1 := true;
        } else {
          f := f.(dstAddr := ip.value.0, dstMask := ip.value.1);
        }
      }
      if p.token.rule == RuleProbe {
        FlowProbeStep(ns, text, net, i);
      } else if p.token.rule != RulePrefix {
        FlowOtherStep(ns, text, net, i);
      }
      if p.token.rule == RuleProbe && !proto {
        f := f.(proto := ProbeId(p, text));
        proto := true;
      } else if p.token.rule == RuleProbe && !sport {
        f := f.(srcPort := ProbeId(p, text));
        sport := true;
      } else if p.token.rule == RuleProbe {
        f := f.(dstPort := ProbeId(p, text));
      }
      i := i + 1;
    }
    assert ns[..i] == ns;
    r := Some(f);
  }

  // ---------------------------------------------------------------- parseCheck

  /** `append(pol.queries[f], ...)` reads a missing entry as the empty list. */
  function Paths(q: Queries, f: Flow): seq<seq<nat>>
  {
    if f in q then q[f] else []
  }

  /** The queries after the walk of a Check node's children from `f`: a Flow node
      makes its flow the current one and gives it an entry, a Chain node appends its
      path to the current flow's list.  `None` where `parseFlow` panics. */
  function CheckQueries(q: Queries, ns: seq<Node>, text: string, net: Net, f: Flow): Option<Queries>
    requires AllInText(ns, text)
    decreases |ns|
  {
    if ns == [] then Some(q)
    else
      var p := ns[0];
      if p.token.rule == RuleFlow then
        var g :- FlowOf(p.children, text, net);
        CheckQueries(if g in q then q else q[g := []], ns[1..], text, net, g)
      else if p.token.rule == RuleChain then
        CheckQueries(q[f := Paths(q, f) + [ParseChain(p.children, text, 0)]], ns[1..], text, net, f)
      else CheckQueries(q, ns[1..], text, net, f)
  }

  /** The paths of the Chain nodes among the siblings, in order. */
  function Chains(ns: seq<Node>, text: string): seq<seq<nat>>
    requires AllInText(ns, text)
    decreases |ns|
  {
    if ns == [] then []
    else (if ns[0].token.rule == RuleChain then [ParseChain(ns[0].children, text, 0)] else []) +
         Chains(ns[1..], text)
  }

  predicate NoFlow(ns: seq<Node>)
  {
    forall i :: 0 <= i < |ns| ==> ns[i].token.rule != RuleFlow
  }

  /** Appending two lists of paths to a flow's entry one after the other appends
      them together. */
  lemma AppendPaths(q: Queries, g: Flow, a: seq<seq<nat>>, b: seq<seq<nat>>)
    requires g in q
    ensures q[g := q[g] + a][g := (q[g] + a) + b] == q[g := q[g] + (a + b)]
    ensures q[g := q[g] + []] == q
  {
    assert (q[g] + a) + b == q[g] + (a + b);
    assert q[g] + [] == q[g];
  }

  /** After the flow, every Chain appends one path to its list and nothing else
      changes. */
  lemma {:induction false} CheckChains(q: Queries, ns: seq<Node>, text: string, net: Net, g: Flow)
    requires AllInText(ns, text) && NoFlow(ns) && g in q
    ensures CheckQueries(q, ns, text, net, g) == Some(q[g := q[g] + Chains(ns, text)])
    decreases |ns|
  {
    if ns == [] {
      AppendPaths(q, g, [], []);
    } else {
      var p := ns[0];
      var rest := Chains(ns[1..], text);
      assert NoFlow(ns[1..]) && AllInText(ns[1..], text);
      if p.token.rule == RuleChain {
        var path := ParseChain(p.children, text, 0);
        var q1 := q[g := q[g] + [path]];
        assert CheckQueries(q, ns, text, net, g) == CheckQueries(q1, ns[1..], text, net, g);
        CheckChains(q1, ns[1..], text, net, g);
        assert Chains(ns, text) == [path] + rest;
        AppendPaths(q, g, [path], rest);
      } else {
        assert CheckQueries(q, ns, text, net, g) == CheckQueries(q, ns[1..], text, net, g);
        CheckChains(q, ns[1..], text, net, g);
        assert Chains(ns, text) == rest;
      }
    }
  }

  /** A Check node's children as the grammar makes them, the Flow first and no other
      Flow: unless `parseFlow` panics, the flow gets an entry, which keeps the paths
      it had and gains one path per Chain node; every other entry is as it was. */
  lemma CheckShape(q: Queries, ns: seq<Node>, text: string, net: Net, f: Flow)
    requires AllInText(ns, text) && |ns| > 0 && ns[0].token.rule == RuleFlow && NoFlow(ns[1..])
    ensures CheckQueries(q, ns, text, net, f).Some? <==> FlowOf(ns[0].children, text, net).Some?
    ensures FlowOf(ns[0].children, text, net).Some? ==>
      var g := FlowOf(ns[0].children, text, net).value;
      CheckQueries(q, ns, text, net, f) == Some(q[g := Paths(q, g) + Chains(ns[1..], text)])
  {
    var o := FlowOf(ns[0].children, text, net);
    if o.Some? {
      var g := o.value;
      var q1 := if g in q then q else q[g := []];
      CheckChains(q1, ns[1..], text, net, g);
      assert q1[g := q1[g] + Chains(ns[1..], text)] == q[g := Paths(q, g) + Chains(ns[1..], text)];
    }
  }

  // ---------------------------------------------------------------- parsePolicy

  /** How the dispatch loop of `parsePolicy` ends: `Hangs` is the `continue` that
      never moves on from a child without children, `Panics` a panic of
      `parseFlow`. */
  datatype Run = Done | Hangs | Panics

  /** The dispatch loop over the root's children: a Connection adds its edges, a
      Check its queries; other children with children are passed over. */
  function Dispatch(c: map<nat, set<nat>>, q: Queries, ns: seq<Node>, text: string, net: Net)
    : (r: (Run, map<nat, set<nat>>, Queries))
    requires AllInText(ns, text)
    decreases |ns|
  {
    if ns == [] then (Done, c, q)
    else
      var p := ns[0];
      if |p.children| == 0 then (Hangs, c, q)
      else
        var c1 := if p.token.rule == RuleConnection then AddEdges(c, ProbeIds(p.children, text)) else c;
        if p.token.rule == RuleCheck then
          match CheckQueries(q, p.children, text, net, ZERO_FLOW)
          case None => (Panics, c1, q)
          case Some(q1) => Dispatch(c1, q1, ns[1..], text, net)
        else Dispatch(c1, q, ns[1..], text, net)
  }

  /** Only Connection and Check children count: taking out any other child that has
      children changes nothing. */
  lemma {:induction false} DispatchSkips(c: map<nat, set<nat>>, q: Queries, ns: seq<Node>, text: string, net: Net, i: nat)
    requires AllInText(ns, text) && i < |ns| && |ns[i].children| > 0
    requires ns[i].token.rule != RuleConnection && ns[i].token.rule != RuleCheck
    ensures AllInText(ns[..i] + ns[i + 1..], text)
    ensures Dispatch(c, q, ns[..i] + ns[i + 1..], text, net) == Dispatch(c, q, ns, text, net)
    decreases i
  {
    CutInText(ns, text, i);
    var cut := ns[..i] + ns[i + 1..];
    if i == 0 {
      assert cut == ns[1..];
      assert Dispatch(c, q, ns, text, net) == Dispatch(c, q, ns[1..], text, net);
    } else {
      var p := ns[0];
      var rest := ns[1..][..i - 1] + ns[1..][i..];
      CutCons(ns, i);
      assert cut[0] == p && cut[1..] == rest;
      var c1 := if p.token.rule == RuleConnection then AddEdges(c, ProbeIds(p.children, text)) else c;
      if |p.children| > 0 {
        if p.token.rule == RuleCheck {
          var o := CheckQueries(q, p.children, text, net, ZERO_FLOW);
          if o.Some? {
            DispatchSkips(c1, o.value, ns[1..], text, net, i - 1);
          }
        } else {
          DispatchSkips(c1, q, ns[1..], text, net, i - 1);
        }
      }
    }
  }

  lemma CutInText(ns: seq<Node>, text: string, i: nat)
    requires AllInText(ns, text) && i < |ns|
    ensures AllInText(ns[..i] + ns[i + 1..], text) && AllInText(ns[1..], text)
  {
    var cut := ns[..i] + ns[i + 1..];
    forall k | 0 <= k < |cut|
      ensures NodeInText(cut[k], text)
    {
      if k < i {
        assert cut[k] == ns[k];
      } else {
        assert cut[k] == ns[k + 1];
      }
    }
  }

  lemma CutCons<T>(ns: seq<T>, i: nat)
    requires 0 < i < |ns|
    ensures ns[..i] + ns[i + 1..] == [ns[0]] + (ns[1..][..i - 1] + ns[1..][i..])
  {
    assert ns[..i] == [ns[0]] + ns[1..][..i - 1];
    assert ns[i + 1..] == ns[1..][i..];
  }

  /** The loop never ends once it reaches a child without children, such as the
      whitespace before the first Connection. */
  lemma {:induction false} DispatchHangs(c: map<nat, set<nat>>, q: Queries, ns: seq<Node>, text: string, net: Net, i: nat)
    requires AllInText(ns, text) && i < |ns| && |ns[i].children| == 0
    requires forall j :: 0 <= j < i ==> |ns[j].children| > 0 && ns[j].token.rule != RuleCheck
    ensures Dispatch(c, q, ns, text, net).0 == Hangs
    decreases i
  {
    if i > 0 {
      var p := ns[0];
      var c1 := if p.token.rule == RuleConnection then AddEdges(c, ProbeIds(p.children, text)) else c;
      DispatchHangs(c1, q, ns[1..], text, net, i - 1);
    }
  }

  /** `policy`: the connections and the queries being built. */
  class PolicyMaps {
    var connections: map<nat, set<nat>>
    var queries: Queries

    /** The two `make` calls of `parsePolicy`. */
    constructor ()
      ensures connections == map[] && queries == map[]
    {
      connections := map[];
      queries := map[];
    }

    /** `parseConnection` over the children of a Connection node: the first probe
        gets an entry, and each later probe becomes one of its targets. */
    method ParseConnection(ns: seq<Node>, text: string)
      requires AllInText(ns, text)
      modifies this`connections
      ensures connections == AddEdges(old(connections), ProbeIds(ns, text))
    {
      var first := false;
      var u := 0;
      var i := 0;
      while i < |ns|
        invariant 0 <= i <= |ns| && AllInText(ns[..i], text)
        invariant var ps := ProbeIds(ns[..i], text);
          first == (|ps| > 0) && (first ==> u == ps[0] && u in connections) &&
          connections == AddEdges(old(connections), ps)
      {
        SiblingStep(ns, text, i);
        var p := ns[i];
        if p.token.rule == RuleProbe {
          if !first {
            u := ProbeId(p, text);
            assert ProbeIds(ns[..i + 1], text) == [u];
            AddEdgesFirst(old(connections), u);
            if u !in connections {
              connections := connections[u := {}];
            }
            assert connections == AddEdges(old(connections), [u]);
            first := true;
          } else {
            var v := ProbeId(p, text);
            ghost var ps := ProbeIds(ns[..i], text);
            assert ProbeIds(ns[..i + 1], text) == ps + [v];
            AddEdgesStep(old(connections), ps, v);
            connections := connections[u := connections[u] + {v}];
            assert connections == AddEdges(old(connections), ps + [v]);
          }
        } else {
          assert ProbeIds(ns[..i + 1], text) == ProbeIds(ns[..i], text);
        }
        i := i + 1;
      }
      assert ns[..i] == ns;
    }

    /** `parseCheck` over the children of a Check node, from the zero flow; `false`
        where `parseFlow` panics. */
    method ParseCheck(ns: seq<Node>, text: string, net: Net) returns (ok: bool)
      requires AllInText(ns, text)
      modifies this`queries
      ensures ok == CheckQueries(old(queries), ns, text, net, ZERO_FLOW).Some?
      ensures ok ==> queries == CheckQueries(old(queries), ns, text, net, ZERO_FLOW).value
    {
      var f := ZERO_FLOW;
      var i := 0;
      while i < |ns|
        invariant 0 <= i <= |ns| && AllInText(ns[i..], text)
        invariant CheckQueries(old(queries), ns, text, net, ZERO_FLOW) == CheckQueries(queries, ns[i..], text, net, f)
      {
        var p := ns[i];
        assert ns[i..][0] == p && ns[i..][1..] == ns[i + 1..];
        if p.token.rule == RuleFlow {
          var g := ParseFlow(p.children, text, net);
          if g.None? {
            return false;
          }
          f := g.value;
          if f !in queries {
            queries := queries[f := []];
          }
        }
        if p.token.rule == RuleChain {
          var probes := ParseChain(p.children, text, 0);
          queries := queries[f := Paths(queries, f) + [probes]];
        }
        i := i + 1;
      }
      ok := true;
    }

    /** The loop of `parsePolicy` over the root's children, as `Dispatch` says; the
        state is meant only when the loop ends. */
    method DispatchChildren(ns: seq<Node>, text: string, net: Net) returns (run: Run)
      requires AllInText(ns, text)
      modifies this
      ensures var d := Dispatch(old(connections), old(queries), ns, text, net);
        run == d.0 && (run == Done ==> connections == d.1 && queries == d.2)
    {
      var i := 0;
      while i < |ns|
        invariant 0 <= i <= |ns| && AllInText(ns[i..], text)
        invariant Dispatch(old(connections), old(queries), ns, text, net) ==
          Dispatch(connections, queries, ns[i..], text, net)
      {
        var p := ns[i];
        assert ns[i..][0] == p && ns[i..][1..] == ns[i + 1..];
        if |p.children| == 0 {
          return Hangs;
        }
        if p.token.rule == RuleConnection {
          ParseConnection(p.children, text);
        }
        if p.token.rule == RuleCheck {
          var ok := ParseCheck(p.children, text, net);
          if !ok {
            return Panics;
          }
        }
        i := i + 1;
      }
      run := Done;
    }
  }

  // ---------------------------------------------------------------- the whole of parsePolicy

  /** What `parsePolicy` of a file's text comes to. */
  datatype Parsed = ParseError | Hung | Panicked | Parsed(connections: map<nat, set<nat>>, queries: Queries)

  /** Every token of the list lies in the text. */
  predicate SpansIn(ts: seq<Token>, text: string)
  {
    forall t :: t in ts ==> SpanIn(t, text)
  }

  /** Every token a tree's nodes come from lies in the text: so do all its spans. */
  lemma {:induction false} PostOrderInText(n: Node, text: string)
    requires SpansIn(PostOrder(n), text)
    ensures NodeInText(n, text)
    decreases n, 1
  {
    assert PostOrder(n) == Flatten(n.children) + [n.token];
    FlattenInText(n.children, text);
  }

  lemma {:induction false} FlattenInText(ns: seq<Node>, text: string)
    requires SpansIn(Flatten(ns), text)
    ensures AllInText(ns, text)
    decreases ns, 0
  {
    if ns != [] {
      var m := |ns| - 1;
      assert Flatten(ns) == Flatten(ns[..m]) + PostOrder(ns[m]);
      FlattenInText(ns[..m], text);
      PostOrderInText(ns[m], text);
      assert forall k :: 0 <= k < m ==> ns[k] == ns[..m][k];
    }
  }

  /** The tokens `AST` keeps are tokens of the array. */
  lemma {:induction false} NonEmptyIn(ts: seq<Token>)
    ensures forall t :: t in NonEmpty(ts) ==> t in ts
    decreases |ts|
  {
    if ts != [] {
      var m := |ts| - 1;
      NonEmptyIn(ts[..m]);
      assert forall t :: t in ts[..m] ==> t in ts;
    }
  }

  /** The tokens of a Policy match lie in the text. */
  lemma PolicyTokensInText(text: string)
    requires RuleF(RulePolicy, InitBuffer(text), 0, 0, []).Ok?
    ensures SpansIn(RuleF(RulePolicy, InitBuffer(text), 0, 0, []).m.toks, text)
  {
    var o := RuleF(RulePolicy, InitBuffer(text), 0, 0, []);
    var toks := o.m.toks;
    assert o.m.end <= |text|;
    assert Inside(toks, 0, |toks| - 1, 0, o.m.end, 1);
    assert toks[|toks| - 1] == Token(RulePolicy, 0, o.m.end, 0);
    forall t | t in toks
      ensures SpanIn(t, text)
    {
      var k :| 0 <= k < |toks| && toks[k] == t;
    }
  }

  /** The tree `AST` builds from tokens that lie in the text lies in the text. */
  lemma AstInText(toks: seq<Token>, root: Node, text: string)
    requires SpansIn(toks, text)
    requires var ts := AstTokens(toks); var post := PostOrder(root);
      |post| <= |ts| && post == ts[|ts| - |post|..]
    ensures NodeInText(root, text)
  {
    var ts := AstTokens(toks);
    var rest := if toks == [] then [] else toks[1..];
    NonEmptyIn(rest);
    assert forall t :: t in rest ==> t in toks;
    assert ts == [First(toks)] + NonEmpty(rest);
    assert SpansIn(ts, text);
    var post := PostOrder(root);
    assert forall t :: t in post ==> t in ts;
    PostOrderInText(root, text);
  }

  /** The last token of a Policy match is the Policy token itself, which is not
      empty, so the tree `AST` returns belongs to it. */
  lemma PolicyRoot(text: string)
    requires RuleF(RulePolicy, InitBuffer(text), 0, 0, []).Ok?
    ensures var toks := RuleF(RulePolicy, InitBuffer(text), 0, 0, []).m.toks;
      var ts := AstTokens(toks);
      ts[|ts| - 1].rule == RulePolicy
  {
    var o := RuleF(RulePolicy, InitBuffer(text), 0, 0, []);
    var toks := o.m.toks;
    var t := toks[|toks| - 1];
    assert t == Token(RulePolicy, 0, o.m.end, 0) && t.begin != t.end;
    if |toks| > 1 {
      var rest := toks[1..];
      assert rest[|rest| - 1] == t;
    }
  }

  /** The Policy token is the last of its match and covers every token before it,
      so the tree `AST` builds holds every node token: its tokens, children first,
      are exactly the node tokens, and nothing is left beside it on the stack. */
  lemma PolicyTreeHoldsAll(text: string)
    requires RuleF(RulePolicy, InitBuffer(text), 0, 0, []).Ok?
    ensures var ts := AstTokens(RuleF(RulePolicy, InitBuffer(text), 0, 0, []).m.toks);
      |Built(ts)| == 1 && PostOrder(AstRoot(ts)) == ts
  {
    var o := RuleF(RulePolicy, InitBuffer(text), 0, 0, []);
    var toks := o.m.toks;
    var t := toks[|toks| - 1];
    assert t == Token(RulePolicy, 0, o.m.end, 0) && t.begin != t.end;
    assert Inside(toks, 0, |toks| - 1, 0, o.m.end, 1);
    var ts := AstTokens(toks);
    var rest := toks[1..];
    NonEmptyIn(rest);
    if |toks| > 1 {
      assert rest[|rest| - 1] == t;
      SnocLast(rest);
    }
    assert ts[|ts| - 1] == t;
    forall k | 0 <= k < |ts|
      ensures Covers(t, ts[k])
    {
      if k > 0 {
        assert ts[k] in NonEmpty(rest);
        var j :| 0 <= j < |rest| && rest[j] == ts[k];
        assert rest[j] == toks[j + 1];
      }
    }
    CoveringTokenTakesAll(ts);
  }

  /** `parsePolicy` on the text of the policy file: `Init` and `Parse` of the
      grammar, `AST`, then the dispatch loop.  It is a parse error exactly when the
      text is not a Policy; otherwise `root` is the Policy node `AST` builds, whose
      spans lie in the text and nest, and the outcome and the two maps are those of
      the dispatch loop over its children, starting from empty maps. */
  method ParsePolicy(text: string, net: Net) returns (r: Parsed, ghost root: Node)
    ensures r.ParseError? <==> RuleF(RulePolicy, InitBuffer(text), 0, 0, []).Fail?
    ensures !r.ParseError? ==> root.token.rule == RulePolicy && Nested(root) && NodeInText(root, text)
    ensures !r.ParseError? ==>
      root == AstRoot(AstTokens(RuleF(RulePolicy, InitBuffer(text), 0, 0, []).m.toks))
    ensures !r.ParseError? ==>
      PostOrder(root) == AstTokens(RuleF(RulePolicy, InitBuffer(text), 0, 0, []).m.toks)
    ensures !r.ParseError? && NodeInText(root, text) ==>
      var d := Dispatch(map[], map[], root.children, text, net);
      (r.Hung? <==> d.0 == Hangs) && (r.Panicked? <==> d.0 == Panics) &&
      (r.Parsed? ==> d.0 == Done && r.connections == d.1 && r.queries == d.2)
  {
    var peg := new Policy.Init(text);
    assert peg.Tokens() == [];
    var ok := peg.Parse(RulePolicy);
    if !ok {
      return ParseError, Node(ZERO_TOKEN, []);
    }
    var toks := peg.tree;
    PolicyTokensInText(text);
    PolicyRoot(text);
    var tree := Ast(toks);
    root := tree;
    PolicyTreeHoldsAll(text);
    AstInText(toks, tree, text);
    var maps := new PolicyMaps();
    var run := maps.DispatchChildren(tree.children, text, net);
    match run
    case Done => r := Parsed(maps.connections, maps.queries);
    case Hangs => r := Hung;
    case Panics => r := Panicked;
  }
  /** The tokens of a Policy match over a text that starts with whitespace: first
      the whitespace token, which is not empty, then tokens that all start after it,
      then the Policy token. */
  lemma PolicyLeadingWs(text: string) returns (e: nat)
    requires RuleF(RulePolicy, InitBuffer(text), 0, 0, []).Ok?
    requires |text| > 0 && IsWs(text[0] as int)
    ensures var o := RuleF(RulePolicy, InitBuffer(text), 0, 0, []); var toks := o.m.toks;
      0 < e && |toks| >= 2 && toks[0] == Token(RuleWs, 0, e, 1) &&
      toks[|toks| - 1] == Token(RulePolicy, 0, o.m.end, 0) &&
      forall k :: 1 <= k < |toks| - 1 ==> e <= toks[k].begin
  {
    var buf := InitBuffer(text);
    var o := RuleF(RulePolicy, buf, 0, 0, []);
    var w := RuleF(RuleWs, buf, 0, 1, []).m;
    PolicyFacts.WsMatch(buf, 0, 1, []);
    e := w.end;
    var b := PolicyBodyF(buf, 0, 1, []);
    assert o == PolicyF(buf, 0, 0, []) && b.Ok? && o.m.toks == b.m.toks + [Token(RulePolicy, 0, b.m.end, 0)];
    var cs := PlusF(RuleConnection, buf, e, 1, w.toks);
    assert cs == SectionF(RuleConnection, buf, 0, 1, []) && cs.Ok?;
    var ks := SectionF(RuleCheck, buf, cs.m.end, 1, cs.m.toks);
    assert ks.Ok? && b == ks;
    InsideJoin(cs.m.toks, ks.m.toks, 1, e, cs.m.end, ks.m.end, 1);
  }

  /** The node tokens of such a match: the whitespace token, tokens none of which
      covers it, then the Policy token. */
  lemma LeadingWsFront(text: string) returns (front: seq<Token>)
    requires RuleF(RulePolicy, InitBuffer(text), 0, 0, []).Ok?
    requires |text| > 0 && IsWs(text[0] as int)
    ensures var toks := RuleF(RulePolicy, InitBuffer(text), 0, 0, []).m.toks;
      |toks| > 0 && AstTokens(toks) == front + [toks[|toks| - 1]] &&
      |front| > 0 && front[0] == toks[0] &&
      forall k :: 0 < k < |front| ==> !Covers(front[k], front[0])
  {
    var toks := RuleF(RulePolicy, InitBuffer(text), 0, 0, []).m.toks;
    var e := PolicyLeadingWs(text);
    var t := toks[|toks| - 1];
    var inner := toks[1..|toks| - 1];
    assert toks[1..] == inner + [t];
    assert NonEmpty(inner + [t]) == NonEmpty(inner) + [t] by {
      assert (inner + [t])[..|inner|] == inner;
    }
    front := [toks[0]] + NonEmpty(inner);
    NonEmptyIn(inner);
    forall k | 0 < k < |front|
      ensures !Covers(front[k], front[0])
    {
      assert front[k] in NonEmpty(inner);
      var j :| 0 <= j < |inner| && inner[j] == front[k];
      assert inner[j] == toks[j + 1];
    }
  }

  /** A policy text that starts with whitespace parses, but its whitespace token is
      the first child of the root and has no children, so the dispatch loop never
      ends. */
  lemma LeadingWsHangs(text: string, net: Net)
    requires RuleF(RulePolicy, InitBuffer(text), 0, 0, []).Ok?
    requires |text| > 0 && IsWs(text[0] as int)
    ensures var root := AstRoot(AstTokens(RuleF(RulePolicy, InitBuffer(text), 0, 0, []).m.toks));
      NodeInText(root, text) && Dispatch(map[], map[], root.children, text, net).0 == Hangs
  {
    var toks := RuleF(RulePolicy, InitBuffer(text), 0, 0, []).m.toks;
    var ts := AstTokens(toks);
    var front := LeadingWsFront(text);
    PolicyTreeHoldsAll(text);
    RootFirstChild(front, toks[|toks| - 1]);
    var root := AstRoot(ts);
    assert ts[|ts| - |PostOrder(root)|..] == ts;
    PolicyTokensInText(text);
    AstInText(toks, root, text);
    DispatchHangs(map[], map[], root.children, text, net, 0);
  }
}
