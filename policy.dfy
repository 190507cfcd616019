/**
 * The recogniser of the profiler's policy language (profiler/policy.peg.go),
 * a parser generated from the PEG
 *
 *   Policy     <- ws Connection+ ws Check+ !.
 *   Connection <- probe ws '->' ws probe ws
 *   Check      <- Flow ws ':' ws Chain '\n'
 *   Chain      <- probe ws '->' ws Chain / probe
 *   Flow       <- '(' prefix delim prefix delim probe delim probe delim probe ws ')'
 *   prefix     <- [0-9]+ '.' [0-9]+ '.' [0-9]+ '.' [0-9]+ mask?
 *   mask       <- '/' [0-9]+
 *   probe      <- [0-9]+
 *   delim      <- ws ',' ws
 *   ws         <- (' ' / '\t' / '\n' / '\r')*
 *
 * Each rule is a closure over the shared `position`, `tokenIndex` and
 * `depth`; here each is a method of class `Policy`, proved equal to a pure
 * function of the rune buffer, the entry position and the entry depth.  Those
 * functions return the end position and the tokens the rule appends, or `Fail`.
 */
module PolicyGrammar {

  /** The rune `Init` appends after the text; no rune of a string has this value. */
  const END_SYMBOL: int := 1114112

  /** `math.MaxInt16`, the initial length of the token array. */
  const INITIAL_TREE_SIZE: nat := 32767

  /** `pegRule`. */
  datatype PegRule = RuleUnknown | RulePolicy | RuleConnection | RuleCheck | RuleChain | RuleFlow
                   | RulePrefix | RuleMask | RuleProbe | RuleDelim | RuleWs | RulePre | RuleIn | RuleSuf

  /** The rules that have a closure in `_rules`. */
  predicate HasClosure(r: PegRule)
  {
    !(r.RuleUnknown? || r.RulePre? || r.RuleIn? || r.RuleSuf?)
  }

  /** `token32`: rule, span [begin, end) and `next`, which holds the depth when the
      token is added. */
  datatype Token = Token(rule: PegRule, begin: nat, end: nat, next: nat)

  const ZERO_TOKEN := Token(RuleUnknown, 0, 0, 0)

  /** `token32.isParentOf`. */
  predicate IsParentOf(t: Token, u: Token)
  {
    t.begin <= u.begin && t.end >= u.end && t.next > u.next
  }

  /** A successful match: the position after it and every token of the array so
      far, the earlier ones first. */
  datatype Match = Match(end: nat, toks: seq<Token>)

  datatype Outcome = Fail | Ok(m: Match)
  {
    predicate IsFailure() { Fail? }
    function PropagateFailure(): Outcome requires Fail? { Fail }
    function Extract(): Match requires Ok? { m }
  }

  datatype Option<T> = None | Some(value: T)
  {
    predicate IsFailure() { None? }
    function PropagateFailure<U>(): Option<U> requires None? { None }
    function Extract(): T requires Some? { value }
  }

  /** The buffer the rules run on ends with END_SYMBOL, which no rule consumes, so no
      rule reads past it. */
  predicate Terminated(buf: seq<int>)
  {
    |buf| > 0 && buf[|buf| - 1] == END_SYMBOL
  }

  predicate IsDigit(c: int)
  {
    '0' as int <= c <= '9' as int
  }

  predicate IsWs(c: int)
  {
    c == ' ' as int || c == '\t' as int || c == '\n' as int || c == '\r' as int
  }

  /** `[]rune(text)`: the code points of the text. */
  function Runes(text: string): (r: seq<int>)
    ensures |r| == |text| && forall i :: 0 <= i < |text| ==> r[i] == text[i] as int
  {
    if text == [] then [] else [text[0] as int] + Runes(text[1..])
  }

  /** `Init`'s buffer: the runes of the text, then END_SYMBOL unless the text already
      ends with it. */
  function InitBuffer(text: string): (buf: seq<int>)
    ensures Terminated(buf)
    ensures |buf| == |text| + 1 && forall i :: 0 <= i < |text| ==> buf[i] == text[i] as int
  {
    var runes := Runes(text);
    if |runes| == 0 || runes[|runes| - 1] != END_SYMBOL then runes + [END_SYMBOL] else runes
  }

  /** The end of the run of whitespace starting at `p`. */
  function WsRun(buf: seq<int>, p: nat): (e: nat)
    requires Terminated(buf) && p < |buf|
    ensures p <= e < |buf| && !IsWs(buf[e])
    decreases |buf| - p
  {
    if IsWs(buf[p]) then WsRun(buf, p + 1) else p
  }

  /** The end of the run of digits starting at `p`. */
  function DigitRun(buf: seq<int>, p: nat): (e: nat)
    requires Terminated(buf) && p < |buf|
    ensures p <= e < |buf| && !IsDigit(buf[e])
    decreases |buf| - p
  {
    if IsDigit(buf[p]) then DigitRun(buf, p + 1) else p
  }

  /** The tokens `toks[from..to]` have spans inside [pos, end) and are at depth `d`
      or deeper. */
  predicate Inside(toks: seq<Token>, from: nat, to: nat, pos: nat, end: nat, d: nat)
  {
    forall k :: from <= k < to && k < |toks| ==>
      pos <= toks[k].begin <= toks[k].end <= end && d <= toks[k].next
  }

  /** A match of `rule` from `pos` at depth `d` after the tokens `acc` ends inside the
      buffer, keeps `acc` and adds its own token last, after the tokens of its
      children, which lie inside its span one level deeper. */
  predicate Matched(o: Outcome, rule: PegRule, buf: seq<int>, pos: nat, d: nat, acc: seq<Token>)
  {
    o.Ok? ==> pos <= o.m.end < |buf| && |acc| < |o.m.toks| && acc <= o.m.toks &&
              o.m.toks[|o.m.toks| - 1] == Token(rule, pos, o.m.end, d) &&
              Inside(o.m.toks, |acc|, |o.m.toks| - 1, pos, o.m.end, d + 1)
  }

  /** A piece of a rule keeps the earlier tokens, ends inside the buffer and adds
      tokens inside its span at depth `d` or deeper. */
  predicate Grew(o: Outcome, buf: seq<int>, pos: nat, d: nat, acc: seq<Token>)
  {
    o.Ok? ==> pos <= o.m.end < |buf| && acc <= o.m.toks && Inside(o.m.toks, |acc|, |o.m.toks|, pos, o.m.end, d)
  }

  /** The tokens of a match lie inside its span at its depth or deeper. */
  lemma MatchedInside(o: Outcome, rule: PegRule, buf: seq<int>, pos: nat, d: nat, acc: seq<Token>)
    requires Matched(o, rule, buf, pos, d, acc) && o.Ok?
    ensures Inside(o.m.toks, |acc|, |o.m.toks|, pos, o.m.end, d)
  {
  }

  /** Tokens inside [pos, e1), then tokens inside [e1, e2), are inside [pos, e2). */
  lemma InsideJoin(t1: seq<Token>, t2: seq<Token>, from: nat, pos: nat, e1: nat, e2: nat, d: nat)
    requires from <= |t1| && t1 <= t2 && pos <= e1 <= e2
    requires Inside(t1, from, |t1|, pos, e1, d) && Inside(t2, |t1|, |t2|, e1, e2, d)
    ensures Inside(t2, from, |t2|, pos, e2, d)
  {
  }

  /** The match of `rule` over [pos, end) at depth `d`: the tokens so far, which end
      with its children's, then its own. */
  function Close(buf: seq<int>, toks: seq<Token>, rule: PegRule, pos: nat, end: nat, d: nat): (o: Outcome)
    requires pos <= end < |buf|
    ensures o.Ok? && o.m.end == end && Matched(o, rule, buf, pos, d, toks)
  {
    Ok(Match(end, toks + [Token(rule, pos, end, d)]))
  }

  /** A literal rune `c` at `pos`, which adds no token. */
  function CharF(buf: seq<int>, pos: nat, c: int, acc: seq<Token>): (o: Outcome)
    requires Terminated(buf) && pos < |buf| && c != END_SYMBOL
    ensures o.Ok? <==> buf[pos] == c
    ensures o.Ok? ==> o.m.end == pos + 1 < |buf| && o.m.toks == acc
  {
    if buf[pos] != c then Fail else Ok(Match(pos + 1, acc))
  }

  /** `_rules[r]()`: the rule with a closure named by `r`.  Every rule calls the
      others through this table. */
  function RuleF(r: PegRule, buf: seq<int>, pos: nat, d: nat, acc: seq<Token>): (o: Outcome)
    requires HasClosure(r) && Terminated(buf) && pos < |buf|
    ensures Matched(o, r, buf, pos, d, acc)
    ensures r == RuleWs ==> o.Ok?
    ensures r != RuleWs && o.Ok? ==> pos < o.m.end
    decreases |buf| - pos, 4 * Rank(r) + 3
  {
    match r
    case RulePolicy => PolicyF(buf, pos, d, acc)
    case RuleConnection => ConnectionF(buf, pos, d, acc)
    case RuleCheck => CheckF(buf, pos, d, acc)
    case RuleChain => ChainF(buf, pos, d, acc)
    case RuleFlow => FlowF(buf, pos, d, acc)
    case RulePrefix => PrefixF(buf, pos, d, acc)
    case RuleMask => MaskF(buf, pos, d, acc)
    case RuleProbe => ProbeF(buf, pos, d, acc)
    case RuleDelim => DelimF(buf, pos, d, acc)
    case RuleWs => WsF(buf, pos, d, acc)
  }

  /** How deep a rule calls other rules before it consumes a rune. */
  function Rank(r: PegRule): nat
  {
    match r
    case RulePolicy => 4
    case RuleCheck => 2
    case RuleChain => 2
    case RuleConnection => 1
    case RuleFlow => 1
    case RulePrefix => 1
    case RuleDelim => 1
    case _ => 0
  }

  /** ws <- (' ' / '\t' / '\n' / '\r')* */
  function WsF(buf: seq<int>, pos: nat, d: nat, acc: seq<Token>): (o: Outcome)
    requires Terminated(buf) && pos < |buf|
    ensures o.Ok? && Matched(o, RuleWs, buf, pos, d, acc)
  {
    var e := WsRun(buf, pos);
    Close(buf, acc, RuleWs, pos, e, d)
  }

  /** probe <- [0-9]+ */
  function ProbeF(buf: seq<int>, pos: nat, d: nat, acc: seq<Token>): (o: Outcome)
    requires Terminated(buf) && pos < |buf|
    ensures Matched(o, RuleProbe, buf, pos, d, acc) && (o.Ok? ==> pos < o.m.end)
  {
    if !IsDigit(buf[pos]) then Fail
    else
      var e := DigitRun(buf, pos + 1);
      Close(buf, acc, RuleProbe, pos, e, d)
  }

  /** mask <- '/' [0-9]+ */
  function MaskF(buf: seq<int>, pos: nat, d: nat, acc: seq<Token>): (o: Outcome)
    requires Terminated(buf) && pos < |buf|
    ensures Matched(o, RuleMask, buf, pos, d, acc) && (o.Ok? ==> pos + 2 <= o.m.end)
  {
    if buf[pos] != '/' as int || !IsDigit(buf[pos + 1]) then Fail
    else
      var e := DigitRun(buf, pos + 2);
      Close(buf, acc, RuleMask, pos, e, d)
  }

  /** '.' [0-9]+, a piece of `prefix` that adds no token. */
  function DotDigitsF(buf: seq<int>, pos: nat): (e: Option<nat>)
    requires Terminated(buf) && pos < |buf|
    ensures e.Some? ==> pos + 2 <= e.value < |buf|
  {
    if buf[pos] != '.' as int || !IsDigit(buf[pos + 1]) then None
    else Some(DigitRun(buf, pos + 2))
  }

  /** [0-9]+ '.' [0-9]+ '.' [0-9]+ '.' [0-9]+, the address part of prefix: its end. */
  function QuadF(buf: seq<int>, pos: nat): (e: Option<nat>)
    requires Terminated(buf) && pos < |buf|
    ensures e.Some? ==> pos < e.value < |buf|
  {
    if !IsDigit(buf[pos]) then None
    else
      var q1 :- DotDigitsF(buf, DigitRun(buf, pos + 1));
      var q2 :- DotDigitsF(buf, q1);
      DotDigitsF(buf, q2)
  }

  /** prefix <- [0-9]+ '.' [0-9]+ '.' [0-9]+ '.' [0-9]+ mask? */
  function PrefixF(buf: seq<int>, pos: nat, d: nat, acc: seq<Token>): (o: Outcome)
    requires Terminated(buf) && pos < |buf|
    ensures Matched(o, RulePrefix, buf, pos, d, acc) && (o.Ok? ==> pos < o.m.end)
    decreases |buf| - pos, 6
  {
    var quad := QuadF(buf, pos);
    if quad.None? then Fail
    else
      var mask := RuleF(RuleMask, buf, quad.value, d + 1, acc);
      if mask.Ok? then Close(buf, mask.m.toks, RulePrefix, pos, mask.m.end, d)
      else Close(buf, acc, RulePrefix, pos, quad.value, d)
  }

  /** delim <- ws ',' ws */
  function DelimF(buf: seq<int>, pos: nat, d: nat, acc: seq<Token>): (o: Outcome)
    requires Terminated(buf) && pos < |buf|
    ensures Matched(o, RuleDelim, buf, pos, d, acc) && (o.Ok? ==> pos < o.m.end)
    decreases |buf| - pos, 6
  {
    var b :- DelimBodyF(buf, pos, d + 1, acc);
    Close(buf, b.toks, RuleDelim, pos, b.end, d)
  }

  /** The sequence `ws ',' ws` of delim, without delim's own token. */
  function DelimBodyF(buf: seq<int>, pos: nat, d: nat, acc: seq<Token>): (o: Outcome)
    requires Terminated(buf) && pos < |buf|
    ensures Grew(o, buf, pos, d, acc) && (o.Ok? ==> pos < o.m.end)
    decreases |buf| - pos, 5
  {
    var w1 := RuleF(RuleWs, buf, pos, d, acc).m;
    var comma :- CharF(buf, w1.end, ',' as int, w1.toks);
    RuleF(RuleWs, buf, comma.end, d, w1.toks)
  }

  /** `ws '->' ws`, the arrow between two probes, which adds the two ws tokens. */
  function ArrowF(buf: seq<int>, pos: nat, d: nat, acc: seq<Token>): (o: Outcome)
    requires Terminated(buf) && pos < |buf|
    ensures Grew(o, buf, pos, d, acc) && (o.Ok? ==> pos + 2 <= o.m.end)
    decreases |buf| - pos, 4
  {
    var w1 := RuleF(RuleWs, buf, pos, d, acc).m;
    var minus :- CharF(buf, w1.end, '-' as int, w1.toks);
    var greater :- CharF(buf, minus.end, '>' as int, w1.toks);
    RuleF(RuleWs, buf, greater.end, d, w1.toks)
  }

  /** `probe ws '->' ws`, the start of a Connection and of the first Chain
      alternative. */
  function LinkF(buf: seq<int>, pos: nat, d: nat, acc: seq<Token>): (o: Outcome)
    requires Terminated(buf) && pos < |buf|
    ensures Grew(o, buf, pos, d, acc) && (o.Ok? ==> pos + 3 <= o.m.end)
    decreases |buf| - pos, 4
  {
    var p :- RuleF(RuleProbe, buf, pos, d, acc);
    ArrowF(buf, p.end, d, p.toks)
  }

  /** Connection <- probe ws '->' ws probe ws */
  function ConnectionF(buf: seq<int>, pos: nat, d: nat, acc: seq<Token>): (o: Outcome)
    requires Terminated(buf) && pos < |buf|
    ensures Matched(o, RuleConnection, buf, pos, d, acc) && (o.Ok? ==> pos < o.m.end)
    decreases |buf| - pos, 6
  {
    var b :- ConnectionBodyF(buf, pos, d + 1, acc);
    Close(buf, b.toks, RuleConnection, pos, b.end, d)
  }

  /** The sequence `probe ws '->' ws probe ws` of Connection, without its own token. */
  function ConnectionBodyF(buf: seq<int>, pos: nat, d: nat, acc: seq<Token>): (o: Outcome)
    requires Terminated(buf) && pos < |buf|
    ensures Grew(o, buf, pos, d, acc) && (o.Ok? ==> pos < o.m.end)
    decreases |buf| - pos, 5
  {
    var link :- LinkF(buf, pos, d, acc);
    var p :- RuleF(RuleProbe, buf, link.end, d, link.toks);
    RuleF(RuleWs, buf, p.end, d, p.toks)
  }

  /** Chain <- probe ws '->' ws Chain / probe */
  function ChainF(buf: seq<int>, pos: nat, d: nat, acc: seq<Token>): (o: Outcome)
    requires Terminated(buf) && pos < |buf|
    ensures Matched(o, RuleChain, buf, pos, d, acc) && (o.Ok? ==> pos < o.m.end)
    decreases |buf| - pos, 10
  {
    var long := ChainLongF(buf, pos, d + 1, acc);
    if long.Ok? then Close(buf, long.m.toks, RuleChain, pos, long.m.end, d)
    else
      var p :- RuleF(RuleProbe, buf, pos, d + 1, acc);
      Close(buf, p.toks, RuleChain, pos, p.end, d)
  }

  /** The first alternative of Chain, `probe ws '->' ws Chain`, without Chain's token. */
  function ChainLongF(buf: seq<int>, pos: nat, d: nat, acc: seq<Token>): (o: Outcome)
    requires Terminated(buf) && pos < |buf|
    ensures Grew(o, buf, pos, d, acc) && (o.Ok? ==> pos < o.m.end)
    decreases |buf| - pos, 9
  {
    var link :- LinkF(buf, pos, d, acc);
    RuleF(RuleChain, buf, link.end, d, link.toks)
  }

  /** `prefix delim`, one address of a Flow and the delimiter after it. */
  function PrefixDelimF(buf: seq<int>, pos: nat, d: nat, acc: seq<Token>): (o: Outcome)
    requires Terminated(buf) && pos < |buf|
    ensures Grew(o, buf, pos, d, acc)
    decreases |buf| - pos, 8
  {
    var a :- RuleF(RulePrefix, buf, pos, d, acc);
    RuleF(RuleDelim, buf, a.end, d, a.toks)
  }

  /** `prefix delim prefix delim`, the addresses of a Flow. */
  function AddressesF(buf: seq<int>, pos: nat, d: nat, acc: seq<Token>): (o: Outcome)
    requires Terminated(buf) && pos < |buf|
    ensures Grew(o, buf, pos, d, acc)
    decreases |buf| - pos, 9
  {
    var src :- PrefixDelimF(buf, pos, d, acc);
    PrefixDelimF(buf, src.end, d, src.toks)
  }

  /** `probe delim`, one number of a Flow and the delimiter after it. */
  function ProbeDelimF(buf: seq<int>, pos: nat, d: nat, acc: seq<Token>): (o: Outcome)
    requires Terminated(buf) && pos < |buf|
    ensures Grew(o, buf, pos, d, acc)
    decreases |buf| - pos, 4
  {
    var n :- RuleF(RuleProbe, buf, pos, d, acc);
    RuleF(RuleDelim, buf, n.end, d, n.toks)
  }

  /** `probe delim probe delim probe`, the protocol and the ports of a Flow. */
  function NumbersF(buf: seq<int>, pos: nat, d: nat, acc: seq<Token>): (o: Outcome)
    requires Terminated(buf) && pos < |buf|
    ensures Grew(o, buf, pos, d, acc)
    decreases |buf| - pos, 5
  {
    var proto :- ProbeDelimF(buf, pos, d, acc);
    var sport :- ProbeDelimF(buf, proto.end, d, proto.toks);
    RuleF(RuleProbe, buf, sport.end, d, sport.toks)
  }

  /** `probe delim probe delim probe ws ')'`, the end of a Flow. */
  function FlowTailF(buf: seq<int>, pos: nat, d: nat, acc: seq<Token>): (o: Outcome)
    requires Terminated(buf) && pos < |buf|
    ensures Grew(o, buf, pos, d, acc)
    decreases |buf| - pos, 6
  {
    var nums :- NumbersF(buf, pos, d, acc);
    var w := RuleF(RuleWs, buf, nums.end, d, nums.toks).m;
    var close :- CharF(buf, w.end, ')' as int, w.toks);
    Ok(close)
  }

  /** Flow <- '(' prefix delim prefix delim probe delim probe delim probe ws ')' */
  function FlowF(buf: seq<int>, pos: nat, d: nat, acc: seq<Token>): (o: Outcome)
    requires Terminated(buf) && pos < |buf|
    ensures Matched(o, RuleFlow, buf, pos, d, acc) && (o.Ok? ==> pos < o.m.end)
    decreases |buf| - pos, 6
  {
    var open :- CharF(buf, pos, '(' as int, acc);
    var addrs :- AddressesF(buf, open.end, d + 1, acc);
    var tail :- FlowTailF(buf, addrs.end, d + 1, addrs.toks);
    Close(buf, tail.toks, RuleFlow, pos, tail.end, d)
  }

  /** `ws ':' ws`, between the Flow and the Chain of a Check. */
  function ColonF(buf: seq<int>, pos: nat, d: nat, acc: seq<Token>): (o: Outcome)
    requires Terminated(buf) && pos < |buf|
    ensures Grew(o, buf, pos, d, acc)
    decreases |buf| - pos, 4
  {
    var w1 := RuleF(RuleWs, buf, pos, d, acc).m;
    var colon :- CharF(buf, w1.end, ':' as int, w1.toks);
    RuleF(RuleWs, buf, colon.end, d, w1.toks)
  }

  /** `Chain '\n'`, the end of a Check. */
  function ChainLineF(buf: seq<int>, pos: nat, d: nat, acc: seq<Token>): (o: Outcome)
    requires Terminated(buf) && pos < |buf|
    ensures Grew(o, buf, pos, d, acc)
    decreases |buf| - pos, 12
  {
    var c :- RuleF(RuleChain, buf, pos, d, acc);
    CharF(buf, c.end, '\n' as int, c.toks)
  }

  /** Check <- Flow ws ':' ws Chain '\n' */
  function CheckF(buf: seq<int>, pos: nat, d: nat, acc: seq<Token>): (o: Outcome)
    requires Terminated(buf) && pos < |buf|
    ensures Matched(o, RuleCheck, buf, pos, d, acc) && (o.Ok? ==> pos < o.m.end)
    decreases |buf| - pos, 10
  {
    var b :- CheckBodyF(buf, pos, d + 1, acc);
    Close(buf, b.toks, RuleCheck, pos, b.end, d)
  }

  /** The sequence `Flow ws ':' ws Chain '\n'` of Check, without its own token. */
  function CheckBodyF(buf: seq<int>, pos: nat, d: nat, acc: seq<Token>): (o: Outcome)
    requires Terminated(buf) && pos < |buf|
    ensures Grew(o, buf, pos, d, acc) && (o.Ok? ==> pos < o.m.end)
    decreases |buf| - pos, 9
  {
    var fo := RuleF(RuleFlow, buf, pos, d, acc);
    var f :- fo;
    MatchedInside(fo, RuleFlow, buf, pos, d, acc);
    var colon :- ColonF(buf, f.end, d, f.toks);
    InsideJoin(f.toks, colon.toks, |acc|, pos, f.end, colon.end, d);
    var o := ChainLineF(buf, colon.end, d, colon.toks);
    if o.Fail? then o
    else
      InsideJoin(colon.toks, o.m.toks, |acc|, pos, colon.end, o.m.end, d);
      o
  }

  /** `Connection*` or `Check*`: as many matches as there are, each from where the
      previous one ended.  It never fails. */
  function StarF(rule: PegRule, buf: seq<int>, pos: nat, d: nat, acc: seq<Token>): (r: Match)
    requires rule == RuleConnection || rule == RuleCheck
    requires Terminated(buf) && pos < |buf|
    ensures pos <= r.end < |buf| && acc <= r.toks && Inside(r.toks, |acc|, |r.toks|, pos, r.end, d)
    decreases |buf| - pos, 12
  {
    var o := RuleF(rule, buf, pos, d, acc);
    if o.Fail? then Match(pos, acc)
    else
      var r := StarF(rule, buf, o.m.end, d, o.m.toks);
      MatchedInside(o, rule, buf, pos, d, acc);
      InsideJoin(o.m.toks, r.toks, |acc|, pos, o.m.end, r.end, d);
      r
  }

  /** `ws Connection+` or `ws Check+`, the two sections of a policy. */
  function SectionF(rule: PegRule, buf: seq<int>, pos: nat, d: nat, acc: seq<Token>): (o: Outcome)
    requires rule == RuleConnection || rule == RuleCheck
    requires Terminated(buf) && pos < |buf|
    ensures Grew(o, buf, pos, d, acc) && (o.Ok? ==> pos < o.m.end)
    decreases |buf| - pos, 14
  {
    var w := RuleF(RuleWs, buf, pos, d, acc).m;
    PlusF(rule, buf, w.end, d, w.toks)
  }

  /** `Connection+` or `Check+`: one match, then as many as there are. */
  function PlusF(rule: PegRule, buf: seq<int>, pos: nat, d: nat, acc: seq<Token>): (o: Outcome)
    requires rule == RuleConnection || rule == RuleCheck
    requires Terminated(buf) && pos < |buf|
    ensures Grew(o, buf, pos, d, acc) && (o.Ok? ==> pos < o.m.end)
    decreases |buf| - pos, 13
  {
    var first :- RuleF(rule, buf, pos, d, acc);
    Ok(StarF(rule, buf, first.end, d, first.toks))
  }

  /** Policy <- ws Connection+ ws Check+ !. */
  function PolicyF(buf: seq<int>, pos: nat, d: nat, acc: seq<Token>): (o: Outcome)
    requires Terminated(buf) && pos < |buf|
    ensures Matched(o, RulePolicy, buf, pos, d, acc) && (o.Ok? ==> pos < o.m.end)
    decreases |buf| - pos, 16
  {
    var b :- PolicyBodyF(buf, pos, d + 1, acc);
    Close(buf, b.toks, RulePolicy, pos, b.end, d)
  }

  /** The sequence `ws Connection+ ws Check+ !.` of Policy, without its own token. */
  function PolicyBodyF(buf: seq<int>, pos: nat, d: nat, acc: seq<Token>): (o: Outcome)
    requires Terminated(buf) && pos < |buf|
    ensures Grew(o, buf, pos, d, acc) && (o.Ok? ==> pos < o.m.end && buf[o.m.end] == END_SYMBOL)
    decreases |buf| - pos, 15
  {
    var cs :- SectionF(RuleConnection, buf, pos, d, acc);
    var ks :- SectionF(RuleCheck, buf, cs.end, d, cs.toks);
    if buf[ks.end] != END_SYMBOL then Fail else Ok(ks)
  }

  /** The `Policy` parser after `Init`: the rune buffer, the token array and the
      state the rule closures share.  The token array is a value that `Expand`
      replaces by a copy twice as long. */
  class Policy {
    const buffer: seq<int>
    var tree: seq<Token>
    var position: nat
    var tokenIndex: nat
    var depth: nat

    ghost predicate Valid()
      reads this
    {
      Terminated(buffer) && position < |buffer| && 0 < |tree| && tokenIndex <= |tree|
    }

    /** The tokens added so far. */
    ghost function Tokens(): seq<Token>
      reads this
      requires tokenIndex <= |tree|
    {
      tree[..tokenIndex]
    }

    /** The token array starts with `floor`, all of it below `tokenIndex`. */
    ghost predicate Above(floor: seq<Token>)
      reads this
    {
      |floor| <= tokenIndex <= |tree| && forall i :: 0 <= i < |floor| ==> tree[i] == floor[i]
    }

    /** The tokens below the entry `tokenIndex` are still there. */
    twostate predicate Keeps()
      reads this
      requires old(Valid())
    {
      old(tokenIndex) <= tokenIndex <= |tree| && forall i :: 0 <= i < old(tokenIndex) ==> tree[i] == old(tree[i])
    }

    /** A rule call behaved as `o` says: on a match the position is the end of the
        match and the tokens are the match's; on a failure `position`, `tokenIndex`
        and the tokens are as before.  `depth` is back to its entry value either
        way. */
    twostate predicate Follows(o: Outcome, ok: bool)
      reads this
      requires old(Valid())
    {
      Valid() && depth == old(depth) && ok == o.Ok? &&
      if ok then position == o.m.end && Tokens() == o.m.toks
      else position == old(position) && tokenIndex == old(tokenIndex) && Tokens() == old(Tokens())
    }

    /** A piece of a rule behaved as `o` says on a match; on a failure it left the
        restoring to the enclosing rule. */
    twostate predicate Extends(o: Outcome, ok: bool)
      reads this
      requires old(Valid())
    {
      Valid() && depth == old(depth) && ok == o.Ok? &&
      (ok ==> position == o.m.end && Tokens() == o.m.toks)
    }

    /** `Init`: the buffer gets its END_SYMBOL, the token array has MaxInt16 entries. */
    constructor Init(text: string)
      ensures buffer == InitBuffer(text) && |tree| == INITIAL_TREE_SIZE
      ensures position == 0 && tokenIndex == 0 && depth == 0 && Valid()
    {
      buffer := InitBuffer(text);
      tree := seq(INITIAL_TREE_SIZE, _ => ZERO_TOKEN);
      position, tokenIndex, depth := 0, 0, 0;
    }

    /** `Reset`. */
    method Reset()
      requires Valid()
      modifies this`position, this`tokenIndex, this`depth
      ensures Valid() && position == 0 && tokenIndex == 0 && depth == 0
    {
      position, tokenIndex, depth := 0, 0, 0;
    }

    /** `tokens32.Expand`: when `index` is past the end, the array is replaced by one
        twice as long that starts with the old tokens. */
    method Expand(index: nat)
      modifies this`tree
      ensures |tree| == if index >= |old(tree)| then 2 * |old(tree)| else |old(tree)|
      ensures forall i :: 0 <= i < |old(tree)| ==> tree[i] == old(tree)[i]
    {
      if index >= |tree| {
        tree := tree + seq(|tree|, _ => ZERO_TOKEN);
      }
    }

    /** `tokens32.Add`: one token written at `index`. */
    method AddToken(rule: PegRule, begin: nat, end: nat, d: nat, index: nat)
      requires index < |tree|
      modifies this`tree
      ensures tree == old(tree)[index := Token(rule, begin, end, d)]
    {
      tree := tree[index := Token(rule, begin, end, d)];
    }

    /** `tokens32.trim`. */
    method Trim(length: nat)
      requires length <= |tree|
      modifies this`tree
      ensures tree == old(tree)[..length]
    {
      tree := tree[..length];
    }

    /** The `add` closure: the token of `rule` over [begin, position) at the current
        depth, after the earlier tokens, growing the array when it is full. */
    method Add(rule: PegRule, begin: nat)
      requires Valid()
      modifies this`tree, this`tokenIndex
      ensures Valid() && Keeps() && tokenIndex == old(tokenIndex) + 1
      ensures Tokens() == old(Tokens()) + [Token(rule, begin, position, depth)]
    {
      Expand(tokenIndex);
      AddToken(rule, begin, position, depth, tokenIndex);
      tokenIndex := tokenIndex + 1;
      assert Tokens() == old(Tokens()) + [Token(rule, begin, position, depth)];
    }

    /** `matchDot`: any rune but END_SYMBOL. */
    method MatchDot() returns (ok: bool)
      requires Valid()
      modifies this`position
      ensures Valid() && ok == (buffer[old(position)] != END_SYMBOL)
      ensures position == if ok then old(position) + 1 else old(position)
    {
      if buffer[position] != END_SYMBOL {
        position := position + 1;
        return true;
      }
      return false;
    }

    /** The test `buffer[position] != rune(c)` followed by `position++`. */
    method MatchChar(c: int) returns (ok: bool)
      requires Valid() && c != END_SYMBOL
      modifies this`position
      ensures Valid() && ok == CharF(buffer, old(position), c, []).Ok?
      ensures position == if ok then old(position) + 1 else old(position)
    {
      if buffer[position] != c {
        return false;
      }
      position := position + 1;
      return true;
    }

    /** The `[0-9]*` loop. */
    method SkipDigits()
      requires Valid()
      modifies this`position
      ensures Valid() && position == DigitRun(buffer, old(position))
    {
      while IsDigit(buffer[position])
        invariant Valid() && DigitRun(buffer, position) == DigitRun(buffer, old(position))
        decreases |buffer| - position
      {
        position := position + 1;
      }
    }

    /** The restore `position, tokenIndex, depth = position0, tokenIndex0, depth0` of a
        rule that fails: the tokens are those before the rule, since none of them was
        overwritten. */
    method Backtrack(p0: nat, t0: nat, d0: nat, ghost saved: seq<Token>)
      requires Valid() && Above(saved) && p0 < |buffer| && t0 == |saved|
      modifies this`position, this`tokenIndex, this`depth
      ensures Valid() && position == p0 && tokenIndex == t0 && depth == d0 && Tokens() == saved
    {
      position, tokenIndex, depth := p0, t0, d0;
    }

    /** ws <- (' ' / '\t' / '\n' / '\r')* */
    method Ws(ghost floor: seq<Token>) returns (ok: bool)
      requires Valid() && Above(floor)
      modifies this
      ensures Above(floor)
      ensures Follows(RuleF(RuleWs, buffer, old(position), old(depth), old(Tokens())), ok)
    {
      var begin := position;
      depth := depth + 1;
      while IsWs(buffer[position])
        invariant Valid() && begin <= position && WsRun(buffer, position) == WsRun(buffer, begin)
        invariant depth == old(depth) + 1 && tokenIndex == old(tokenIndex) && tree == old(tree)
        decreases |buffer| - position
      {
        position := position + 1;
      }
      depth := depth - 1;
      Add(RuleWs, begin);
      return true;
    }

    /** probe <- [0-9]+ */
    method Probe(ghost floor: seq<Token>) returns (ok: bool)
      requires Valid() && Above(floor)
      modifies this
      ensures Above(floor)
      ensures Follows(RuleF(RuleProbe, buffer, old(position), old(depth), old(Tokens())), ok)
    {
      var position0, tokenIndex0, depth0 := position, tokenIndex, depth;
      depth := depth + 1;
      if !IsDigit(buffer[position]) {
        position, tokenIndex, depth := position0, tokenIndex0, depth0;
        return false;
      }
      position := position + 1;
      SkipDigits();
      depth := depth - 1;
      Add(RuleProbe, position0);
      return true;
    }

    /** mask <- '/' [0-9]+ */
    method Mask(ghost floor: seq<Token>) returns (ok: bool)
      requires Valid() && Above(floor)
      modifies this
      ensures Above(floor)
      ensures Follows(RuleF(RuleMask, buffer, old(position), old(depth), old(Tokens())), ok)
    {
      var position0, tokenIndex0, depth0 := position, tokenIndex, depth;
      depth := depth + 1;
      if buffer[position] != '/' as int || !IsDigit(buffer[position + 1]) {
        position, tokenIndex, depth := position0, tokenIndex0, depth0;
        return false;
      }
      position := position + 2;
      SkipDigits();
      depth := depth - 1;
      Add(RuleMask, position0);
      return true;
    }

    /** '.' [0-9]+ inside prefix. */
    method DotDigits() returns (ok: bool)
      requires Valid()
      modifies this`position
      ensures Valid() && ok == DotDigitsF(buffer, old(position)).Some?
      ensures position == if ok then DotDigitsF(buffer, old(position)).value else old(position)
    {
      if buffer[position] != '.' as int || !IsDigit(buffer[position + 1]) {
        return false;
      }
      position := position + 2;
      SkipDigits();
      return true;
    }

    /** The address part of prefix. */
    method Quad() returns (ok: bool)
      requires Valid()
      modifies this`position
      ensures Valid() && ok == QuadF(buffer, old(position)).Some?
      ensures ok ==> position == QuadF(buffer, old(position)).value
    {
      if !IsDigit(buffer[position]) {
        return false;
      }
      position := position + 1;
      SkipDigits();
      ok := DotDigits();
      if ok {
        ok := DotDigits();
      }
      if ok {
        ok := DotDigits();
      }
    }

    /** prefix <- [0-9]+ '.' [0-9]+ '.' [0-9]+ '.' [0-9]+ mask? */
    method Prefix(ghost floor: seq<Token>) returns (ok: bool)
      requires Valid() && Above(floor)
      modifies this
      ensures Above(floor)
      ensures Follows(RuleF(RulePrefix, buffer, old(position), old(depth), old(Tokens())), ok)
    {
      var position0, tokenIndex0, depth0 := position, tokenIndex, depth;
      depth := depth + 1;
      ok := Quad();
      if !ok {
        position, tokenIndex, depth := position0, tokenIndex0, depth0;
        return false;
      }
      ok := Mask(floor);
      depth := depth - 1;
      Add(RulePrefix, position0);
      return true;
    }

    /** delim <- ws ',' ws */
    method Delim(ghost floor: seq<Token>) returns (ok: bool)
      requires Valid() && Above(floor)
      modifies this
      ensures Above(floor)
      ensures Follows(RuleF(RuleDelim, buffer, old(position), old(depth), old(Tokens())), ok)
    {
      var position0, tokenIndex0, depth0 := position, tokenIndex, depth;
      ghost var saved := Tokens();
      depth := depth + 1;
      ok := DelimBody(saved);
      if !ok {
        Backtrack(position0, tokenIndex0, depth0, saved);
        return false;
      }
      depth := depth - 1;
      Add(RuleDelim, position0);
    }

    /** `ws ',' ws` inside delim. */
    method DelimBody(ghost floor: seq<Token>) returns (ok: bool)
      requires Valid() && Above(floor)
      modifies this
      ensures Above(floor)
      ensures Extends(DelimBodyF(buffer, old(position), old(depth), old(Tokens())), ok)
    {
      ok := Ws(floor);
      ok := MatchChar(',' as int);
      if !ok {
        return;
      }
      ok := Ws(floor);
    }

    /** `ws '->' ws` inside Connection and Chain. */
    method Arrow(ghost floor: seq<Token>) returns (ok: bool)
      requires Valid() && Above(floor)
      modifies this
      ensures Above(floor)
      ensures Extends(ArrowF(buffer, old(position), old(depth), old(Tokens())), ok)
    {
      ok := Ws(floor);
      ok := MatchChar('-' as int);
      if !ok {
        return;
      }
      ok := MatchChar('>' as int);
      if !ok {
        return;
      }
      ok := Ws(floor);
    }

    /** `probe ws '->' ws` inside Connection and Chain. */
    method Link(ghost floor: seq<Token>) returns (ok: bool)
      requires Valid() && Above(floor)
      modifies this
      ensures Above(floor)
      ensures Extends(LinkF(buffer, old(position), old(depth), old(Tokens())), ok)
    {
      ok := Probe(floor);
      if !ok {
        return;
      }
      ok := Arrow(floor);
    }

    /** Connection <- probe ws '->' ws probe ws */
    method Connection(ghost floor: seq<Token>) returns (ok: bool)
      requires Valid() && Above(floor)
      modifies this
      ensures Above(floor)
      ensures Follows(RuleF(RuleConnection, buffer, old(position), old(depth), old(Tokens())), ok)
    {
      var position0, tokenIndex0, depth0 := position, tokenIndex, depth;
      ghost var saved := Tokens();
      depth := depth + 1;
      ok := ConnectionBody(saved);
      if !ok {
        Backtrack(position0, tokenIndex0, depth0, saved);
        return false;
      }
      depth := depth - 1;
      Add(RuleConnection, position0);
    }

    /** `probe ws '->' ws probe ws` inside Connection. */
    method ConnectionBody(ghost floor: seq<Token>) returns (ok: bool)
      requires Valid() && Above(floor)
      modifies this
      ensures Above(floor)
      ensures Extends(ConnectionBodyF(buffer, old(position), old(depth), old(Tokens())), ok)
    {
      ok := Link(floor);
      if !ok {
        return;
      }
      ok := Probe(floor);
      if !ok {
        return;
      }
      ok := Ws(floor);
    }

    /** The first alternative of Chain, `probe ws '->' ws Chain`. */
    method ChainLong(ghost floor: seq<Token>) returns (ok: bool)
      requires Valid() && Above(floor)
      modifies this
      ensures Above(floor)
      ensures Extends(ChainLongF(buffer, old(position), old(depth), old(Tokens())), ok)
      decreases |buffer| - position, 0
    {
      ok := Link(floor);
      if !ok {
        return;
      }
      ok := Chain(floor);
    }

    /** Chain <- probe ws '->' ws Chain / probe */
    method Chain(ghost floor: seq<Token>) returns (ok: bool)
      requires Valid() && Above(floor)
      modifies this
      ensures Above(floor)
      ensures Follows(RuleF(RuleChain, buffer, old(position), old(depth), old(Tokens())), ok)
      decreases |buffer| - position, 1
    {
      var position0, tokenIndex0, depth0 := position, tokenIndex, depth;
      ghost var saved := Tokens();
      depth := depth + 1;
      ok := ChainLong(saved);
      if !ok {
        Backtrack(position0, tokenIndex0, depth0 + 1, saved);
        ok := Probe(saved);
        if !ok {
          Backtrack(position0, tokenIndex0, depth0, saved);
          return false;
        }
      }
      depth := depth - 1;
      Add(RuleChain, position0);
      return true;
    }

    /** `prefix delim` inside Flow. */
    method PrefixDelim(ghost floor: seq<Token>) returns (ok: bool)
      requires Valid() && Above(floor)
      modifies this
      ensures Above(floor)
      ensures Extends(PrefixDelimF(buffer, old(position), old(depth), old(Tokens())), ok)
    {
      ok := Prefix(floor);
      if !ok {
        return;
      }
      ok := Delim(floor);
    }

    /** `prefix delim prefix delim` inside Flow. */
    method Addresses(ghost floor: seq<Token>) returns (ok: bool)
      requires Valid() && Above(floor)
      modifies this
      ensures Above(floor)
      ensures Extends(AddressesF(buffer, old(position), old(depth), old(Tokens())), ok)
    {
      ok := PrefixDelim(floor);
      if !ok {
        return;
      }
      ok := PrefixDelim(floor);
    }

    /** `probe delim` inside Flow. */
    method ProbeDelim(ghost floor: seq<Token>) returns (ok: bool)
      requires Valid() && Above(floor)
      modifies this
      ensures Above(floor)
      ensures Extends(ProbeDelimF(buffer, old(position), old(depth), old(Tokens())), ok)
    {
      ok := Probe(floor);
      if !ok {
        return;
      }
      ok := Delim(floor);
    }

    /** `probe delim probe delim probe` inside Flow. */
    method Numbers(ghost floor: seq<Token>) returns (ok: bool)
      requires Valid() && Above(floor)
      modifies this
      ensures Above(floor)
      ensures Extends(NumbersF(buffer, old(position), old(depth), old(Tokens())), ok)
    {
      ok := ProbeDelim(floor);
      if !ok {
        return;
      }
      ok := ProbeDelim(floor);
      if !ok {
        return;
      }
      ok := Probe(floor);
    }

    /** `probe delim probe delim probe ws ')'` inside Flow. */
    method FlowTail(ghost floor: seq<Token>) returns (ok: bool)
      requires Valid() && Above(floor)
      modifies this
      ensures Above(floor)
      ensures Extends(FlowTailF(buffer, old(position), old(depth), old(Tokens())), ok)
    {
      ok := Numbers(floor);
      if !ok {
        return;
      }
      ok := Ws(floor);
      ok := MatchChar(')' as int);
    }

    /** Flow <- '(' prefix delim prefix delim probe delim probe delim probe ws ')' */
    method Flow(ghost floor: seq<Token>) returns (ok: bool)
      requires Valid() && Above(floor)
      modifies this
      ensures Above(floor)
      ensures Follows(RuleF(RuleFlow, buffer, old(position), old(depth), old(Tokens())), ok)
    {
      var position0, tokenIndex0, depth0 := position, tokenIndex, depth;
      ghost var saved := Tokens();
      depth := depth + 1;
      ok := MatchChar('(' as int);
      if !ok {
        Backtrack(position0, tokenIndex0, depth0, saved);
        return false;
      }
      ok := Addresses(saved);
      if !ok {
        Backtrack(position0, tokenIndex0, depth0, saved);
        return false;
      }
      ok := FlowTail(saved);
      if !ok {
        Backtrack(position0, tokenIndex0, depth0, saved);
        return false;
      }
      depth := depth - 1;
      Add(RuleFlow, position0);
      return true;
    }

    /** `ws ':' ws` inside Check. */
    method Colon(ghost floor: seq<Token>) returns (ok: bool)
      requires Valid() && Above(floor)
      modifies this
      ensures Above(floor)
      ensures Extends(ColonF(buffer, old(position), old(depth), old(Tokens())), ok)
    {
      ok := Ws(floor);
      ok := MatchChar(':' as int);
      if !ok {
        return;
      }
      ok := Ws(floor);
    }

    /** `Chain '\n'` inside Check. */
    method ChainLine(ghost floor: seq<Token>) returns (ok: bool)
      requires Valid() && Above(floor)
      modifies this
      ensures Above(floor)
      ensures Extends(ChainLineF(buffer, old(position), old(depth), old(Tokens())), ok)
    {
      ok := Chain(floor);
      if !ok {
        return;
      }
      ok := MatchChar('\n' as int);
    }

    /** Check <- Flow ws ':' ws Chain '\n' */
    method Check(ghost floor: seq<Token>) returns (ok: bool)
      requires Valid() && Above(floor)
      modifies this
      ensures Above(floor)
      ensures Follows(RuleF(RuleCheck, buffer, old(position), old(depth), old(Tokens())), ok)
    {
      var position0, tokenIndex0, depth0 := position, tokenIndex, depth;
      ghost var saved := Tokens();
      depth := depth + 1;
      ok := CheckBody(saved);
      if !ok {
        Backtrack(position0, tokenIndex0, depth0, saved);
        return false;
      }
      depth := depth - 1;
      Add(RuleCheck, position0);
    }

    /** `Flow ws ':' ws Chain '\n'` inside Check. */
    method CheckBody(ghost floor: seq<Token>) returns (ok: bool)
      requires Valid() && Above(floor)
      modifies this
      ensures Above(floor)
      ensures Extends(CheckBodyF(buffer, old(position), old(depth), old(Tokens())), ok)
    {
      ok := Flow(floor);
      if !ok {
        return;
      }
      ok := Colon(floor);
      if !ok {
        return;
      }
      ok := ChainLine(floor);
    }

    /** The `Connection*` and `Check*` loops: the rule is tried until it fails, and the
        failed attempt is undone. */
    method Star(rule: PegRule, ghost floor: seq<Token>)
      requires Valid() && Above(floor) && (rule == RuleConnection || rule == RuleCheck)
      modifies this
      ensures Valid() && depth == old(depth) && Above(floor)
      ensures position == StarF(rule, buffer, old(position), old(depth), old(Tokens())).end
      ensures Tokens() == StarF(rule, buffer, old(position), old(depth), old(Tokens())).toks
    {
      while true
        invariant Valid() && depth == old(depth) && Above(floor)
        invariant StarF(rule, buffer, old(position), depth, old(Tokens())) == StarF(rule, buffer, position, depth, Tokens())
        decreases |buffer| - position
      {
        var position1, tokenIndex1, depth1 := position, tokenIndex, depth;
        ghost var saved := Tokens();
        var more;
        if rule == RuleConnection {
          more := Connection(saved);
        } else {
          more := Check(saved);
        }
        if !more {
          Backtrack(position1, tokenIndex1, depth1, saved);
          return;
        }
      }
    }

    /** `ws Connection+` or `ws Check+` inside Policy. */
    method Section(rule: PegRule, ghost floor: seq<Token>) returns (ok: bool)
      requires Valid() && Above(floor) && (rule == RuleConnection || rule == RuleCheck)
      modifies this
      ensures Above(floor)
      ensures Extends(SectionF(rule, buffer, old(position), old(depth), old(Tokens())), ok)
    {
      ok := Ws(floor);
      ok := Plus(rule, floor);
    }

    /** `Connection+` or `Check+` inside Policy. */
    method Plus(rule: PegRule, ghost floor: seq<Token>) returns (ok: bool)
      requires Valid() && Above(floor) && (rule == RuleConnection || rule == RuleCheck)
      modifies this
      ensures Above(floor)
      ensures Extends(PlusF(rule, buffer, old(position), old(depth), old(Tokens())), ok)
    {
      if rule == RuleConnection {
        ok := Connection(floor);
      } else {
        ok := Check(floor);
      }
      if ok {
        Star(rule, floor);
      }
    }

    /** Policy <- ws Connection+ ws Check+ !. */
    method PolicyRule(ghost floor: seq<Token>) returns (ok: bool)
      requires Valid() && Above(floor)
      modifies this
      ensures Above(floor)
      ensures Follows(RuleF(RulePolicy, buffer, old(position), old(depth), old(Tokens())), ok)
    {
      var position0, tokenIndex0, depth0 := position, tokenIndex, depth;
      ghost var saved := Tokens();
      depth := depth + 1;
      ok := PolicyBody(saved);
      if !ok {
        Backtrack(position0, tokenIndex0, depth0, saved);
        return false;
      }
      depth := depth - 1;
      Add(RulePolicy, position0);
    }

    /** `ws Connection+ ws Check+ !.` inside Policy: the `!.` test restores the
        position whether or not a rune follows. */
    method PolicyBody(ghost floor: seq<Token>) returns (ok: bool)
      requires Valid() && Above(floor)
      modifies this
      ensures Above(floor)
      ensures Extends(PolicyBodyF(buffer, old(position), old(depth), old(Tokens())), ok)
    {
      ok := Section(RuleConnection, floor);
      if !ok {
        return;
      }
      ok := Section(RuleCheck, floor);
      if !ok {
        return;
      }
      var position1 := position;
      var dot := MatchDot();
      position := position1;
      ok := !dot;
    }

    /** `Parse(rule)`: runs the rule's closure from the current state and, on a match,
        trims the token array to the tokens added. */
    method Parse(rule: PegRule) returns (ok: bool)
      requires Valid() && HasClosure(rule)
      modifies this
      ensures Follows(RuleF(rule, buffer, old(position), old(depth), old(Tokens())), ok)
      ensures ok ==> tree == RuleF(rule, buffer, old(position), old(depth), old(Tokens())).m.toks
    {
      ok := Rule(rule);
      if ok {
        Trim(tokenIndex);
      }
    }

    /** `p.rules[r]()`: the closure of `rule`. */
    method Rule(rule: PegRule) returns (ok: bool)
      requires Valid() && HasClosure(rule)
      modifies this
      ensures Follows(RuleF(rule, buffer, old(position), old(depth), old(Tokens())), ok)
    {
      match rule {
        case RulePolicy => ok := PolicyRule([]);
        case RuleConnection => ok := Connection([]);
        case RuleCheck => ok := Check([]);
        case RuleChain => ok := Chain([]);
        case RuleFlow => ok := Flow([]);
        case RulePrefix => ok := Prefix([]);
        case RuleMask => ok := Mask([]);
        case RuleProbe => ok := Probe([]);
        case RuleDelim => ok := Delim([]);
        case RuleWs => ok := Ws([]);
      }
    }
  }
}
