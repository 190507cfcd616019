/**
 * What the rules of the policy grammar accept, stated on the functions the rule
 * methods of `PolicyGrammar.Policy` are proved equal to.
 */
module PolicyFacts {
  import opened PolicyGrammar

  /** Every rune of [p, WsRun(p)) is whitespace. */
  lemma {:induction false} WsRunIsWs(buf: seq<int>, p: nat)
    requires Terminated(buf) && p < |buf|
    ensures forall k :: p <= k < WsRun(buf, p) ==> IsWs(buf[k])
    decreases |buf| - p
  {
    if IsWs(buf[p]) {
      WsRunIsWs(buf, p + 1);
    }
  }

  /** Every rune of [p, DigitRun(p)) is a digit. */
  lemma {:induction false} DigitRunIsDigits(buf: seq<int>, p: nat)
    requires Terminated(buf) && p < |buf|
    ensures forall k :: p <= k < DigitRun(buf, p) ==> IsDigit(buf[k])
    decreases |buf| - p
  {
    if IsDigit(buf[p]) {
      DigitRunIsDigits(buf, p + 1);
    }
  }

  /** A run of digits followed by a non-digit is what DigitRun finds. */
  lemma {:induction false} DigitRunExact(buf: seq<int>, p: nat, q: nat)
    requires Terminated(buf) && p <= q < |buf|
    requires forall k :: p <= k < q ==> IsDigit(buf[k])
    requires !IsDigit(buf[q])
    ensures DigitRun(buf, p) == q
    decreases q - p
  {
    if p < q {
      DigitRunExact(buf, p + 1, q);
    }
  }

  /** ws always matches, consumes only ' ', '\t', '\n' and '\r', all of them, and
      adds only its own token. */
  lemma WsMatch(buf: seq<int>, pos: nat, d: nat, acc: seq<Token>)
    requires Terminated(buf) && pos < |buf|
    ensures var o := RuleF(RuleWs, buf, pos, d, acc);
      o.Ok? && o.m.toks == acc + [Token(RuleWs, pos, o.m.end, d)] &&
      (forall k :: pos <= k < o.m.end ==> IsWs(buf[k])) && !IsWs(buf[o.m.end])
  {
    WsRunIsWs(buf, pos);
  }

  /** probe matches exactly when a digit comes next, and then consumes the whole run
      of digits and adds only its own token. */
  lemma ProbeMatch(buf: seq<int>, pos: nat, d: nat, acc: seq<Token>)
    requires Terminated(buf) && pos < |buf|
    ensures var o := RuleF(RuleProbe, buf, pos, d, acc);
      (o.Ok? <==> IsDigit(buf[pos])) &&
      (o.Ok? ==> o.m.toks == acc + [Token(RuleProbe, pos, o.m.end, d)] &&
                 (forall k :: pos <= k < o.m.end ==> IsDigit(buf[k])) && !IsDigit(buf[o.m.end]))
  {
    if IsDigit(buf[pos]) {
      DigitRunIsDigits(buf, pos + 1);
    }
  }

  /** A non-empty run of digits. */
  predicate Digits(s: seq<int>)
  {
    |s| > 0 && forall i :: 0 <= i < |s| ==> IsDigit(s[i])
  }

  /** `s` is four runs of digits separated by dots at `a`, `b` and `c`. */
  predicate QuadAt(s: seq<int>, a: nat, b: nat, c: nat)
  {
    a < b < c < |s| && s[a] == '.' as int && s[b] == '.' as int && s[c] == '.' as int &&
    Digits(s[..a]) && Digits(s[a + 1..b]) && Digits(s[b + 1..c]) && Digits(s[c + 1..])
  }

  /** A dotted-quad address: [0-9]+ '.' [0-9]+ '.' [0-9]+ '.' [0-9]+ */
  ghost predicate IsQuad(s: seq<int>)
  {
    exists a: nat, b: nat, c: nat :: QuadAt(s, a, b, c)
  }

  /** An address followed by '/' and a run of digits. */
  ghost predicate MaskedAt(s: seq<int>, m: nat)
  {
    m < |s| && IsQuad(s[..m]) && s[m] == '/' as int && Digits(s[m + 1..])
  }

  /** The text of a prefix: an address with an optional mask. */
  ghost predicate IsPrefixText(s: seq<int>)
  {
    IsQuad(s) || exists m: nat :: MaskedAt(s, m)
  }

  /** The run DigitRun finds from a digit is a non-empty run of digits. */
  lemma DigitsSlice(buf: seq<int>, p: nat)
    requires Terminated(buf) && p < |buf| && IsDigit(buf[p])
    ensures Digits(buf[p..DigitRun(buf, p)])
  {
    DigitRunIsDigits(buf, p);
  }

  /** '.' and a run of digits, the text DotDigitsF accepts. */
  lemma DotDigitsText(buf: seq<int>, p: nat)
    requires Terminated(buf) && p < |buf| && DotDigitsF(buf, p).Some?
    ensures var e := DotDigitsF(buf, p).value;
      buf[p] == '.' as int && Digits(buf[p + 1..e]) && !IsDigit(buf[e])
  {
    DigitsSlice(buf, p + 1);
  }

  /** The text QuadF accepts is a dotted-quad address, and its last run is maximal. */
  lemma QuadText(buf: seq<int>, pos: nat)
    requires Terminated(buf) && pos < |buf| && QuadF(buf, pos).Some?
    ensures IsQuad(buf[pos..QuadF(buf, pos).value]) && !IsDigit(buf[QuadF(buf, pos).value])
  {
    var a := DigitRun(buf, pos + 1);
    var b := DotDigitsF(buf, a).value;
    var c := DotDigitsF(buf, b).value;
    var e := DotDigitsF(buf, c).value;
    assert e == QuadF(buf, pos).value;
    assert DigitRun(buf, pos) == a;
    DigitsSlice(buf, pos);
    DotDigitsText(buf, a);
    DotDigitsText(buf, b);
    DotDigitsText(buf, c);
    QuadSlices(buf, pos, a, b, c, e);
  }

  /** The four runs, cut out of the buffer, make a QuadAt. */
  lemma QuadSlices(buf: seq<int>, pos: nat, a: nat, b: nat, c: nat, e: nat)
    requires pos < a < b < c < e <= |buf|
    requires buf[a] == '.' as int && buf[b] == '.' as int && buf[c] == '.' as int
    requires Digits(buf[pos..a]) && Digits(buf[a + 1..b]) && Digits(buf[b + 1..c]) && Digits(buf[c + 1..e])
    ensures IsQuad(buf[pos..e])
  {
    var s := buf[pos..e];
    SubSlice(buf, pos, e, pos, a);
    SubSlice(buf, pos, e, a + 1, b);
    SubSlice(buf, pos, e, b + 1, c);
    SubSlice(buf, pos, e, c + 1, e);
    assert QuadAt(s, a - pos, b - pos, c - pos);
  }

  /** A slice of a slice is a slice of the whole. */
  lemma SubSlice(t: seq<int>, lo: nat, hi: nat, x: nat, y: nat)
    requires lo <= x <= y <= hi <= |t|
    ensures t[lo..hi][x - lo..y - lo] == t[x..y]
  {
    assert forall i :: 0 <= i < y - x ==> t[lo..hi][x - lo..y - lo][i] == t[x..y][i];
  }

  /** A run of digits reaches at least as far as the digits go. */
  lemma {:induction false} DigitRunCovers(buf: seq<int>, p: nat, q: nat)
    requires Terminated(buf) && p <= q < |buf|
    requires forall k :: p <= k < q ==> IsDigit(buf[k])
    ensures q <= DigitRun(buf, p)
    decreases q - p
  {
    if p < q {
      DigitRunCovers(buf, p + 1, q);
    }
  }

  /** Conversely, QuadF accepts whenever a dotted-quad address starts at `pos`, and
      reads at least all of it. */
  lemma QuadComplete(buf: seq<int>, pos: nat, e: nat)
    requires Terminated(buf) && pos < e < |buf| && IsQuad(buf[pos..e])
    ensures QuadF(buf, pos).Some? && e <= QuadF(buf, pos).value
  {
    var s := buf[pos..e];
    var a: nat, b: nat, c: nat :| QuadAt(s, a, b, c);
    QuadRuns(buf, pos, e, s, a, b, c);
  }

  /** QuadComplete for the dots at `a`, `b` and `c`. */
  lemma QuadRuns(buf: seq<int>, pos: nat, e: nat, s: seq<int>, a: nat, b: nat, c: nat)
    requires Terminated(buf) && pos < e < |buf| && s == buf[pos..e] && QuadAt(s, a, b, c)
    ensures QuadF(buf, pos).Some? && e <= QuadF(buf, pos).value
  {
    FirstRun(buf, pos, e, s, a);
    RunAfterDot(buf, pos, e, s, a, b);
    RunAfterDot(buf, pos, e, s, b, c);
    LastRun(buf, pos, e, s, c);
  }

  /** The first run of QuadComplete, up to the dot at `pos + a`. */
  lemma FirstRun(buf: seq<int>, pos: nat, e: nat, s: seq<int>, a: nat)
    requires Terminated(buf) && pos < e < |buf| && s == buf[pos..e]
    requires a < |s| && s[a] == '.' as int && Digits(s[..a])
    ensures IsDigit(buf[pos]) && DigitRun(buf, pos + 1) == pos + a
  {
    assert forall k :: pos <= k < pos + a ==> IsDigit(buf[k]) by {
      assert forall k :: pos <= k < pos + a ==> buf[k] == s[..a][k - pos];
    }
    DigitRunExact(buf, pos + 1, pos + a);
  }

  /** The last run of QuadComplete, after the dot at `pos + c`. */
  lemma LastRun(buf: seq<int>, pos: nat, e: nat, s: seq<int>, c: nat)
    requires Terminated(buf) && pos < e < |buf| && s == buf[pos..e]
    requires c < |s| && s[c] == '.' as int && Digits(s[c + 1..])
    ensures DotDigitsF(buf, pos + c).Some? && e <= DotDigitsF(buf, pos + c).value
  {
    assert forall k :: pos + c + 1 <= k < e ==> IsDigit(buf[k]) by {
      assert forall k :: pos + c + 1 <= k < e ==> buf[k] == s[c + 1..][k - pos - c - 1];
    }
    DigitRunCovers(buf, pos + c + 2, e);
  }

  /** One '.' [0-9]+ step of QuadComplete: from the dot at `pos + x` to the dot at
      `pos + y`. */
  lemma RunAfterDot(buf: seq<int>, pos: nat, e: nat, s: seq<int>, x: nat, y: nat)
    requires Terminated(buf) && pos < e < |buf| && s == buf[pos..e]
    requires x < y < |s| && s[x] == '.' as int && s[y] == '.' as int && Digits(s[x + 1..y])
    ensures DotDigitsF(buf, pos + x) == Some(pos + y)
  {
    assert forall k :: pos + x + 1 <= k < pos + y ==> IsDigit(buf[k]) by {
      assert forall k :: pos + x + 1 <= k < pos + y ==> buf[k] == s[x + 1..y][k - pos - x - 1];
    }
    DigitRunExact(buf, pos + x + 2, pos + y);
  }

  /** The text a mask match covers: '/' and a run of digits. */
  lemma MaskText(buf: seq<int>, q: nat, d: nat, acc: seq<Token>)
    requires Terminated(buf) && q < |buf| && RuleF(RuleMask, buf, q, d, acc).Ok?
    ensures var e := RuleF(RuleMask, buf, q, d, acc).m.end;
      buf[q] == '/' as int && Digits(buf[q + 1..e]) && !IsDigit(buf[e])
  {
    DigitsSlice(buf, q + 1);
  }

  /** prefix accepts a dotted-quad address with an optional '/'-digits mask. */
  lemma PrefixShape(buf: seq<int>, pos: nat, d: nat, acc: seq<Token>)
    requires Terminated(buf) && pos < |buf|
    ensures var o := RuleF(RulePrefix, buf, pos, d, acc);
      (o.Ok? <==> QuadF(buf, pos).Some?) &&
      (o.Ok? ==> IsPrefixText(buf[pos..o.m.end]) && !IsDigit(buf[o.m.end]))
  {
    var quad := QuadF(buf, pos);
    if quad.Some? {
      var q := quad.value;
      QuadText(buf, pos);
      if RuleF(RuleMask, buf, q, d + 1, acc).Ok? {
        var e := RuleF(RuleMask, buf, q, d + 1, acc).m.end;
        MaskText(buf, q, d + 1, acc);
        var s := buf[pos..e];
        assert s[..q - pos] == buf[pos..q];
        assert s[q - pos + 1..] == buf[q + 1..e];
        assert MaskedAt(s, q - pos);
      }
    }
  }

  /** prefix matches exactly when a dotted-quad address starts at `pos`. */
  lemma PrefixAccepts(buf: seq<int>, pos: nat, d: nat, acc: seq<Token>)
    requires Terminated(buf) && pos < |buf|
    ensures RuleF(RulePrefix, buf, pos, d, acc).Ok? <==>
      exists e: nat :: pos < e < |buf| && IsQuad(buf[pos..e])
  {
    PrefixShape(buf, pos, d, acc);
    if QuadF(buf, pos).Some? {
      QuadText(buf, pos);
      var e := QuadF(buf, pos).value;
      assert pos < e < |buf| && IsQuad(buf[pos..e]);
    }
    if exists e: nat :: pos < e < |buf| && IsQuad(buf[pos..e]) {
      var e: nat :| pos < e < |buf| && IsQuad(buf[pos..e]);
      QuadComplete(buf, pos, e);
    }
  }

  /** Chain matches exactly when a digit comes next.  When `probe ws '->' ws Chain`
      does not match, it falls back to a single probe. */
  lemma ChainMatch(buf: seq<int>, pos: nat, d: nat, acc: seq<Token>)
    requires Terminated(buf) && pos < |buf|
    ensures var o := RuleF(RuleChain, buf, pos, d, acc);
      (o.Ok? <==> IsDigit(buf[pos])) &&
      (ChainLongF(buf, pos, d + 1, acc).Fail? && o.Ok? ==>
         o.m.toks == acc + [Token(RuleProbe, pos, o.m.end, d + 1), Token(RuleChain, pos, o.m.end, d)])
  {
    ProbeMatch(buf, pos, d + 1, acc);
    var long := ChainLongF(buf, pos, d + 1, acc);
    if long.Ok? {
      ProbeMatch(buf, pos, d + 1, acc);
      assert LinkF(buf, pos, d + 1, acc).Ok?;
    }
  }

  /** The end of a Check, `Chain '\n'`, ends with '\n'. */
  lemma ChainLineNewline(buf: seq<int>, pos: nat, d: nat, acc: seq<Token>)
    requires Terminated(buf) && pos < |buf|
    ensures var o := ChainLineF(buf, pos, d, acc);
      o.Ok? ==> pos < o.m.end && buf[o.m.end - 1] == '\n' as int
  {
  }

  /** A Flow starts with '('. */
  lemma FlowStartsWithParen(buf: seq<int>, pos: nat, d: nat, acc: seq<Token>)
    requires Terminated(buf) && pos < |buf|
    ensures RuleF(RuleFlow, buf, pos, d, acc).Ok? ==> buf[pos] == '(' as int
  {
    assert RuleF(RuleFlow, buf, pos, d, acc) == FlowF(buf, pos, d, acc);
  }

  /** `Flow ws ':' ws Chain '\n'` starts with '(' and ends with '\n'. */
  lemma CheckBodyShape(buf: seq<int>, pos: nat, d: nat, acc: seq<Token>)
    requires Terminated(buf) && pos < |buf|
    ensures var o := CheckBodyF(buf, pos, d, acc);
      o.Ok? ==> buf[pos] == '(' as int && buf[o.m.end - 1] == '\n' as int
  {
    var f := RuleF(RuleFlow, buf, pos, d, acc);
    if f.Ok? {
      FlowStartsWithParen(buf, pos, d, acc);
      var colon := ColonF(buf, f.m.end, d, f.m.toks);
      if colon.Ok? {
        ChainLineNewline(buf, colon.m.end, d, colon.m.toks);
        assert CheckBodyF(buf, pos, d, acc) == ChainLineF(buf, colon.m.end, d, colon.m.toks);
      }
    }
  }

  /** A Check starts with '(' and ends with '\n'. */
  lemma CheckEndsWithNewline(buf: seq<int>, pos: nat, d: nat, acc: seq<Token>)
    requires Terminated(buf) && pos < |buf|
    ensures var o := RuleF(RuleCheck, buf, pos, d, acc);
      o.Ok? ==> buf[pos] == '(' as int && buf[o.m.end - 1] == '\n' as int
  {
    CheckBodyShape(buf, pos, d + 1, acc);
  }

  /** A Policy match stops only at END_SYMBOL: nothing is left unread. */
  lemma PolicyEndsAtEndSymbol(buf: seq<int>, pos: nat, d: nat, acc: seq<Token>)
    requires Terminated(buf) && pos < |buf|
    ensures var o := RuleF(RulePolicy, buf, pos, d, acc);
      o.Ok? ==> buf[o.m.end] == END_SYMBOL
  {
  }

  /** On the buffer `Init` builds, a Policy match from the start covers the whole
      text. */
  lemma PolicyCoversText(text: string)
    ensures var o := RuleF(RulePolicy, InitBuffer(text), 0, 0, []);
      o.Ok? ==> o.m.end == |text|
  {
    PolicyEndsAtEndSymbol(InitBuffer(text), 0, 0, []);
  }

  /** A token numbered, as `Order` numbers tokens, by its index in the array. */
  function Numbered(toks: seq<Token>, i: nat): (t: Token)
    requires i < |toks|
    ensures t.rule == toks[i].rule && t.begin == toks[i].begin && t.end == toks[i].end && t.next == i
  {
    toks[i].(next := i)
  }

  /** Once numbered by index, the token of a matched rule is the parent, in the sense
      of `isParentOf`, of every token its children added, and those tokens are
      deeper. */
  lemma MatchedIsParent(o: Outcome, r: PegRule, buf: seq<int>, pos: nat, d: nat, acc: seq<Token>)
    requires Matched(o, r, buf, pos, d, acc) && o.Ok?
    ensures forall k :: |acc| <= k < |o.m.toks| - 1 ==>
      IsParentOf(Numbered(o.m.toks, |o.m.toks| - 1), Numbered(o.m.toks, k)) && o.m.toks[k].next > d
  {
  }

  /** Every rule's match has that property. */
  lemma RuleIsParent(r: PegRule, buf: seq<int>, pos: nat, d: nat, acc: seq<Token>)
    requires HasClosure(r) && Terminated(buf) && pos < |buf|
    ensures var o := RuleF(r, buf, pos, d, acc);
      o.Ok? ==> forall k :: |acc| <= k < |o.m.toks| - 1 ==>
        IsParentOf(Numbered(o.m.toks, |o.m.toks| - 1), Numbered(o.m.toks, k)) && o.m.toks[k].next > d
  {
    var o := RuleF(r, buf, pos, d, acc);
    if o.Ok? {
      MatchedIsParent(o, r, buf, pos, d, acc);
    }
  }
}
