/**
 * `translatePositions` of profiler/policy.peg.go: the rune offsets named in a
 * parse error turned into line and column numbers.
 */
module PolicyErrors {

  /** `textPosition`. */
  datatype TextPosition = TextPosition(line: int, symbol: int)

  predicate Sorted(s: seq<nat>)
  {
    forall i, j :: 0 <= i < j < |s| ==> s[i] <= s[j]
  }

  /** The number of newlines in `s`. */
  function Newlines(s: string): (n: nat)
    ensures n <= |s|
  {
    if s == [] then 0 else Newlines(s[..|s| - 1]) + if s[|s| - 1] == '\n' then 1 else 0
  }

  /** The offset of the last newline at or before `k`, or -1 when there is none. */
  function LastNewline(text: string, k: int): (r: int)
    requires -1 <= k < |text|
    ensures -1 <= r <= k && (r >= 0 ==> text[r] == '\n')
    ensures forall j :: r < j <= k ==> text[j] != '\n'
    decreases k + 1
  {
    if k < 0 then -1 else if text[k] == '\n' then k else LastNewline(text, k - 1)
  }

  /** The line of the rune at offset `p`: 1 plus the newlines up to and including it. */
  function LineOf(text: string, p: nat): int
    requires p < |text|
  {
    1 + Newlines(text[..p + 1])
  }

  /** The column of the rune at offset `p`: how far it is from the last newline at or
      before it, so 0 on a newline and 1 on the first rune of a line. */
  function SymbolOf(text: string, p: nat): int
    requires p < |text|
  {
    p - LastNewline(text, p)
  }

  /** Lines count from 1 and columns from 0; a newline starts the next line at
      column 0, any other rune moves one column on. */
  lemma PositionStep(text: string, p: nat)
    requires p < |text|
    ensures LineOf(text, p) >= 1 && SymbolOf(text, p) >= 0
    ensures text[p] == '\n' ==> SymbolOf(text, p) == 0
    ensures p == 0 ==> LineOf(text, p) == (if text[0] == '\n' then 2 else 1)
    ensures p == 0 && text[0] != '\n' ==> SymbolOf(text, p) == 1
    ensures p > 0 ==> LineOf(text, p) == LineOf(text, p - 1) + (if text[p] == '\n' then 1 else 0)
    ensures p > 0 && text[p] != '\n' ==> SymbolOf(text, p) == SymbolOf(text, p - 1) + 1
  {
    assert text[..p + 1][..p] == text[..p];
  }

  /** The inner loop of `translatePositions`: past `positions[j]` and every equal
      position after it. */
  method SkipEqual(positions: seq<nat>, j: nat) returns (next: nat)
    requires j < |positions|
    ensures j < next <= |positions|
    ensures forall k :: j <= k < next ==> positions[k] == positions[j]
    ensures next < |positions| ==> positions[next] != positions[j]
  {
    next := j + 1;
    while next < |positions| && positions[next] == positions[j]
      invariant j < next <= |positions|
      invariant forall k :: j <= k < next ==> positions[k] == positions[j]
    {
      next := next + 1;
    }
  }

  /** The positions translated so far, each with its line and column. */
  ghost predicate TranslatedUpTo(text: string, positions: seq<nat>, translations: map<nat, TextPosition>, j: nat)
    requires j <= |positions|
  {
    (forall p :: p in translations <==> p in positions[..j]) &&
    (forall p :: p in translations ==>
      p < |text| && translations[p] == TextPosition(LineOf(text, p), SymbolOf(text, p)))
  }

  /** Translating offset `i`, which `positions[j..j']` all are, extends the
      translations from `positions[..j]` to `positions[..j']`. */
  lemma Translated(text: string, positions: seq<nat>, translations: map<nat, TextPosition>, i: nat, j: nat, j': nat)
    requires i < |text| && j < j' <= |positions|
    requires forall k :: j <= k < j' ==> positions[k] == i
    requires TranslatedUpTo(text, positions, translations, j)
    ensures TranslatedUpTo(text, positions, translations[i := TextPosition(LineOf(text, i), SymbolOf(text, i))], j')
  {
    assert positions[..j'] == positions[..j] + positions[j..j'];
    assert positions[j..j'][0] == i;
  }

  /** `translatePositions`, with `positions` already sorted (the `sort.Ints` call is
      not modelled).  The loop reads `positions[j]` for every rune even when there
      are no positions, which panics (`panics`); otherwise every position inside
      the text gets its line and column, and the others get no entry. */
  method TranslatePositions(text: string, positions: seq<nat>)
    returns (panics: bool, translations: map<nat, TextPosition>)
    requires Sorted(positions)
    ensures panics <==> |positions| == 0 && |text| > 0
    ensures !panics ==> forall p :: p in translations <==> p in positions && p < |text|
    ensures !panics ==> forall p :: p in translations && p < |text| ==>
      translations[p] == TextPosition(LineOf(text, p), SymbolOf(text, p))
  {
    var length := |positions|;
    translations := map[];
    var j, line, symbol := 0, 1, 0;
    var i := 0;
    while i < |text|
      invariant 0 <= i <= |text| && 0 <= j <= length
      invariant i == 0 ==> line == 1 && symbol == 0
      invariant i > 0 ==> line == LineOf(text, i - 1) && symbol == SymbolOf(text, i - 1)
      invariant j < length || (length == 0 && i == 0)
      invariant forall k :: 0 <= k < j ==> positions[k] < i
      invariant forall k :: j <= k < length ==> positions[k] >= i
      invariant TranslatedUpTo(text, positions, translations, j)
    {
      PositionStep(text, i);
      if text[i] == '\n' {
        line, symbol := line + 1, 0;
      } else {
        symbol := symbol + 1;
      }
      assert line == LineOf(text, i) && symbol == SymbolOf(text, i);
      if j >= length {
        return true, translations;
      }
      if i == positions[j] {
        var j' := SkipEqual(positions, j);
        Translated(text, positions, translations, i, j, j');
        translations := translations[i := TextPosition(line, symbol)];
        j := j';
        if j == length {
          break;
        }
      }
      i := i + 1;
    }
    assert j == length || i == |text|;
    forall p | p in positions && p < |text|
      ensures p in positions[..j]
    {
      var k :| 0 <= k < length && positions[k] == p;
      assert k < j && positions[..j][k] == p;
    }
    panics := false;
  }
}
