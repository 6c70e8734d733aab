/** Prices as text: the printer of the notification mails and the parser of scraped price tags. */
module Price {
  import opened Blanks
  import opened Decimal

  const YEN := '\U{00A5}'
  const WIDE_YEN := '\U{FFE5}'
  const INT64_LIMIT: nat := 0x8000_0000_0000_0000

  // ---------------------------------------------------------------- printing

  /** Groups of three from the right, joined by commas. */
  function Grouped(s: string): string {
    if |s| <= 3 then s else Grouped(s[..|s| - 3]) + "," + s[|s| - 3..]
  }

  /** What the printing loop has written after `i` characters of `s`. */
  function Written(s: string, i: nat): string
    requires i <= |s|
  {
    if i == 0 then ""
    else Written(s, i - 1) + [s[i - 1]] + if (|s| - i) % 3 == 0 && i != |s| then "," else ""
  }

  method FormatJPY(v: int) returns (out: string)
    ensures out == Grouped(Numeral(v))
  {
    var s := Numeral(v);
    var n := |s|;
    if n <= 3 {
      return s;
    }
    out := "";
    var i := 0;
    while i < n
      invariant 0 <= i <= n && out == Written(s, i)
    {
      out := out + [s[i]];
      if (n - i - 1) % 3 == 0 && i != n - 1 {
        out := out + ",";
      }
      i := i + 1;
    }
    WrittenIsGrouped(s);
  }

  /** Where the writer is inside a longer text depends only on how much is left. */
  lemma {:induction false} WrittenOfPrefix(s: string, i: nat)
    requires |s| > 3 && i <= |s| - 3
    ensures Written(s, i) == Written(s[..|s| - 3], i) + if i == |s| - 3 then "," else ""
  {
    if i > 0 {
      WrittenOfPrefix(s, i - 1);
    }
  }

  /** Inside the last group no comma is written. */
  lemma {:induction false} WrittenLastGroup(s: string, i: nat)
    requires |s| > 3 && |s| - 3 <= i <= |s|
    ensures Written(s, i) == Written(s, |s| - 3) + s[|s| - 3..i]
    decreases i
  {
    if i > |s| - 3 {
      WrittenLastGroup(s, i - 1);
      assert s[|s| - 3..i] == s[|s| - 3..i - 1] + [s[i - 1]];
    }
  }

  lemma GroupedStep(s: string, written: string, cut: string)
    requires |s| > 3 && written == cut + s[|s| - 3..|s|] && cut == Grouped(s[..|s| - 3]) + ","
    ensures written == Grouped(s)
  {
    assert s[|s| - 3..|s|] == s[|s| - 3..];
  }

  lemma WrittenAtCut(s: string)
    requires |s| > 3
    ensures Written(s, |s| - 3) == Written(s[..|s| - 3], |s| - 3) + ","
  {
    WrittenOfPrefix(s, |s| - 3);
  }

  lemma {:induction false} WrittenIsGrouped(s: string)
    ensures Written(s, |s|) == Grouped(s)
  {
    if |s| <= 3 {
      ShortWritten(s, |s|);
    } else {
      WrittenIsGrouped(s[..|s| - 3]);
      WrittenAtCut(s);
      WrittenLastGroup(s, |s|);
      GroupedStep(s, Written(s, |s|), Written(s, |s| - 3));
    }
  }

  lemma {:induction false} ShortWritten(s: string, i: nat)
    requires i <= |s| <= 3
    ensures Written(s, i) == s[..i]
  {
    if i > 0 {
      ShortWritten(s, i - 1);
      assert s[..i] == s[..i - 1] + [s[i - 1]];
    }
  }

  lemma {:induction false} GroupedLength(s: string)
    requires s != ""
    ensures |Grouped(s)| == |s| + (|s| - 1) / 3
  {
    if |s| > 3 {
      GroupedLength(s[..|s| - 3]);
    }
  }

  /** Where the commas stand: in front of every third character from the right, and nowhere else. */
  lemma {:induction false} GroupsOfThree(s: string, k: nat)
    requires (forall i :: 0 <= i < |s| ==> s[i] != ',') && k < |Grouped(s)|
    ensures Grouped(s)[k] == ',' <==> (|Grouped(s)| - k) % 4 == 0
  {
    if |s| > 3 {
      var g, back := Grouped(s[..|s| - 3]), s[|s| - 3..];
      CommaBetween(g, back);
      if k < |g| {
        GroupsOfThree(s[..|s| - 3], k);
      }
    }
  }

  lemma CommaBetween(g: string, back: string)
    ensures |g + "," + back| == |g| + 1 + |back| && (g + "," + back)[|g|] == ','
    ensures forall k :: 0 <= k < |g| ==> (g + "," + back)[k] == g[k]
    ensures forall k :: |g| < k < |g| + 1 + |back| ==> (g + "," + back)[k] == back[k - |g| - 1]
  {
  }

  // ---------------------------------------------------------------- parsing

  datatype Result = Ok(value: nat) | NoPrice

  datatype Match = Found(text: string) | NotFound

  /** The regular expression class `\s`. */
  predicate IsRegexSpace(c: char) {
    c == ' ' || c == '\t' || c == '\n' || c == '\r' || c as int == 12
  }

  function SkipSpaces(s: string): string {
    if s != "" && IsRegexSpace(s[0]) then SkipSpaces(s[1..]) else s
  }

  /** The longest front of digits and commas. */
  function AmountFront(s: string): string {
    if s != "" && (IsDigit(s[0]) || s[0] == ',') then [s[0]] + AmountFront(s[1..]) else ""
  }

  predicate IsYen(c: char) {
    c == YEN || c == WIDE_YEN
  }

  /** Submatch 1 of the leftmost match of yen sign, white space, then a digit with digits and commas behind it. */
  function CurrencyMatch(s: string): Match {
    if s == "" then NotFound
    else
      var rest := SkipSpaces(s[1..]);
      if IsYen(s[0]) && rest != "" && IsDigit(rest[0]) then Found(AmountFront(rest)) else CurrencyMatch(s[1..])
  }

  /** strings.ReplaceAll(s, c, ""). */
  function Strip(s: string, c: char): string {
    if s == "" then "" else (if s[0] == c then "" else [s[0]]) + Strip(s[1..], c)
  }

  /** strconv.ParseInt with 64 bits succeeds on a digit string. */
  predicate Fits(s: string) {
    s != "" && AllDigits(s) && Value(s) < INT64_LIMIT
  }

  /** The largest number that fits is 9,223,372,036,854,775,807. */
  lemma FitsSigned64(s: string)
    requires s != "" && AllDigits(s)
    ensures Fits(s) <==> Value(s) <= 9_223_372_036_854_775_807
  {
  }

  function RunLength(s: string): (n: nat)
    ensures n <= |s| && AllDigits(s[..n]) && (n < |s| ==> !IsDigit(s[n]))
  {
    if s == "" || !IsDigit(s[0]) then 0 else 1 + RunLength(s[1..])
  }

  /** All matches of `[0-9]+`, left to right. */
  function Runs(s: string): seq<string>
    decreases |s|
  {
    if s == "" then []
    else if !IsDigit(s[0]) then Runs(s[1..])
    else [s[..RunLength(s)]] + Runs(s[RunLength(s)..])
  }

  function Cleaned(txt: string): string {
    TrimSpace(Strip(Strip(Strip(txt, YEN), WIDE_YEN), ','))
  }

  /** The loop over the matches: the best so far, if any. */
  datatype Best = Nothing | Best(length: nat, value: nat)

  function Better(best: Best, run: string): Best {
    if Fits(run) && (best.Nothing? || |run| > best.length || (|run| == best.length && Value(run) > best.value))
    then Best(|run|, Value(run)) else best
  }

  function BestOf(runs: seq<string>): Best {
    if runs == [] then Nothing else Better(BestOf(runs[..|runs| - 1]), runs[|runs| - 1])
  }

  function BareAmount(txt: string): Result {
    var best := BestOf(Runs(Cleaned(txt)));
    if best.Nothing? then NoPrice else Ok(best.value)
  }

  function PriceOf(txt: string): Result {
    var m := CurrencyMatch(txt);
    if m.Found? && Fits(Strip(m.text, ',')) then Ok(Value(Strip(m.text, ','))) else BareAmount(txt)
  }

  method ParsePrice(txt: string) returns (r: Result)
    ensures r == PriceOf(txt)
  {
    var m := CurrencyMatch(txt);
    if m.Found? {
      var candidate := Strip(m.text, ',');
      if Fits(candidate) {
        return Ok(Value(candidate));
      }
    }
    var cleaned := Cleaned(txt);
    if cleaned == "" {
      return NoPrice;
    }
    var matches := Runs(cleaned);
    if |matches| == 0 {
      return NoPrice;
    }
    var bestVal: nat, bestLen: nat, found := 0, 0, false;
    var i := 0;
    while i < |matches|
      invariant 0 <= i <= |matches|
      invariant BestOf(matches[..i]) == if found then Best(bestLen, bestVal) else Nothing
    {
      var run := matches[i];
      assert matches[..i + 1][..i] == matches[..i];
      if Fits(run) {
        var val := Value(run);
        if !found || |run| > bestLen || (|run| == bestLen && val > bestVal) {
          bestVal, bestLen, found := val, |run|, true;
        }
      }
      i := i + 1;
    }
    assert matches[..i] == matches;
    if !found {
      return NoPrice;
    }
    return Ok(bestVal);
  }

  // ---------------------------------------------------------------- the longest run wins

  /** `s[a..b]` is a run of digits that cannot be made longer on either side. */
  predicate MaximalRun(s: string, a: int, b: int) {
    && 0 <= a < b <= |s| && (forall i :: a <= i < b ==> IsDigit(s[i]))
    && (a == 0 || !IsDigit(s[a - 1])) && (b == |s| || !IsDigit(s[b]))
  }

  /** What stands in front of the rest that is searched next: the first run, or one character that is no digit. */
  predicate Peeled(s: string, n: nat) {
    0 < n <= |s| && if IsDigit(s[0]) then MaximalRun(s, 0, n) else n == 1
  }

  lemma SameSlice(s: string, n: nat, a: int, b: int)
    requires n <= |s| && 0 <= a <= b <= |s| - n
    ensures s[n..][a..b] == s[a + n..b + n]
  {
    forall i | 0 <= i < b - a
      ensures s[n..][a..b][i] == s[a + n..b + n][i]
    {
      assert s[n..][a..b][i] == s[n..][a + i] == s[n + (a + i)];
    }
  }

  lemma ShiftUp(s: string, n: nat, a: int, b: int)
    requires Peeled(s, n) && MaximalRun(s[n..], a, b)
    ensures MaximalRun(s, a + n, b + n) && s[n..][a..b] == s[a + n..b + n]
  {
    forall i | a + n <= i < b + n
      ensures IsDigit(s[i])
    {
      assert s[n..][i - n] == s[i];
    }
    assert s[n..][a] == s[a + n];
    SameSlice(s, n, a, b);
  }

  lemma ShiftDown(s: string, n: nat, a: int, b: int)
    requires Peeled(s, n) && MaximalRun(s, a, b) && a >= n
    ensures MaximalRun(s[n..], a - n, b - n) && s[n..][a - n..b - n] == s[a..b]
  {
    var rest := s[n..];
    forall i | a - n <= i < b - n
      ensures IsDigit(rest[i])
    {
      assert rest[i] == s[i + n];
    }
    SameSlice(s, n, a - n, b - n);
  }

  lemma FirstRunOnly(s: string, n: nat, a: int, b: int)
    requires Peeled(s, n) && MaximalRun(s, a, b) && a < n
    ensures IsDigit(s[0]) && a == 0 && b == n
  {
  }

  lemma RunsUnfold(s: string) returns (n: nat)
    requires s != ""
    ensures Peeled(s, n) && Runs(s) == (if IsDigit(s[0]) then [s[..n]] else []) + Runs(s[n..])
  {
    n := if IsDigit(s[0]) then RunLength(s) else 1;
    assert forall i :: 0 <= i < n ==> s[..n][i] == s[i];
  }

  lemma {:induction false} RunIsMaximal(s: string, run: string) returns (a: int, b: int)
    requires run in Runs(s)
    ensures MaximalRun(s, a, b) && s[a..b] == run
    decreases |s|
  {
    var n := RunsUnfold(s);
    if run in Runs(s[n..]) {
      a, b := RunIsMaximal(s[n..], run);
      ShiftUp(s, n, a, b);
      a, b := a + n, b + n;
    } else {
      a, b := 0, n;
    }
  }

  lemma {:induction false} MaximalIsRun(s: string, a: int, b: int)
    requires MaximalRun(s, a, b)
    ensures s[a..b] in Runs(s)
    decreases |s|
  {
    var n := RunsUnfold(s);
    if a < n {
      FirstRunOnly(s, n, a, b);
    } else {
      ShiftDown(s, n, a, b);
      MaximalIsRun(s[n..], a - n, b - n);
    }
  }

  /** `x` is at least as long as `y`, and of the same length at least as large. */
  predicate NoWorse(length: nat, value: nat, y: string)
    requires Fits(y)
  {
    length > |y| || (length == |y| && value >= Value(y))
  }

  lemma {:induction false} BestIsBest(runs: seq<string>)
    ensures BestOf(runs).Nothing? <==> forall y :: y in runs ==> !Fits(y)
    ensures BestOf(runs).Best? ==>
              exists x :: x in runs && Fits(x) && |x| == BestOf(runs).length && Value(x) == BestOf(runs).value
    ensures BestOf(runs).Best? ==> forall y :: y in runs && Fits(y) ==> NoWorse(BestOf(runs).length, BestOf(runs).value, y)
  {
    if runs != [] {
      var front, last := runs[..|runs| - 1], runs[|runs| - 1];
      BestIsBest(front);
      assert runs == front + [last];
      if BestOf(runs) == BestOf(front) && BestOf(front).Best? {
        var x :| x in front && Fits(x) && |x| == BestOf(front).length && Value(x) == BestOf(front).value;
        assert x in runs;
      }
    }
  }

  /** The amount behind the first currency sign is used if there is one and it fits 64 bits. */
  predicate UsesCurrency(txt: string) {
    CurrencyMatch(txt).Found? && Fits(Strip(CurrencyMatch(txt).text, ','))
  }

  /**
  Without a currency amount that fits 64 bits the parser returns the value of a longest maximal digit run that
  fits, the largest of them on ties, and fails exactly when no run fits.
  */
  lemma LongestRunWins(txt: string)
    requires !UsesCurrency(txt)
    ensures PriceOf(txt).NoPrice? <==> forall a, b :: MaximalRun(Cleaned(txt), a, b) ==> !Fits(Cleaned(txt)[a..b])
    ensures PriceOf(txt).Ok? ==>
              exists a, b :: MaximalRun(Cleaned(txt), a, b) && Fits(Cleaned(txt)[a..b])
                && Value(Cleaned(txt)[a..b]) == PriceOf(txt).value
                && forall c, d :: MaximalRun(Cleaned(txt), c, d) && Fits(Cleaned(txt)[c..d]) ==>
                     NoWorse(b - a, PriceOf(txt).value, Cleaned(txt)[c..d])
  {
    var s := Cleaned(txt);
    var runs := Runs(s);
    BestIsBest(runs);
    forall c, d | MaximalRun(s, c, d)
      ensures s[c..d] in runs
    {
      MaximalIsRun(s, c, d);
    }
    if BestOf(runs).Best? {
      var x :| x in runs && Fits(x) && |x| == BestOf(runs).length && Value(x) == BestOf(runs).value;
      var a, b := RunIsMaximal(s, x);
      assert !(forall c, d :: MaximalRun(s, c, d) ==> !Fits(s[c..d]));
    } else {
      forall c, d | MaximalRun(s, c, d)
        ensures !Fits(s[c..d])
      {
        assert s[c..d] in runs;
      }
    }
  }

  // ---------------------------------------------------------------- the first currency amount wins

  /** A yen sign at `i`, white space, and the first digit of an amount at `k`. */
  predicate AmountAt(s: string, i: int, k: int) {
    && 0 <= i < k < |s| && (s[i] as int == 0xA5 || s[i] as int == 0xFFE5) && '0' <= s[k] <= '9'
    && forall j :: i < j < k ==> s[j] as int in {9, 10, 12, 13, 32}
  }

  /** `s[k..e]` is all of the digits and commas that start at `k`. */
  predicate WholeAmount(s: string, k: int, e: int) {
    && 0 <= k < e <= |s| && (forall j :: k <= j < e ==> IsDigit(s[j]) || s[j] == ',')
    && (e == |s| || !(IsDigit(s[e]) || s[e] == ','))
  }

  lemma {:induction false} SkipSpacesStops(s: string) returns (n: nat)
    ensures n <= |s| && SkipSpaces(s) == s[n..] && (forall j :: 0 <= j < n ==> IsRegexSpace(s[j]))
    ensures n < |s| ==> !IsRegexSpace(s[n])
  {
    if s != "" && IsRegexSpace(s[0]) {
      n := SkipSpacesStops(s[1..]);
      assert forall j :: 0 <= j < n ==> s[1..][j] == s[j + 1];
      n := n + 1;
    } else {
      n := 0;
    }
  }

  lemma {:induction false} AmountFrontEnds(s: string)
    ensures AmountFront(s) <= s
    ensures forall j :: 0 <= j < |AmountFront(s)| ==> IsDigit(s[j]) || s[j] == ','
    ensures var n := |AmountFront(s)|; n < |s| ==> !(IsDigit(s[n]) || s[n] == ',')
  {
    if s != "" && (IsDigit(s[0]) || s[0] == ',') {
      AmountFrontEnds(s[1..]);
      assert s == [s[0]] + s[1..];
    }
  }

  lemma ShiftAmount(s: string, i: int, k: int)
    requires s != "" && i > 0
    ensures AmountAt(s, i, k) <==> AmountAt(s[1..], i - 1, k - 1)
  {
    if AmountAt(s, i, k) {
      assert forall j :: i - 1 < j < k - 1 ==> s[1..][j] == s[j + 1];
    }
    if AmountAt(s[1..], i - 1, k - 1) {
      forall j | i < j < k
        ensures IsRegexSpace(s[j])
      {
        assert s[1..][j - 1] == s[j];
      }
    }
  }

  /** A match at the very first character, or none there. */
  lemma MatchAtFront(s: string) returns (k: int)
    requires s != ""
    ensures var rest := SkipSpaces(s[1..]);
            if IsYen(s[0]) && rest != "" && IsDigit(rest[0]) then AmountAt(s, 0, k) && rest == s[k..]
            else forall h :: !AmountAt(s, 0, h)
  {
    var rest := SkipSpaces(s[1..]);
    var n := SkipSpacesStops(s[1..]);
    k := n + 1;
    assert rest == s[k..];
    assert forall j :: 0 < j < k ==> s[j] == s[1..][j - 1];
    assert k < |s| ==> s[k] == s[1..][n];
  }

  /** Where a match is found: at the leftmost yen sign with an amount behind it, and all of that amount. */
  ghost predicate LeftmostAmount(s: string, i: int, k: int, e: int) {
    AmountAt(s, i, k) && WholeAmount(s, k, e) && forall i', k' :: AmountAt(s, i', k') ==> i <= i'
  }

  lemma {:induction false} MatchIsLeftmost(s: string) returns (i: int, k: int, e: int)
    ensures CurrencyMatch(s).NotFound? ==> forall i', k' :: !AmountAt(s, i', k')
    ensures CurrencyMatch(s).Found? ==> LeftmostAmount(s, i, k, e) && CurrencyMatch(s).text == s[k..e]
  {
    i, k, e := 0, 0, 0;
    if s != "" {
      k := MatchAtFront(s);
      var rest := SkipSpaces(s[1..]);
      if IsYen(s[0]) && rest != "" && IsDigit(rest[0]) {
        AmountFrontEnds(rest);
        e := k + |AmountFront(rest)|;
        FrontIsSlice(s, k, AmountFront(rest));
      } else {
        i, k, e := MatchIsLeftmost(s[1..]);
        NotAtFront(s, i, k, e);
        i, k, e := i + 1, k + 1, e + 1;
      }
    }
  }

  lemma FrontIsSlice(s: string, k: int, front: string)
    requires 0 <= k <= |s| && front <= s[k..]
    ensures front == s[k..k + |front|] && forall j :: 0 <= j < |s| - k ==> s[k..][j] == s[k + j]
  {
  }

  lemma NotAtFront(s: string, i: int, k: int, e: int)
    requires s != "" && forall h :: !AmountAt(s, 0, h)
    ensures (forall i', k' :: !AmountAt(s[1..], i', k')) ==> forall i', k' :: !AmountAt(s, i', k')
    ensures LeftmostAmount(s[1..], i, k, e) ==> LeftmostAmount(s, i + 1, k + 1, e + 1) && s[1..][k..e] == s[k + 1..e + 1]
  {
    forall i', k' | AmountAt(s, i', k')
      ensures AmountAt(s[1..], i' - 1, k' - 1)
    {
      ShiftAmount(s, i', k');
    }
    if LeftmostAmount(s[1..], i, k, e) {
      ShiftAmount(s, i + 1, k + 1);
      SameSlice(s, 1, k, e);
      forall j | k + 1 <= j < e + 1
        ensures IsDigit(s[j]) || s[j] == ','
      {
        assert s[1..][j - 1] == s[j];
      }
    }
  }

  /**
  The currency expression matches if and only if some yen sign is followed by white space and a digit. The match is
  the leftmost such place, and its amount, if it fits 64 bits, is the price.
  */
  lemma FirstCurrencyAmountWins(txt: string)
    ensures CurrencyMatch(txt).Found? <==> exists i, k :: AmountAt(txt, i, k)
    ensures CurrencyMatch(txt).Found? ==>
              exists i, k, e :: LeftmostAmount(txt, i, k, e) && CurrencyMatch(txt).text == txt[k..e]
                && (Fits(Strip(txt[k..e], ',')) ==> PriceOf(txt) == Ok(Value(Strip(txt[k..e], ','))))
  {
    var i, k, e := MatchIsLeftmost(txt);
    if CurrencyMatch(txt).Found? {
      assert AmountAt(txt, i, k);
    }
  }

  // ---------------------------------------------------------------- printed prices parse back

  lemma StripThree(a: string, m: string, b: string, c: char)
    ensures Strip(a + m + b, c) == Strip(a, c) + Strip(m, c) + Strip(b, c)
  {
    StripConcat(a + m, b, c);
    StripConcat(a, m, c);
  }

  lemma StripItself(c: char)
    ensures Strip([c], c) == ""
  {
    assert [c][1..] == "";
  }

  lemma StripAcrossComma(a: string, m: string, b: string)
    requires m == [',']
    ensures Strip(a + m + b, ',') == Strip(a, ',') + Strip(b, ',')
  {
    StripThree(a, m, b, ',');
    StripItself(',');
    assert Strip(a, ',') + "" == Strip(a, ',');
  }

  /** Commas aside, grouping keeps the text. */
  lemma {:induction false} GroupedStrips(s: string)
    requires AllDigits(s)
    ensures Strip(Grouped(s), ',') == s
  {
    if |s| <= 3 {
      StripAbsent(s, ',');
    } else {
      var front, back := s[..|s| - 3], s[|s| - 3..];
      GroupedStrips(front);
      StripAbsent(back, ',');
      StripAcrossComma(Grouped(front), ",", back);
      assert front + back == s;
    }
  }

  lemma {:induction false} GroupedIsAmount(s: string)
    requires AllDigits(s) && s != ""
    ensures Grouped(s) != "" && IsDigit(Grouped(s)[0])
    ensures forall i :: 0 <= i < |Grouped(s)| ==> IsDigit(Grouped(s)[i]) || Grouped(s)[i] == ','
  {
    if |s| > 3 {
      GroupedIsAmount(s[..|s| - 3]);
    }
  }

  lemma {:induction false} StripConcat(a: string, b: string, c: char)
    ensures Strip(a + b, c) == Strip(a, c) + Strip(b, c)
  {
    if a == "" {
      assert a + b == b;
    } else {
      assert (a + b)[1..] == a[1..] + b;
      StripConcat(a[1..], b, c);
    }
  }

  lemma {:induction false} StripAbsent(s: string, c: char)
    requires forall i :: 0 <= i < |s| ==> s[i] != c
    ensures Strip(s, c) == s
  {
    if s != "" {
      StripAbsent(s[1..], c);
    }
  }

  lemma {:induction false} NoYenNoMatch(s: string)
    requires forall i :: 0 <= i < |s| ==> !IsYen(s[i])
    ensures CurrencyMatch(s).NotFound?
  {
    if s != "" {
      NoYenNoMatch(s[1..]);
    }
  }

  lemma {:induction false} SkipsThrough(spaces: string, rest: string)
    requires forall i :: 0 <= i < |spaces| ==> IsRegexSpace(spaces[i])
    requires rest != "" && !IsRegexSpace(rest[0])
    ensures SkipSpaces(spaces + rest) == rest
  {
    if spaces == "" {
      assert spaces + rest == rest;
    } else {
      assert (spaces + rest)[1..] == spaces[1..] + rest;
      SkipsThrough(spaces[1..], rest);
    }
  }

  lemma {:induction false} AmountIsAll(s: string)
    requires forall i :: 0 <= i < |s| ==> IsDigit(s[i]) || s[i] == ','
    ensures AmountFront(s) == s
  {
    if s != "" {
      AmountIsAll(s[1..]);
    }
  }

  lemma OneRun(s: string)
    requires AllDigits(s) && s != ""
    ensures Runs(s) == [s]
  {
    var n := RunLength(s);
    assert n == |s|;
    assert s[..n] == s && s[n..] == "";
    assert Runs(s[n..]) == [];
  }

  lemma CleanedGrouped(d: string)
    requires AllDigits(d) && d != ""
    ensures Cleaned(Grouped(d)) == d && CurrencyMatch(Grouped(d)).NotFound?
  {
    var t := Grouped(d);
    GroupedStrips(d);
    GroupedIsAmount(d);
    NoYenNoMatch(t);
    StripAbsent(t, YEN);
    StripAbsent(t, WIDE_YEN);
    assert !IsSpace(d[0]) && !IsSpace(d[|d| - 1]);
  }

  lemma BareRoundTrip(v: nat)
    requires v < 0x8000_0000
    ensures PriceOf(Grouped(Digits(v))) == Ok(v)
  {
    var d := Digits(v);
    CleanedGrouped(d);
    OneRun(d);
    DigitsRoundTrip(v);
    BestIsBest([d]);
  }

  lemma TaggedRoundTrip(v: nat, yen: char, spaces: string)
    requires v < 0x8000_0000 && IsYen(yen) && forall i :: 0 <= i < |spaces| ==> IsRegexSpace(spaces[i])
    ensures PriceOf([yen] + spaces + Grouped(Digits(v))) == Ok(v)
  {
    var d, t := Digits(v), Grouped(Digits(v));
    var tag := [yen] + spaces + t;
    GroupedStrips(d);
    GroupedIsAmount(d);
    assert tag[1..] == spaces + t;
    SkipsThrough(spaces, t);
    AmountIsAll(t);
    assert CurrencyMatch(tag) == Found(t);
    DigitsRoundTrip(v);
  }

  /** Every price the printer writes, bare or behind a yen sign and white space, parses back to itself. */
  lemma PricesPrintAndParseBack(v: nat, yen: char, spaces: string)
    requires v < 0x8000_0000 && IsYen(yen) && forall i :: 0 <= i < |spaces| ==> IsRegexSpace(spaces[i])
    ensures PriceOf(Grouped(Numeral(v))) == Ok(v)
    ensures PriceOf([yen] + spaces + Grouped(Numeral(v))) == Ok(v)
  {
    BareRoundTrip(v);
    TaggedRoundTrip(v, yen, spaces);
  }

  // ---------------------------------------------------------------- negative prices

  lemma {:induction false} FirstComma(s: string)
    requires |s| > 3
    ensures var k := (|s| - 1) % 3 + 1;
            k < |Grouped(s)| && Grouped(s)[k] == ',' && Grouped(s)[..k] == s[..k]
  {
    var front, back, k := s[..|s| - 3], s[|s| - 3..], (|s| - 1) % 3 + 1;
    var g := Grouped(front);
    assert Grouped(s) == g + ("," + back);
    assert k <= |front| && front[..k] == s[..k];
    if |front| > 3 {
      FirstComma(front);
      assert (g + ("," + back))[k] == g[k] && (g + ("," + back))[..k] == g[..k];
    } else {
      assert g == front && k == |front|;
    }
  }

  /** A minus sign is counted like a digit, so it is cut off by a comma exactly when the digits fill whole groups. */
  lemma MinusSignMayBeCutOff(v: int)
    requires v < 0
    ensures |Grouped(Numeral(v))| > 1
    ensures Grouped(Numeral(v))[1] == ',' <==> |Digits(-v)| % 3 == 0
  {
    var s := Numeral(v);
    assert s == "-" + Digits(-v) && s[1] == Digits(-v)[0];
    if |s| > 3 {
      FirstComma(s);
      var k := (|s| - 1) % 3 + 1;
      assert k > 1 ==> Grouped(s)[..k][1] == s[..k][1];
    }
  }
}
