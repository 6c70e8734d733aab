/**
What the price parser makes of a text without a usable currency amount, said of the text itself: numbers may be cut by
commas and yen signs, and nothing else joins or separates digits.
*/
module PriceText {
  import opened Blanks
  import opened Decimal
  import opened Price

  /** The characters the parser deletes before it looks for digits. */
  predicate IsMark(c: char) {
    c == ',' || c as int == 0xA5 || c as int == 0xFFE5
  }

  predicate InBlock(c: char) {
    '0' <= c <= '9' || IsMark(c)
  }

  /** `s[a..b]` holds digits, commas and yen signs only and cannot be made longer. */
  predicate MaximalBlock(s: string, a: int, b: int) {
    && 0 <= a < b <= |s| && (forall i :: a <= i < b ==> InBlock(s[i]))
    && (a == 0 || !InBlock(s[a - 1])) && (b == |s| || !InBlock(s[b]))
  }

  function DigitsOf(s: string): string {
    if s == "" then "" else (if '0' <= s[0] <= '9' then [s[0]] else "") + DigitsOf(s[1..])
  }

  function WithoutMarks(s: string): string {
    if s == "" then "" else (if IsMark(s[0]) then "" else [s[0]]) + WithoutMarks(s[1..])
  }

  // ---------------------------------------------------------------- trimming does not matter

  lemma {:induction false} StripsAreWithoutMarks(s: string)
    ensures Strip(Strip(Strip(s, YEN), WIDE_YEN), ',') == WithoutMarks(s)
  {
    if s != "" {
      StripsAreWithoutMarks(s[1..]);
      var one := if s[0] == YEN then "" else [s[0]];
      var two := Strip(one, WIDE_YEN);
      StripConcat(one, Strip(s[1..], YEN), WIDE_YEN);
      StripConcat(two, Strip(Strip(s[1..], YEN), WIDE_YEN), ',');
      StripOne(s[0]);
    }
  }

  lemma StripOne(c: char)
    ensures Strip(Strip(if c == YEN then "" else [c], WIDE_YEN), ',') == if IsMark(c) then "" else [c]
  {
    assert [c][1..] == "";
  }

  /** A run as it ends: in front of a character that is no digit, or at the end of the text. */
  lemma {:induction false} RunsBeforeSpace(s: string, c: char)
    requires !IsDigit(c)
    ensures Runs(s + [c]) == Runs(s)
    decreases |s|
  {
    if s == "" {
      assert s + [c] == [c] && [c][1..] == "";
    } else {
      var n := RunsUnfold(s);
      RunsOfPeeled(s + [c], n);
      RunsOfPeeled(s, n);
      assert (s + [c])[n..] == s[n..] + [c] && (s + [c])[..n] == s[..n];
      RunsBeforeSpace(s[n..], c);
    }
  }

  lemma RunsOfPeeled(s: string, n: nat)
    requires Peeled(s, n)
    ensures Runs(s) == (if IsDigit(s[0]) then [s[..n]] else []) + Runs(s[n..])
  {
    var m := RunsUnfold(s);
    if IsDigit(s[0]) {
      assert m == n;
    }
  }

  lemma {:induction false} RunsOfTrimmed(s: string)
    ensures Runs(TrimSpace(s)) == Runs(s)
    decreases |s|
  {
    if s != "" {
      if IsSpace(s[0]) {
        RunsOfTrimmed(s[1..]);
      } else if IsSpace(s[|s| - 1]) {
        RunsOfTrimmed(s[..|s| - 1]);
        RunsBeforeSpace(s[..|s| - 1], s[|s| - 1]);
        assert s == s[..|s| - 1] + [s[|s| - 1]];
      }
    }
  }

  // ---------------------------------------------------------------- runs are the digits of blocks

  function BlockLength(s: string): (n: nat)
    ensures n <= |s| && (forall i :: 0 <= i < n ==> InBlock(s[i])) && (n < |s| ==> !InBlock(s[n]))
  {
    if s == "" || !InBlock(s[0]) then 0 else 1 + BlockLength(s[1..])
  }

  /** The digits of each block, where there are any, from left to right. */
  function BlockRuns(s: string): seq<string>
    decreases |s|
  {
    if s == "" then []
    else if !InBlock(s[0]) then BlockRuns(s[1..])
    else
      var n := BlockLength(s);
      (if DigitsOf(s[..n]) == "" then [] else [DigitsOf(s[..n])]) + BlockRuns(s[n..])
  }

  lemma {:induction false} WithoutMarksConcat(a: string, b: string)
    ensures WithoutMarks(a + b) == WithoutMarks(a) + WithoutMarks(b)
  {
    if a == "" {
      assert a + b == b;
    } else {
      assert (a + b)[1..] == a[1..] + b;
      WithoutMarksConcat(a[1..], b);
    }
  }

  lemma {:induction false} BlockIsDigits(s: string)
    requires forall i :: 0 <= i < |s| ==> InBlock(s[i])
    ensures WithoutMarks(s) == DigitsOf(s) && AllDigits(DigitsOf(s))
  {
    if s != "" {
      BlockIsDigits(s[1..]);
    }
  }

  lemma RunInFront(d: string, rest: string)
    requires AllDigits(d) && (rest == "" || !IsDigit(rest[0]))
    ensures Runs(d + rest) == (if d == "" then [] else [d]) + Runs(rest)
  {
    if d == "" {
      assert d + rest == rest;
    } else {
      var t := d + rest;
      assert forall i :: 0 <= i < |d| ==> t[i] == d[i];
      assert |d| < |t| ==> t[|d|] == rest[0];
      RunsOfPeeled(t, |d|);
      assert t[..|d|] == d && t[|d|..] == rest;
    }
  }

  lemma {:induction false} RunsAreBlockRuns(s: string)
    ensures Runs(WithoutMarks(s)) == BlockRuns(s)
    decreases |s|
  {
    if s != "" {
      if InBlock(s[0]) {
        var n := BlockLength(s);
        assert n > 0;
        assert s == s[..n] + s[n..];
        WithoutMarksConcat(s[..n], s[n..]);
        BlockIsDigits(s[..n]);
        assert s[n..] != "" ==> !InBlock(s[n..][0]);
        RunInFront(DigitsOf(s[..n]), WithoutMarks(s[n..]));
        RunsAreBlockRuns(s[n..]);
      } else {
        RunsAreBlockRuns(s[1..]);
        assert WithoutMarks(s)[1..] == WithoutMarks(s[1..]);
      }
    }
  }

  /** The front of the text: its first block, or one character outside of any. */
  predicate Cut(s: string, n: nat) {
    0 < n <= |s| && if InBlock(s[0]) then MaximalBlock(s, 0, n) else n == 1
  }

  lemma BlockUp(s: string, n: nat, a: int, b: int)
    requires Cut(s, n) && MaximalBlock(s[n..], a, b)
    ensures MaximalBlock(s, a + n, b + n) && s[n..][a..b] == s[a + n..b + n]
  {
    assert forall i :: a + n <= i < b + n ==> s[i] == s[n..][i - n];
    assert b < |s| - n ==> s[n..][b] == s[b + n];
    assert a > 0 ==> s[n..][a - 1] == s[a + n - 1];
    assert s[n..][a] == s[a + n];
    SameSlice(s, n, a, b);
  }

  lemma BlockDown(s: string, n: nat, a: int, b: int)
    requires Cut(s, n) && MaximalBlock(s, a, b) && a >= n
    ensures MaximalBlock(s[n..], a - n, b - n) && s[n..][a - n..b - n] == s[a..b]
  {
    assert forall i :: a - n <= i < b - n ==> s[n..][i] == s[i + n];
    assert b < |s| ==> s[n..][b - n] == s[b];
    assert a > n ==> s[n..][a - n - 1] == s[a - 1];
    SameSlice(s, n, a - n, b - n);
  }

  lemma BlockRunsUnfold(s: string) returns (n: nat)
    requires s != ""
    ensures Cut(s, n)
    ensures forall x :: x in BlockRuns(s) <==>
              x in BlockRuns(s[n..]) || (InBlock(s[0]) && x == DigitsOf(s[..n]) && x != "")
  {
    n := if InBlock(s[0]) then BlockLength(s) else 1;
  }

  lemma {:induction false} RunHasBlock(s: string, run: string) returns (a: int, b: int)
    requires run in BlockRuns(s)
    ensures MaximalBlock(s, a, b) && DigitsOf(s[a..b]) == run && run != ""
    decreases |s|
  {
    var n := BlockRunsUnfold(s);
    if run in BlockRuns(s[n..]) {
      a, b := RunHasBlock(s[n..], run);
      BlockUp(s, n, a, b);
      a, b := a + n, b + n;
    } else {
      a, b := 0, n;
    }
  }

  lemma FirstBlockOnly(s: string, n: nat, a: int, b: int)
    requires Cut(s, n) && MaximalBlock(s, a, b) && a < n
    ensures InBlock(s[0]) && a == 0 && b == n
  {
  }

  lemma {:induction false} BlockHasRun(s: string, a: int, b: int, run: string)
    requires MaximalBlock(s, a, b) && DigitsOf(s[a..b]) == run && run != ""
    ensures run in BlockRuns(s)
    decreases |s|
  {
    var n := BlockRunsUnfold(s);
    if a < n {
      FirstBlockOnly(s, n, a, b);
      assert s[..n] == s[a..b];
    } else {
      BlockDown(s, n, a, b);
      BlockHasRun(s[n..], a - n, b - n, run);
    }
  }

  // ---------------------------------------------------------------- the price of a text

  lemma RunsOfText(txt: string)
    ensures Runs(Cleaned(txt)) == BlockRuns(txt)
  {
    StripsAreWithoutMarks(txt);
    RunsOfTrimmed(WithoutMarks(txt));
    RunsAreBlockRuns(txt);
  }

  /**
  The price of a text without a currency amount that fits 64 bits, said of the text: cut it into its maximal blocks of
  digits, commas and yen signs, and take the digits of each. The price is the value of a longest of these numbers that
  fits 64 bits, the largest on ties; there is none if and only if no number fits.
  */
  lemma LongestNumberWins(txt: string)
    requires !UsesCurrency(txt)
    ensures PriceOf(txt).NoPrice? <==> forall a, b :: MaximalBlock(txt, a, b) ==> !Fits(DigitsOf(txt[a..b]))
    ensures PriceOf(txt).Ok? ==>
              exists a, b :: MaximalBlock(txt, a, b) && Fits(DigitsOf(txt[a..b]))
                && Value(DigitsOf(txt[a..b])) == PriceOf(txt).value
                && forall c, d :: MaximalBlock(txt, c, d) && Fits(DigitsOf(txt[c..d])) ==>
                     NoWorse(|DigitsOf(txt[a..b])|, PriceOf(txt).value, DigitsOf(txt[c..d]))
  {
    var runs := BlockRuns(txt);
    RunsOfText(txt);
    BestIsBest(runs);
    forall c, d | MaximalBlock(txt, c, d) && Fits(DigitsOf(txt[c..d]))
      ensures DigitsOf(txt[c..d]) in runs
    {
      BlockHasRun(txt, c, d, DigitsOf(txt[c..d]));
    }
    if BestOf(runs).Best? {
      var x :| x in runs && Fits(x) && |x| == BestOf(runs).length && Value(x) == BestOf(runs).value;
      var a, b := RunHasBlock(txt, x);
      assert !(forall c, d :: MaximalBlock(txt, c, d) ==> !Fits(DigitsOf(txt[c..d])));
    }
  }
}
