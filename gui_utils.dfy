/**
 * The two computations of the GUI utility class: counting categories in a hash table,
 * and writing a distance rounded up to two decimals with the pattern "#.##".
 */
module GuiUtils {
  import opened Options
  import opened Numerals
  import JavaInt

  // ---------------------------------------------------------------------------
  // insertOrIncrement

  /** The Hashtable<String, Integer> that insertOrIncrement updates in place. */
  class Hashtable {
    var contents: map<string, JavaInt.Int32>

    constructor ()
      ensures contents == map[]
    {
      contents := map[];
    }
  }

  /** Integer `v + 1` after unboxing: MAX_VALUE wraps to MIN_VALUE. */
  function Increment(v: JavaInt.Int32): (r: JavaInt.Int32)
    ensures v < JavaInt.MAX_VALUE ==> r == v + 1
    ensures v == JavaInt.MAX_VALUE ==> r == JavaInt.MIN_VALUE
  {
    JavaInt.Wrap(v + 1)
  }

  /** The table insertOrIncrement leaves behind; a None key is Java's null. */
  function Bumped(t: map<string, JavaInt.Int32>, key: Option<string>): (r: map<string, JavaInt.Int32>)
    ensures key.None? ==> r == t
    ensures key.Some? ==> r.Keys == t.Keys + {key.value}
    ensures key.Some? && key.value !in t ==> r[key.value] == 1
    ensures key.Some? && key.value in t ==> r[key.value] == Increment(t[key.value])
    ensures forall k :: k in t && key != Some(k) ==> k in r && r[k] == t[k]
  {
    match key
    case None => t
    case Some(k) => if k in t then t[k := Increment(t[k])] else t[k := 1]
  }

  method InsertOrIncrement(table: Hashtable, key: Option<string>)
    modifies table
    ensures table.contents == Bumped(old(table.contents), key)
  {
    if key.None? {
      return;
    }
    var k := key.value;
    if k in table.contents {
      table.contents := table.contents[k := Increment(table.contents[k])];
    } else {
      table.contents := table.contents[k := 1];
    }
  }

  /** The table after calling insertOrIncrement once per key, in order. */
  function BumpedAll(t: map<string, JavaInt.Int32>, keys: seq<Option<string>>): map<string, JavaInt.Int32> {
    if keys == [] then t else Bumped(BumpedAll(t, keys[..|keys| - 1]), keys[|keys| - 1])
  }

  /** How many of the keys are k. */
  function Occurrences(keys: seq<Option<string>>, k: string): (n: nat)
    ensures n <= |keys|
  {
    if keys == [] then 0
    else Occurrences(keys[..|keys| - 1], k) + (if keys[|keys| - 1] == Some(k) then 1 else 0)
  }

  /**
   * Counting a sequence of keys: a key ends up in the table exactly when it was there or
   * was counted, and its value grows by the number of times it was counted.
   */
  lemma {:induction false} BumpedAllCounts(t: map<string, JavaInt.Int32>, keys: seq<Option<string>>, k: string)
    requires (if k in t then t[k] else 0) + Occurrences(keys, k) <= JavaInt.MAX_VALUE
    ensures k in BumpedAll(t, keys) <==> k in t || Occurrences(keys, k) > 0
    ensures k in BumpedAll(t, keys) ==> BumpedAll(t, keys)[k] == (if k in t then t[k] else 0) + Occurrences(keys, k)
  {
    if keys != [] {
      BumpedAllCounts(t, keys[..|keys| - 1], k);
    }
  }

  /** From a table without k, n calls with k leave k mapped to n. */
  lemma {:induction false} RepeatedInsertCountsCalls(t: map<string, JavaInt.Int32>, k: string, n: nat)
    requires k !in t && n <= JavaInt.MAX_VALUE
    ensures var r := BumpedAll(t, seq(n, _ => Some(k))); n > 0 ==> k in r && r[k] == n
    ensures n == 0 ==> k !in BumpedAll(t, seq(n, _ => Some(k)))
  {
    var keys := seq(n, _ => Some(k));
    OccurrencesOfRepeat(k, n);
    BumpedAllCounts(t, keys, k);
  }

  lemma {:induction false} OccurrencesOfRepeat(k: string, n: nat)
    ensures Occurrences(seq(n, _ => Some(k)), k) == n
  {
    if n > 0 {
      var keys := seq(n, _ => Some(k));
      assert keys[..n - 1] == seq(n - 1, _ => Some(k));
      OccurrencesOfRepeat(k, n - 1);
    }
  }

  // ---------------------------------------------------------------------------
  // round: DecimalFormat("#.##") with RoundingMode.CEILING, over exact non-negative reals

  /** The number of hundredths, rounded toward positive infinity. */
  function CeilCents(v: real): (c: nat)
    requires v >= 0.0
    ensures c as real >= 100.0 * v && (c as real) < 100.0 * v + 1.0
  {
    var x := 100.0 * v;
    if x.Floor as real == x then x.Floor else x.Floor + 1
  }

  /** The value round writes: never below v, and less than a hundredth above it. */
  function Rounded(v: real): (r: real)
    requires v >= 0.0
    ensures v <= r < v + 0.01
  {
    CeilCents(v) as real / 100.0
  }

  /**
   * The text round returns. DecimalFormat reads "#.##" as "#0.##": at least one integer
   * digit, and at most two fraction digits with trailing zeros dropped.
   */
  function Round(v: real): string
    requires v >= 0.0
  {
    var c := CeilCents(v);
    var whole, cents := c / 100, c % 100;
    if cents == 0 then Decimal(whole) else Decimal(whole) + "." + FractionPart(cents)
  }

  /** The fraction digits ".##" prints for a nonzero number of hundredths: one or two, no trailing zero. */
  function FractionPart(cents: nat): string
    requires 0 < cents < 100
  {
    if cents % 10 == 0 then [DigitChar(cents / 10)] else Padded(cents, 2)
  }

  /** The index of the first '.' in s, or |s| when there is none. */
  function DotAt(s: string): (k: nat)
    ensures k <= |s|
    ensures k < |s| ==> s[k] == '.'
    ensures forall i :: 0 <= i < k ==> s[i] != '.'
  {
    if s == [] || s[0] == '.' then 0 else 1 + DotAt(s[1..])
  }

  /**
   * Text of the shape "#0.##": one or more integer digits without a superfluous leading
   * zero, then optionally '.' and one or two digits, the last not 0.
   */
  predicate HashDotHashHash(s: string) {
    var k := DotAt(s);
    && k >= 1
    && AllDigits(s[..k])
    && (k > 1 ==> s[0] != '0')
    && (k < |s| ==> 1 <= |s| - k - 1 <= 2 && AllDigits(s[k + 1..]) && s[|s| - 1] != '0')
  }

  /** Reads back plain decimal text: digits, optionally followed by '.' and at least one digit. */
  function DecimalValue(s: string): Option<real> {
    var k := DotAt(s);
    if k == |s| then WholeValue(s) else PointedValue(s[..k], s[k + 1..])
  }

  function WholeValue(s: string): Option<real> {
    if s != [] && AllDigits(s) then Some(DigitsValue(s) as real) else None
  }

  function PointedValue(i: string, f: string): Option<real> {
    if AllDigits(i) && AllDigits(f) && f != [] then
      Some(DigitsValue(i) as real + DigitsValue(f) as real / Pow10(|f|) as real)
    else
      None
  }

  lemma DotAfterDigits(a: string, b: string)
    requires AllDigits(a)
    ensures DotAt(a + "." + b) == |a|
  {
    var s := a + "." + b;
    assert s[|a|] == '.';
  }

  lemma DotAbsentInDigits(a: string)
    requires AllDigits(a)
    ensures DotAt(a) == |a|
  {
  }

  /** What round writes has the shape "#.##", with a point exactly when the rounded value is not whole. */
  lemma RoundFollowsPattern(v: real)
    requires v >= 0.0
    ensures HashDotHashHash(Round(v))
    ensures DotAt(Round(v)) < |Round(v)| <==> CeilCents(v) % 100 != 0
  {
    var c := CeilCents(v);
    var whole, cents := c / 100, c % 100;
    var s := Round(v);
    if cents == 0 {
      DotAbsentInDigits(s);
    } else {
      var i, f := Decimal(whole), FractionPart(cents);
      DotAfterDigits(i, f);
      assert s[..|i|] == i;
      assert s[|i| + 1..] == f;
      assert f[|f| - 1] != '0';
    }
  }

  lemma ReadPointed(i: string, f: string)
    requires AllDigits(i) && AllDigits(f) && |f| >= 1
    ensures DecimalValue(i + "." + f) == PointedValue(i, f)
  {
    var s := i + "." + f;
    DotAfterDigits(i, f);
    assert s[..|i|] == i;
    assert s[|i| + 1..] == f;
  }

  /** The fraction round writes for a nonzero number of hundredths denotes that many hundredths. */
  lemma FractionDenotesCents(cents: nat)
    requires 0 < cents < 100
    ensures AllDigits(FractionPart(cents)) && |FractionPart(cents)| >= 1
    ensures DigitsValue(FractionPart(cents)) as real / Pow10(|FractionPart(cents)|) as real == cents as real / 100.0
  {
    var f := FractionPart(cents);
    if cents % 10 == 0 {
      assert f[..0] == "";
      assert DigitsValue(f) == cents / 10;
      assert cents == 10 * (cents / 10);
    } else {
      PaddedRoundTrip(cents, 2);
    }
  }

  /** Reading back what round writes gives exactly the rounded-up value. */
  lemma RoundReadsBack(v: real)
    requires v >= 0.0
    ensures DecimalValue(Round(v)) == Some(Rounded(v))
  {
    var c := CeilCents(v);
    var whole, cents := c / 100, c % 100;
    assert c == 100 * whole + cents;
    DecimalRoundTrip(whole);
    if cents == 0 {
      assert Round(v) == Decimal(whole);
      DotAbsentInDigits(Decimal(whole));
      assert DecimalValue(Round(v)) == WholeValue(Decimal(whole));
    } else {
      var i, f := Decimal(whole), FractionPart(cents);
      assert Round(v) == i + "." + f;
      assert DigitsValue(i) == whole;
      FractionDenotesCents(cents);
      ReadPointed(i, f);
      var q := DigitsValue(f) as real / Pow10(|f|) as real;
      assert q == cents as real / 100.0;
      assert PointedValue(i, f) == Some(whole as real + q);
    }
  }

  /** A value with at most two decimals is written as itself. */
  lemma RoundKeepsHundredths(n: nat)
    ensures Rounded(n as real / 100.0) == n as real / 100.0
  {
  }

  lemma RoundExamples()
    ensures Round(1.004) == "1.01"
    ensures Round(2.5) == "2.5"
    ensures Round(0.25) == "0.25"
    ensures Round(3.0) == "3"
    ensures Round(0.0) == "0"
  {
  }

}
