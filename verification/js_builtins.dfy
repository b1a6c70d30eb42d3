/**
 * The JavaScript built-ins that the screenshot pipeline leans on, written out so that
 * the rest of the model can state exactly what the source computes:
 * the regular-expression classes `\d` and `\s`, `parseInt(s, 10)`, `Number.prototype.toString`,
 * `Math.round` of a ratio, `String.prototype.replace` with a character class or an
 * extension pattern, `split('_')[0]`, `startsWith`, and the stable `Array.prototype.sort`
 * with a numeric comparator.
 */
module JsBuiltins {
  import opened Wrappers

  // ---------------------------------------------------------------------------
  // Character classes
  // ---------------------------------------------------------------------------

  /** `\d` in a JavaScript regular expression: the ASCII digits only. */
  predicate IsDigit(c: char) { '0' <= c <= '9' }

  function DigitValue(c: char): (d: nat)
    requires IsDigit(c)
    ensures d < 10
  {
    (c as int) - ('0' as int)
  }

  function DigitChar(d: nat): (c: char)
    requires d < 10
    ensures IsDigit(c) && DigitValue(c) == d
  {
    (('0' as int) + d) as char
  }

  predicate AllDigits(s: string) { forall k :: 0 <= k < |s| ==> IsDigit(s[k]) }

  /** `\s` in a JavaScript regular expression, which is also the set of characters
      `parseInt` skips before the number: WhiteSpace and LineTerminator of ECMA-262. */
  predicate IsJsSpace(c: char) {
    var n := c as int;
    n == 0x09 || n == 0x0A || n == 0x0B || n == 0x0C || n == 0x0D || n == 0x20
    || n == 0xA0 || n == 0x1680 || (0x2000 <= n <= 0x200A) || n == 0x2028 || n == 0x2029
    || n == 0x202F || n == 0x205F || n == 0x3000 || n == 0xFEFF
  }

  /** End of the longest run of characters satisfying `p` that starts at `i`. */
  function RunEnd(s: string, i: nat, p: char -> bool): (j: nat)
    requires i <= |s|
    ensures i <= j <= |s|
    ensures forall k :: i <= k < j ==> p(s[k])
    ensures j == |s| || !p(s[j])
    decreases |s| - i
  {
    if i < |s| && p(s[i]) then RunEnd(s, i + 1, p) else i
  }

  // ---------------------------------------------------------------------------
  // Decimal numerals
  // ---------------------------------------------------------------------------

  /** The value of a string of decimal digits (leading zeros allowed). */
  function DecimalValue(s: string): nat
    requires AllDigits(s)
    decreases |s|
  {
    if |s| == 0 then 0 else 10 * DecimalValue(s[..|s| - 1]) + DigitValue(s[|s| - 1])
  }

  /** `n.toString()` for a non-negative integer. */
  function NatToDecimal(n: nat): (s: string)
    ensures 1 <= |s| && AllDigits(s)
    decreases n
  {
    if n < 10 then [DigitChar(n)] else NatToDecimal(n / 10) + [DigitChar(n % 10)]
  }

  /** Printing a number and reading it back gives the number. */
  lemma {:induction false} DecimalRoundTrip(n: nat)
    ensures DecimalValue(NatToDecimal(n)) == n
  {
    if n >= 10 {
      DecimalRoundTrip(n / 10);
      var s := NatToDecimal(n);
      assert s[..|s| - 1] == NatToDecimal(n / 10);
    }
  }

  /** A value below ten prints as one digit. */
  lemma OneDigitToString(n: nat)
    requires n < 10
    ensures NatToDecimal(n) == [DigitChar(n)]
  {
  }

  // ---------------------------------------------------------------------------
  // Numbers as `parseInt` produces them
  // ---------------------------------------------------------------------------

  /** A JavaScript number that `parseInt` can return: `NaN` or an integer.
      (The sign of zero is not kept: `parseInt("-0")` is modelled as 0.) */
  datatype JsNumber = NaN | Num(value: int)

  /** JavaScript `a < b` on numbers: false as soon as either side is NaN. */
  predicate Less(a: JsNumber, b: JsNumber) {
    a.Num? && b.Num? && a.value < b.value
  }

  /** `parseInt(s, 10)`: skip leading white space, read an optional sign, then the
      longest run of decimal digits; NaN when that run is empty. */
  function ParseInt(s: string): (r: JsNumber)
  {
    var i := RunEnd(s, 0, IsJsSpace);
    var signed := i < |s| && (s[i] == '-' || s[i] == '+');
    var j := if signed then i + 1 else i;
    var k := RunEnd(s, j, IsDigit);
    if k == j then NaN
    else if signed && s[i] == '-' then Num(-(DecimalValue(s[j..k]) as int))
    else Num(DecimalValue(s[j..k]))
  }

  /** On a non-empty string of digits `parseInt` is the decimal value. */
  lemma ParseIntOfDigits(s: string)
    requires 1 <= |s| && AllDigits(s)
    ensures ParseInt(s) == Num(DecimalValue(s))
  {
    var k := RunEnd(s, 0, IsDigit);
    assert k == |s|;
    assert s[0..k] == s;
  }

  /** `parseInt` yields NaN exactly when no digit follows the white space and the sign. */
  lemma ParseIntNaN(s: string)
    ensures var i := RunEnd(s, 0, IsJsSpace);
            var j := if i < |s| && (s[i] == '-' || s[i] == '+') then i + 1 else i;
            ParseInt(s).NaN? <==> (j == |s| || !IsDigit(s[j]))
  {
  }

  // ---------------------------------------------------------------------------
  // Math.round
  // ---------------------------------------------------------------------------

  /** `Math.round(a / b)` for integers with `b > 0`: the floor of `a / b + 1/2`. */
  function RoundRatio(a: int, b: int): int
    requires b > 0
  {
    (2 * a + b) / (2 * b)
  }

  /** Rounding a ratio that lies between two integers stays between them. */
  lemma RoundRatioBounds(a: int, b: int, lo: int, hi: int)
    requires b > 0
    requires lo * b <= a <= hi * b
    ensures lo <= RoundRatio(a, b) <= hi
  {
    var q := (2 * a + b) / (2 * b);
    var r := (2 * a + b) % (2 * b);
    assert 2 * a + b == 2 * b * q + r && 0 <= r < 2 * b;
    if q < lo {
      assert q <= lo - 1;
      assert 2 * b * q <= 2 * b * (lo - 1) by { MulLeft(2 * b, q, lo - 1); }
      assert false;
    }
    if q > hi {
      assert q >= hi + 1;
      assert 2 * b * q >= 2 * b * (hi + 1) by { MulLeft(2 * b, hi + 1, q); }
      assert false;
    }
  }

  lemma MulLeft(c: int, x: int, y: int)
    requires c >= 0 && x <= y
    ensures c * x <= c * y
  {
    assert c * y - c * x == c * (y - x);
  }

  // ---------------------------------------------------------------------------
  // Uint8ClampedArray
  // ---------------------------------------------------------------------------

  /** An element of a `Uint8ClampedArray`, such as a byte of `ImageData.data`. */
  newtype Byte = x: int | 0 <= x <= 255

  /** Storing a number into a `Uint8ClampedArray`: clamp to 0..255, then round to the
      nearest integer with ties to even. */
  function ClampToByte(x: real): (b: Byte)
    ensures x <= 0.0 ==> b == 0
    ensures x >= 255.0 ==> b == 255
    ensures 0.0 <= x <= 255.0 ==> x - 0.5 <= b as real <= x + 0.5
  {
    if x <= 0.0 then 0
    else if x >= 255.0 then 255
    else
      var f := x.Floor;
      var frac := x - f as real;
      if frac < 0.5 || (frac == 0.5 && f % 2 == 0) then f as Byte else (f + 1) as Byte
  }

  // ---------------------------------------------------------------------------
  // String operations
  // ---------------------------------------------------------------------------

  /** `s.replace(/[...]/g, '')`: every character of `cs` removed, the rest kept in order. */
  function RemoveAll(s: string, cs: set<char>): (r: string)
    ensures |r| <= |s|
    ensures forall k :: 0 <= k < |r| ==> r[k] !in cs
  {
    if |s| == 0 then [] else (if s[0] in cs then [] else [s[0]]) + RemoveAll(s[1..], cs)
  }

  /** Removing characters that do not occur changes nothing. */
  lemma {:induction false} RemoveAllAbsent(s: string, cs: set<char>)
    requires forall k :: 0 <= k < |s| ==> s[k] !in cs
    ensures RemoveAll(s, cs) == s
  {
    if |s| > 0 {
      RemoveAllAbsent(s[1..], cs);
      assert [s[0]] + s[1..] == s;
    }
  }

  /** Removing characters distributes over concatenation. */
  lemma {:induction false} RemoveAllAppend(s: string, t: string, cs: set<char>)
    ensures RemoveAll(s + t, cs) == RemoveAll(s, cs) + RemoveAll(t, cs)
  {
    if |s| > 0 {
      assert (s + t)[1..] == s[1..] + t;
      RemoveAllAppend(s[1..], t, cs);
    } else {
      assert s + t == t;
    }
  }

  /** `s.split(sep)[0]`: the text before the first `sep`, or all of `s`. */
  function BeforeFirst(s: string, sep: char): (r: string)
    ensures |r| <= |s| && r == s[..|r|]
    ensures forall k :: 0 <= k < |r| ==> r[k] != sep
    ensures |r| < |s| ==> s[|r|] == sep
  {
    if |s| == 0 || s[0] == sep then [] else [s[0]] + BeforeFirst(s[1..], sep)
  }

  /** `s.startsWith(p)`. */
  predicate StartsWith(s: string, p: string) {
    |p| <= |s| && s[..|p|] == p
  }

  /** `i` starts a match of `/\.[^stop]+$/`: a dot followed by at least one character,
      none of which is in `stop`, up to the end of the string. */
  predicate ExtensionAt(s: string, stop: set<char>, i: nat) {
    i + 1 < |s| && s[i] == '.' && forall k :: i < k < |s| ==> s[k] !in stop
  }

  /** The leftmost position at or after `i` where the extension pattern matches. */
  function FindExtension(s: string, stop: set<char>, i: nat): (r: Option<nat>)
    requires i <= |s|
    ensures r.Some? ==> i <= r.value < |s| && ExtensionAt(s, stop, r.value)
    decreases |s| - i
  {
    if i == |s| then None
    else if ExtensionAt(s, stop, i) then Some(i)
    else FindExtension(s, stop, i + 1)
  }

  /** `s.replace(/\.[^stop]+$/, "")`, where the class excludes the dot and any other
      characters in `stop`. */
  function StripExtension(s: string, stop: set<char>): string {
    match FindExtension(s, stop, 0)
    case Some(i) => s[..i]
    case None => s
  }

  /** When the class excludes the dot, the pattern can match at one position only (the
      last dot), and stripping removes exactly that suffix; otherwise nothing is removed. */
  lemma StripExtensionSpec(s: string, stop: set<char>)
    requires '.' in stop
    ensures forall i :: 0 <= i < |s| && ExtensionAt(s, stop, i) ==> StripExtension(s, stop) == s[..i]
    ensures (forall i :: 0 <= i < |s| ==> !ExtensionAt(s, stop, i)) ==> StripExtension(s, stop) == s
  {
    forall i | 0 <= i < |s| && ExtensionAt(s, stop, i)
      ensures StripExtension(s, stop) == s[..i]
    {
      FindExtensionUnique(s, stop, 0, i);
    }
    if forall i :: 0 <= i < |s| ==> !ExtensionAt(s, stop, i) {
      FindExtensionNone(s, stop, 0);
    }
  }

  lemma {:induction false} FindExtensionUnique(s: string, stop: set<char>, j: nat, i: nat)
    requires '.' in stop
    requires j <= i < |s| && ExtensionAt(s, stop, i)
    ensures FindExtension(s, stop, j) == Some(i)
    decreases i - j
  {
    if j < i {
      assert s[i] in stop;
      assert !ExtensionAt(s, stop, j);
      FindExtensionUnique(s, stop, j + 1, i);
    }
  }

  lemma {:induction false} FindExtensionNone(s: string, stop: set<char>, j: nat)
    requires j <= |s|
    requires forall i :: 0 <= i < |s| ==> !ExtensionAt(s, stop, i)
    ensures FindExtension(s, stop, j) == None
    decreases |s| - j
  {
    if j < |s| {
      FindExtensionNone(s, stop, j + 1);
    }
  }

  // ---------------------------------------------------------------------------
  // Array.prototype.sort with a numeric comparator (stable since ES2019)
  // ---------------------------------------------------------------------------

  predicate SortedBy<T>(xs: seq<T>, key: T -> int) {
    forall i, j :: 0 <= i < j < |xs| ==> key(xs[i]) <= key(xs[j])
  }

  /** Insert `x` into a sorted sequence after every element whose key is not larger. */
  function InsertByKey<T>(x: T, xs: seq<T>, key: T -> int): (r: seq<T>)
    ensures |r| == |xs| + 1
    ensures multiset(r) == multiset(xs) + multiset{x}
  {
    if |xs| == 0 then [x]
    else if key(x) < key(xs[|xs| - 1]) then
      assert xs == xs[..|xs| - 1] + [xs[|xs| - 1]];
      InsertByKey(x, xs[..|xs| - 1], key) + [xs[|xs| - 1]]
    else xs + [x]
  }

  /** `xs.sort((a, b) => key(a) - key(b))`, as a stable insertion sort. */
  function SortBy<T>(xs: seq<T>, key: T -> int): (r: seq<T>)
    ensures |r| == |xs|
    ensures multiset(r) == multiset(xs)
  {
    if |xs| == 0 then []
    else
      assert xs == xs[..|xs| - 1] + [xs[|xs| - 1]];
      InsertByKey(xs[|xs| - 1], SortBy(xs[..|xs| - 1], key), key)
  }

  lemma {:induction false} InsertByKeySorted<T>(x: T, xs: seq<T>, key: T -> int)
    requires SortedBy(xs, key)
    ensures SortedBy(InsertByKey(x, xs, key), key)
    ensures forall k :: 0 <= k < |InsertByKey(x, xs, key)| ==>
              InsertByKey(x, xs, key)[k] == x || InsertByKey(x, xs, key)[k] in xs
  {
    if |xs| == 0 {
      return;
    }
    var last := xs[|xs| - 1];
    if key(x) < key(last) {
      var init := xs[..|xs| - 1];
      SortedInit(xs, key);
      InsertByKeySorted(x, init, key);
      var r := InsertByKey(x, init, key);
      forall k | 0 <= k < |r| ensures key(r[k]) <= key(last) && (r[k] == x || r[k] in xs) {
        if r[k] != x {
          var m :| 0 <= m < |init| && init[m] == r[k];
          assert init[m] == xs[m];
        }
      }
      SortedSnoc(r, last, key);
    } else {
      SortedInit(xs, key);
      SortedSnoc(xs, x, key);
    }
  }

  /** Dropping the last element keeps the order, and the last key is the largest. */
  lemma SortedInit<T>(xs: seq<T>, key: T -> int)
    requires SortedBy(xs, key) && |xs| > 0
    ensures SortedBy(xs[..|xs| - 1], key)
    ensures forall k :: 0 <= k < |xs| ==> key(xs[k]) <= key(xs[|xs| - 1])
  {
    var init := xs[..|xs| - 1];
    forall i, j | 0 <= i < j < |init| ensures key(init[i]) <= key(init[j]) {
      assert init[i] == xs[i] && init[j] == xs[j];
    }
  }

  /** Appending an element whose key is at least every key keeps the order. */
  lemma SortedSnoc<T>(xs: seq<T>, y: T, key: T -> int)
    requires SortedBy(xs, key)
    requires forall k :: 0 <= k < |xs| ==> key(xs[k]) <= key(y)
    ensures SortedBy(xs + [y], key)
  {
    var r := xs + [y];
    forall i, j | 0 <= i < j < |r| ensures key(r[i]) <= key(r[j]) {
      if j < |xs| {
        assert r[i] == xs[i] && r[j] == xs[j];
      } else {
        assert r[i] == xs[i] && r[j] == y;
      }
    }
  }

  /** The sort orders by key. */
  lemma {:induction false} SortBySorted<T>(xs: seq<T>, key: T -> int)
    ensures SortedBy(SortBy(xs, key), key)
  {
    if |xs| > 0 {
      SortBySorted(xs[..|xs| - 1], key);
      InsertByKeySorted(xs[|xs| - 1], SortBy(xs[..|xs| - 1], key), key);
    }
  }

  /** The sort is stable: a sequence already in key order is left as it is. */
  lemma {:induction false} SortByIdentity<T>(xs: seq<T>, key: T -> int)
    requires SortedBy(xs, key)
    ensures SortBy(xs, key) == xs
  {
    if |xs| > 0 {
      var init, last := xs[..|xs| - 1], xs[|xs| - 1];
      SortedInit(xs, key);
      SortByIdentity(init, key);
      assert init + [last] == xs;
    }
  }
}
