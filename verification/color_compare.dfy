/** The colour disambiguator: the mean colour of the opaque pixels of a cell, and the
    nearest of the five attribute colours. */
module ColorCompare {
  import opened Wrappers
  import opened JsBuiltins
  import opened Scan

  datatype Rgb = Rgb(r: int, g: int, b: int)

  // ---------------------------------------------------------------------------
  // getAverageColor
  // ---------------------------------------------------------------------------

  /** Running sums of the counted pixels' channels, and how many were counted. */
  datatype Tally = Tally(r: int, g: int, b: int, count: nat)

  /** Pixel q takes part in the mean when its alpha byte exists and exceeds 128. */
  predicate Counted(s: seq<Byte>, q: nat) {
    4 * q + 3 < |s| && s[4 * q + 3] > 128
  }

  /** The sums over pixels 0 .. n - 1. */
  function TallyOf(s: seq<Byte>, n: nat): Tally
    decreases n
  {
    if n == 0 then Tally(0, 0, 0, 0)
    else
      var t := TallyOf(s, n - 1);
      if Counted(s, n - 1) then
        Tally(t.r + s[4 * (n - 1)] as int, t.g + s[4 * (n - 1) + 1] as int,
              t.b + s[4 * (n - 1) + 2] as int, t.count + 1)
      else t
  }

  /** How many times the loop `for (i = 0; i < data.length; i += 4)` runs. */
  function Pixels(s: seq<Byte>): nat {
    (|s| + 3) / 4
  }

  /** The value `getAverageColor` returns for the bytes `data` of its region: null when
      no pixel is counted, otherwise each channel's mean rounded by `Math.round`. */
  function AverageColor(s: seq<Byte>): Option<Rgb> {
    var t := TallyOf(s, Pixels(s));
    if t.count == 0 then None
    else Some(Rgb(RoundRatio(t.r, t.count), RoundRatio(t.g, t.count), RoundRatio(t.b, t.count)))
  }

  method GetAverageColor(data: seq<Byte>) returns (c: Option<Rgb>)
    ensures c == AverageColor(data)
  {
    var r, g, b := 0, 0, 0;
    var count: nat := 0;
    var i := 0;
    ghost var q: nat := 0;
    while i < |data|
      invariant i == 4 * q && (q == 0 || 4 * (q - 1) < |data|)
      invariant TallyOf(data, q) == Tally(r, g, b, count)
    {
      if i + 3 < |data| && data[i + 3] > 128 {
        r := r + data[i] as int;
        g := g + data[i + 1] as int;
        b := b + data[i + 2] as int;
        count := count + 1;
      }
      i := i + 4;
      q := q + 1;
    }
    assert q == Pixels(data);
    if count == 0 {
      return None;
    }
    c := Some(Rgb(RoundRatio(r, count), RoundRatio(g, count), RoundRatio(b, count)));
  }

  /** No pixel counted exactly when the count is zero. */
  lemma {:induction false} TallyCountZero(s: seq<Byte>, n: nat)
    ensures TallyOf(s, n).count == 0 <==> forall q :: 0 <= q < n ==> !Counted(s, q)
    decreases n
  {
    if n > 0 {
      TallyCountZero(s, n - 1);
    }
  }

  /** `getAverageColor` is null exactly when no pixel has alpha above 128. */
  lemma AverageNoneIff(s: seq<Byte>)
    ensures AverageColor(s).None? <==> forall q :: 0 <= q < Pixels(s) ==> !Counted(s, q)
  {
    TallyCountZero(s, Pixels(s));
  }

  /** Every counted pixel of the first n has its channels between `lo` and `hi`. */
  predicate CountedWithin(s: seq<Byte>, n: nat, lo: Rgb, hi: Rgb) {
    forall q :: 0 <= q < n && Counted(s, q) ==>
      lo.r <= s[4 * q] as int <= hi.r && lo.g <= s[4 * q + 1] as int <= hi.g &&
      lo.b <= s[4 * q + 2] as int <= hi.b
  }

  lemma {:induction false} TallyBounds(s: seq<Byte>, n: nat, lo: Rgb, hi: Rgb)
    requires CountedWithin(s, n, lo, hi)
    ensures var t := TallyOf(s, n);
      lo.r * t.count <= t.r <= hi.r * t.count && lo.g * t.count <= t.g <= hi.g * t.count &&
      lo.b * t.count <= t.b <= hi.b * t.count
    decreases n
  {
    if n > 0 {
      TallyBounds(s, n - 1, lo, hi);
      var t := TallyOf(s, n - 1);
      if Counted(s, n - 1) {
        var p := 4 * (n - 1);
        SumStep(lo.r, hi.r, t.count, t.r, s[p] as int);
        SumStep(lo.g, hi.g, t.count, t.g, s[p + 1] as int);
        SumStep(lo.b, hi.b, t.count, t.b, s[p + 2] as int);
      }
    }
  }

  /** Adding one more value between `lo` and `hi` keeps a sum of c such values between
      c * lo and c * hi. */
  lemma SumStep(lo: int, hi: int, c: nat, x: int, v: int)
    requires lo * c <= x <= hi * c && lo <= v <= hi
    ensures lo * (c + 1) <= x + v <= hi * (c + 1)
  {
    assert lo * (c + 1) == lo * c + lo;
    assert hi * (c + 1) == hi * c + hi;
  }

  /** Each channel of the mean lies between the smallest and the largest value of that
      channel among the counted pixels. */
  lemma AverageWithin(s: seq<Byte>, lo: Rgb, hi: Rgb)
    requires CountedWithin(s, Pixels(s), lo, hi)
    ensures AverageColor(s).Some? ==>
      var c := AverageColor(s).value;
      lo.r <= c.r <= hi.r && lo.g <= c.g <= hi.g && lo.b <= c.b <= hi.b
  {
    var t := TallyOf(s, Pixels(s));
    TallyBounds(s, Pixels(s), lo, hi);
    if t.count > 0 {
      RoundRatioBounds(t.r, t.count, lo.r, hi.r);
      RoundRatioBounds(t.g, t.count, lo.g, hi.g);
      RoundRatioBounds(t.b, t.count, lo.b, hi.b);
    }
  }

  /** So every channel of the mean is a byte value. */
  lemma AverageInByteRange(s: seq<Byte>)
    ensures AverageColor(s).Some? ==>
      var c := AverageColor(s).value;
      0 <= c.r <= 255 && 0 <= c.g <= 255 && 0 <= c.b <= 255
  {
    AverageWithin(s, Rgb(0, 0, 0), Rgb(255, 255, 255));
  }

  /** A region whose counted pixels all have one colour averages to that colour. */
  lemma AverageOfUniform(s: seq<Byte>, v: Rgb)
    requires CountedWithin(s, Pixels(s), v, v)
    ensures AverageColor(s).Some? ==> AverageColor(s).value == v
  {
    AverageWithin(s, v, v);
  }

  /** Alpha 128 is not enough to be counted. */
  lemma Alpha128Excluded()
    ensures AverageColor([10, 20, 30, 128]).None?
  {
    var s: seq<Byte> := [10, 20, 30, 128];
    assert Pixels(s) == 1 && !Counted(s, 0);
    assert TallyOf(s, 0) == Tally(0, 0, 0, 0);
    assert TallyOf(s, 1) == Tally(0, 0, 0, 0);
  }

  /** Alpha 129 is counted, and a single counted pixel is its own mean. */
  lemma Alpha129Counted()
    ensures AverageColor([10, 20, 30, 129]) == Some(Rgb(10, 20, 30))
  {
    var s: seq<Byte> := [10, 20, 30, 129];
    assert Pixels(s) == 1 && Counted(s, 0);
    assert TallyOf(s, 0) == Tally(0, 0, 0, 0);
    assert TallyOf(s, 1) == Tally(10, 20, 30, 1);
    assert RoundRatio(10, 1) == 10 && RoundRatio(20, 1) == 20 && RoundRatio(30, 1) == 30;
  }

  // ---------------------------------------------------------------------------
  // colorDistance and getClosestAttribute
  // ---------------------------------------------------------------------------

  /** The square of `colorDistance`. The square root is strictly increasing on the
      non-negative numbers, so comparing squares orders colours as the source does. */
  function Distance2(a: Rgb, b: Rgb): (d: int)
    ensures d >= 0
    ensures d == 0 <==> a == b
  {
    Square(a.r - b.r) + Square(a.g - b.g) + Square(a.b - b.b)
  }

  function Square(x: int): (s: int)
    ensures s >= 0 && (s == 0 <==> x == 0)
  {
    if x == 0 then 0 else assert x * x > 0 by { SquarePositive(x); } x * x
  }

  lemma SquarePositive(x: int)
    requires x != 0
    ensures x * x > 0
  {
    if x > 0 {
      assert x * x >= x * 1;
    } else {
      assert (-x) * (-x) >= (-x) * 1;
    }
  }

  datatype Attribute = Attribute(name: string, color: Rgb)

  const Attributes: seq<Attribute> := [
    Attribute("순수", Rgb(102, 193, 124)),
    Attribute("냉정", Rgb(131, 185, 235)),
    Attribute("광기", Rgb(235, 131, 154)),
    Attribute("활발", Rgb(235, 219, 131)),
    Attribute("우울", Rgb(198, 131, 236))
  ]

  /** The distance from `c` to each attribute colour, in table order. */
  function Distances(c: Rgb): (ds: seq<int>)
    ensures |ds| == |Attributes|
  {
    seq(|Attributes|, k requires 0 <= k < |Attributes| => Distance2(c, Attributes[k].color))
  }

  /** The value `getClosestAttribute` returns: null for a null colour, otherwise the name
      of the first attribute at the smallest distance (the cut-off is commented out in
      the source, so some name is always returned). */
  function ClosestAttribute(rgb: Option<Rgb>): Option<string> {
    match rgb
    case None => None
    case Some(c) => Some(Attributes[FirstMin(Distances(c))].name)
  }

  method GetClosestAttribute(rgb: Option<Rgb>) returns (closest: Option<string>)
    ensures closest == ClosestAttribute(rgb)
  {
    if rgb.None? {
      return None;
    }
    var c := rgb.value;
    closest := None;
    var minDistance: Option<int> := None;  // Infinity
    ghost var best: nat := 0;
    var k := 0;
    while k < |Attributes|
      invariant 0 <= k <= |Attributes|
      invariant ScanState(c, k, minDistance, closest, best)
    {
      minDistance, closest, best := ConsiderAttribute(c, k, minDistance, closest, best);
      k := k + 1;
    }
    assert Distances(c)[..|Attributes|] == Distances(c);
  }

  /** After looking at the first `k` attributes: nothing chosen yet when `k` is 0,
      otherwise the first nearest of them, with its distance. */
  ghost predicate ScanState(c: Rgb, k: nat, minDistance: Option<int>, closest: Option<string>, best: nat)
    requires k <= |Attributes|
  {
    (k == 0 ==> closest.None? && minDistance.None?) &&
    (k > 0 ==>
       best == FirstMin(Distances(c)[..k]) && minDistance == Some(Distances(c)[best]) &&
       closest == Some(Attributes[best].name))
  }

  /** One iteration of the loop of `getClosestAttribute`: the attribute at `k` replaces
      the current choice when it is strictly closer. */
  method ConsiderAttribute(c: Rgb, k: nat, minDistance: Option<int>, closest: Option<string>, ghost best: nat)
    returns (minDistance': Option<int>, closest': Option<string>, ghost best': nat)
    requires k < |Attributes| && ScanState(c, k, minDistance, closest, best)
    ensures ScanState(c, k + 1, minDistance', closest', best')
  {
    ghost var ds := Distances(c);
    var distance := Distance2(c, Attributes[k].color);
    assert ds[..k + 1] == ds[..k] + [distance];
    if k > 0 {
      FirstMinSnoc(ds[..k], distance);
    }
    minDistance', closest', best' := minDistance, closest, best;
    if minDistance.None? || distance < minDistance.value {
      minDistance', closest', best' := Some(distance), Some(Attributes[k].name), k;
    }
  }

  /** A non-null colour gets the name of an attribute at the smallest distance, and no
      attribute before it is as close. */
  lemma ClosestIsNearest(c: Rgb)
    ensures exists k :: (0 <= k < |Attributes| && ClosestAttribute(Some(c)) == Some(Attributes[k].name) &&
      (forall j :: 0 <= j < |Attributes| ==> Distance2(c, Attributes[k].color) <= Distance2(c, Attributes[j].color)) &&
      (forall j :: 0 <= j < k ==> Distance2(c, Attributes[j].color) > Distance2(c, Attributes[k].color)))
  {
    var ds := Distances(c);
    var k := FirstMin(ds);
    assert forall j :: 0 <= j < |Attributes| ==> ds[j] == Distance2(c, Attributes[j].color);
  }

  /** Each attribute's own colour is classified as that attribute. */
  lemma ReferenceColorsClassify()
    ensures forall k :: 0 <= k < |Attributes| ==>
      ClosestAttribute(Some(Attributes[k].color)) == Some(Attributes[k].name)
  {
    forall k | 0 <= k < |Attributes|
      ensures ClosestAttribute(Some(Attributes[k].color)) == Some(Attributes[k].name)
    {
      var ds := Distances(Attributes[k].color);
      assert ds[k] == 0;
      FirstMinUnique(ds, k);
    }
  }
}
