/** Template matching of the single-digit level badge: nine digit templates, loaded
    once into a module-level list, and a matcher that picks the template closest to a
    target canvas by the sum of absolute colour differences. */
module Template {
  import opened JsBuiltins
  import opened Scan

  /** A loaded template picture: its pixels are only ever read through a `draw` parameter. */
  datatype Image = Image(path: string, pixels: seq<Byte>, width: nat, height: nat)

  /** `{ index, img }`: what each promise of `loadTemplates` resolves to. */
  datatype Loaded = Loaded(index: nat, img: Image)

  const NumPaths: seq<string> := [
    "/images/templates/0.png", "/images/templates/1.png", "/images/templates/2.png",
    "/images/templates/3.png", "/images/templates/4.png", "/images/templates/5.png",
    "/images/templates/6.png", "/images/templates/7.png", "/images/templates/8.png"
  ]

  function LoadedIndex(l: Loaded): int { l.index }

  /** The pictures of a list of loaded templates, in list order. */
  function Images(ls: seq<Loaded>): (r: seq<Image>)
    ensures |r| == |ls| && forall k :: 0 <= k < |ls| ==> r[k] == ls[k].img
  {
    seq(|ls|, k requires 0 <= k < |ls| => ls[k].img)
  }

  /** The sum over pixels 0 .. n - 1 of the absolute differences of R, G and B. */
  function DiffUpTo(a: seq<Byte>, b: seq<Byte>, n: nat): (d: int)
    requires 4 * n <= |a| && 4 * n <= |b|
    ensures d >= 0
    decreases n
  {
    if n == 0 then 0
    else
      var p := 4 * (n - 1);
      DiffUpTo(a, b, n - 1) + Abs(a[p] as int - b[p] as int)
        + Abs(a[p + 1] as int - b[p + 1] as int) + Abs(a[p + 2] as int - b[p + 2] as int)
  }

  function Abs(x: int): (r: nat)
    ensures r == x || r == -x
  {
    if x < 0 then -x else x
  }

  /** The `diff` that `matchDigit` computes for one template. */
  function Diff(target: seq<Byte>, temp: seq<Byte>): int
    requires |target| % 4 == 0 && |temp| == |target|
  {
    DiffUpTo(target, temp, |target| / 4)
  }

  /** The colour bytes (not alpha) of pixels 0 .. n - 1 agree. */
  predicate SameColours(a: seq<Byte>, b: seq<Byte>, n: nat)
    requires 4 * n <= |a| && 4 * n <= |b|
  {
    forall k :: 0 <= k < 4 * n && k % 4 != 3 ==> a[k] == b[k]
  }

  /** The difference is zero exactly when the colour bytes agree; alpha is ignored. */
  lemma {:induction false} DiffZeroIff(a: seq<Byte>, b: seq<Byte>, n: nat)
    requires 4 * n <= |a| && 4 * n <= |b|
    ensures DiffUpTo(a, b, n) == 0 <==> SameColours(a, b, n)
    decreases n
  {
    if n > 0 {
      DiffZeroIff(a, b, n - 1);
      var p := 4 * (n - 1);
      if SameColours(a, b, n) {
        assert SameColours(a, b, n - 1);
        assert a[p] == b[p] && a[p + 1] == b[p + 1] && a[p + 2] == b[p + 2];
      }
      if DiffUpTo(a, b, n) == 0 {
        forall k | 0 <= k < 4 * n && k % 4 != 3
          ensures a[k] == b[k]
        {
          if k >= p {
            assert k == p || k == p + 1 || k == p + 2;
          }
        }
      }
    }
  }

  /** What `matchDigit` returns given the differences of the templates in order: the
      decimal index of the first template with the smallest difference, or "0" when
      there are no templates. */
  function BestNumber(diffs: seq<int>): (r: string)
    ensures |r| > 0 && AllDigits(r)
  {
    if |diffs| == 0 then "0" else NatToDecimal(FirstMin(diffs))
  }

  /** The only state of `template.js`: the module-level `templateImages` list. */
  class TemplateStore {
    var templateImages: seq<Image>

    constructor()
      ensures templateImages == []
    {
      templateImages := [];
    }

    /** `loadTemplates`: `load` stands for fetching and decoding one path. `Promise.all`
        keeps the order of `NUM_PATHS`, and the sort by index then changes nothing, so
        template k is the picture of `k.png`. */
    method LoadTemplates(load: string -> Image)
      modifies this
      ensures |templateImages| == |NumPaths|
      ensures forall k :: 0 <= k < |NumPaths| ==> templateImages[k] == load(NumPaths[k])
    {
      var loaded := seq(|NumPaths|, i requires 0 <= i < |NumPaths| => Loaded(i, load(NumPaths[i])));
      assert SortedBy(loaded, LoadedIndex);
      SortByIdentity(loaded, LoadedIndex);
      templateImages := Images(SortBy(loaded, LoadedIndex));
    }

    /** The differences between `target` and every template drawn at the target's size. */
    function Diffs(target: seq<Byte>, draw: Image -> seq<Byte>): (ds: seq<int>)
      reads this
      requires |target| % 4 == 0
      requires forall k :: 0 <= k < |templateImages| ==> |draw(templateImages[k])| == |target|
      ensures |ds| == |templateImages|
    {
      var imgs := templateImages;
      seq(|imgs|, k requires 0 <= k < |imgs| => Diff(target, draw(imgs[k])))
    }

    /** `matchDigit`: `target` is the canvas's RGBA bytes and `draw(img)` those of a
        canvas of the same size with `img` drawn scaled onto it. */
    method MatchDigit(target: seq<Byte>, draw: Image -> seq<Byte>) returns (bestNumber: string)
      requires |target| % 4 == 0
      requires forall k :: 0 <= k < |templateImages| ==> |draw(templateImages[k])| == |target|
      ensures bestNumber == BestNumber(Diffs(target, draw))
    {
      var imgs := templateImages;
      ghost var ds := Diffs(target, draw);
      bestNumber := "0";
      var minDiff: int := -1;  // Infinity: no template seen yet
      ghost var best: nat := 0;
      var num := 0;
      while num < |imgs|
        invariant 0 <= best <= num <= |imgs| == |ds|
        invariant num == 0 ==> bestNumber == "0" && minDiff == -1
        invariant num > 0 ==> best < num && minDiff == ds[best] >= 0
        invariant forall j :: 0 <= j < num ==> ds[best] <= ds[j]
        invariant forall j :: 0 <= j < best ==> ds[j] > ds[best]
        invariant num > 0 ==> bestNumber == NatToDecimal(best)
      {
        var tempData := draw(imgs[num]);
        var diff := PixelDiff(target, tempData);
        assert ds[num] == Diff(target, tempData);
        if minDiff == -1 || diff < minDiff {
          minDiff := diff;
          bestNumber := NatToDecimal(num);
          best := num;
        }
        num := num + 1;
      }
      if |imgs| > 0 {
        FirstMinUnique(ds, best);
      }
    }
  }

  /** The loop of `matchDigit` over one template's bytes. */
  method PixelDiff(targetData: seq<Byte>, tempData: seq<Byte>) returns (diff: int)
    requires |targetData| % 4 == 0 && |tempData| == |targetData|
    ensures diff == Diff(targetData, tempData)
  {
    diff := 0;
    var i := 0;
    ghost var q: nat := 0;
    while i < |targetData|
      invariant i == 4 * q && i <= |targetData|
      invariant diff == DiffUpTo(targetData, tempData, q)
    {
      diff := diff + Abs(targetData[i] as int - tempData[i] as int);
      diff := diff + Abs(targetData[i + 1] as int - tempData[i + 1] as int);
      diff := diff + Abs(targetData[i + 2] as int - tempData[i + 2] as int);
      i := i + 4;
      q := q + 1;
    }
  }

  /** With no templates loaded the answer is "0"; otherwise it is the decimal index of
      a template whose difference is smallest, and every earlier template differs more. */
  lemma BestNumberSpec(diffs: seq<int>)
    ensures |diffs| == 0 ==> BestNumber(diffs) == "0"
    ensures |diffs| > 0 ==> exists k :: (0 <= k < |diffs| && BestNumber(diffs) == NatToDecimal(k) &&
      (forall j :: 0 <= j < |diffs| ==> diffs[k] <= diffs[j]) &&
      (forall j :: 0 <= j < k ==> diffs[j] > diffs[k]))
  {
    if |diffs| > 0 {
      var k := FirstMin(diffs);
      assert BestNumber(diffs) == NatToDecimal(k);
    }
  }

  /** A template whose drawing has exactly the target's colours is chosen, unless an
      earlier template also does. */
  lemma IdenticalTemplateWins(store: TemplateStore, target: seq<Byte>, draw: Image -> seq<Byte>, k: nat)
    requires |target| % 4 == 0
    requires forall j :: 0 <= j < |store.templateImages| ==> |draw(store.templateImages[j])| == |target|
    requires k < |store.templateImages|
    requires SameColours(target, draw(store.templateImages[k]), |target| / 4)
    requires forall j :: 0 <= j < k ==> !SameColours(target, draw(store.templateImages[j]), |target| / 4)
    ensures BestNumber(store.Diffs(target, draw)) == NatToDecimal(k)
  {
    var ds := store.Diffs(target, draw);
    var n := |target| / 4;
    DiffZeroIff(target, draw(store.templateImages[k]), n);
    assert ds[k] == 0;
    forall j | 0 <= j < |ds|
      ensures ds[k] <= ds[j]
    {
      assert ds[j] == DiffUpTo(target, draw(store.templateImages[j]), n);
    }
    forall j | 0 <= j < k
      ensures ds[j] > ds[k]
    {
      DiffZeroIff(target, draw(store.templateImages[j]), n);
      assert ds[j] == DiffUpTo(target, draw(store.templateImages[j]), n);
    }
    FirstMinUnique(ds, k);
  }

  /** The answer reads back, through `parseInt`, as the chosen template's index. */
  lemma BestNumberReadsBack(diffs: seq<int>)
    requires |diffs| > 0
    ensures ParseInt(BestNumber(diffs)) == Num(FirstMin(diffs))
  {
    ParseIntOfDigits(NatToDecimal(FirstMin(diffs)));
    DecimalRoundTrip(FirstMin(diffs));
  }
}
