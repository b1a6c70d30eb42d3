/** The linear scans the pipeline uses to pick a winner: keep the current best and
    replace it only when a later candidate is strictly better, so the earliest of
    several equal candidates wins. */
module Scan {

  /** The position of the first smallest element: the result of
      `if (d < min) { min = d; best = k }` run over `ds` from `min = Infinity`. */
  function FirstMin(ds: seq<int>): (k: nat)
    requires |ds| > 0
    ensures k < |ds|
    ensures forall j :: 0 <= j < |ds| ==> ds[k] <= ds[j]
    ensures forall j :: 0 <= j < k ==> ds[j] > ds[k]
    decreases |ds|
  {
    if |ds| == 1 then 0
    else
      var m := FirstMin(ds[..|ds| - 1]);
      assert ds[..|ds| - 1][m] == ds[m];
      if ds[|ds| - 1] < ds[m] then |ds| - 1 else m
  }

  /** The two properties above pin the position down: it is the only index holding a
      minimum with no minimum before it. */
  lemma FirstMinUnique(ds: seq<int>, k: nat)
    requires k < |ds|
    requires forall j :: 0 <= j < |ds| ==> ds[k] <= ds[j]
    requires forall j :: 0 <= j < k ==> ds[j] > ds[k]
    ensures FirstMin(ds) == k
  {
  }

  /** Extending the scan by one element: the new element wins only when strictly
      smaller than the minimum so far. This is the step a loop over `ds` takes. */
  lemma FirstMinSnoc(ds: seq<int>, d: int)
    requires |ds| > 0
    ensures FirstMin(ds + [d]) == if d < ds[FirstMin(ds)] then |ds| else FirstMin(ds)
  {
    assert (ds + [d])[..|ds|] == ds;
  }
}
