/**
 * `extractGradeRobust` (src/utils/ocrFunction.js): reads a grade such as "용암맛2" from
 * OCR text that may have lost or garbled its square brackets. Five regular expressions
 * are tried in order; the first that matches decides the result.
 *
 * Each pattern is modelled by the leftmost-match, greedy-with-backtracking search a
 * JavaScript engine performs for it. For `[가-힣]+맛` the engine first lets `[가-힣]+`
 * take the whole Hangul run and then gives characters back one at a time until a `맛`
 * follows (맛 is itself a Hangul syllable); `MatTail` does exactly that, trying each
 * candidate `맛` from the right and keeping the first for which the rest of the pattern
 * matches. Backtracking inside a run of digits or of `[^\w가-힣]` never helps (the
 * character after a shortened run is again one of the run's kind), so those runs are
 * taken whole.
 */
module GradeExtractor {
  import opened Wrappers
  import opened JsBuiltins

  /** `[가-힣]`: the precomposed Hangul syllables U+AC00..U+D7A3. */
  predicate IsHangul(c: char) { '가' <= c <= '힣' }

  /** `\w`: ASCII letters, digits and the underscore. */
  predicate IsWord(c: char) { ('a' <= c <= 'z') || ('A' <= c <= 'Z') || IsDigit(c) || c == '_' }

  /** `[^\w가-힣]`. */
  predicate IsOther(c: char) { !IsWord(c) && !IsHangul(c) }

  // The five patterns, in the order they are tried:
  //   Bracketed  `\[([가-힣]+맛\d+)\]`
  //   OpenOnly   `\[([가-힣]+맛\d*)`
  //   CloseOnly  `([가-힣]+맛\d+)\]`
  //   Bare       `([가-힣]+맛\d*)`
  //   Misread    `[^\w가-힣]*([가-힣]+맛)\d*[^\w가-힣]*`
  datatype Pattern = Bracketed | OpenOnly | CloseOnly | Bare | Misread

  const Patterns: seq<Pattern> := [Bracketed, OpenOnly, CloseOnly, Bare, Misread]

  /** What follows `맛` inside and after the capture group. */
  datatype Tail =
    | DigitsThenClose   // `\d+` in the group, then `\]`
    | AnyDigits         // `\d*` in the group
    | NoDigits          // the group ends at `맛`; `\d*[^\w가-힣]*` after it always matches

  /** End of the capture group when the tail is tried right after `맛` at `j - 1`. */
  function TailEnd(s: string, j: nat, tail: Tail): (r: Option<nat>)
    requires j <= |s|
    ensures r.Some? ==> j <= r.value <= |s|
  {
    match tail
    case DigitsThenClose =>
      var t := RunEnd(s, j, IsDigit);
      if j < t < |s| && s[t] == ']' then Some(t) else None
    case AnyDigits => Some(RunEnd(s, j, IsDigit))
    case NoDigits => Some(j)
  }

  /** Backtracking of `[가-힣]+맛`: with the group starting at `g`, try `맛` at `m`,
      `m - 1`, ..., `g + 1` and return the capture end for the first that works. */
  function MatTail(s: string, g: nat, m: int, tail: Tail): (r: Option<nat>)
    requires g <= |s| && m < |s|
    ensures r.Some? ==> g < r.value <= |s|
    decreases m
  {
    if m <= g then None
    else if s[m] == '맛' && TailEnd(s, m + 1, tail).Some? then TailEnd(s, m + 1, tail)
    else MatTail(s, g, m - 1, tail)
  }

  /** The capture group `([가-힣]+맛...)` starting at `g`: its end, if it matches. */
  function GroupAt(s: string, g: nat, tail: Tail): (r: Option<nat>)
    requires g <= |s|
    ensures r.Some? ==> g < r.value <= |s|
  {
    if g == |s| then None else MatTail(s, g, RunEnd(s, g, IsHangul) - 1, tail)
  }

  /** The pattern matched at start `i`: the capture as a pair (start, end). */
  function PatternAt(s: string, i: nat, p: Pattern): (r: Option<(nat, nat)>)
    requires i <= |s|
    ensures r.Some? ==> r.value.0 < r.value.1 <= |s|
  {
    var (g, tail) :=
      match p
      case Bracketed => (i + 1, DigitsThenClose)
      case OpenOnly => (i + 1, AnyDigits)
      case CloseOnly => (i, DigitsThenClose)
      case Bare => (i, AnyDigits)
      case Misread => (RunEnd(s, i, IsOther), NoDigits);
    if (p.Bracketed? || p.OpenOnly?) && !(i < |s| && s[i] == '[') then None
    else match GroupAt(s, g, tail)
      case Some(t) => Some((g, t))
      case None => None
  }

  /** `s.match(p)`: the leftmost start at or after `i` at which `p` matches. */
  function Search(s: string, i: nat, p: Pattern): (r: Option<(nat, nat)>)
    requires i <= |s|
    ensures r.Some? ==> r.value.0 < r.value.1 <= |s|
    decreases |s| - i
  {
    match PatternAt(s, i, p)
    case Some(c) => Some(c)
    case None => if i == |s| then None else Search(s, i + 1, p)
  }

  /** Start of the trailing run of digits (|c| when `c` does not end in a digit). */
  function TrailingDigitStart(c: string): (k: nat)
    ensures k <= |c|
    ensures forall j :: k <= j < |c| ==> IsDigit(c[j])
    ensures k == 0 || !IsDigit(c[k - 1])
    decreases |c|
  {
    if |c| > 0 && IsDigit(c[|c| - 1]) then TrailingDigitStart(c[..|c| - 1]) else |c|
  }

  /** Leftmost digit at or after `i`, if any. */
  function FirstDigitFrom(c: string, i: nat): (r: Option<nat>)
    requires i <= |c|
    ensures r.Some? ==> i <= r.value < |c| && IsDigit(c[r.value])
    ensures r.Some? ==> forall j :: i <= j < r.value ==> !IsDigit(c[j])
    ensures r.None? ==> forall j :: i <= j < |c| ==> !IsDigit(c[j])
    decreases |c| - i
  {
    if i == |c| then None else if IsDigit(c[i]) then Some(i) else FirstDigitFrom(c, i + 1)
  }

  /** The grade digit: the first character of `c.match(/\d+/)?.[0] ?? "1"`. */
  function GradeDigit(c: string): (d: char)
    ensures IsDigit(d)
  {
    match FirstDigitFrom(c, 0)
    case Some(k) => c[k]
    case None => '1'
  }

  /** `c.replace(/\d+$/, '') + gradeDigit` for a captured group `c`. */
  function Finish(c: string): string {
    c[..TrailingDigitStart(c)] + [GradeDigit(c)]
  }

  function TryPatterns(s: string, ps: seq<Pattern>): Option<string> {
    if |ps| == 0 then None
    else match Search(s, 0, ps[0])
      case Some(c) => Some(Finish(s[c.0..c.1]))
      case None => TryPatterns(s, ps[1..])
  }

  /** `extractGradeRobust(region1)`. */
  function ExtractGradeRobust(s: string): Option<string> {
    TryPatterns(s, Patterns)
  }

  // ---------------------------------------------------------------------------------
  // What a match looks like

  /** Some Hangul syllable is immediately followed by `맛`: the one thing every pattern needs. */
  predicate HasMat(s: string) {
    exists k :: 0 < k < |s| && IsHangul(s[k - 1]) && s[k] == '맛'
  }

  lemma {:induction false} MatTailWitness(s: string, g: nat, m: int, tail: Tail) returns (k: nat)
    requires g <= |s| && m < |s| && MatTail(s, g, m, tail).Some?
    ensures g < k <= m && s[k] == '맛' && MatTail(s, g, m, tail) == TailEnd(s, k + 1, tail)
    decreases m
  {
    if s[m] == '맛' && TailEnd(s, m + 1, tail).Some? {
      k := m;
    } else {
      k := MatTailWitness(s, g, m - 1, tail);
    }
  }

  lemma {:induction false} MatTailFinds(s: string, g: nat, m: int, tail: Tail, k: nat)
    requires g <= |s| && m < |s| && tail != DigitsThenClose
    requires g < k <= m && s[k] == '맛'
    ensures MatTail(s, g, m, tail).Some?
    decreases m
  {
    if s[m] != '맛' {
      MatTailFinds(s, g, m - 1, tail, k);
    }
  }

  /** A matched group is Hangul syllables up to a `맛` at `k`, then digits up to its end. */
  lemma GroupWitness(s: string, g: nat, tail: Tail) returns (k: nat)
    requires g <= |s| && GroupAt(s, g, tail).Some?
    ensures g < k < GroupAt(s, g, tail).value && s[k] == '맛'
    ensures forall j :: g <= j <= k ==> IsHangul(s[j])
    ensures forall j :: k < j < GroupAt(s, g, tail).value ==> IsDigit(s[j])
  {
    k := MatTailWitness(s, g, RunEnd(s, g, IsHangul) - 1, tail);
  }

  /** Conversely a Hangul run ending in `맛` is a group for the patterns whose digits are optional. */
  lemma GroupFinds(s: string, g: nat, tail: Tail, k: nat)
    requires g < k < |s| && s[k] == '맛' && tail != DigitsThenClose
    requires forall j :: g <= j < k ==> IsHangul(s[j])
    ensures GroupAt(s, g, tail).Some?
  {
    MatTailFinds(s, g, RunEnd(s, g, IsHangul) - 1, tail, k);
  }

  lemma {:induction false} SearchWitness(s: string, i: nat, p: Pattern) returns (j: nat)
    requires i <= |s| && Search(s, i, p).Some?
    ensures i <= j <= |s| && PatternAt(s, j, p) == Search(s, i, p)
    decreases |s| - i
  {
    if PatternAt(s, i, p).Some? {
      j := i;
    } else {
      j := SearchWitness(s, i + 1, p);
    }
  }

  lemma {:induction false} SearchFinds(s: string, i: nat, p: Pattern, j: nat)
    requires i <= j <= |s| && PatternAt(s, j, p).Some?
    ensures Search(s, i, p).Some?
    decreases j - i
  {
    if PatternAt(s, i, p).None? {
      SearchFinds(s, i + 1, p, j);
    }
  }

  /** A capture found by any pattern: Hangul syllables ending in `맛`, then digits. */
  lemma CaptureWitness(s: string, p: Pattern) returns (k: nat)
    requires Search(s, 0, p).Some?
    ensures Search(s, 0, p).value.0 < k < Search(s, 0, p).value.1 && s[k] == '맛'
    ensures forall j :: Search(s, 0, p).value.0 <= j <= k ==> IsHangul(s[j])
    ensures forall j :: k < j < Search(s, 0, p).value.1 ==> IsDigit(s[j])
  {
    var i := SearchWitness(s, 0, p);
    var g := if p.Misread? then RunEnd(s, i, IsOther)
             else if p.Bracketed? || p.OpenOnly? then i + 1 else i;
    var tail := if p.Misread? then NoDigits
                else if p.Bracketed? || p.CloseOnly? then DigitsThenClose else AnyDigits;
    assert PatternAt(s, i, p) == Some((g, GroupAt(s, g, tail).value));
    k := GroupWitness(s, g, tail);
  }

  /** The fixed `Bare` pattern matches exactly when a Hangul syllable precedes some `맛`. */
  lemma BareMatchesIff(s: string)
    ensures Search(s, 0, Bare).Some? <==> HasMat(s)
  {
    if HasMat(s) {
      var k :| 0 < k < |s| && IsHangul(s[k - 1]) && s[k] == '맛';
      GroupFinds(s, k - 1, AnyDigits, k);
      SearchFinds(s, 0, Bare, k - 1);
    }
    if Search(s, 0, Bare).Some? {
      var k := CaptureWitness(s, Bare);
      assert IsHangul(s[k - 1]);
    }
  }

  lemma {:induction false} TryPatternsSome(s: string, ps: seq<Pattern>)
    ensures TryPatterns(s, ps).Some? <==> exists i :: 0 <= i < |ps| && Search(s, 0, ps[i]).Some?
  {
    if |ps| > 0 {
      TryPatternsSome(s, ps[1..]);
      if Search(s, 0, ps[0]).None? {
        forall i | 0 <= i < |ps| && Search(s, 0, ps[i]).Some?
          ensures Search(s, 0, ps[1..][i - 1]).Some?
        {
        }
      }
    }
  }

  /** A grade is found exactly when the text contains a Hangul syllable followed by `맛`. */
  lemma ExtractFindsIff(s: string)
    ensures ExtractGradeRobust(s).Some? <==> HasMat(s)
  {
    TryPatternsSome(s, Patterns);
    BareMatchesIff(s);
    if ExtractGradeRobust(s).Some? {
      var i :| 0 <= i < |Patterns| && Search(s, 0, Patterns[i]).Some?;
      var k := CaptureWitness(s, Patterns[i]);
      assert IsHangul(s[k - 1]);
    }
    if HasMat(s) {
      assert Patterns[3] == Bare;
    }
  }

  lemma {:induction false} TryPatternsSnoc(s: string, ps: seq<Pattern>, p: Pattern)
    requires Search(s, 0, p).Some? ==> TryPatterns(s, ps).Some?
    ensures TryPatterns(s, ps + [p]) == TryPatterns(s, ps)
  {
    if |ps| > 0 {
      assert (ps + [p])[1..] == ps[1..] + [p];
      if Search(s, 0, ps[0]).None? {
        TryPatternsSnoc(s, ps[1..], p);
      }
    } else {
      assert (ps + [p])[1..] == [];
    }
  }

  /** The last pattern never decides: whatever it matches, `Bare` has matched before it. */
  lemma MisreadNeverDecides(s: string)
    ensures ExtractGradeRobust(s) == TryPatterns(s, [Bracketed, OpenOnly, CloseOnly, Bare])
  {
    var first := [Bracketed, OpenOnly, CloseOnly, Bare];
    assert Patterns == first + [Misread];
    if Search(s, 0, Misread).Some? {
      var k := CaptureWitness(s, Misread);
      assert IsHangul(s[k - 1]);
      BareMatchesIff(s);
      TryPatternsSome(s, first);
      assert first[3] == Bare;
    }
    TryPatternsSnoc(s, first, Misread);
  }

  lemma {:induction false} TrailingDigitsOfCapture(h: string, ds: string)
    requires |h| > 0 && !IsDigit(h[|h| - 1]) && AllDigits(ds)
    ensures TrailingDigitStart(h + ds) == |h|
    decreases |ds|
  {
    if |ds| == 0 {
      assert h + ds == h;
    } else {
      var c := h + ds;
      assert c[..|c| - 1] == h + ds[..|ds| - 1];
      TrailingDigitsOfCapture(h, ds[..|ds| - 1]);
    }
  }

  lemma {:induction false} FirstDigitOfCapture(h: string, ds: string, i: nat)
    requires i <= |h| && forall j :: 0 <= j < |h| ==> IsHangul(h[j])
    requires AllDigits(ds)
    ensures FirstDigitFrom(h + ds, i) == if |ds| == 0 then None else Some(|h|)
    decreases |h| - i
  {
    var c := h + ds;
    if i < |h| {
      assert c[i] == h[i] && IsHangul(h[i]);
      FirstDigitOfCapture(h, ds, i + 1);
    } else if |ds| > 0 {
      assert c[i] == ds[0];
    }
  }

  /** `Finish` on a capture made of Hangul syllables and then digits keeps the syllables and
      appends the first digit, or "1" when there are none. */
  lemma FinishCapture(h: string, ds: string)
    requires |h| > 0 && forall j :: 0 <= j < |h| ==> IsHangul(h[j])
    requires AllDigits(ds)
    ensures Finish(h + ds) == h + [if |ds| == 0 then '1' else ds[0]]
  {
    assert IsHangul(h[|h| - 1]);
    TrailingDigitsOfCapture(h, ds);
    FirstDigitOfCapture(h, ds, 0);
    assert (h + ds)[..|h|] == h;
  }

  /** What a grade looks like: Hangul syllables ending in `맛`, then one digit. */
  predicate IsGrade(r: string) {
    |r| >= 3 && r[|r| - 2] == '맛' && IsDigit(r[|r| - 1]) &&
    forall j :: 0 <= j < |r| - 1 ==> IsHangul(r[j])
  }

  lemma CaptureFinishIsGrade(s: string, p: Pattern)
    requires Search(s, 0, p).Some?
    ensures IsGrade(Finish(s[Search(s, 0, p).value.0..Search(s, 0, p).value.1]))
  {
    var k := CaptureWitness(s, p);
    CaptureIsGrade(s, Search(s, 0, p).value.0, k, Search(s, 0, p).value.1);
  }

  /** Hangul syllables from `g` to the `맛` at `k`, then digits up to `t`, finish as a grade. */
  lemma CaptureIsGrade(s: string, g: nat, k: nat, t: nat)
    requires g < k < t <= |s| && s[k] == '맛'
    requires forall j :: g <= j <= k ==> IsHangul(s[j])
    requires forall j :: k < j < t ==> IsDigit(s[j])
    ensures IsGrade(Finish(s[g..t]))
  {
    var h, ds := s[g..k + 1], s[k + 1..t];
    assert s[g..t] == h + ds;
    forall j | 0 <= j < |h| ensures IsHangul(h[j]) {
      assert h[j] == s[g + j];
    }
    forall j | 0 <= j < |ds| ensures IsDigit(ds[j]) {
      assert ds[j] == s[k + 1 + j];
    }
    assert h[|h| - 1] == s[k];
    GradeOfParts(h, ds);
  }

  /** Finishing Hangul syllables that end in `맛`, followed by digits, gives a grade. */
  lemma GradeOfParts(h: string, ds: string)
    requires |h| >= 2 && h[|h| - 1] == '맛' && forall j :: 0 <= j < |h| ==> IsHangul(h[j])
    requires AllDigits(ds)
    ensures IsGrade(Finish(h + ds))
  {
    FinishCapture(h, ds);
    var r := h + [if |ds| == 0 then '1' else ds[0]];
    assert r[|r| - 2] == h[|h| - 1];
    assert forall j :: 0 <= j < |r| - 1 ==> r[j] == h[j];
  }

  /** A grade, when found, is Hangul syllables ending in `맛` followed by a single digit. */
  lemma ExtractGradeShape(s: string)
    ensures ExtractGradeRobust(s).Some? ==> IsGrade(ExtractGradeRobust(s).value)
  {
    if ExtractGradeRobust(s).Some? {
      var i := FirstMatching(s, Patterns);
      CaptureFinishIsGrade(s, Patterns[i]);
    }
  }

  /** What pattern `p` yields when it is the one that decides. */
  function Decided(s: string, p: Pattern): Option<string> {
    match Search(s, 0, p)
    case Some(c) => Some(Finish(s[c.0..c.1]))
    case None => None
  }

  /** The index of the pattern that decides, with the result it produces. */
  lemma {:induction false} FirstMatching(s: string, ps: seq<Pattern>) returns (i: nat)
    requires TryPatterns(s, ps).Some?
    ensures i < |ps| && Search(s, 0, ps[i]).Some?
    ensures TryPatterns(s, ps) == Decided(s, ps[i])
  {
    if Search(s, 0, ps[0]).Some? {
      i := 0;
    } else {
      var j := FirstMatching(s, ps[1..]);
      assert ps[1..][j] == ps[j + 1];
      i := j + 1;
    }
  }

  // ---------------------------------------------------------------------------------
  // Worked readings

  lemma ExtractBracketed()
    ensures ExtractGradeRobust("[용암맛2]") == Some("용암맛2")
  {
    var s := "[용암맛2]";
    assert RunEnd(s, 4, IsDigit) == 5;
    assert RunEnd(s, 1, IsHangul) == 4;
    assert MatTail(s, 1, 3, DigitsThenClose) == Some(5);
    assert Search(s, 0, Bracketed) == Some((1, 5));
    assert s[1..5] == "용암맛" + "2";
    FinishCapture("용암맛", "2");
    assert Patterns[0] == Bracketed;
    assert ExtractGradeRobust(s) == Some(Finish(s[1..5]));
    assert Finish(s[1..5]) == "용암맛" + ['2'] == "용암맛2";
  }

  lemma ExtractOpenOnly()
    ensures ExtractGradeRobust("[용암맛") == Some("용암맛1")
  {
    var s := "[용암맛";
    assert RunEnd(s, 4, IsDigit) == 4;
    assert RunEnd(s, 1, IsHangul) == 4;
    assert MatTail(s, 1, 3, DigitsThenClose) == None;
    assert PatternAt(s, 0, Bracketed) == None;
    assert forall i :: 1 <= i <= 4 ==> PatternAt(s, i, Bracketed) == None;
    assert Search(s, 3, Bracketed) == None;
    assert Search(s, 1, Bracketed) == None;
    assert Search(s, 0, Bracketed) == None;
    assert MatTail(s, 1, 3, AnyDigits) == Some(4);
    assert Search(s, 0, OpenOnly) == Some((1, 4));
    assert s[1..4] == "용암맛" + "";
    FinishCapture("용암맛", "");
    assert Patterns[0] == Bracketed && Patterns[1..][0] == OpenOnly;
    assert TryPatterns(s, Patterns[1..]) == Some(Finish(s[1..4]));
    assert Finish(s[1..4]) == "용암맛" + ['1'] == "용암맛1";
  }

  lemma ExtractCloseOnly()
    ensures ExtractGradeRobust("용암맛23]") == Some("용암맛2")
  {
    var s := "용암맛23]";
    NoBracketNoOpen(s, 0, Bracketed);
    NoBracketNoOpen(s, 0, OpenOnly);
    CloseOnlyFound(s);
    CloseOnlyGrade();
    assert s[0..5] == "용암맛23";
    assert Patterns[0] == Bracketed && Patterns[1..][0] == OpenOnly && Patterns[2..][0] == CloseOnly;
    assert Patterns[1..][1..] == Patterns[2..];
    assert TryPatterns(s, Patterns[2..]) == Some(Finish(s[0..5]));
  }

  lemma CloseOnlyGrade()
    ensures Finish("용암맛23") == "용암맛2"
  {
    var h := "용암맛";
    assert forall j :: 0 <= j < |h| ==> IsHangul(h[j]);
    FinishCapture(h, "23");
    assert h + "23" == "용암맛23";
    assert h + ['2'] == "용암맛2";
  }

  lemma CloseOnlyFound(s: string)
    requires s == "용암맛23]"
    ensures Search(s, 0, CloseOnly) == Some((0, 5))
  {
    assert IsHangul(s[0]) && IsHangul(s[1]) && IsHangul(s[2]) && !IsHangul(s[3]);
    assert IsDigit(s[3]) && IsDigit(s[4]) && !IsDigit(s[5]);
    assert RunEnd(s, 4, IsDigit) == 5;
    assert RunEnd(s, 3, IsDigit) == 5;
    assert RunEnd(s, 2, IsHangul) == 3;
    assert RunEnd(s, 1, IsHangul) == 3;
    assert RunEnd(s, 0, IsHangul) == 3;
    assert MatTail(s, 0, 2, DigitsThenClose) == Some(5);
  }

  /** The bracketed patterns need a `[` in the text. */
  lemma {:induction false} NoBracketNoOpen(s: string, i: nat, p: Pattern)
    requires i <= |s| && (p.Bracketed? || p.OpenOnly?)
    requires forall j :: i <= j < |s| ==> s[j] != '['
    ensures Search(s, i, p) == None
    decreases |s| - i
  {
    if i < |s| {
      NoBracketNoOpen(s, i + 1, p);
    }
  }

  lemma ExtractNone()
    ensures ExtractGradeRobust("abc") == None
  {
    var s := "abc";
    ExtractFindsIff(s);
  }
}
