/**
 * Turning the OCR text of a result screenshot's regions into fields
 * (src/utils/function.js): `parseClashInfo`, `parseFrontierInfo` and `parseClashV2Info`.
 *
 * Three small readers are shared by them: the stage number of `/(\d+)\s*단계/`, the
 * play time in seconds (a "MM:SS" clock or a bare three- or four-digit run), and a
 * count (score or coin) read by `parseInt` after dropping `,` and `.`.
 */
module FieldParser {
  import opened Wrappers
  import opened JsBuiltins
  import GradeExtractor

  // ---------------------------------------------------------------------------------
  // Stage number: `region.match(/(\d+)\s*단계/)`, then `parseInt(m[1], 10)`

  /** A match of `(\d+)\s*단계` starts at `i`. Both runs are taken whole: a shorter digit
      run is followed by a digit and a shorter space run by a space, never by `단`. */
  predicate StageAt(s: string, i: nat)
    requires i <= |s|
  {
    i < |s| && IsDigit(s[i]) &&
    var k := RunEnd(s, RunEnd(s, i, IsDigit), IsJsSpace);
    k + 1 < |s| && s[k] == '단' && s[k + 1] == '계'
  }

  /** The leftmost start at or after `i` of a stage match. */
  function StageFrom(s: string, i: nat): (r: Option<nat>)
    requires i <= |s|
    ensures r.Some? ==> i <= r.value < |s| && StageAt(s, r.value)
    ensures r.Some? ==> forall j :: i <= j < r.value ==> !StageAt(s, j)
    ensures r.None? ==> forall j :: i <= j < |s| ==> !StageAt(s, j)
    decreases |s| - i
  {
    if i == |s| then None else if StageAt(s, i) then Some(i) else StageFrom(s, i + 1)
  }

  /** The digits a stage match at `i` captures. */
  function StageDigits(s: string, i: nat): (d: string)
    requires i < |s| && IsDigit(s[i])
    ensures 1 <= |d| && AllDigits(d)
  {
    s[i..RunEnd(s, i, IsDigit)]
  }

  /** The stage number of a region, `null` when it holds no `<digits>단계`. */
  function ParseStage(s: string): Option<nat> {
    match StageFrom(s, 0)
    case Some(i) => Some(DecimalValue(StageDigits(s, i)))
    case None => None
  }

  lemma StageAtExtendsLeft(s: string, i: nat)
    requires 0 < i < |s| && IsDigit(s[i - 1]) && StageAt(s, i)
    ensures StageAt(s, i - 1) && RunEnd(s, i - 1, IsDigit) == RunEnd(s, i, IsDigit)
  {
  }

  /** The stage is found exactly when some `<digits><spaces>단계` occurs; it is then the
      value of the whole digit run of the leftmost occurrence (never a tail of a run). */
  lemma ParseStageSpec(s: string)
    ensures ParseStage(s).Some? <==> exists i :: 0 <= i < |s| && StageAt(s, i)
    ensures ParseStage(s).Some? ==>
      exists i :: 0 <= i < |s| && StageAt(s, i) && (i == 0 || !IsDigit(s[i - 1])) &&
        (forall j :: 0 <= j < i ==> !StageAt(s, j)) &&
        ParseStage(s).value == DecimalValue(StageDigits(s, i))
  {
    match StageFrom(s, 0)
    case Some(i) =>
      if i > 0 && IsDigit(s[i - 1]) {
        StageAtExtendsLeft(s, i);
        assert false;
      }
      assert StageAt(s, i) && (i == 0 || !IsDigit(s[i - 1]));
    case None =>
  }

  // Worked readings: concrete inputs checked against the definitions above.
  lemma ParseStageExamples()
    ensures ParseStage("12단계") == Some(12)
    ensures ParseStage("x 7 단계") == Some(7)
    ensures ParseStage("단계") == None
  {
    StageTwoDigits();
    StageAfterText();
    StageWithoutNumber();
  }

  lemma StageTwoDigits()
    ensures ParseStage("12단계") == Some(12)
  {
    var a := "12단계";
    assert RunEnd(a, 0, IsDigit) == 2;
    assert StageAt(a, 0);
    assert StageDigits(a, 0) == "12";
    assert "12"[..1] == "1" && "1"[..0] == "";
  }

  lemma StageAfterText()
    ensures ParseStage("x 7 단계") == Some(7)
  {
    var b := "x 7 단계";
    assert RunEnd(b, 2, IsDigit) == 3 && RunEnd(b, 3, IsJsSpace) == 4;
    assert !StageAt(b, 0) && !StageAt(b, 1) && StageAt(b, 2);
    assert StageDigits(b, 2) == "7";
    assert "7"[..0] == "";
  }

  lemma StageWithoutNumber()
    ensures ParseStage("단계") == None
  {
    var c := "단계";
    assert !StageAt(c, 0) && !StageAt(c, 1);
  }

  // ---------------------------------------------------------------------------------
  // Play time in seconds

  /** `/^([0-9]{1,2}):([0-9]{1,2})$/` matches with its colon at `p`. */
  predicate ClockShapeAt(s: string, p: nat) {
    1 <= p <= 2 && p + 2 <= |s| <= p + 3 && s[p] == ':' &&
    AllDigits(s[..p]) && AllDigits(s[p + 1..])
  }

  /** Where the colon of a clock reading sits, if `s` is one. */
  function ClockColon(s: string): (r: Option<nat>)
    ensures r.Some? ==> ClockShapeAt(s, r.value)
    ensures r.None? ==> !ClockShapeAt(s, 1) && !ClockShapeAt(s, 2)
  {
    if ClockShapeAt(s, 1) then Some(1) else if ClockShapeAt(s, 2) then Some(2) else None
  }

  /** `/^[0-9]{3,4}$/`. */
  predicate CompactShape(s: string) {
    3 <= |s| <= 4 && AllDigits(s)
  }

  lemma ShortValue(s: string)
    requires AllDigits(s) && |s| <= 2
    ensures DecimalValue(s) <= 99
    ensures |s| <= 1 ==> DecimalValue(s) <= 9
  {
    if |s| > 0 {
      assert DecimalValue(s[..|s| - 1]) <= 9 by {
        if |s| == 2 {
          assert DecimalValue(s[..1]) == DecimalValue(s[..1][..0]) * 10 + DigitValue(s[0]);
        }
      }
    }
  }

  /** The duration block shared by the three parsers. The clock pattern is tried on
      `clockText`, the compact pattern on `compactText`: the same string everywhere
      except in `parseClashInfo`, which cleans `@` only for the clock pattern. */
  function DurationOf(clockText: string, compactText: string): (r: Option<nat>)
    ensures r.Some? ==> r.value <= 99 * 60 + 99
  {
    match ClockColon(clockText)
    case Some(p) =>
      var minStr, secStr := clockText[..p], clockText[p + 1..];
      ShortValue(minStr);
      ShortValue(secStr);
      Some(DecimalValue(minStr) * 60 + DecimalValue(secStr)
           + (if minStr == "00" && |secStr| == 1 then 10 else 0))
    case None =>
      var s := compactText;
      if !CompactShape(s) then None
      else if |s| == 3 then
        if StartsWith(s, "00") then Some(10 + DigitValue(s[2]))
        else
          ShortValue(s[1..]);
          Some(DigitValue(s[0]) * 60 + DecimalValue(s[1..]))
      else
        ShortValue(s[..2]);
        ShortValue(s[2..]);
        Some(DecimalValue(s[..2]) * 60 + DecimalValue(s[2..]))
  }

  /** Play time as `parseFrontierInfo` and `parseClashV2Info` read it. */
  function ParseDuration(s: string): (r: Option<nat>)
    ensures r.Some? ==> r.value <= 99 * 60 + 99
  {
    DurationOf(s, s)
  }

  /** Play time as `parseClashInfo` reads it: `@` is removed before the clock pattern
      only; the compact pattern still sees the raw text. */
  function ParseClashDuration(s: string): (r: Option<nat>)
    ensures r.Some? ==> r.value <= 99 * 60 + 99
  {
    DurationOf(RemoveAll(s, {'@'}), s)
  }

  /** A play time is read exactly when one of the two shapes matches. */
  lemma DurationFoundIff(clockText: string, compactText: string)
    ensures DurationOf(clockText, compactText).Some? <==>
      ClockShapeAt(clockText, 1) || ClockShapeAt(clockText, 2) || CompactShape(compactText)
  {
  }

  /** Two zero-padded digits. */
  function Pad2(n: nat): (s: string)
    requires n < 100
    ensures |s| == 2 && AllDigits(s)
  {
    [DigitChar(n / 10), DigitChar(n % 10)]
  }

  lemma Pad2Value(n: nat)
    requires n < 100
    ensures DecimalValue(Pad2(n)) == n
  {
    var s := Pad2(n);
    assert s[..1][..0] == [];
    assert DecimalValue(s[..1]) == n / 10;
  }

  /** A clock printed as "MM:SS" reads back as its number of seconds. */
  lemma ClockRoundTrip(m: nat, sec: nat)
    requires m < 100 && sec < 100
    ensures ParseDuration(Pad2(m) + ":" + Pad2(sec)) == Some(m * 60 + sec)
  {
    var s := Pad2(m) + ":" + Pad2(sec);
    assert s[..2] == Pad2(m) && s[3..] == Pad2(sec);
    assert !ClockShapeAt(s, 1);
    Pad2Value(m);
    Pad2Value(sec);
  }

  /** A clock with a one-digit minute, "M:SS", reads back as its number of seconds. */
  lemma ShortClockRoundTrip(m: nat, sec: nat)
    requires m < 10 && sec < 100
    ensures ParseDuration([DigitChar(m)] + ":" + Pad2(sec)) == Some(m * 60 + sec)
  {
    var s := [DigitChar(m)] + ":" + Pad2(sec);
    assert s[..1] == [DigitChar(m)] && s[2..] == Pad2(sec);
    assert ClockShapeAt(s, 1);
    SingleDigitValue(m);
    Pad2Value(sec);
  }

  /** "MM:S" with a minute other than "00" reads the single digit as seconds, with no
      10 added: "01:5" is 65. */
  lemma ClockShortSeconds(m: nat, d: nat)
    requires 0 < m < 100 && d < 10
    ensures ParseDuration(Pad2(m) + ":" + [DigitChar(d)]) == Some(m * 60 + d)
  {
    var s := Pad2(m) + ":" + [DigitChar(d)];
    assert s[..2] == Pad2(m) && s[3..] == [DigitChar(d)];
    assert !ClockShapeAt(s, 1) && ClockShapeAt(s, 2);
    Pad2Value(m);
    assert m / 10 != 0 || m % 10 != 0;
    assert Pad2(m) != "00";
    SingleDigitValue(d);
  }

  /** A clock printed as "MMSS" without the colon reads back the same way. */
  lemma CompactRoundTrip(m: nat, sec: nat)
    requires m < 100 && sec < 100
    ensures ParseDuration(Pad2(m) + Pad2(sec)) == Some(m * 60 + sec)
  {
    var s := Pad2(m) + Pad2(sec);
    assert s[..2] == Pad2(m) && s[2..] == Pad2(sec);
    assert !ClockShapeAt(s, 1) && !ClockShapeAt(s, 2);
    Pad2Value(m);
    Pad2Value(sec);
  }

  /** The OCR-repair rule: a single seconds digit after "00" (with or without the colon)
      stands for 10 to 19 seconds; after a lone "0" it is taken as it is. */
  lemma TeenSecondsRule(d: nat)
    requires d < 10
    ensures ParseDuration("00:" + [DigitChar(d)]) == Some(10 + d)
    ensures ParseDuration("00" + [DigitChar(d)]) == Some(10 + d)
    ensures ParseDuration("0:" + [DigitChar(d)]) == Some(d)
  {
    TeenWithColon(d);
    TeenCompact(d);
    LoneZeroMinute(d);
  }

  /** The value of a one-digit string. */
  lemma SingleDigitValue(d: nat)
    requires d < 10
    ensures DecimalValue([DigitChar(d)]) == d
  {
    assert [DigitChar(d)][..0] == [];
  }

  lemma TeenWithColon(d: nat)
    requires d < 10
    ensures ParseDuration("00:" + [DigitChar(d)]) == Some(10 + d)
  {
    var a := "00:" + [DigitChar(d)];
    assert a[1] == '0' && !ClockShapeAt(a, 1);
    assert a[..2] == "00" && a[3..] == [DigitChar(d)];
    assert ClockColon(a) == Some(2);
    assert DecimalValue("00") == 0 by {
      assert "00"[..1] == "0" && "0"[..0] == [];
    }
    SingleDigitValue(d);
  }

  lemma TeenCompact(d: nat)
    requires d < 10
    ensures ParseDuration("00" + [DigitChar(d)]) == Some(10 + d)
  {
    var b := "00" + [DigitChar(d)];
    assert b[1] == '0' && !ClockShapeAt(b, 1) && !ClockShapeAt(b, 2);
    assert ClockColon(b) == None;
    assert b[..2] == "00" && StartsWith(b, "00") && CompactShape(b);
    assert b[2] == DigitChar(d);
  }

  lemma LoneZeroMinute(d: nat)
    requires d < 10
    ensures ParseDuration("0:" + [DigitChar(d)]) == Some(d)
  {
    var c := "0:" + [DigitChar(d)];
    assert c[..1] == "0" && c[2..] == [DigitChar(d)];
    assert ClockShapeAt(c, 1) && ClockColon(c) == Some(1);
    assert DecimalValue("0") == 0 by {
      assert "0"[..0] == [];
    }
    SingleDigitValue(d);
  }

  /** Three digits that do not start with "00" read as one minute digit and two second
      digits. */
  lemma ThreeDigitRule(s: string)
    requires |s| == 3 && AllDigits(s) && !(s[0] == '0' && s[1] == '0')
    ensures ParseDuration(s) == Some(DigitValue(s[0]) * 60 + 10 * DigitValue(s[1]) + DigitValue(s[2]))
  {
    assert !ClockShapeAt(s, 1) && !ClockShapeAt(s, 2) && !StartsWith(s, "00");
    assert CompactShape(s);
    var t := s[1..];
    assert t[..|t| - 1] == t[..1] && t[..1][..0] == [];
    assert DecimalValue(t[..1]) == DigitValue(s[1]);
    assert DecimalValue(t) == 10 * DigitValue(s[1]) + DigitValue(s[2]);
  }

  // Worked readings: concrete inputs checked against the definitions above.
  lemma DurationExamples()
    ensures ParseDuration("1:05") == Some(65)
    ensures ParseDuration("123") == Some(83)
    ensures ParseDuration("0173") == Some(133)
    ensures ParseDuration("1234") == Some(754)
    ensures ParseDuration("1:2:3") == None
  {
    ClockExample();
    ThreeDigitExample();
    LeadingZeroExample();
    FourDigitExample();
    TwoColonsExample();
  }

  lemma ClockExample()
    ensures ParseDuration("1:05") == Some(65)
  {
    var a := "1:05";
    assert ClockShapeAt(a, 1) && a[..1] == "1" && a[2..] == "05";
  }

  lemma ThreeDigitExample()
    ensures ParseDuration("123") == Some(83)
  {
    ThreeDigitRule("123");
  }

  lemma LeadingZeroExample()
    ensures ParseDuration("0173") == Some(133)
  {
    var c := "0173";
    assert !ClockShapeAt(c, 1) && !ClockShapeAt(c, 2);
    assert c[..2] == "01" && c[2..] == "73";
  }

  lemma FourDigitExample()
    ensures ParseDuration("1234") == Some(754)
  {
    var e := "1234";
    assert !ClockShapeAt(e, 1) && !ClockShapeAt(e, 2);
    assert e[..2] == "12" && e[2..] == "34";
  }

  lemma TwoColonsExample()
    ensures ParseDuration("1:2:3") == None
  {
    var f := "1:2:3";
    assert f[2..][1] == ':' && f[..2][1] == ':';
    assert !AllDigits(f[2..]) && !AllDigits(f[..2]);
    assert !CompactShape(f);
  }

  /** With an `@` in the text only a clock reading can succeed in `parseClashInfo`: the
      compact pattern is tried on the uncleaned text, which the `@` keeps from matching. */
  lemma ClashDurationWithAt(s: string)
    requires exists k :: 0 <= k < |s| && s[k] == '@'
    ensures ParseClashDuration(s).Some? <==> ClockColon(RemoveAll(s, {'@'})).Some?
  {
    var k :| 0 <= k < |s| && s[k] == '@';
    assert !IsDigit(s[k]);
  }

  /** Without an `@`, `parseClashInfo` reads a play time like the other two parsers. */
  lemma ClashDurationWithoutAt(s: string)
    requires forall k :: 0 <= k < |s| ==> s[k] != '@'
    ensures ParseClashDuration(s) == ParseDuration(s)
  {
    RemoveAllAbsent(s, {'@'});
  }

  /** An `@` misread inside a clock is dropped before the clock pattern. */
  lemma ClashDurationCleansClock()
    ensures ParseClashDuration("00@:42") == Some(42)
  {
    AtRemoved();
    ClockFortyTwo("00@:42");
  }

  lemma AtRemoved()
    ensures RemoveAll("00@:42", {'@'}) == "00:42"
  {
    assert "00@:42" == ("00" + "@") + ":42";
    RemoveAllAppend("00" + "@", ":42", {'@'});
    RemoveAllAppend("00", "@", {'@'});
    RemoveAllAbsent("00", {'@'});
    RemoveAllAbsent(":42", {'@'});
  }

  /** A clock reading decides whatever the text the compact pattern would see. */
  lemma ClockFortyTwo(compactText: string)
    ensures DurationOf("00:42", compactText) == Some(42)
  {
    var ca := "00:42";
    assert !ClockShapeAt(ca, 1) && ClockShapeAt(ca, 2);
    assert ca[..2] == "00" && ca[3..] == "42";
    assert "42"[..1] == "4" && "4"[..0] == "" && "00"[..1] == "0" && "0"[..0] == "";
  }

  /** ... but not before the compact pattern: "0@28" is not read, although "028" is. */
  lemma ClashDurationKeepsCompactAt()
    ensures ParseClashDuration("0@28") == None
    ensures ParseDuration("028") == Some(28)
  {
    var b := "0@28";
    assert b[1] == '@';
    ClashDurationWithAt(b);
    assert b == ("0" + "@") + "28";
    RemoveAllAppend("0" + "@", "28", {'@'});
    RemoveAllAppend("0", "@", {'@'});
    RemoveAllAbsent("0", {'@'});
    RemoveAllAbsent("28", {'@'});
    var cb := RemoveAll(b, {'@'});
    assert cb == "028";
    assert !ClockShapeAt(cb, 1) && !ClockShapeAt(cb, 2);
    CompactWithoutAt();
  }

  lemma CompactWithoutAt()
    ensures ParseDuration("028") == Some(28)
  {
    var c := "028";
    assert !ClockShapeAt(c, 1) && !ClockShapeAt(c, 2);
    assert !StartsWith(c, "00") && c[1..] == "28";
    assert "28"[..1] == "2" && "2"[..0] == "";
  }

  // ---------------------------------------------------------------------------------
  // Score and coin: `parseInt(region.replace(/[,.]/g, ''), 10)`

  const Separators: set<char> := {',', '.'}

  function ParseCount(s: string): JsNumber {
    ParseInt(RemoveAll(s, Separators))
  }

  /** A printed count reads back as itself. */
  lemma CountRoundTrip(n: nat)
    ensures ParseCount(NatToDecimal(n)) == Num(n)
  {
    var s := NatToDecimal(n);
    forall k | 0 <= k < |s| ensures s[k] !in Separators {
      assert IsDigit(s[k]);
    }
    RemoveAllAbsent(s, Separators);
    ParseIntOfDigits(s);
    DecimalRoundTrip(n);
  }

  /** Thousands separators, and decimal points alike, are ignored wherever they stand. */
  lemma CountIgnoresSeparator(a: string, b: string, sep: char)
    requires sep in Separators
    ensures ParseCount(a + [sep] + b) == ParseCount(a + b)
  {
    RemoveAllAppend(a + [sep], b, Separators);
    RemoveAllAppend(a, [sep], Separators);
    RemoveAllAppend(a, b, Separators);
    assert RemoveAll([sep], Separators) == [];
    assert RemoveAll(a, Separators) + [] == RemoveAll(a, Separators);
  }

  // Worked readings: concrete inputs checked against the definitions above.
  lemma CountExamples()
    ensures ParseCount("1,234") == Num(1234)
    ensures ParseCount("12.5") == Num(125)
    ensures ParseCount("") == NaN
  {
    CommaCount();
    DotCount();
  }

  lemma CommaCount()
    ensures ParseCount("1,234") == Num(1234)
  {
    CountIgnoresSeparator("1", "234", ',');
    assert "1" + [','] + "234" == "1,234";
    assert NatToDecimal(1) == "1";
    assert NatToDecimal(12) == "12";
    assert NatToDecimal(123) == "123";
    assert NatToDecimal(1234) == "1" + "234";
    CountRoundTrip(1234);
  }

  lemma DotCount()
    ensures ParseCount("12.5") == Num(125)
  {
    CountIgnoresSeparator("12", "5", '.');
    assert "12" + ['.'] + "5" == "12.5";
    assert "12" + "5" == NatToDecimal(125);
    CountRoundTrip(125);
  }

  // ---------------------------------------------------------------------------------
  // The three parsers

  datatype ClashInfo = ClashInfo(grade: Option<nat>, duration: Option<nat>)

  datatype FrontierInfo =
    FrontierInfo(grade: Option<string>, score: JsNumber, duration: Option<nat>, coin: JsNumber)

  datatype ClashV2Info =
    ClashV2Info(grade: Option<nat>, score: JsNumber, duration: Option<nat>, sideGrade: Option<nat>)

  function ParseClashInfo(region1: string, region2: string): (r: ClashInfo)
    ensures r.duration.Some? ==> r.duration.value <= 99 * 60 + 99
  {
    ClashInfo(ParseStage(region1), ParseClashDuration(region2))
  }

  function ParseFrontierInfo(region1: string, region2: string, region3: string, region4: string)
    : (r: FrontierInfo)
    ensures r.duration.Some? ==> r.duration.value <= 99 * 60 + 99
  {
    FrontierInfo(GradeExtractor.ExtractGradeRobust(region1), ParseCount(region2),
                 ParseDuration(region3), ParseCount(region4))
  }

  function ParseClashV2Info(region1: string, region2: string, region3: string, region4: string)
    : (r: ClashV2Info)
    ensures r.duration.Some? ==> r.duration.value <= 99 * 60 + 99
  {
    ClashV2Info(ParseStage(region1), ParseCount(region2), ParseDuration(region3), ParseStage(region4))
  }

  /** `parseClashInfo`: the stage is present iff the first region names one; a play time
      is at most 99:99; with an `@` in the second region only a clock reading counts. */
  lemma ClashInfoSpec(region1: string, region2: string)
    ensures var r := ParseClashInfo(region1, region2);
      (r.grade.Some? <==> exists i :: 0 <= i < |region1| && StageAt(region1, i)) &&
      (r.duration.Some? ==> r.duration.value <= 6039) &&
      ((exists k :: 0 <= k < |region2| && region2[k] == '@') ==>
         (r.duration.Some? <==> ClockColon(RemoveAll(region2, {'@'})).Some?))
  {
    ParseStageSpec(region1);
    if exists k :: 0 <= k < |region2| && region2[k] == '@' {
      ClashDurationWithAt(region2);
    }
  }

  /** `parseFrontierInfo`: a grade is a Hangul name ending in 맛 plus one digit, found iff
      such a name occurs; a printed score or coin reads back as itself. */
  lemma FrontierInfoSpec(region1: string, region2: string, region3: string, region4: string)
    ensures var r := ParseFrontierInfo(region1, region2, region3, region4);
      (r.grade.Some? <==> GradeExtractor.HasMat(region1)) &&
      (r.grade.Some? ==> GradeExtractor.IsGrade(r.grade.value)) &&
      (r.duration.Some? ==> r.duration.value <= 6039)
    ensures forall n: nat ::
      (ParseFrontierInfo(region1, NatToDecimal(n), region3, NatToDecimal(n))
       == ParseFrontierInfo(region1, region2, region3, region4).(score := Num(n), coin := Num(n)))
  {
    GradeExtractor.ExtractFindsIff(region1);
    GradeExtractor.ExtractGradeShape(region1);
    forall n: nat ensures ParseCount(NatToDecimal(n)) == Num(n) {
      CountRoundTrip(n);
    }
  }

  /** `parseClashV2Info`: both stages are read the same way, and the play time exactly as
      `parseFrontierInfo` reads it. */
  lemma ClashV2InfoSpec(region1: string, region2: string, region3: string, region4: string)
    ensures var r := ParseClashV2Info(region1, region2, region3, region4);
      (r.grade.Some? <==> exists i :: 0 <= i < |region1| && StageAt(region1, i)) &&
      (r.sideGrade.Some? <==> exists i :: 0 <= i < |region4| && StageAt(region4, i)) &&
      r.duration == ParseFrontierInfo(region1, region2, region3, region4).duration &&
      r.score == ParseFrontierInfo(region1, region2, region3, region4).score
  {
    ParseStageSpec(region1);
    ParseStageSpec(region4);
  }
}
