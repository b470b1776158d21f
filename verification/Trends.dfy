/**
 * The trends page: the minutes-and-seconds label of the time-trial charts, the
 * lookup of the selected test's data points, and the wellness chart's
 * component flags.
 */
module Trends {
  import opened JsText

  /** JavaScript `a % 60` for an integer: the remainder takes the sign of the dividend. */
  function JsRemainder60(a: int): (r: int)
    ensures a >= 0 ==> r == a % 60
    ensures a < 0 ==> -60 < r <= 0 && (a - r) % 60 == 0
  {
    if a >= 0 then a % 60 else -((-a) % 60)
  }

  /** `formatTimeToMMSS(seconds)` for an integer number of seconds. */
  function FormatTimeToMmss(seconds: int): (text: string)
    ensures |text| >= 5
    ensures seconds >= 0 ==> text[|text| - 3] == ':'
  {
    var minutes := seconds / 60;  // Math.floor(seconds / 60): Dafny's division floors for a positive divisor
    var remainingSeconds := JsRemainder60(seconds);
    var mm := PadStart(IntToString(minutes), 2, '0');
    var ss := PadStart(IntToString(remainingSeconds), 2, '0');
    assert seconds >= 0 ==> (mm + ":" + ss)[|mm + ":" + ss| - 3] == ':' by {
      if seconds >= 0 {
        SecondsFieldWidth(seconds);
        ColonBeforeTwo(mm, ss);
      }
    }
    mm + ":" + ss
  }

  lemma ColonBeforeTwo(mm: string, ss: string)
    requires |ss| == 2
    ensures (mm + ":" + ss)[|mm + ":" + ss| - 3] == ':'
  {
    assert (mm + ":" + ss)[|mm|] == ':';
  }

  lemma SecondsFieldWidth(seconds: int)
    requires seconds >= 0
    ensures |PadStart(IntToString(JsRemainder60(seconds)), 2, '0')| == 2
  {
    var r := JsRemainder60(seconds);
    assert 0 <= r < 60;
    assert IntToString(r) == NatToString(r);
    NatToStringBelow100(r);
  }

  /** Leading zeros do not change the value of a digit string. */
  lemma {:induction false} LeadingZeros(n: nat, s: string)
    requires AllDigits(s)
    ensures AllDigits(Repeat('0', n) + s)
    ensures DigitsValue(Repeat('0', n) + s) == DigitsValue(s)
    decreases |s|
  {
    var z := Repeat('0', n);
    assert AllDigits(z + s) by {
      forall k | 0 <= k < |z + s| ensures IsDigit((z + s)[k]) {
        if k < n { assert (z + s)[k] == '0'; } else { assert (z + s)[k] == s[k - n]; }
      }
    }
    if s == [] {
      assert z + s == z;
      ZerosValue(n);
    } else {
      var init := s[..|s| - 1];
      assert (z + s)[..|z + s| - 1] == z + init;
      LeadingZeros(n, init);
    }
  }

  lemma {:induction false} ZerosValue(n: nat)
    ensures AllDigits(Repeat('0', n)) && DigitsValue(Repeat('0', n)) == 0
  {
    if n > 0 {
      var z := Repeat('0', n);
      assert z[..n - 1] == Repeat('0', n - 1);
      ZerosValue(n - 1);
    }
  }

  /** A natural number padded to width 2 is digits reading back as the number. */
  lemma PaddedNat(k: nat)
    ensures var t := PadStart(NatToString(k), 2, '0');
      AllDigits(t) && DigitsValue(t) == k && |t| >= 2 && (k < 100 ==> |t| == 2)
  {
    var s := NatToString(k);
    var t := PadStart(s, 2, '0');
    var n := |t| - |s|;
    assert t == Repeat('0', n) + s by {
      assert t == t[..n] + t[n..];
    }
    LeadingZeros(n, s);
    DigitsValueOfNatToString(k);
    if k < 100 && |s| > 2 {
      NatToStringBelow100(k);
    }
  }

  lemma NatToStringBelow100(k: nat)
    requires k < 100
    ensures |NatToString(k)| <= 2
  {
  }

  /**
   * For a non-negative count of seconds the label is two '0'-padded fields around
   * ':'; the seconds field has exactly two digits and the fields read back as
   * minutes·60 + seconds = the input.
   */
  lemma FormatTimeRoundTrip(seconds: nat)
    ensures var parts := Split(FormatTimeToMmss(seconds), ':');
      && |parts| == 2
      && AllDigits(parts[0]) && AllDigits(parts[1]) && |parts[0]| >= 2 && |parts[1]| == 2
      && DigitsValue(parts[0]) == seconds / 60
      && DigitsValue(parts[1]) == seconds % 60
      && DigitsValue(parts[0]) * 60 + DigitsValue(parts[1]) == seconds
  {
    var mm := PadStart(NatToString(seconds / 60), 2, '0');
    var ss := PadStart(NatToString(seconds % 60), 2, '0');
    PaddedNat(seconds / 60);
    PaddedNat(seconds % 60);
    FormatOfNat(seconds);
    SplitTwoFields(mm, ss);
    assert Split(FormatTimeToMmss(seconds), ':') == [mm, ss];
  }

  /** For non-negative seconds both fields are '0'-padded natural numbers. */
  lemma FormatOfNat(seconds: nat)
    ensures FormatTimeToMmss(seconds)
         == PadStart(NatToString(seconds / 60), 2, '0') + ":" + PadStart(NatToString(seconds % 60), 2, '0')
  {
  }

  lemma SplitTwoFields(mm: string, ss: string)
    requires AllDigits(mm) && AllDigits(ss)
    ensures Split(mm + ":" + ss, ':') == [mm, ss]
  {
    assert ':' !in mm && ':' !in ss by {
      assert !IsDigit(':');
    }
    assert Join([mm, ss], ':') == mm + ":" + ss by {
      assert Join([mm, ss][1..], ':') == ss;
    }
    SplitJoin([mm, ss], ':');
  }

  /** The tests whose values are times and are charted as minutes and seconds. */
  const FitnessTests: seq<string> := ["1.2K Time Trial", "1.4K Time Trial"]
  const PowerTests: seq<string> := ["SLJ (Standing Long Jump)", "CMJ (Counter Movement Jump)"]
  const SpeedTests: seq<string> := ["0-10m Dash", "0-20m Dash", "0-30m Dash", "Flying 10m"]

  /**
   * `isFitnessTest`: the selected test is one of the fitness category's, so exactly
   * the two time trials are formatted as times and no power or speed test is.
   */
  predicate IsFitnessTest(selectedTest: string): (timed: bool)
    ensures timed <==> selectedTest == "1.2K Time Trial" || selectedTest == "1.4K Time Trial"
    ensures selectedTest in PowerTests || selectedTest in SpeedTests ==> !timed
  {
    selectedTest in FitnessTests
  }

  datatype ScorePoint = ScorePoint(date: string, score: real)

  datatype StrengthEntry = StrengthEntry(date: string, weight: real)

  /** `exerciseData.map(entry => ({date: entry.date, score: entry.weight}))`. */
  function StrengthScores(entries: seq<StrengthEntry>): (points: seq<ScorePoint>)
    ensures |points| == |entries|
    ensures forall i :: 0 <= i < |entries| ==> points[i] == ScorePoint(entries[i].date, entries[i].weight)
  {
    if entries == [] then [] else [ScorePoint(entries[0].date, entries[0].weight)] + StrengthScores(entries[1..])
  }

  /**
   * `getCurrentFitnessData()`: the fitness tests' points for a fitness test name,
   * else the strength entries as (date, weight) points, else nothing.
   */
  function GetCurrentFitnessData(
    fitnessTestData: map<string, seq<ScorePoint>>,
    strengthData: map<string, seq<StrengthEntry>>,
    selectedTest: string): (data: seq<ScorePoint>)
    ensures data != [] ==> selectedTest in fitnessTestData || selectedTest in strengthData
  {
    if selectedTest in fitnessTestData then fitnessTestData[selectedTest]
    else if selectedTest in strengthData then StrengthScores(strengthData[selectedTest])
    else []
  }

  /** A name with a series in both data sets is charted from the fitness tests' series. */
  lemma FitnessSeriesFirst(
    fitnessTestData: map<string, seq<ScorePoint>>,
    strengthData: map<string, seq<StrengthEntry>>,
    selectedTest: string)
    requires selectedTest in fitnessTestData && selectedTest in strengthData
    ensures GetCurrentFitnessData(fitnessTestData, strengthData, selectedTest) == fitnessTestData[selectedTest]
  {
  }

  /** The exercises of the page's strength data. */
  const StrengthExercises: seq<string> := ["Romanian Deadlift", "Bench Press", "Squat"]

  /** `testCategories`: the names the test picker offers. */
  predicate OnPicker(strengthData: map<string, seq<StrengthEntry>>, name: string) {
    name in PowerTests || name in FitnessTests || name in SpeedTests || name in strengthData
  }

  /** The page's data sets by name: a series per power, fitness and speed test, and the three lifts. */
  ghost predicate PageDataNames(fitnessTestData: map<string, seq<ScorePoint>>, strengthData: map<string, seq<StrengthEntry>>) {
    && (forall t :: t in fitnessTestData <==> t in PowerTests || t in FitnessTests || t in SpeedTests)
    && (forall t :: t in strengthData <==> t in StrengthExercises)
  }

  /**
   * Every name the picker offers is charted from its own series: a test from the
   * fitness tests' data, a lift from its strength entries. No lift shares a name with a test.
   */
  lemma PickerChartsOwnSeries(
    fitnessTestData: map<string, seq<ScorePoint>>,
    strengthData: map<string, seq<StrengthEntry>>,
    name: string)
    requires PageDataNames(fitnessTestData, strengthData)
    requires OnPicker(strengthData, name)
    ensures var data := GetCurrentFitnessData(fitnessTestData, strengthData, name);
      && (name in strengthData ==> data == StrengthScores(strengthData[name]))
      && (name !in strengthData ==> data == fitnessTestData[name])
  {
    if name in strengthData {
      assert name in StrengthExercises;
      assert name !in fitnessTestData by {
        assert name !in PowerTests && name !in FitnessTests && name !in SpeedTests;
      }
    }
  }

  /** `{...prev, [component]: !prev[component]}`: a missing flag reads as false and becomes true. */
  function FlipFlag(flags: map<string, bool>, component: string): (r: map<string, bool>)
    ensures component in r && r[component] == !(component in flags && flags[component])
    ensures forall k :: k != component ==> (k in r <==> k in flags)
    ensures forall k :: k in flags && k != component ==> r[k] == flags[k]
  {
    flags[component := !(component in flags && flags[component])]
  }

  /** Flipping a present flag twice restores the flags; a missing one ends up present and false. */
  lemma FlipFlagTwice(flags: map<string, bool>, component: string)
    ensures component in flags ==> FlipFlag(FlipFlag(flags, component), component) == flags
    ensures component !in flags ==> FlipFlag(FlipFlag(flags, component), component) == flags[component := false]
  {
    var twice := FlipFlag(FlipFlag(flags, component), component);
    if component in flags {
      assert twice.Keys == flags.Keys;
    }
  }

  /** Flips of two different flags commute. */
  lemma FlipFlagCommutes(flags: map<string, bool>, a: string, b: string)
    requires a != b
    ensures FlipFlag(FlipFlag(flags, a), b) == FlipFlag(FlipFlag(flags, b), a)
  {
  }

  const InitialComponents: map<string, bool> :=
    map["sleep" := true, "sleepQuality" := true, "energy" := true, "stress" := true]

  class TrendsView {
    var activeComponents: map<string, bool>
    var selectedTest: string

    constructor ()
      ensures activeComponents == InitialComponents && selectedTest == "1.2K Time Trial"
    {
      activeComponents := InitialComponents;
      selectedTest := "1.2K Time Trial";
    }

    /** `toggleComponent(component)`: flips only the named flag. */
    method ToggleComponent(component: string)
      modifies this
      ensures activeComponents == FlipFlag(old(activeComponents), component)
      ensures selectedTest == old(selectedTest)
    {
      activeComponents := activeComponents[component := !(component in activeComponents && activeComponents[component])];
    }

    /** `selectTest(testName)`. */
    method SelectTest(testName: string)
      modifies this
      ensures selectedTest == testName && activeComponents == old(activeComponents)
    {
      selectedTest := testName;
    }
  }
}
