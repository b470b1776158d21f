/**
 * The one-repetition-maximum calculator: the Epley estimate, the ratio of the
 * estimate to body weight, and per-lift threshold ladders that rate the ratio.
 * Numbers are exact reals; the display rounding (`toFixed`) is not modelled.
 */
module OneRMCalculator {
  import opened Wrappers
  import opened JsText

  datatype LiftType = Bench | LowerBody | Chins

  datatype Level = Average | Good | Excellent

  datatype Rating = Rating(level: Level, color: string)

  datatype ReferenceRanges = ReferenceRanges(average: string, good: string, excellent: string)

  /** `calculateOneRM`: the Epley estimate weight·(1 + reps/30). */
  function OneRM(weight: real, reps: real): (estimate: real)
    ensures reps == 0.0 ==> estimate == weight
    ensures weight >= 0.0 && reps >= 0.0 ==> estimate >= weight
  {
    weight * (1.0 + reps / 30.0)
  }

  /** With a non-negative load, more repetitions never lower the estimate. */
  lemma OneRMMonotoneInReps(weight: real, r1: real, r2: real)
    requires weight >= 0.0 && r1 <= r2
    ensures OneRM(weight, r1) <= OneRM(weight, r2)
  {
    assert OneRM(weight, r2) - OneRM(weight, r1) == weight * ((r2 - r1) / 30.0);
  }

  /** With a non-negative repetition count, a heavier load never lowers the estimate. */
  lemma OneRMMonotoneInWeight(w1: real, w2: real, reps: real)
    requires reps >= 0.0 && w1 <= w2
    ensures OneRM(w1, reps) <= OneRM(w2, reps)
  {
    assert OneRM(w2, reps) - OneRM(w1, reps) == (w2 - w1) * (1.0 + reps / 30.0);
    ProductNonNegative(w2 - w1, 1.0 + reps / 30.0);
  }

  lemma ProductNonNegative(a: real, b: real)
    requires a >= 0.0 && b >= 0.0
    ensures a * b >= 0.0
  {
  }

  lemma ProductPositive(a: real, b: real)
    requires a > 0.0 && b > 0.0
    ensures a * b > 0.0
  {
  }

  /** `calculateRelativeStrength`: the estimate divided by body weight. */
  function RelativeStrength(oneRM: real, bodyWeight: real): (ratio: real)
    requires bodyWeight != 0.0
    ensures ratio * bodyWeight == oneRM
  {
    oneRM / bodyWeight
  }

  /** The accuracy warning under the repetition field: shown when the estimate adds more than a fifth to the load. */
  predicate ShowsAccuracyWarning(reps: real): (shown: bool)
    ensures shown <==> OneRM(1.0, reps) > 1.2
  {
    reps > 6.0
  }

  /** The warning appears exactly when the estimate adds more than a fifth to the lifted weight. */
  lemma AccuracyWarningMeansLargeCorrection(weight: real, reps: real)
    requires weight > 0.0
    ensures ShowsAccuracyWarning(reps) <==> OneRM(weight, reps) > weight * 1.2
  {
    assert OneRM(weight, reps) - weight * 1.2 == weight * ((reps - 6.0) / 30.0);
    if reps > 6.0 {
      ProductPositive(weight, (reps - 6.0) / 30.0);
    } else {
      ProductNonNegative(weight, (6.0 - reps) / 30.0);
      assert weight * ((reps - 6.0) / 30.0) == -(weight * ((6.0 - reps) / 30.0));
    }
  }

  function LevelColor(level: Level): string {
    match level
    case Excellent => "bg-green-500"
    case Good => "bg-yellow-500"
    case Average => "bg-red-500"
  }

  /** `getRelativeStrengthRating(relativeStrength, liftType, exercise)`; an empty exercise is falsy. */
  function RelativeStrengthRating(relativeStrength: real, liftType: LiftType, exercise: string): (rating: Rating)
    ensures rating.color == LevelColor(rating.level)
  {
    if liftType == LowerBody && exercise != "" && exercise == "hexbar" then
      if relativeStrength >= 2.3 then Rating(Excellent, "bg-green-500")
      else if relativeStrength >= 1.9 then Rating(Good, "bg-yellow-500")
      else Rating(Average, "bg-red-500")
    else if liftType == LowerBody && exercise != "" && exercise == "backsquat" then
      if relativeStrength >= 1.8 then Rating(Excellent, "bg-green-500")
      else if relativeStrength >= 1.35 then Rating(Good, "bg-yellow-500")
      else Rating(Average, "bg-red-500")
    else if liftType == LowerBody && exercise != "" && exercise == "frontsquat" then
      if relativeStrength >= 1.45 then Rating(Excellent, "bg-green-500")
      else if relativeStrength >= 1.2 then Rating(Good, "bg-yellow-500")
      else Rating(Average, "bg-red-500")
    // An unknown exercise leaves the switch and falls through to the checks below.
    else if liftType == Bench then
      if relativeStrength >= 1.25 then Rating(Excellent, "bg-green-500")
      else if relativeStrength >= 1.1 then Rating(Good, "bg-yellow-500")
      else Rating(Average, "bg-red-500")
    else if liftType == Chins then
      if relativeStrength >= 1.45 then Rating(Excellent, "bg-green-500")
      else if relativeStrength >= 1.2 then Rating(Good, "bg-yellow-500")
      else Rating(Average, "bg-red-500")
    else Rating(Average, "bg-red-500")
  }

  /**
   * The (good, excellent) thresholds of a lift in hundredths: the reference table
   * that both the rating and the range texts are checked against.
   */
  datatype Ladder = Ladder(good: nat, excellent: nat)

  function LiftLadder(liftType: LiftType, exercise: string): Option<Ladder> {
    match liftType
    case Bench => Some(Ladder(110, 125))
    case Chins => Some(Ladder(120, 145))
    case LowerBody =>
      if exercise == "hexbar" then Some(Ladder(190, 230))
      else if exercise == "backsquat" then Some(Ladder(135, 180))
      else if exercise == "frontsquat" then Some(Ladder(120, 145))
      else None
  }

  function Threshold(hundredths: nat): real {
    hundredths as real / 100.0
  }

  function Rank(level: Level): nat {
    match level
    case Average => 0
    case Good => 1
    case Excellent => 2
  }

  /**
   * The rating climbs the lift's ladder with inclusive thresholds; a lift without
   * a ladder (a lower-body lift with an unknown exercise) is always average.
   */
  lemma RatingFollowsLadder(relativeStrength: real, liftType: LiftType, exercise: string)
    ensures var level := RelativeStrengthRating(relativeStrength, liftType, exercise).level;
      match LiftLadder(liftType, exercise)
      case None => level == Average
      case Some(ladder) =>
        && (level == Excellent <==> relativeStrength >= Threshold(ladder.excellent))
        && (level == Good <==> Threshold(ladder.good) <= relativeStrength < Threshold(ladder.excellent))
        && (level == Average <==> relativeStrength < Threshold(ladder.good))
  {
  }

  /** For every lift, a stronger ratio never earns a lower rating. */
  lemma RatingMonotone(rs1: real, rs2: real, liftType: LiftType, exercise: string)
    requires rs1 <= rs2
    ensures Rank(RelativeStrengthRating(rs1, liftType, exercise).level)
         <= Rank(RelativeStrengthRating(rs2, liftType, exercise).level)
  {
    RatingFollowsLadder(rs1, liftType, exercise);
    RatingFollowsLadder(rs2, liftType, exercise);
  }

  /** Front squat and chins are rated on the same ladder. */
  lemma FrontSquatRatedLikeChins(relativeStrength: real)
    ensures RelativeStrengthRating(relativeStrength, LowerBody, "frontsquat")
         == RelativeStrengthRating(relativeStrength, Chins, "frontsquat")
  {
  }

  /** `getReferenceRanges()`: the texts of the three bands for the chosen lift. */
  function GetReferenceRanges(liftType: LiftType, exercise: string): (ranges: ReferenceRanges)
    ensures ranges.average != ""
  {
    match liftType
    case Bench => ReferenceRanges("< 1.1", "1.1 - 1.25", "> 1.25")
    case LowerBody =>
      if exercise == "hexbar" then ReferenceRanges("< 1.9", "1.9 - 2.3", "> 2.3")
      else if exercise == "backsquat" then ReferenceRanges("< 1.35", "1.35 - 1.8", "> 1.8")
      else if exercise == "frontsquat" then ReferenceRanges("< 1.2", "1.2 - 1.45", "> 1.45")
      else ReferenceRanges("< 1.9", "1.9 - 2.3", "> 2.3")
    case Chins => ReferenceRanges("< 1.2", "1.2 - 1.45", "> 1.45")
  }

  /** Decimal text of a number given in hundredths, without trailing zeros ("1.1", "1.25", "2.3"). */
  function HundredthsText(h: nat): string {
    NatToString(h / 100) + DecimalsText(h % 100)
  }

  /** The texts of the three bands for a ladder whose thresholds are g and e hundredths. */
  function RangesFor(g: nat, e: nat): ReferenceRanges {
    ReferenceRanges("< " + HundredthsText(g), HundredthsText(g) + " - " + HundredthsText(e), "> " + HundredthsText(e))
  }

  /** The reference texts name exactly the thresholds that the rating uses. */
  lemma RangesNameLadder(liftType: LiftType, exercise: string)
    requires LiftLadder(liftType, exercise).Some?
    ensures var ladder := LiftLadder(liftType, exercise).value;
      GetReferenceRanges(liftType, exercise) == RangesFor(ladder.good, ladder.excellent)
  {
    // The thresholds stay variables so that the solver does not evaluate the texts of literals.
    var ladder := LiftLadder(liftType, exercise).value;
    var g, e := ladder.good, ladder.excellent;
    var ranges := GetReferenceRanges(liftType, exercise);
    match liftType
    case Bench => RowTexts(g, e, "1.1", "1.25", ranges);
    case Chins => RowTexts(g, e, "1.2", "1.45", ranges);
    case LowerBody =>
      if exercise == "hexbar" {
        RowTexts(g, e, "1.9", "2.3", ranges);
      } else if exercise == "backsquat" {
        RowTexts(g, e, "1.35", "1.8", ranges);
      } else {
        RowTexts(g, e, "1.2", "1.45", ranges);
      }
  }

  /** One row of the table: its texts are the decimal texts of its thresholds. */
  lemma RowTexts(g: nat, e: nat, gText: string, eText: string, ranges: ReferenceRanges)
    requires (g, gText) in {(110, "1.1"), (120, "1.2"), (135, "1.35"), (190, "1.9")}
    requires (e, eText) in {(125, "1.25"), (145, "1.45"), (180, "1.8"), (230, "2.3")}
    requires ranges == ReferenceRanges("< " + gText, gText + " - " + eText, "> " + eText)
    ensures ranges == RangesFor(g, e)
  {
    TextOf(g, gText);
    TextOf(e, eText);
  }

  /** The decimal text of one threshold of the table. */
  lemma TextOf(h: nat, text: string)
    requires (h, text) in {(110, "1.1"), (120, "1.2"), (135, "1.35"), (190, "1.9"),
                           (125, "1.25"), (145, "1.45"), (180, "1.8"), (230, "2.3")}
    ensures HundredthsText(h) == text
  {
    OneDigit();
  }

  function DecimalsText(cents: nat): string
    requires cents < 100
  {
    if cents == 0 then ""
    else if cents % 10 == 0 then "." + [DigitChar(cents / 10)]
    else "." + [DigitChar(cents / 10), DigitChar(cents % 10)]
  }

  lemma OneDigit()
    ensures NatToString(1) == "1" && NatToString(2) == "2"
  {
  }

  /** A lower-body lift with an unknown exercise shows the hex-bar texts. */
  lemma UnknownLowerBodyShowsHexbarRanges(exercise: string)
    requires LiftLadder(LowerBody, exercise).None?
    ensures GetReferenceRanges(LowerBody, exercise) == GetReferenceRanges(LowerBody, "hexbar")
  {
  }
}
