/**
 * The wellness log table: the colour of each score cell, the newest-first
 * ordering of the fetched entries, and the row whose notes are open.
 * An entry's date is represented by its timestamp (`new Date(date).getTime()`).
 */
module WellnessLogs {
  import opened Wrappers

  datatype Color = Green | Yellow | Orange | Red

  function ColorClass(c: Color): string {
    match c
    case Green => "bg-green-500"
    case Yellow => "bg-yellow-500"
    case Orange => "bg-orange-500"
    case Red => "bg-red-500"
  }

  /** How many of the thresholds 4, 6 and 8 a score reaches. */
  function ThresholdsReached(score: real): nat {
    (if score >= 4.0 then 1 else 0) + (if score >= 6.0 then 1 else 0) + (if score >= 8.0 then 1 else 0)
  }

  /**
   * `getScoreColor(score, isReverse)`: each threshold reached makes the colour one
   * step worse, or one step better in reverse mode (for scores where higher is better).
   */
  function ScoreColor(score: real, isReverse: bool): (c: Color)
    ensures Severity(c) == if isReverse then 3 - ThresholdsReached(score) else ThresholdsReached(score)
  {
    if isReverse then
      if score >= 8.0 then Green
      else if score >= 6.0 then Yellow
      else if score >= 4.0 then Orange
      else Red
    else
      if score >= 8.0 then Red
      else if score >= 6.0 then Orange
      else if score >= 4.0 then Yellow
      else Green
  }

  /** Green and red trade places, and so do yellow and orange. */
  function Mirror(c: Color): Color {
    match c
    case Green => Red
    case Yellow => Orange
    case Orange => Yellow
    case Red => Green
  }

  lemma MirrorInvolution(c: Color)
    ensures Mirror(Mirror(c)) == c
  {
  }

  /** How bad a colour says the score is: green 0 up to red 3. */
  function Severity(c: Color): nat {
    match c
    case Green => 0
    case Yellow => 1
    case Orange => 2
    case Red => 3
  }

  /** The two modes are mirror images of one ladder. */
  lemma NormalIsMirroredReverse(score: real)
    ensures ScoreColor(score, false) == Mirror(ScoreColor(score, true))
  {
  }

  /** The bands of reverse mode, each threshold inclusive. */
  lemma ReverseBands(score: real)
    ensures ScoreColor(score, true) == Green <==> score >= 8.0
    ensures ScoreColor(score, true) == Yellow <==> 6.0 <= score < 8.0
    ensures ScoreColor(score, true) == Orange <==> 4.0 <= score < 6.0
    ensures ScoreColor(score, true) == Red <==> score < 4.0
  {
  }

  /** In reverse mode a higher score is never shown as worse; in normal mode never as better. */
  lemma ScoreColorMonotone(s1: real, s2: real)
    requires s1 <= s2
    ensures Severity(ScoreColor(s2, true)) <= Severity(ScoreColor(s1, true))
    ensures Severity(ScoreColor(s1, false)) <= Severity(ScoreColor(s2, false))
  {
  }

  datatype WellnessEntry = WellnessEntry(
    time: int, sleepHours: real, sleepQuality: real, energyLevel: real, mood: real,
    stress: real, lowerBodySoreness: real, upperBodySoreness: real, notes: string)

  datatype Column = SleepHours | SleepQuality | EnergyLevel | Mood | Stress | LowerBodySoreness | UpperBodySoreness

  function ColumnValue(e: WellnessEntry, col: Column): real {
    match col
    case SleepHours => e.sleepHours
    case SleepQuality => e.sleepQuality
    case EnergyLevel => e.energyLevel
    case Mood => e.mood
    case Stress => e.stress
    case LowerBodySoreness => e.lowerBodySoreness
    case UpperBodySoreness => e.upperBodySoreness
  }

  /** The colour of one cell of the table: reverse mode exactly for the columns where higher is better. */
  function CellColor(e: WellnessEntry, col: Column): (c: Color)
    ensures c == ScoreColor(ColumnValue(e, col), col in {SleepHours, SleepQuality, EnergyLevel, Mood})
  {
    match col
    case SleepHours => ScoreColor(e.sleepHours, true)
    case SleepQuality => ScoreColor(e.sleepQuality, true)
    case EnergyLevel => ScoreColor(e.energyLevel, true)
    case Mood => ScoreColor(e.mood, true)
    case Stress => ScoreColor(e.stress, false)
    case LowerBodySoreness => ScoreColor(e.lowerBodySoreness, false)
    case UpperBodySoreness => ScoreColor(e.upperBodySoreness, false)
  }

  /** Stress and soreness cells show the mirror image of the colour a higher-is-better column would. */
  lemma CellColorModes(e: WellnessEntry, col: Column)
    ensures col in {Stress, LowerBodySoreness, UpperBodySoreness} ==>
      CellColor(e, col) == Mirror(ScoreColor(ColumnValue(e, col), true))
  {
    NormalIsMirroredReverse(ColumnValue(e, col));
  }

  /** Entries `lo..hi` of `s` are ordered newest first. */
  ghost predicate NewestFirst(s: seq<WellnessEntry>, lo: int, hi: int)
    requires 0 <= lo <= hi <= |s|
  {
    forall p, q :: lo <= p < q < hi ==> s[p].time >= s[q].time
  }

  /** The state of one insertion pass: `s[..j]` and `s[j..i+1]` ordered, and every entry before `j` newer than every entry after it. */
  ghost predicate Inserting(s: seq<WellnessEntry>, j: int, i: int)
    requires 0 <= j <= i < |s|
  {
    && NewestFirst(s, 0, j) && NewestFirst(s, j, i + 1)
    && forall p, q :: 0 <= p < j < q <= i ==> s[p].time >= s[q].time
  }

  /** Swapping the entry being inserted with an older predecessor keeps the pass's state. */
  lemma SwapStep(s: seq<WellnessEntry>, j: int, i: int)
    requires 0 < j <= i < |s| && Inserting(s, j, i) && s[j - 1].time < s[j].time
    ensures Inserting(s[j - 1 := s[j]][j := s[j - 1]], j - 1, i)
    ensures multiset(s[j - 1 := s[j]][j := s[j - 1]]) == multiset(s)
  {
    var t := s[j - 1 := s[j]][j := s[j - 1]];
    assert forall q :: j < q < |s| ==> t[q] == s[q];
    assert forall p :: 0 <= p < j - 1 ==> t[p] == s[p];
  }

  /** A pass stops at the front or below a newer-or-equal entry; the prefix is then ordered. */
  lemma PassDone(s: seq<WellnessEntry>, j: int, i: int)
    requires 0 <= j <= i < |s| && Inserting(s, j, i)
    requires j == 0 || s[j - 1].time >= s[j].time
    ensures NewestFirst(s, 0, i + 1)
  {
  }

  /** `entries.sort((a, b) => time(b) - time(a))`, in place, by insertion with adjacent swaps. */
  method SortNewestFirst(a: array<WellnessEntry>)
    modifies a
    ensures NewestFirst(a[..], 0, a.Length)
    ensures multiset(a[..]) == multiset(old(a[..]))
  {
    var i := 0;
    while i < a.Length
      invariant 0 <= i <= a.Length
      invariant NewestFirst(a[..], 0, i)
      invariant multiset(a[..]) == multiset(old(a[..]))
    {
      var j := i;
      while j > 0 && a[j - 1].time < a[j].time
        invariant 0 <= j <= i
        invariant Inserting(a[..], j, i)
        invariant multiset(a[..]) == multiset(old(a[..]))
      {
        SwapStep(a[..], j, i);
        a[j - 1], a[j] := a[j], a[j - 1];
        j := j - 1;
      }
      PassDone(a[..], j, i);
      i := i + 1;
    }
  }

  /** A click on row `index`: the open row closes, any other row opens. */
  function ClickRow(selected: Option<nat>, index: nat): (next: Option<nat>)
    ensures next == None <==> selected == Some(index)
    ensures next != None ==> next == Some(index)
  {
    if selected == Some(index) then None else Some(index)
  }

  /** A second click on the same row undoes the first only if that row was open or nothing was. */
  lemma ClickRowTwice(selected: Option<nat>, index: nat)
    ensures ClickRow(ClickRow(selected, index), index) == (if selected == Some(index) then selected else None)
  {
  }

  class LogsView {
    var logs: seq<WellnessEntry>
    var selectedRowIndex: Option<nat>

    constructor ()
      ensures logs == [] && selectedRowIndex == None
    {
      logs := [];
      selectedRowIndex := None;
    }

    /** The fetched entries, sorted newest first, become the table's rows. */
    method Load(entries: seq<WellnessEntry>)
      modifies this
      ensures NewestFirst(logs, 0, |logs|)
      ensures multiset(logs) == multiset(entries)
      ensures selectedRowIndex == old(selectedRowIndex)
    {
      var a := new WellnessEntry[|entries|](i requires 0 <= i < |entries| => entries[i]);
      assert a[..] == entries;
      SortNewestFirst(a);
      logs := a[..];
    }

    method RowClicked(index: nat)
      modifies this
      ensures selectedRowIndex == ClickRow(old(selectedRowIndex), index)
      ensures logs == old(logs)
    {
      selectedRowIndex := if selectedRowIndex == Some(index) then None else Some(index);
    }

    /** The notes panel under row `index`: the row has notes and is the selected one. */
    predicate NotesShown(index: nat)
      reads this
    {
      index < |logs| && logs[index].notes != "" && selectedRowIndex == Some(index)
    }

    /** At most one notes panel is open. */
    lemma AtMostOneNotesPanel(p: nat, q: nat)
      requires NotesShown(p) && NotesShown(q)
      ensures p == q
    {
    }
  }
}
