/**
 * The strength tracker: the workout intensity of a log (the Epley-style load of
 * the set with the fewest reps in reserve), the chart series with its padded
 * bounds, and the screen state (the list of sets being entered and the
 * main → categories → exercises → track/viewLogs navigation).
 */
module StrengthTracker {
  import opened Wrappers

  datatype WorkoutSet = WorkoutSet(reps: int, load: int, rir: int)

  datatype WorkoutLog = WorkoutLog(date: string, sets: seq<WorkoutSet>)

  /** The fold step of `sets.reduce`: the current set replaces the running one only if strictly lower. */
  function PickLowerRir(prev: WorkoutSet, current: WorkoutSet): WorkoutSet {
    if current.rir < prev.rir then current else prev
  }

  function ReduceFrom(prev: WorkoutSet, rest: seq<WorkoutSet>): WorkoutSet
    decreases |rest|
  {
    if rest == [] then prev else ReduceFrom(PickLowerRir(prev, rest[0]), rest[1..])
  }

  /**
   * `sets.reduce(...)` without an initial value: a TypeError on an empty list, modelled
   * as None; otherwise the first set of least rir, since ties keep the earlier set.
   */
  function LowestRirSet(sets: seq<WorkoutSet>): (lowest: Option<WorkoutSet>)
    ensures lowest.None? <==> sets == []
    ensures lowest.Some? ==> exists k :: FirstLowestAt(sets, k, lowest.value)
  {
    if sets == [] then None
    else
      ReduceFromFirstLowest(sets[0], sets[1..]);
      assert [sets[0]] + sets[1..] == sets;
      Some(ReduceFrom(sets[0], sets[1..]))
  }

  /** `s` sits at index `k` of `sets`, has the least rir, and every earlier set has a strictly greater rir. */
  ghost predicate FirstLowestAt(sets: seq<WorkoutSet>, k: int, s: WorkoutSet) {
    && 0 <= k < |sets| && sets[k] == s
    && (forall j :: 0 <= j < k ==> sets[j].rir > s.rir)
    && (forall j :: k <= j < |sets| ==> sets[j].rir >= s.rir)
  }

  lemma {:induction false} ReduceFromFirstLowest(prev: WorkoutSet, rest: seq<WorkoutSet>)
    ensures exists k :: FirstLowestAt([prev] + rest, k, ReduceFrom(prev, rest))
    decreases |rest|
  {
    var all := [prev] + rest;
    var r := ReduceFrom(prev, rest);
    if rest == [] {
      assert FirstLowestAt(all, 0, r);
    } else {
      var next := PickLowerRir(prev, rest[0]);
      var tail := [next] + rest[1..];
      ReduceFromFirstLowest(next, rest[1..]);
      var k' :| FirstLowestAt(tail, k', r);
      if k' == 0 && rest[0].rir < prev.rir {
        assert FirstLowestAt(all, 1, r) by {
          forall j | 1 <= j < |all| ensures all[j].rir >= r.rir {
            assert all[j] == tail[j - 1];
          }
        }
      } else if k' == 0 {
        assert FirstLowestAt(all, 0, r) by {
          forall j | 0 <= j < |all| ensures all[j].rir >= r.rir {
            if j >= 2 { assert all[j] == tail[j - 1]; }
          }
        }
      } else {
        assert FirstLowestAt(all, k' + 1, r) by {
          forall j | 0 <= j < k' + 1 ensures all[j].rir > r.rir {
            if j >= 2 { assert all[j] == tail[j - 1]; }
            else { assert tail[0].rir > r.rir; }
          }
          forall j | k' + 1 <= j < |all| ensures all[j].rir >= r.rir {
            assert all[j] == tail[j - 1];
          }
        }
      }
    }
  }

  /** The intensity of one set: load·(1 + 0.0333·reps). */
  function SetIntensity(s: WorkoutSet): (intensity: real)
    ensures s.load >= 0 && s.reps >= 0 ==> intensity >= s.load as real
  {
    var gain := 0.0333 * s.reps as real;
    assert s.load >= 0 && s.reps >= 0 ==> s.load as real * gain >= 0.0;
    s.load as real * (1.0 + gain)
  }

  /** `calculateWorkoutIntensity`: the intensity of the lowest-rir set (None where the source throws). */
  function WorkoutIntensity(sets: seq<WorkoutSet>): (intensity: Option<real>)
    ensures intensity.None? <==> sets == []
    ensures sets != [] ==> exists k :: 0 <= k < |sets| && FirstLowestAt(sets, k, sets[k]) && intensity.value == SetIntensity(sets[k])
  {
    match LowestRirSet(sets)
    case None => None
    case Some(s) => Some(SetIntensity(s))
  }

  /** JavaScript `Math.round` on an exact value: halves round up. */
  function JsRound(x: real): (n: int)
    ensures x - 0.5 < n as real <= x + 0.5
  {
    (x + 0.5).Floor
  }

  /** A number or one of the infinities `Math.min()`/`Math.max()` return for no arguments. */
  datatype Extended = NegInfinity | Finite(n: int) | PosInfinity {
    function Plus(d: int): Extended {
      match this
      case Finite(n) => Finite(n + d)
      case _ => this
    }
  }

  /** `Math.min(...xs)`. */
  function MinOf(xs: seq<int>): (m: Extended)
    ensures xs == [] <==> m == PosInfinity
    ensures xs != [] ==> m.Finite? && m.n in xs && forall x :: x in xs ==> m.n <= x
  {
    if xs == [] then PosInfinity
    else
      assert xs == [xs[0]] + xs[1..];
      var rest := MinOf(xs[1..]);
      if rest.Finite? && rest.n < xs[0] then rest else Finite(xs[0])
  }

  /** `Math.max(...xs)`. */
  function MaxOf(xs: seq<int>): (m: Extended)
    ensures xs == [] <==> m == NegInfinity
    ensures xs != [] ==> m.Finite? && m.n in xs && forall x :: x in xs ==> x <= m.n
  {
    if xs == [] then NegInfinity
    else
      assert xs == [xs[0]] + xs[1..];
      var rest := MaxOf(xs[1..]);
      if rest.Finite? && rest.n > xs[0] then rest else Finite(xs[0])
  }

  datatype ChartPoint = ChartPoint(date: string, intensity: int)

  datatype Chart = Chart(data: seq<ChartPoint>, minValue: Extended, maxValue: Extended)

  function Intensities(data: seq<ChartPoint>): (xs: seq<int>)
    ensures |xs| == |data| && forall i :: 0 <= i < |data| ==> xs[i] == data[i].intensity
  {
    if data == [] then [] else [data[0].intensity] + Intensities(data[1..])
  }

  /** The chart series, one rounded point per log; None when some log has no sets (the reduce throws). */
  function ChartPoints(logs: seq<WorkoutLog>): (data: Option<seq<ChartPoint>>)
    ensures data.None? <==> exists i :: 0 <= i < |logs| && logs[i].sets == []
    ensures data.Some? ==> |data.value| == |logs| && forall i :: 0 <= i < |logs| ==>
      data.value[i] == ChartPoint(logs[i].date, JsRound(WorkoutIntensity(logs[i].sets).value))
  {
    if logs == [] then Some([])
    else match WorkoutIntensity(logs[0].sets)
      case None => None
      case Some(x) =>
        match ChartPoints(logs[1..])
        case None => assert logs[1..][0..] == logs[1..]; None
        case Some(rest) => Some([ChartPoint(logs[0].date, JsRound(x))] + rest)
  }

  /** `getChartData(exercise)`: the exercise's logs (none if absent), padded by 10 on both sides. */
  function GetChartData(workoutLogs: map<string, seq<WorkoutLog>>, exercise: string): (chart: Option<Chart>)
    ensures var logs := if exercise in workoutLogs then workoutLogs[exercise] else [];
      chart.Some? <==> forall i :: 0 <= i < |logs| ==> logs[i].sets != []
    ensures var logs := if exercise in workoutLogs then workoutLogs[exercise] else [];
      chart.Some? ==> |chart.value.data| == |logs| && forall i :: 0 <= i < |logs| ==>
        logs[i].sets != [] && chart.value.data[i] == ChartPoint(logs[i].date, JsRound(WorkoutIntensity(logs[i].sets).value))
    ensures chart.Some? ==>
      && chart.value.minValue == MinOf(Intensities(chart.value.data)).Plus(-10)
      && chart.value.maxValue == MaxOf(Intensities(chart.value.data)).Plus(10)
  {
    var logs := if exercise in workoutLogs then workoutLogs[exercise] else [];
    match ChartPoints(logs)
    case None =>
      assert exists i :: 0 <= i < |logs| && logs[i].sets == [];
      None
    case Some(data) =>
      assert forall i :: 0 <= i < |logs| ==> logs[i].sets != [];
      var xs := Intensities(data);
      Some(Chart(data, MinOf(xs).Plus(-10), MaxOf(xs).Plus(10)))
  }

  /** Every point of a non-empty chart lies 10 inside its bounds; an empty chart has infinite bounds. */
  lemma ChartBounds(workoutLogs: map<string, seq<WorkoutLog>>, exercise: string)
    requires GetChartData(workoutLogs, exercise).Some?
    ensures var c := GetChartData(workoutLogs, exercise).value;
      if c.data == [] then c.minValue == PosInfinity && c.maxValue == NegInfinity
      else (
        && c.minValue.Finite? && c.maxValue.Finite?
        && forall i :: 0 <= i < |c.data| ==> c.minValue.n + 10 <= c.data[i].intensity <= c.maxValue.n - 10)
  {
    var c := GetChartData(workoutLogs, exercise).value;
    var xs := Intensities(c.data);
    forall i | 0 <= i < |c.data|
      ensures c.minValue.n + 10 <= c.data[i].intensity <= c.maxValue.n - 10
    {
      assert xs[i] in xs;
    }
  }

  datatype ViewMode = Main | Categories | Exercises | Track | ViewLogs

  datatype SetField = Reps | Load | Rir

  function FieldOf(s: WorkoutSet, f: SetField): int {
    match f
    case Reps => s.reps
    case Load => s.load
    case Rir => s.rir
  }

  /** `{...s, [field]: value}`. */
  function WithField(s: WorkoutSet, f: SetField, value: int): (t: WorkoutSet)
    ensures FieldOf(t, f) == value
    ensures forall g :: g != f ==> FieldOf(t, g) == FieldOf(s, g)
  {
    match f
    case Reps => s.(reps := value)
    case Load => s.(load := value)
    case Rir => s.(rir := value)
  }

  const DefaultSet := WorkoutSet(6, 100, 4)

  /** Navigation state: the view and the selected category and exercise (null as None, "" as falsy). */
  datatype Nav = Nav(viewMode: ViewMode, category: Option<string>, exercise: Option<string>)

  predicate Truthy(o: Option<string>) {
    o.Some? && o.value != ""
  }

  /**
   * `goBack`: the new navigation state, and whether the screen is left instead
   * (`navigate('/')`). Going back either leaves the screen with nothing changed, or
   * moves exactly one level up and clears the selection of the level it leaves.
   */
  function GoBackNav(nav: Nav): (r: (Nav, bool))
    ensures var (next, leaves) := r;
      if leaves then next == nav
      else (
        && Depth(next.viewMode) + 1 == Depth(nav.viewMode)
        && (next.viewMode == Exercises ==> next.exercise == None && next.category == nav.category)
        && (next.viewMode == Categories ==> next.category == None && next.exercise == nav.exercise)
        && (next.viewMode == Main ==> next.category == nav.category && next.exercise == nav.exercise))
  {
    if nav.viewMode == Track && Truthy(nav.exercise) then (nav.(exercise := None, viewMode := Exercises), false)
    else if nav.viewMode == ViewLogs && Truthy(nav.exercise) then (nav.(exercise := None, viewMode := Exercises), false)
    else if nav.viewMode == Exercises && Truthy(nav.category) then (nav.(category := None, viewMode := Categories), false)
    else if nav.viewMode == Categories then (nav.(viewMode := Main), false)
    else (nav, true)
  }

  function Depth(mode: ViewMode): nat {
    match mode
    case Main => 0
    case Categories => 1
    case Exercises => 2
    case Track => 3
    case ViewLogs => 3
  }

  /** The screen is left from the main view, and from a deeper view only when its selection is missing. */
  lemma GoBackLeavesWhen(nav: Nav)
    ensures GoBackNav(nav).1 <==>
      match nav.viewMode
      case Main => true
      case Categories => false
      case Exercises => !Truthy(nav.category)
      case Track => !Truthy(nav.exercise)
      case ViewLogs => !Truthy(nav.exercise)
  {
  }

  /**
   * Choosing an exercise from the exercise list: it becomes the selection, and the
   * tracking form opens exactly in tracking mode, the log view otherwise.
   */
  function SelectExerciseNav(nav: Nav, exercise: string, isTrackingMode: bool): (next: Nav)
    ensures next.exercise == Some(exercise) && next.category == nav.category
    ensures next.viewMode == Track <==> isTrackingMode
    ensures next.viewMode == ViewLogs <==> !isTrackingMode
  {
    nav.(exercise := Some(exercise), viewMode := if isTrackingMode then Track else ViewLogs)
  }

  /** Choosing a category from the category grid: it becomes the selection and its exercise list opens. */
  function SelectCategoryNav(nav: Nav, name: string): (next: Nav)
    ensures next.category == Some(name) && next.exercise == nav.exercise
    ensures next.viewMode == Exercises
  {
    nav.(category := Some(name), viewMode := Exercises)
  }

  /** Back after choosing a (named) exercise returns to the exercise list with no exercise selected. */
  lemma BackUndoesSelectExercise(nav: Nav, exercise: string, isTrackingMode: bool)
    requires exercise != ""
    ensures var (next, leaves) := GoBackNav(SelectExerciseNav(nav, exercise, isTrackingMode));
      !leaves && next == nav.(exercise := None, viewMode := Exercises)
  {
  }

  /** Back after choosing a (named) category returns to the category grid with no category selected. */
  lemma BackUndoesSelectCategory(nav: Nav, name: string)
    requires name != ""
    ensures var (next, leaves) := GoBackNav(SelectCategoryNav(nav, name));
      !leaves && next == nav.(category := None, viewMode := Categories)
  {
  }

  class Tracker {
    var viewMode: ViewMode
    var selectedCategory: Option<string>
    var selectedExercise: Option<string>
    var isTrackingMode: bool
    var sets: seq<WorkoutSet>

    function NavState(): Nav
      reads this
    {
      Nav(viewMode, selectedCategory, selectedExercise)
    }

    constructor ()
      ensures viewMode == Main && selectedCategory == None && selectedExercise == None
      ensures !isTrackingMode && sets == [WorkoutSet(6, 80, 4)]
    {
      viewMode := Main;
      selectedCategory := None;
      selectedExercise := None;
      isTrackingMode := false;
      sets := [WorkoutSet(6, 80, 4)];
    }

    /** `addSet`: appends the default set; earlier sets are kept. */
    method AddSet()
      modifies this
      ensures sets == old(sets) + [DefaultSet]
      ensures NavState() == old(NavState()) && isTrackingMode == old(isTrackingMode)
    {
      sets := sets + [DefaultSet];
    }

    /** `updateSet(index, field, value)`: replaces one field of one set. */
    method UpdateSet(index: nat, field: SetField, value: int)
      requires index < |sets|
      modifies this
      ensures |sets| == |old(sets)|
      ensures FieldOf(sets[index], field) == value
      ensures forall g :: g != field ==> FieldOf(sets[index], g) == FieldOf(old(sets)[index], g)
      ensures forall i :: 0 <= i < |sets| && i != index ==> sets[i] == old(sets)[i]
      ensures NavState() == old(NavState()) && isTrackingMode == old(isTrackingMode)
    {
      var newSets := sets;
      newSets := newSets[index := WithField(newSets[index], field, value)];
      sets := newSets;
    }

    /** `goBack`; `leaves` is the `navigate('/')` branch. */
    method GoBack() returns (leaves: bool)
      modifies this
      ensures (NavState(), leaves) == GoBackNav(old(NavState()))
      ensures sets == old(sets) && isTrackingMode == old(isTrackingMode)
    {
      leaves := false;
      if viewMode == Track && Truthy(selectedExercise) {
        selectedExercise := None;
        viewMode := Exercises;
      } else if viewMode == ViewLogs && Truthy(selectedExercise) {
        selectedExercise := None;
        viewMode := Exercises;
      } else if viewMode == Exercises && Truthy(selectedCategory) {
        selectedCategory := None;
        viewMode := Categories;
      } else if viewMode == Categories {
        viewMode := Main;
      } else {
        leaves := true;
      }
    }

    method SelectExercise(exercise: string)
      modifies this
      ensures NavState() == SelectExerciseNav(old(NavState()), exercise, isTrackingMode)
      ensures sets == old(sets) && isTrackingMode == old(isTrackingMode)
    {
      selectedExercise := Some(exercise);
      viewMode := if isTrackingMode then Track else ViewLogs;
    }

    method SelectCategory(name: string)
      modifies this
      ensures NavState() == SelectCategoryNav(old(NavState()), name)
      ensures sets == old(sets) && isTrackingMode == old(isTrackingMode)
    {
      selectedCategory := Some(name);
      viewMode := Exercises;
    }

    /** The "Track Main Lifts" (true) and "View Logs" (false) buttons on the main view. */
    method ChooseMode(tracking: bool)
      modifies this
      ensures isTrackingMode == tracking && viewMode == Categories
      ensures selectedCategory == old(selectedCategory) && selectedExercise == old(selectedExercise)
      ensures sets == old(sets)
    {
      isTrackingMode := tracking;
      viewMode := Categories;
    }
  }
}
