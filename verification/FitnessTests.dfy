/**
 * The fitness-test logging form: the tests of each category, the value a
 * submission records (minutes:seconds for timed tests, the typed value
 * otherwise) and how the form's fields are reset.
 */
module FitnessTests {
  import opened Wrappers

  datatype Category = Power | Fitness | Speed

  function CategoryName(c: Category): string {
    match c
    case Power => "Power"
    case Fitness => "Fitness"
    case Speed => "Speed"
  }

  datatype TestOption = TestOption(name: string, unit: string, example: string)

  /** `testOptions[category]`. */
  function TestOptions(c: Category): seq<TestOption> {
    match c
    case Power => [
      TestOption("SLJ (Standing Long Jump)", "cm", "245cm"),
      TestOption("CMJ (Counter Movement Jump)", "cm", "42cm"),
      TestOption("RSI (Hop Test)", "m/s", "2.32")]
    case Fitness => [
      TestOption("1.2K Time Trial", "time", "4:43"),
      TestOption("1.4K Time Trial", "time", "5:21")]
    case Speed => [
      TestOption("0-10m Dash", "seconds", "1.43"),
      TestOption("0-20m Dash", "seconds", "2.85"),
      TestOption("0-30m Dash", "seconds", "4.12"),
      TestOption("Flying 10m", "seconds", "0.89")]
  }

  /** `options.find(t => t.name === name)`. */
  function FindTest(options: seq<TestOption>, name: string): (found: Option<TestOption>)
    ensures found.None? <==> forall i :: 0 <= i < |options| ==> options[i].name != name
    ensures found.Some? ==> exists i :: 0 <= i < |options| && options[i] == found.value && found.value.name == name
  {
    if options == [] then None
    else if options[0].name == name then Some(options[0])
    else FindTest(options[1..], name)
  }

  /** Whether the chosen test of the chosen category is entered as minutes and seconds. */
  predicate IsTimed(c: Category, selectedTest: string): (timed: bool)
    ensures timed ==>
      exists i :: 0 <= i < |TestOptions(c)| && TestOptions(c)[i].name == selectedTest && TestOptions(c)[i].unit == "time"
  {
    match FindTest(TestOptions(c), selectedTest)
    case Some(t) => t.unit == "time"
    case None => false
  }

  /** Only the two time trials are timed, in any category. */
  lemma TimedTestsAreTrials(c: Category, selectedTest: string)
    ensures IsTimed(c, selectedTest) <==>
      c == Fitness && (selectedTest == "1.2K Time Trial" || selectedTest == "1.4K Time Trial")
  {
    var options := TestOptions(c);
    match FindTest(options, selectedTest)
    case Some(t) => {
      var i :| 0 <= i < |options| && options[i] == t && t.name == selectedTest;
    }
    case None =>
  }

  /**
   * The value `handleSubmit` records: with no test chosen the typed value; otherwise
   * minutes ':' seconds for a timed test and the typed value for any other.
   */
  function SubmittedValue(category: Option<Category>, selectedTest: string,
                          testValue: string, timeMinutes: string, timeSeconds: string): (value: string)
    requires category.None? ==> selectedTest == ""
    ensures value == testValue || value == timeMinutes + ":" + timeSeconds
    ensures selectedTest == "" ==> value == testValue
  {
    if selectedTest != "" && IsTimed(category.value, selectedTest) then timeMinutes + ":" + timeSeconds
    else testValue
  }

  /** A submission records minutes:seconds exactly for the time trials, and the typed value otherwise. */
  lemma SubmittedValueCases(category: Option<Category>, selectedTest: string,
                            testValue: string, timeMinutes: string, timeSeconds: string)
    requires category.None? ==> selectedTest == ""
    ensures var isTrial := category == Some(Fitness) && (selectedTest == "1.2K Time Trial" || selectedTest == "1.4K Time Trial");
      SubmittedValue(category, selectedTest, testValue, timeMinutes, timeSeconds)
        == if isTrial then timeMinutes + ":" + timeSeconds else testValue
  {
    if category.Some? {
      TimedTestsAreTrials(category.value, selectedTest);
    }
  }

  /**
   * The "Log … Test" button: a category is chosen and it has tests. Every category
   * has tests, so the button shows exactly when a category is chosen.
   */
  predicate LogButtonVisible(category: Option<Category>): (visible: bool)
    ensures visible <==> category.Some?
  {
    category.Some? && |TestOptions(category.value)| > 0
  }

  class TestForm {
    var date: int
    var selectedCategory: Option<Category>
    var showLogForm: bool
    var selectedTest: string
    var testValue: string
    var timeMinutes: string
    var timeSeconds: string

    /** A test can only have been chosen from a category's list. */
    predicate Valid()
      reads this
    {
      selectedCategory.None? ==> selectedTest == ""
    }

    /** The empty form, dated today. */
    constructor (today: int)
      ensures Valid()
      ensures date == today && selectedCategory == None && !showLogForm
      ensures selectedTest == "" && testValue == "" && timeMinutes == "" && timeSeconds == ""
    {
      date := today;
      selectedCategory := None;
      showLogForm := false;
      selectedTest := "";
      testValue := "";
      timeMinutes := "";
      timeSeconds := "";
    }

    /** `handleCategoryChange(category)`: the new category, with the form hidden and its fields cleared. */
    method ChangeCategory(category: Category)
      requires Valid()
      modifies this
      ensures Valid()
      ensures selectedCategory == Some(category) && !showLogForm
      ensures selectedTest == "" && testValue == "" && timeMinutes == "" && timeSeconds == ""
      ensures date == old(date)
    {
      selectedCategory := Some(category);
      showLogForm := false;
      selectedTest := "";
      testValue := "";
      timeMinutes := "";
      timeSeconds := "";
    }

    /** `handleLogClick`: shows the form and nothing else. */
    method LogClick()
      requires Valid()
      modifies this
      ensures Valid() && showLogForm
      ensures date == old(date) && selectedCategory == old(selectedCategory) && selectedTest == old(selectedTest)
      ensures testValue == old(testValue) && timeMinutes == old(timeMinutes) && timeSeconds == old(timeSeconds)
    {
      showLogForm := true;
    }

    /** The test select, shown only while the form is open for a category. */
    method SelectTest(name: string)
      requires Valid() && showLogForm && selectedCategory.Some?
      modifies this
      ensures Valid() && selectedTest == name
      ensures date == old(date) && selectedCategory == old(selectedCategory) && showLogForm
      ensures testValue == old(testValue) && timeMinutes == old(timeMinutes) && timeSeconds == old(timeSeconds)
    {
      selectedTest := name;
    }

    /** The value inputs: the plain value, or the minutes and seconds of a timed test. */
    method EnterValues(value: string, minutes: string, seconds: string)
      requires Valid()
      modifies this
      ensures Valid() && testValue == value && timeMinutes == minutes && timeSeconds == seconds
      ensures date == old(date) && selectedCategory == old(selectedCategory)
      ensures showLogForm == old(showLogForm) && selectedTest == old(selectedTest)
    {
      testValue := value;
      timeMinutes := minutes;
      timeSeconds := seconds;
    }

    /** `handleSubmit`: the recorded value; the form is hidden and cleared, category and date are kept. */
    method Submit() returns (value: string)
      requires Valid()
      modifies this
      ensures value == SubmittedValue(old(selectedCategory), old(selectedTest), old(testValue), old(timeMinutes), old(timeSeconds))
      ensures Valid() && !showLogForm
      ensures selectedTest == "" && testValue == "" && timeMinutes == "" && timeSeconds == ""
      ensures date == old(date) && selectedCategory == old(selectedCategory)
    {
      if selectedTest != "" && IsTimed(selectedCategory.value, selectedTest) {
        value := timeMinutes + ":" + timeSeconds;
      } else {
        value := testValue;
      }
      showLogForm := false;
      selectedTest := "";
      testValue := "";
      timeMinutes := "";
      timeSeconds := "";
    }

    /** The Cancel button: hides the form and keeps every field. */
    method Cancel()
      requires Valid()
      modifies this
      ensures Valid() && !showLogForm
      ensures date == old(date) && selectedCategory == old(selectedCategory) && selectedTest == old(selectedTest)
      ensures testValue == old(testValue) && timeMinutes == old(timeMinutes) && timeSeconds == old(timeSeconds)
    {
      showLogForm := false;
    }
  }
}
