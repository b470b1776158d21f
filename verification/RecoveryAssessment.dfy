/**
 * The recovery checklist: a fixed table of point-weighted activities, a selection
 * map keyed by "category-index", and a running total that toggling keeps equal to
 * the points of the selected activities.
 */
module RecoveryAssessment {
  import opened Wrappers
  import opened JsText
  import opened GeminiService

  /** The score the screen asks for within 24-36 hours after a match. */
  const TargetPoints: int := 105

  /** The checklist as the screen defines it. */
  const AssessmentItems: seq<AssessmentCategory> :=
    [ AssessmentCategory("Sleep", SleepItems()),
      AssessmentCategory("Nutrition/Hydration", NutritionItems()),
      AssessmentCategory("Active recovery", ActiveItems()),
      AssessmentCategory("Delay recovery", DelayItems())
    ]

  function SleepItems(): seq<AssessmentItem> {
    [
        AssessmentItem("Get 8 hrs + of good quality sleep", 40),
        AssessmentItem("Get 7-8 hrs of good quality sleep", 30),
        AssessmentItem("Get less than 7 hrs of good quality sleep", 20),
        AssessmentItem("Mid day Nap (20 - 45mins)", 10),
        AssessmentItem("Breathing drills (10mins)", 10),
        AssessmentItem("NSDR protocol (10mins)", 5)]
  }

  function NutritionItems(): seq<AssessmentItem> {
    [
        AssessmentItem("Hit your daily calories, carb, protein and good fats", 15),
        AssessmentItem(">3 Litres of hydrating fluids (water, milk etc)", 20)]
  }

  function ActiveItems(): seq<AssessmentItem> {
    [
        AssessmentItem("45-60mins Outdoor walk", 15),
        AssessmentItem("30mins Recovery bike session", 10),
        AssessmentItem("Cryotherapy", 10),
        AssessmentItem("Hot/Cold Water therapy", 10),
        AssessmentItem("30 mins massage", 15),
        AssessmentItem("Sauna", 5),
        AssessmentItem("30 mins Pool session", 10),
        AssessmentItem("Gym reset/ flush (bodyweight routine)", 10),
        AssessmentItem("An Activity you really enjoy to unwind/ relax have fun", 15),
        AssessmentItem("Mobility drills/ prehab routines", 10),
        AssessmentItem("Foam rolling", 5)]
  }

  function DelayItems(): seq<AssessmentItem> {
    [
        AssessmentItem("phone before <1.5 hrs before bed", -25),
        AssessmentItem("Alcohol", -80)]
  }

  /** The selection key of an item, built the same way when toggling and when rendering. */
  function ItemKey(category: string, itemIndex: nat): (key: string)
    ensures |key| > |category| && category <= key && key[|category|] == '-'
  {
    category + "-" + NatToString(itemIndex)
  }

  /** Category names contain no '-', so a key splits back into its name and index text. */
  lemma ItemKeySplits(category: string, itemIndex: nat)
    requires '-' !in category
    ensures Split(ItemKey(category, itemIndex), '-') == [category, NatToString(itemIndex)]
  {
    var digits := NatToString(itemIndex);
    assert forall k :: 0 <= k < |digits| ==> digits[k] != '-';
    assert Join([category, digits], '-') == ItemKey(category, itemIndex);
    SplitJoin([category, digits], '-');
  }

  /** Distinct (category, index) pairs give distinct keys. */
  lemma ItemKeyInjective(c1: string, i1: nat, c2: string, i2: nat)
    requires '-' !in c1 && '-' !in c2
    requires ItemKey(c1, i1) == ItemKey(c2, i2)
    ensures c1 == c2 && i1 == i2
  {
    ItemKeySplits(c1, i1);
    ItemKeySplits(c2, i2);
    NatToStringInjective(i1, i2);
  }

  // ---------------------------------------------------------------------------
  // The table flattened into (key, points) entries

  datatype Entry = Entry(key: string, points: int)

  /** The entries of `items`, whose indices in their category start at `from`. */
  function ItemEntries(category: string, items: seq<AssessmentItem>, from: nat): (es: seq<Entry>)
    ensures |es| == |items|
  {
    if items == [] then [] else [Entry(ItemKey(category, from), items[0].points)] + ItemEntries(category, items[1..], from + 1)
  }

  lemma {:induction false} ItemEntriesAt(category: string, items: seq<AssessmentItem>, from: nat, i: nat)
    requires i < |items|
    ensures ItemEntries(category, items, from)[i] == Entry(ItemKey(category, from + i), items[i].points)
  {
    if i > 0 {
      ItemEntriesAt(category, items[1..], from + 1, i - 1);
    }
  }

  function CategoryEntries(c: AssessmentCategory): (es: seq<Entry>)
    ensures |es| == |c.items|
  {
    ItemEntries(c.category, c.items, 0)
  }

  function Entries(table: seq<AssessmentCategory>): seq<Entry> {
    if table == [] then [] else CategoryEntries(table[0]) + Entries(table[1..])
  }

  /** Number of items in the categories before the k-th. */
  function Offset(table: seq<AssessmentCategory>, k: nat): nat
    requires k <= |table|
  {
    if k == 0 then 0 else |table[0].items| + Offset(table[1..], k - 1)
  }

  /** Item i of category k sits at position Offset(table, k) + i of the flattened table. */
  lemma {:induction false} EntryAt(table: seq<AssessmentCategory>, k: nat, i: nat)
    requires k < |table| && i < |table[k].items|
    ensures Offset(table, k) + i < |Entries(table)|
    ensures Entries(table)[Offset(table, k) + i] == Entry(ItemKey(table[k].category, i), table[k].items[i].points)
  {
    if k > 0 {
      EntryAt(table[1..], k - 1, i);
    } else {
      ItemEntriesAt(table[0].category, table[0].items, 0, i);
    }
  }

  /** Every flattened entry's key starts with the name of a category of the table. */
  lemma {:induction false} EntryCategory(table: seq<AssessmentCategory>, j: nat)
    requires forall k :: 0 <= k < |table| ==> '-' !in table[k].category
    requires j < |Entries(table)|
    ensures exists k :: 0 <= k < |table| && Split(Entries(table)[j].key, '-')[0] == table[k].category
  {
    var first := CategoryEntries(table[0]);
    var rest := Entries(table[1..]);
    assert Entries(table) == first + rest;
    if j < |first| {
      ItemEntriesAt(table[0].category, table[0].items, 0, j);
      ItemKeySplits(table[0].category, j);
      assert Split(Entries(table)[j].key, '-')[0] == table[0].category;
    } else {
      var tail := table[1..];
      assert forall k :: 0 <= k < |tail| ==> tail[k] == table[k + 1];
      EntryCategory(tail, j - |first|);
      var k :| 0 <= k < |tail| && Split(rest[j - |first|].key, '-')[0] == tail[k].category;
      LaterEntryCategory(table, j, k);
    }
  }

  lemma LaterEntryCategory(table: seq<AssessmentCategory>, j: nat, k: nat)
    requires table != [] && |CategoryEntries(table[0])| <= j < |Entries(table)| && k < |table| - 1
    requires Split(Entries(table[1..])[j - |CategoryEntries(table[0])|].key, '-')[0] == table[1..][k].category
    ensures Split(Entries(table)[j].key, '-')[0] == table[k + 1].category
  {
    assert Entries(table) == CategoryEntries(table[0]) + Entries(table[1..]);
  }

  predicate DistinctKeys(es: seq<Entry>) {
    forall i, j :: 0 <= i < j < |es| ==> es[i].key != es[j].key
  }

  predicate WellFormedTable(table: seq<AssessmentCategory>) {
    && (forall k :: 0 <= k < |table| ==> '-' !in table[k].category)
    && (forall k, l :: 0 <= k < l < |table| ==> table[k].category != table[l].category)
  }

  /** A table with distinct, dash-free category names has distinct keys. */
  lemma {:induction false} EntriesDistinct(table: seq<AssessmentCategory>)
    requires WellFormedTable(table)
    ensures DistinctKeys(Entries(table))
  {
    if table != [] {
      var first := CategoryEntries(table[0]);
      var rest := Entries(table[1..]);
      EntriesDistinct(table[1..]);
      var es := Entries(table);
      assert es == first + rest;
      forall i, j | 0 <= i < j < |es| ensures es[i].key != es[j].key {
        if j < |first| {
          ItemEntriesAt(table[0].category, table[0].items, 0, i);
          ItemEntriesAt(table[0].category, table[0].items, 0, j);
          if es[i].key == es[j].key {
            ItemKeyInjective(table[0].category, i, table[0].category, j);
          }
        } else if i < |first| {
          FirstKeyNotLater(table, i, j - |first|);
        } else {
          assert es[i] == rest[i - |first|] && es[j] == rest[j - |first|];
        }
      }
    }
  }

  /** A key of the first category is no key of the later ones. */
  lemma FirstKeyNotLater(table: seq<AssessmentCategory>, i: nat, j: nat)
    requires WellFormedTable(table) && table != []
    requires i < |CategoryEntries(table[0])| && j < |Entries(table[1..])|
    ensures CategoryEntries(table[0])[i].key != Entries(table[1..])[j].key
  {
    var rest := Entries(table[1..]);
    EntryCategory(table[1..], j);
    var k :| 0 <= k < |table[1..]| && Split(rest[j].key, '-')[0] == table[1..][k].category;
    ItemEntriesAt(table[0].category, table[0].items, 0, i);
    ItemKeySplits(table[0].category, i);
    assert table[0].category != table[k + 1].category;
  }

  lemma TableWellFormed()
    ensures WellFormedTable(AssessmentItems)
  {
    var t := AssessmentItems;
    NamesWellFormed(t);
  }

  lemma NamesWellFormed(t: seq<AssessmentCategory>)
    requires |t| == 4
    requires t[0].category == "Sleep" && t[1].category == "Nutrition/Hydration"
    requires t[2].category == "Active recovery" && t[3].category == "Delay recovery"
    ensures WellFormedTable(t)
  {
    assert |t[0].category| == 5 && |t[1].category| == 19;
    assert |t[2].category| == 15 && |t[3].category| == 14;
    NameDashFree("Sleep");
    NameDashFree("Nutrition/Hydration");
    NameDashFree("Active recovery");
    NameDashFree("Delay recovery");
  }

  lemma NameDashFree(name: string)
    requires forall i :: 0 <= i < |name| ==> name[i] == ' ' || name[i] == '/' || 'A' <= name[i] <= 'z'
    ensures '-' !in name
  {
  }

  // ---------------------------------------------------------------------------
  // Selection and totals

  /** `selectedItems[key]` is truthy. */
  predicate Selected(selection: map<string, bool>, key: string) {
    key in selection && selection[key]
  }

  /** The sum of the points of the entries whose keys are selected. */
  function SelectedTotal(selection: map<string, bool>, es: seq<Entry>): int {
    if es == [] then 0
    else (if Selected(selection, es[0].key) then es[0].points else 0) + SelectedTotal(selection, es[1..])
  }

  /** The new selection map after `toggleItem`: a selected key is deleted, any other set to true. */
  function ToggleKey(selection: map<string, bool>, key: string): (r: map<string, bool>)
    ensures Selected(r, key) <==> !Selected(selection, key)
    ensures forall other :: other != key ==> (other in r <==> other in selection)
    ensures forall other :: other != key && other in r ==> r[other] == selection[other]
  {
    if Selected(selection, key) then selection - {key} else selection[key := true]
  }

  predicate AllTrue(selection: map<string, bool>) {
    forall key :: key in selection ==> selection[key]
  }

  /** Totals only depend on which keys are selected. */
  lemma {:induction false} SelectedTotalFrame(s1: map<string, bool>, s2: map<string, bool>, es: seq<Entry>)
    requires forall j :: 0 <= j < |es| ==> (Selected(s1, es[j].key) <==> Selected(s2, es[j].key))
    ensures SelectedTotal(s1, es) == SelectedTotal(s2, es)
  {
    if es != [] {
      SelectedTotalFrame(s1, s2, es[1..]);
    }
  }

  /** Toggling the key of entry j adds its points when it was unselected and removes them otherwise. */
  lemma {:induction false} ToggleTotal(selection: map<string, bool>, es: seq<Entry>, j: nat)
    requires DistinctKeys(es) && j < |es|
    ensures SelectedTotal(ToggleKey(selection, es[j].key), es)
         == SelectedTotal(selection, es) + (if Selected(selection, es[j].key) then -es[j].points else es[j].points)
  {
    var key := es[j].key;
    var toggled := ToggleKey(selection, key);
    if j == 0 {
      SelectedTotalFrame(toggled, selection, es[1..]);
    } else {
      ToggleTotal(selection, es[1..], j - 1);
    }
  }

  /** Toggling the same key twice restores the selection map. */
  lemma ToggleTwice(selection: map<string, bool>, key: string)
    requires AllTrue(selection)
    ensures ToggleKey(ToggleKey(selection, key), key) == selection
  {
    var once := ToggleKey(selection, key);
    if Selected(selection, key) {
      assert once == selection - {key};
      assert once[key := true] == selection;
    } else {
      assert key !in selection;
      assert once - {key} == selection;
    }
  }

  /** The order of two toggles does not matter. */
  lemma ToggleCommutes(selection: map<string, bool>, a: string, b: string)
    ensures ToggleKey(ToggleKey(selection, a), b) == ToggleKey(ToggleKey(selection, b), a)
  {
    var ab := ToggleKey(ToggleKey(selection, a), b);
    var ba := ToggleKey(ToggleKey(selection, b), a);
    if a != b {
      assert ab.Keys == ba.Keys;
      forall key | key in ab ensures ab[key] == ba[key] {
      }
    }
  }

  function NegativePart(es: seq<Entry>): int {
    if es == [] then 0 else (if es[0].points < 0 then es[0].points else 0) + NegativePart(es[1..])
  }

  function PositivePart(es: seq<Entry>): int {
    if es == [] then 0 else (if es[0].points > 0 then es[0].points else 0) + PositivePart(es[1..])
  }

  /** Any selection scores between the sum of the negative and the sum of the positive points. */
  lemma {:induction false} SelectedTotalBetween(selection: map<string, bool>, es: seq<Entry>)
    ensures NegativePart(es) <= SelectedTotal(selection, es) <= PositivePart(es)
  {
    if es != [] {
      SelectedTotalBetween(selection, es[1..]);
    }
  }

  function ItemsNegative(items: seq<AssessmentItem>): int {
    if items == [] then 0 else (if items[0].points < 0 then items[0].points else 0) + ItemsNegative(items[1..])
  }

  function ItemsPositive(items: seq<AssessmentItem>): int {
    if items == [] then 0 else (if items[0].points > 0 then items[0].points else 0) + ItemsPositive(items[1..])
  }

  function TableNegative(table: seq<AssessmentCategory>): int {
    if table == [] then 0 else ItemsNegative(table[0].items) + TableNegative(table[1..])
  }

  function TablePositive(table: seq<AssessmentCategory>): int {
    if table == [] then 0 else ItemsPositive(table[0].items) + TablePositive(table[1..])
  }

  lemma {:induction false} ItemParts(category: string, items: seq<AssessmentItem>, from: nat, es: seq<Entry>)
    ensures NegativePart(ItemEntries(category, items, from) + es) == ItemsNegative(items) + NegativePart(es)
    ensures PositivePart(ItemEntries(category, items, from) + es) == ItemsPositive(items) + PositivePart(es)
  {
    if items != [] {
      var whole := ItemEntries(category, items, from) + es;
      assert whole[0].points == items[0].points;
      assert whole[1..] == ItemEntries(category, items[1..], from + 1) + es;
      ItemParts(category, items[1..], from + 1, es);
    } else {
      assert ItemEntries(category, items, from) + es == es;
    }
  }

  lemma {:induction false} TableParts(table: seq<AssessmentCategory>)
    ensures NegativePart(Entries(table)) == TableNegative(table)
    ensures PositivePart(Entries(table)) == TablePositive(table)
  {
    if table != [] {
      TableParts(table[1..]);
      ItemParts(table[0].category, table[0].items, 0, Entries(table[1..]));
    }
  }

  lemma SleepSums() ensures ItemsPositive(SleepItems()) == 115 && ItemsNegative(SleepItems()) == 0 { }
  lemma NutritionSums() ensures ItemsPositive(NutritionItems()) == 35 && ItemsNegative(NutritionItems()) == 0 { }
  lemma ActiveSums() ensures ItemsPositive(ActiveItems()) == 115 && ItemsNegative(ActiveItems()) == 0 { }
  lemma DelaySums() ensures ItemsPositive(DelayItems()) == 0 && ItemsNegative(DelayItems()) == -105 { }

  /** The extremes of a four-category table are the sums of its categories' extremes. */
  lemma FourCategorySums(t: seq<AssessmentCategory>)
    requires |t| == 4
    ensures TableNegative(t) == ItemsNegative(t[0].items) + ItemsNegative(t[1].items) + ItemsNegative(t[2].items) + ItemsNegative(t[3].items)
    ensures TablePositive(t) == ItemsPositive(t[0].items) + ItemsPositive(t[1].items) + ItemsPositive(t[2].items) + ItemsPositive(t[3].items)
  {
    var t1 := t[1..];
    var t2 := t1[1..];
    var t3 := t2[1..];
    assert t1[0] == t[1] && t2[0] == t[2] && t3[0] == t[3] && t3[1..] == [];
    assert TableNegative(t3) == ItemsNegative(t[3].items);
    assert TablePositive(t3) == ItemsPositive(t[3].items);
    assert TableNegative(t2) == ItemsNegative(t[2].items) + TableNegative(t3);
    assert TablePositive(t2) == ItemsPositive(t[2].items) + TablePositive(t3);
    assert TableNegative(t1) == ItemsNegative(t[1].items) + TableNegative(t2);
    assert TablePositive(t1) == ItemsPositive(t[1].items) + TablePositive(t2);
  }

  lemma TableExtremes()
    ensures TableNegative(AssessmentItems) == -105
    ensures TablePositive(AssessmentItems) == 265
  {
    var t := AssessmentItems;
    assert t[0].items == SleepItems() && t[1].items == NutritionItems();
    assert t[2].items == ActiveItems() && t[3].items == DelayItems();
    SleepSums();
    NutritionSums();
    ActiveSums();
    DelaySums();
    ExtremesOf(t);
  }

  lemma ExtremesOf(t: seq<AssessmentCategory>)
    requires |t| == 4
    requires ItemsNegative(t[0].items) == 0 && ItemsPositive(t[0].items) == 115
    requires ItemsNegative(t[1].items) == 0 && ItemsPositive(t[1].items) == 35
    requires ItemsNegative(t[2].items) == 0 && ItemsPositive(t[2].items) == 115
    requires ItemsNegative(t[3].items) == -105 && ItemsPositive(t[3].items) == 0
    ensures TableNegative(t) == -105 && TablePositive(t) == 265
  {
    FourCategorySums(t);
  }

  /** With the screen's table every total lies in [-105, 265]. */
  lemma TotalRange(selection: map<string, bool>)
    ensures -105 <= SelectedTotal(selection, Entries(AssessmentItems)) <= 265
  {
    var table := AssessmentItems;
    SelectedTotalBetween(selection, Entries(table));
    TableParts(table);
    TableExtremes();
  }

  /** Whether (category, itemIndex, points) is an item of the table, as every click passes. */
  predicate InTable(table: seq<AssessmentCategory>, category: string, itemIndex: nat, points: int) {
    exists k :: 0 <= k < |table| && table[k].category == category
      && itemIndex < |table[k].items| && table[k].items[itemIndex].points == points
  }

  /** The request line of a selected item names its category and its text. */
  lemma DecodeItemKey(table: seq<AssessmentCategory>, k: nat, itemIndex: nat)
    requires WellFormedTable(table)
    requires k < |table| && itemIndex < |table[k].items|
    ensures var c := table[k];
      DecodeActivity(table, ItemKey(c.category, itemIndex)) == c.category + ": " + c.items[itemIndex].text
  {
    ItemKeySplits(table[k].category, itemIndex);
    ParseIntNatToString(itemIndex);
    FirstCategory(table, k);
  }

  /** The key of an index past the end of its category's items is passed through unchanged. */
  lemma DecodeIndexOutOfRange(table: seq<AssessmentCategory>, k: nat, itemIndex: nat)
    requires WellFormedTable(table)
    requires k < |table| && itemIndex >= |table[k].items|
    ensures DecodeActivity(table, ItemKey(table[k].category, itemIndex)) == ItemKey(table[k].category, itemIndex)
  {
    ItemKeySplits(table[k].category, itemIndex);
    ParseIntNatToString(itemIndex);
    FirstCategory(table, k);
  }

  /** The key of a category the table does not have is passed through unchanged. */
  lemma DecodeUnknownCategory(table: seq<AssessmentCategory>, category: string, itemIndex: nat)
    requires '-' !in category
    requires forall k :: 0 <= k < |table| ==> table[k].category != category
    ensures DecodeActivity(table, ItemKey(category, itemIndex)) == ItemKey(category, itemIndex)
  {
    ItemKeySplits(category, itemIndex);
  }

  /** One checkbox of the screen: item `item` of category `category`, ticked or not. */
  datatype Pick = Pick(category: nat, item: nat, on: bool)

  predicate ValidPicks(table: seq<AssessmentCategory>, picks: seq<Pick>) {
    forall j :: 0 <= j < |picks| ==> picks[j].category < |table| && picks[j].item < |table[picks[j].category].items|
  }

  /** The `selectedItems` entries the checkboxes leave behind, under their `category-index` keys. */
  function PickEntries(table: seq<AssessmentCategory>, picks: seq<Pick>): seq<(string, bool)>
    requires ValidPicks(table, picks)
  {
    if picks == [] then []
    else [(ItemKey(table[picks[0].category].category, picks[0].item), picks[0].on)] + PickEntries(table, picks[1..])
  }

  /** What the request should list: "category: item text" for every ticked checkbox, in order. */
  function PickedLines(table: seq<AssessmentCategory>, picks: seq<Pick>): seq<string>
    requires ValidPicks(table, picks)
  {
    if picks == [] then []
    else
      var p := picks[0];
      (if p.on then [table[p.category].category + ": " + table[p.category].items[p.item].text] else [])
      + PickedLines(table, picks[1..])
  }

  /**
   * The recovery request lists exactly the ticked items of the screen, in order, each as
   * "category: item text": decoding the keys undoes the way the screen built them.
   */
  lemma {:induction false} RequestListsTickedItems(table: seq<AssessmentCategory>, picks: seq<Pick>)
    requires WellFormedTable(table) && ValidPicks(table, picks)
    ensures SelectedActivities(PickEntries(table, picks), table) == PickedLines(table, picks)
  {
    if picks != [] {
      var p := picks[0];
      var es := PickEntries(table, picks);
      assert es[1..] == PickEntries(table, picks[1..]);
      SelectedActivitiesCons(es, table);
      DecodeItemKey(table, p.category, p.item);
      RequestListsTickedItems(table, picks[1..]);
    }
  }

  lemma {:induction false} FirstCategory(table: seq<AssessmentCategory>, k: nat)
    requires WellFormedTable(table) && k < |table|
    ensures FindCategory(table, table[k].category) == Some(table[k])
  {
    if k > 0 {
      FirstCategory(table[1..], k - 1);
    }
  }

  /** A click on an item of the table moves the total by exactly that item's points. */
  lemma ToggleItemTotal(table: seq<AssessmentCategory>, selection: map<string, bool>, category: string, itemIndex: nat, points: int)
    requires WellFormedTable(table) && InTable(table, category, itemIndex, points)
    ensures var key := ItemKey(category, itemIndex);
      SelectedTotal(ToggleKey(selection, key), Entries(table))
      == SelectedTotal(selection, Entries(table)) + (if Selected(selection, key) then -points else points)
  {
    var k :| 0 <= k < |table| && table[k].category == category
      && itemIndex < |table[k].items| && table[k].items[itemIndex].points == points;
    EntryAt(table, k, itemIndex);
    EntriesDistinct(table);
    ToggleEntry(selection, Entries(table), Offset(table, k) + itemIndex, ItemKey(category, itemIndex), points);
  }

  lemma ToggleEntry(selection: map<string, bool>, es: seq<Entry>, j: nat, key: string, points: int)
    requires DistinctKeys(es) && j < |es| && es[j] == Entry(key, points)
    ensures SelectedTotal(ToggleKey(selection, key), es)
         == SelectedTotal(selection, es) + (if Selected(selection, key) then -points else points)
  {
    ToggleTotal(selection, es, j);
  }

  datatype Badge = Green | Red

  // ---------------------------------------------------------------------------
  // The screen state

  class Assessment {
    /** The checklist the screen renders; fixed when the screen is created. */
    const table: seq<AssessmentCategory>
    var selectedItems: map<string, bool>
    var totalPoints: int

    /** The running total is the sum of the selected items' points. */
    ghost predicate Valid()
      reads this
    {
      && WellFormedTable(table)
      && AllTrue(selectedItems)
      && totalPoints == SelectedTotal(selectedItems, Entries(table))
    }

    /** A fresh screen over `items` (the screen passes `AssessmentItems`): nothing selected, total 0. */
    constructor (items: seq<AssessmentCategory>)
      requires WellFormedTable(items)
      ensures Valid() && table == items
      ensures selectedItems == map[] && totalPoints == 0
    {
      table := items;
      selectedItems := map[];
      totalPoints := 0;
      new;
      ZeroTotal(Entries(table));
    }

    /** `toggleItem(category, itemIndex, points)`, called with an item of the table. */
    method ToggleItem(category: string, itemIndex: nat, points: int)
      requires Valid() && InTable(table, category, itemIndex, points)
      modifies this
      ensures Valid()
      ensures selectedItems == ToggleKey(old(selectedItems), ItemKey(category, itemIndex))
      ensures totalPoints == if Selected(old(selectedItems), ItemKey(category, itemIndex))
                             then old(totalPoints) - points else old(totalPoints) + points
    {
      ToggleItemTotal(table, selectedItems, category, itemIndex, points);
      var key := ItemKey(category, itemIndex);
      var newSelected := selectedItems;
      if key in newSelected && newSelected[key] {
        newSelected := newSelected - {key};
        totalPoints := totalPoints - points;
      } else {
        newSelected := newSelected[key := true];
        totalPoints := totalPoints + points;
      }
      selectedItems := newSelected;
    }

    /** The score badge: green exactly when the selected points reach the target. */
    method ScoreBadge() returns (badge: Badge)
      requires Valid()
      ensures badge == Green <==> SelectedTotal(selectedItems, Entries(table)) >= TargetPoints
    {
      badge := if totalPoints >= TargetPoints then Green else Red;
    }
  }

  lemma {:induction false} ZeroTotal(es: seq<Entry>)
    ensures SelectedTotal(map[], es) == 0
  {
    if es != [] {
      ZeroTotal(es[1..]);
    }
  }
}
