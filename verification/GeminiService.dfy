/**
 * The pure parts of the AI-feedback service: shortening a model response to a
 * character budget, and turning recovery-checklist selection keys back into
 * readable "category: item" lines for the request.
 */
module GeminiService {
  import opened Wrappers
  import opened JsText

  /** The budget every caller passes, and the default of the budget parameter. */
  const DefaultMaxLength: nat := 1000

  predicate IsSentenceEnd(c: char) {
    c == '.' || c == '!' || c == '?'
  }

  /** The larger of the three `lastIndexOf` results, as `Math.max` takes it. */
  function Max3(a: int, b: int, c: int): (m: int)
    ensures m == a || m == b || m == c
    ensures m >= a && m >= b && m >= c
  {
    if a >= b && a >= c then a else if b >= c then b else c
  }

  /** The index of the last '.', '!' or '?' in `t`, or -1 when there is none. */
  function LastSentenceEnd(t: string): (i: int)
    ensures -1 <= i < |t|
    ensures i >= 0 ==> IsSentenceEnd(t[i])
    ensures forall k :: i < k < |t| ==> !IsSentenceEnd(t[k])
    ensures i == -1 <==> forall k :: 0 <= k < |t| ==> !IsSentenceEnd(t[k])
  {
    Max3(LastIndexOf(t, '.'), LastIndexOf(t, '!'), LastIndexOf(t, '?'))
  }

  /** The sentence break is accepted when it lies beyond 80% of the budget. */
  predicate LateEnough(i: int, maxLength: nat) {
    (i as real) > (maxLength as real) * 0.8
  }

  /**
   * `truncateToMaxLength`: text within the budget is returned as it is; otherwise
   * the text is cut after its last sentence end within the budget when that end is
   * late enough, and otherwise the first `maxLength` characters are trimmed and
   * "..." is appended.
   */
  function TruncateToMaxLength(text: string, maxLength: nat): (r: string)
    ensures |text| <= maxLength ==> r == text
    ensures |r| <= maxLength + 3
    ensures |text| > maxLength ==> |r| <= maxLength || (|r| >= 3 && r[|r| - 3..] == "...")
  {
    if |text| <= maxLength then text
    else
      var truncated := text[..maxLength];
      var lastSentenceEnd := LastSentenceEnd(truncated);
      if LateEnough(lastSentenceEnd, maxLength) then text[..lastSentenceEnd + 1]
      else Trim(truncated) + "..."
  }

  /** The real-valued 80% test is the integer test 5i > 4·maxLength. */
  lemma LateEnoughIsIntegerTest(i: int, maxLength: nat)
    ensures LateEnough(i, maxLength) <==> 5 * i > 4 * maxLength
  {
  }

  /** When the sentence break is taken, the result is the text up to and including it. */
  lemma SentenceBranch(text: string, maxLength: nat)
    requires |text| > maxLength
    requires 5 * LastSentenceEnd(text[..maxLength]) > 4 * maxLength
    ensures var i := LastSentenceEnd(text[..maxLength]);
      && var r := TruncateToMaxLength(text, maxLength);
      && r == text[..i + 1]
      && r <= text
      && |r| <= maxLength
      && IsSentenceEnd(r[|r| - 1])
      && forall k :: |r| <= k < maxLength ==> !IsSentenceEnd(text[k])
  {
    var t := text[..maxLength];
    var i := LastSentenceEnd(t);
    LateEnoughIsIntegerTest(i, maxLength);
    assert forall k :: i < k < maxLength ==> t[k] == text[k];
  }

  /** Without a late sentence break, the result is the trimmed budget-sized prefix plus "...". */
  lemma EllipsisBranch(text: string, maxLength: nat)
    requires |text| > maxLength
    requires 5 * LastSentenceEnd(text[..maxLength]) <= 4 * maxLength
    ensures var r := TruncateToMaxLength(text, maxLength);
      && r == Trim(text[..maxLength]) + "..."
      && r[|r| - 3..] == "..."
      && |r| <= maxLength + 3
  {
    LateEnoughIsIntegerTest(LastSentenceEnd(text[..maxLength]), maxLength);
  }

  /** A result cut at a sentence break is left alone by a second truncation. */
  lemma SentenceCutIsFixedPoint(text: string, maxLength: nat)
    requires |text| > maxLength
    requires 5 * LastSentenceEnd(text[..maxLength]) > 4 * maxLength
    ensures var r := TruncateToMaxLength(text, maxLength);
      TruncateToMaxLength(r, maxLength) == r
  {
    SentenceBranch(text, maxLength);
  }

  // ---------------------------------------------------------------------------
  // Recovery checklist data, as the recovery screen passes it to the service

  datatype AssessmentItem = AssessmentItem(text: string, points: int)

  datatype AssessmentCategory = AssessmentCategory(category: string, items: seq<AssessmentItem>)

  /** `assessmentItems.find(item => item.category === name)`: the first category with that name. */
  function FindCategory(table: seq<AssessmentCategory>, name: string): (r: Option<AssessmentCategory>)
    ensures r.Some? ==> r.value in table && r.value.category == name
    ensures r.None? <==> forall k :: 0 <= k < |table| ==> table[k].category != name
  {
    if table == [] then None
    else if table[0].category == name then Some(table[0])
    else FindCategory(table[1..], name)
  }

  /**
   * One selection key rendered for the request: the key is split at '-', and when
   * the first piece names a category whose items include the index given by the
   * second piece, the line is "category: item text"; otherwise the key itself.
   */
  function DecodeActivity(table: seq<AssessmentCategory>, key: string): (line: string)
    ensures line == key || exists k, i :: ItemLine(table, k, i, line)
  {
    var parts := Split(key, '-');
    var category := parts[0];
    // Destructuring a one-piece split leaves the index undefined, and parseInt(undefined) is NaN.
    var index := if |parts| >= 2 then ParseInt(parts[1]) else None;
    match FindCategory(table, category)
    case Some(found) =>
      if index.Some? && 0 <= index.value < |found.items| then
        var line := category + ": " + found.items[index.value].text;
        assert exists k :: ItemLine(table, k, index.value, line) by {
          var k :| 0 <= k < |table| && table[k] == found;
          assert ItemLine(table, k, index.value, line);
        }
        line
      else key
    case None => key
  }

  /** `line` is "category: item text" for item `i` of category `k` of the table. */
  predicate ItemLine(table: seq<AssessmentCategory>, k: int, i: int, line: string) {
    0 <= k < |table| && 0 <= i < |table[k].items| && line == table[k].category + ": " + table[k].items[i].text
  }

  /** A key with no '-' has no index part, so it is passed through as it is. */
  lemma DecodeKeyWithoutDash(table: seq<AssessmentCategory>, key: string)
    requires '-' !in key
    ensures DecodeActivity(table, key) == key
  {
    assert Join([key], '-') == key;
    SplitJoin([key], '-');
  }

  /** A key whose index part `parseInt` reads as NaN is passed through as it is. */
  lemma DecodeIndexNaN(table: seq<AssessmentCategory>, category: string, index: string)
    requires '-' !in category && '-' !in index && ParseInt(index).None?
    ensures DecodeActivity(table, category + "-" + index) == category + "-" + index
  {
    var key := category + "-" + index;
    assert Join([category, index], '-') == key;
    SplitJoin([category, index], '-');
  }

  /** `Object.keys(selectedItems).filter(key => selectedItems[key])`, over the entries in key order. */
  function SelectedKeys(entries: seq<(string, bool)>): (keys: seq<string>)
    ensures |keys| <= |entries|
    ensures forall key :: key in keys <==> (key, true) in entries
  {
    if entries == [] then []
    else
      var rest := SelectedKeys(entries[1..]);
      assert entries == [entries[0]] + entries[1..];
      if entries[0].1 then [entries[0].0] + rest else rest
  }

  /** The activity lines of the recovery request: each key mapped to true, decoded, in order. */
  function SelectedActivities(entries: seq<(string, bool)>, table: seq<AssessmentCategory>): (lines: seq<string>)
    ensures |lines| == |SelectedKeys(entries)|
    ensures forall k :: 0 <= k < |lines| ==> lines[k] == DecodeActivity(table, SelectedKeys(entries)[k])
  {
    DecodeKeys(table, SelectedKeys(entries))
  }

  /** `keys.map(...)`: every key decoded, in order. */
  function DecodeKeys(table: seq<AssessmentCategory>, keys: seq<string>): (lines: seq<string>)
    ensures |lines| == |keys|
    ensures forall k :: 0 <= k < |keys| ==> lines[k] == DecodeActivity(table, keys[k])
  {
    if keys == [] then [] else [DecodeActivity(table, keys[0])] + DecodeKeys(table, keys[1..])
  }

  /** Keys keep their order: an entry added at the end contributes its key, if selected, at the end. */
  lemma {:induction false} SelectedKeysAppend(entries: seq<(string, bool)>, e: (string, bool))
    ensures SelectedKeys(entries + [e]) == SelectedKeys(entries) + (if e.1 then [e.0] else [])
  {
    if entries == [] {
      assert [e][1..] == [];
    } else {
      assert (entries + [e])[1..] == entries[1..] + [e];
      SelectedKeysAppend(entries[1..], e);
    }
  }

  /** The first entry's line, if it is selected, comes before all the others. */
  lemma SelectedActivitiesCons(entries: seq<(string, bool)>, table: seq<AssessmentCategory>)
    requires entries != []
    ensures SelectedActivities(entries, table) ==
      (if entries[0].1 then [DecodeActivity(table, entries[0].0)] else []) + SelectedActivities(entries[1..], table)
  {
    var keys := SelectedKeys(entries);
    var restKeys := SelectedKeys(entries[1..]);
    if entries[0].1 {
      assert keys == [entries[0].0] + restKeys;
      assert keys[1..] == restKeys;
    } else {
      assert keys == restKeys;
    }
  }
}
