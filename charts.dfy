/**
 * The two aggregations behind the dashboard charts: activity frequency
 * (every record's Activity split on `,`, trimmed, empty tokens dropped,
 * occurrences counted) and time-slot frequency (records counted by their
 * Time value). Labels and values come out as parallel sequences, in the
 * order the labels were first met.
 */
module Charts {
  import opened Wrappers
  import opened Text
  import opened Records
  import Tally

  /** The data handed to one chart: labels paired by index with counts. */
  datatype Chart<K> = Chart(labels: seq<K>, data: seq<nat>)

  /** What one render of the dashboard shows. */
  datatype Dashboard = Dashboard(activity: Chart<string>, time: Chart<Option<string>>)

  /** `records.flatMap(r => (r.Activity || '').split(',').map(a => a.trim()))`. */
  function ActivityPieces(records: seq<Record>): seq<string> {
    if records == [] then [] else DisplayTags(records[0]) + ActivityPieces(records[1..])
  }

  /** The flat-mapped pieces with the empty ones filtered out. */
  function ActivityTokens(records: seq<Record>): (tokens: seq<string>)
    ensures forall t :: t in tokens ==> t != [] && Trimmed(t) && ',' !in t
  {
    var pieces := ActivityPieces(records);
    PiecesTrimmed(records);
    NonEmpty(pieces)
  }

  lemma {:induction false} PiecesTrimmed(records: seq<Record>)
    ensures forall t :: t in ActivityPieces(records) ==> Trimmed(t) && ',' !in t
  {
    if records != [] {
      PiecesTrimmed(records[1..]);
      DisplayTagsClean(records[0]);
    }
  }

  /** The tokens one record contributes to the activity chart. */
  function RecordTokens(r: Record): seq<string> {
    NonEmpty(DisplayTags(r))
  }

  /** How many tokens equal to `a` the records contribute, record by record. */
  function TokensPerRecord(records: seq<Record>, a: string): nat {
    if records == [] then 0 else multiset(RecordTokens(records[0]))[a] + TokensPerRecord(records[1..], a)
  }

  /** How many tokens the records contribute in all, record by record. */
  function TokenTotal(records: seq<Record>): nat {
    if records == [] then 0 else |RecordTokens(records[0])| + TokenTotal(records[1..])
  }

  function ActivityChart(records: seq<Record>): Chart<string> {
    var counts := Tally.Count(ActivityTokens(records));
    Chart(Tally.Keys(counts), Tally.Values(counts))
  }

  /** `recordsCache.map(r => r.Time)`, the keys of the time-slot count. */
  function TimeSlots(records: seq<Record>): (slots: seq<Option<string>>)
    ensures |slots| == |records|
    ensures forall i :: 0 <= i < |records| ==> slots[i] == records[i].Time
  {
    seq(|records|, i requires 0 <= i < |records| => records[i].Time)
  }

  function TimeChart(records: seq<Record>): Chart<Option<string>> {
    var counts := Tally.Count(TimeSlots(records));
    Chart(Tally.Keys(counts), Tally.Values(counts))
  }

  /** `renderCharts`: both charts over the cached records. */
  function Render(records: seq<Record>): Dashboard {
    Dashboard(ActivityChart(records), TimeChart(records))
  }

  // ---------------------------------------------------------------------
  // Filtering after the flat map is filtering record by record

  lemma {:induction false} NonEmptyConcat(a: seq<string>, b: seq<string>)
    ensures NonEmpty(a + b) == NonEmpty(a) + NonEmpty(b)
  {
    if a == [] {
      assert a + b == b;
    } else {
      assert (a + b)[1..] == a[1..] + b;
      NonEmptyConcat(a[1..], b);
    }
  }

  lemma {:induction false} TokensByRecord(records: seq<Record>, a: string)
    ensures multiset(ActivityTokens(records))[a] == TokensPerRecord(records, a)
    ensures |ActivityTokens(records)| == TokenTotal(records)
  {
    if records != [] {
      var rest := records[1..];
      TokensByRecord(rest, a);
      NonEmptyConcat(DisplayTags(records[0]), ActivityPieces(rest));
      assert ActivityPieces(records) == DisplayTags(records[0]) + ActivityPieces(rest);
      assert ActivityTokens(records) == RecordTokens(records[0]) + ActivityTokens(rest);
    }
  }

  /** A record whose Activity is missing or empty contributes no token. */
  lemma MissingActivityContributesNothing(r: Record)
    requires r.Activity == None || r.Activity == Some("")
    ensures RecordTokens(r) == []
  {
    var tags := DisplayTags(r);
    assert ActivityText(r) == "";
    assert |Trim("")| == 0;
    assert tags == [""];
  }

  /**
   * The activity chart: no label is empty or has spaces at its ends;
   * labels are pairwise distinct and are exactly the tokens that occur;
   * labels and values have equal length, and the value paired with a
   * label is the number of tokens equal to it, summed over the records;
   * the values add up to the number of tokens of all records.
   */
  lemma ActivityChartSpec(records: seq<Record>)
    ensures var c := ActivityChart(records);
      && |c.labels| == |c.data|
      && (forall l :: l in c.labels ==> l != "" && Trimmed(l))
      && Tally.Distinct(c.labels)
      && (forall a :: a in c.labels <==> a in ActivityTokens(records))
      && (forall i :: 0 <= i < |c.labels| ==> c.data[i] == TokensPerRecord(records, c.labels[i]) > 0)
      && Tally.Sum(c.data) == TokenTotal(records)
  {
    var tokens := ActivityTokens(records);
    Tally.CountSpec(tokens);
    var c := ActivityChart(records);
    forall i | 0 <= i < |c.labels| ensures c.data[i] == TokensPerRecord(records, c.labels[i]) {
      TokensByRecord(records, c.labels[i]);
    }
    TokensByRecord(records, "");
  }

  /** The distinct Time values of the records are the distinct slots. */
  lemma TimeSlotsSet(records: seq<Record>)
    ensures (set x | x in TimeSlots(records)) == (set r | r in records :: r.Time)
  {
    var slots := TimeSlots(records);
    forall x | x in slots ensures x in (set r | r in records :: r.Time) {
      var i :| 0 <= i < |slots| && slots[i] == x;
      assert records[i] in records;
    }
    forall r | r in records ensures r.Time in slots {
      var i :| 0 <= i < |records| && records[i] == r;
      assert slots[i] == r.Time;
    }
  }

  /**
   * The time-slot chart's labels: one per distinct Time value, pairwise
   * distinct, and as many as there are values.
   */
  lemma TimeChartLabels(records: seq<Record>)
    ensures var c := TimeChart(records);
      && |c.labels| == |c.data|
      && Tally.Distinct(c.labels)
      && (forall t :: t in c.labels <==> t in TimeSlots(records))
      && |c.labels| == |set r | r in records :: r.Time|
  {
    Tally.CountSpec(TimeSlots(records));
    TimeSlotsSet(records);
  }

  /**
   * The time-slot chart's values: each is the number of records with its
   * label's Time, and together they add up to the number of records.
   */
  lemma TimeChartCounts(records: seq<Record>)
    ensures var c := TimeChart(records);
      && (forall i :: 0 <= i < |c.data| ==> i < |c.labels| && c.data[i] == multiset(TimeSlots(records))[c.labels[i]] > 0)
      && Tally.Sum(c.data) == |records|
  {
    Tally.CountSpec(TimeSlots(records));
  }

  /** Three records timed 30분, 30분 and 1~2시간 give two slices, of 2 and 1. */
  lemma TimeChartExample(r1: Record, r2: Record, r3: Record)
    requires r1.Time == Some("30분") && r2.Time == Some("30분") && r3.Time == Some("1~2시간")
    ensures TimeChart([r1, r2, r3]) == Chart([Some("30분"), Some("1~2시간")], [2, 1])
  {
    var half, oneTwo := Some("30분"), Some("1~2시간");
    assert half != oneTwo;
    var slots := TimeSlots([r1, r2, r3]);
    assert slots == [half, half, oneTwo];
    CountThree(half, oneTwo);
  }

  /** Counting `[x, x, y]` with `x != y`. */
  lemma CountThree<K>(x: K, y: K)
    requires x != y
    ensures Tally.Count([x, x, y]) == [(x, 2), (y, 1)]
  {
    assert [x, x, y][..2] == [x, x];
    assert [x, x][..1] == [x];
    assert [x][..0] == [];
    assert Tally.Count([x]) == [(x, 1)];
    assert Tally.Count([x, x]) == [(x, 2)];
    assert Tally.Bump([(x, 2)], y) == [(x, 2)] + Tally.Bump([], y);
  }

  /** Counting three distinct elements. */
  lemma CountDistinctThree<K>(x: K, y: K, z: K)
    requires x != y && y != z && x != z
    ensures Tally.Count([x, y, z]) == [(x, 1), (y, 1), (z, 1)]
  {
    assert [x, y, z][..2] == [x, y];
    assert [x, y][..1] == [x];
    assert [x][..0] == [];
    assert Tally.Count([x]) == [(x, 1)];
    assert Tally.Bump([(x, 1)], y) == [(x, 1)] + Tally.Bump([], y);
    assert Tally.Count([x, y]) == [(x, 1), (y, 1)];
    assert Tally.Bump([(y, 1)], z) == [(y, 1)] + Tally.Bump([], z);
    assert Tally.Bump([(x, 1), (y, 1)], z) == [(x, 1)] + Tally.Bump([(y, 1)], z);
  }

  lemma SplitExample()
    ensures Split("a, b ,c", ',') == ["a", " b ", "c"]
  {
    var tail := " b " + [','] + "c";
    assert Split(tail, ',') == [" b ", "c"] by {
      assert ',' !in " b " && ',' !in "c";
      SplitAtSeparator(" b ", ',', "c");
      SplitNoSeparator("c", ',');
    }
    assert "a, b ,c" == "a" + [','] + tail;
    assert ',' !in "a";
    SplitAtSeparator("a", ',', tail);
  }

  lemma TrimExample()
    ensures Trim("a") == "a" && Trim(" b ") == "b" && Trim("c") == "c"
  {
    assert !IsJsSpace('a') && !IsJsSpace('b') && !IsJsSpace('c');
    TrimWord('a');
    TrimWord('c');
    TrimPadded('b');
  }

  lemma TrimWord(c: char)
    requires !IsJsSpace(c)
    ensures Trim([c]) == [c]
  {
    TrimOfTrimmed([c]);
  }

  lemma TrimPadded(c: char)
    requires !IsJsSpace(c)
    ensures Trim([' ', c, ' ']) == [c]
  {
    var s := [' ', c, ' '];
    assert IsJsSpace(' ');
    assert SkipSpaces(s, 1) == 1;
    assert LeadingSpaces(s) == 1;
    assert SkipSpacesBack(s, 1, 2) == 2;
    assert TrimmedEnd(s) == 2;
    assert s[1..2] == [c];
  }

  lemma ExampleTags(r: Record)
    requires r.Activity == Some("a, b ,c")
    ensures DisplayTags(r) == ["a", "b", "c"]
  {
    var pieces: seq<string> := ["a", " b ", "c"];
    assert Split(ActivityText(r), ',') == pieces by {
      SplitExample();
    }
    TrimThree(pieces);
    TrimExample();
  }

  lemma TrimThree(pieces: seq<string>)
    requires |pieces| == 3
    ensures TrimAll(pieces) == [Trim(pieces[0]), Trim(pieces[1]), Trim(pieces[2])]
  {
    TrimAllAt(pieces, 0);
    TrimAllAt(pieces, 1);
    TrimAllAt(pieces, 2);
  }

  lemma ExampleTokens(r: Record)
    requires DisplayTags(r) == ["a", "b", "c"]
    ensures ActivityTokens([r]) == ["a", "b", "c"]
  {
    var abc: seq<string> := ["a", "b", "c"];
    assert [r][1..] == [];
    assert ActivityPieces([r]) == abc;
    assert abc[1..] == ["b", "c"] && abc[1..][1..] == ["c"];
    assert NonEmpty(abc) == abc;
  }

  /** The Activity `"a, b ,c"` gives three one-count bars, without the spaces. */
  lemma ActivityChartExample(r: Record)
    requires r.Activity == Some("a, b ,c")
    ensures ActivityChart([r]) == Chart(["a", "b", "c"], [1, 1, 1])
  {
    ExampleTags(r);
    ExampleTokens(r);
    CountDistinctThree("a", "b", "c");
  }
}
