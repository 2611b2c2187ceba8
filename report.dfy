/** The content of the exported mood report (`export_pdf`): the header, the
    summary table of counts per mood, the detail table of entries and the
    suggested file name. The page layout and the PDF bytes are not modelled;
    the tables are sequences of rows of cell strings.

    The specification functions (`ReportOf` and its parts) say what the
    report holds; the methods build it with the loops the service uses and
    are proved to produce exactly that. */
module Report {
  import opened Basics
  import opened StringOrder
  import opened MoodConfig
  import opened Entries
  import opened Frequencies

  /** One table row: its cells, left to right. */
  type Row = seq<string>

  const Title: string := "Mood Report"
  const SummaryHeader: Row := ["Mood", "Count"]
  const DetailHeader: Row := ["Date", "Mood", "Emoji", "Note"]

  /** Notes longer than this are cut in the detail table. */
  const NoteLimit: nat := 200

  /** The colour of a configured mood that has none. */
  const DefaultColor: string := "#999999"

  // ---------------------------------------------------------------------------
  // Lookups built from the palette
  // ---------------------------------------------------------------------------

  /** No later mood of the palette has the value of `moods[i]`. */
  predicate LastWithValue(moods: seq<Mood>, i: nat)
    requires i < |moods|
  {
    forall j :: i < j < |moods| ==> moods[j].value != moods[i].value
  }

  /** A dictionary comprehension `{m['value']: f(m) for m in moods}`: its keys
      are exactly the configured values. */
  function LookupMap<V>(moods: seq<Mood>, f: Mood -> V): (m: map<string, V>)
    ensures forall v :: v in m <==> exists i :: 0 <= i < |moods| && moods[i].value == v
  {
    if moods == [] then map[]
    else
      var prefix, last := moods[..|moods| - 1], moods[|moods| - 1];
      assert forall i :: 0 <= i < |prefix| ==> prefix[i] == moods[i];
      LookupMap(prefix, f)[last.value := f(last)]
  }

  /** When a value is configured more than once, the later mood wins. */
  lemma {:induction false} LookupMapLastWins<V>(moods: seq<Mood>, f: Mood -> V, i: nat)
    requires i < |moods| && LastWithValue(moods, i)
    ensures moods[i].value in LookupMap(moods, f)
    ensures LookupMap(moods, f)[moods[i].value] == f(moods[i])
  {
    var prefix, last := moods[..|moods| - 1], moods[|moods| - 1];
    if i < |moods| - 1 {
      assert prefix[i] == moods[i];
      assert LastWithValue(prefix, i);
      LookupMapLastWins(prefix, f, i);
    }
  }

  /** `m.get('label', m['value'])`; the label is always present. */
  function MoodLabel(m: Mood): string
  {
    m.labelText
  }

  /** `m.get('color') or '#999999'`. */
  function MoodColor(m: Mood): string
  {
    OrElse(m.color, DefaultColor)
  }

  /** `label_map`. */
  function LabelMap(moods: seq<Mood>): map<string, string>
  {
    LookupMap(moods, MoodLabel)
  }

  /** `color_map`: a configured mood's colour, or `#999999` when it has none. */
  function ColorMap(moods: seq<Mood>): map<string, string>
  {
    LookupMap(moods, MoodColor)
  }

  /** `label_map.get(mv, mv)`. */
  function LabelFor(labels: map<string, string>, v: string): string
  {
    if v in labels then labels[v] else v
  }

  /** A mood value shows as its configured label (the label of the last mood
      with that value), and a value the palette does not configure shows as
      itself. */
  lemma LabelLookup(moods: seq<Mood>, v: string)
    ensures (forall i :: 0 <= i < |moods| ==> moods[i].value != v) ==> LabelFor(LabelMap(moods), v) == v
    ensures forall i :: 0 <= i < |moods| && moods[i].value == v && LastWithValue(moods, i) ==>
      LabelFor(LabelMap(moods), v) == moods[i].labelText
  {
    forall i | 0 <= i < |moods| && moods[i].value == v && LastWithValue(moods, i)
      ensures LabelFor(LabelMap(moods), v) == moods[i].labelText
    {
      LookupMapLastWins(moods, MoodLabel, i);
    }
  }

  /** A configured mood maps to its colour, or to `#999999` when its colour is
      missing or empty. */
  lemma ColorLookup(moods: seq<Mood>, i: nat)
    requires i < |moods| && LastWithValue(moods, i)
    ensures moods[i].value in ColorMap(moods)
    ensures Given(moods[i].color) ==> ColorMap(moods)[moods[i].value] == moods[i].color.value
    ensures !Given(moods[i].color) ==> ColorMap(moods)[moods[i].value] == DefaultColor
  {
    LookupMapLastWins(moods, MoodColor, i);
  }

  // ---------------------------------------------------------------------------
  // Cells and rows
  // ---------------------------------------------------------------------------

  /** `(note or '')[:200]`: at most 200 characters, a prefix of the note, the
      whole note when it fits, and the empty string for a missing note. */
  function NoteCell(note: Option<string>): (cell: string)
    ensures |cell| <= NoteLimit
    ensures cell <= OrElse(note, "")
    ensures |OrElse(note, "")| <= NoteLimit ==> cell == OrElse(note, "")
    ensures |OrElse(note, "")| > NoteLimit ==> |cell| == NoteLimit
  {
    var text := OrElse(note, "");
    if |text| <= NoteLimit then text else text[..NoteLimit]
  }

  function SummaryRow(labels: map<string, string>, item: MoodCount): Row
  {
    [LabelFor(labels, item.value), NatToString(item.count)]
  }

  function DetailRow(labels: map<string, string>, e: Entry): Row
  {
    [e.date, LabelFor(labels, e.moodValue), e.emoji, NoteCell(e.note)]
  }

  /** The summary table: a header, then one row per item in the given order. */
  function SummaryRows(items: seq<MoodCount>, labels: map<string, string>): seq<Row>
  {
    [SummaryHeader] + seq(|items|, k requires 0 <= k < |items| => SummaryRow(labels, items[k]))
  }

  /** The detail table: a header, then one row per entry in the given order. */
  function DetailRows(es: seq<Entry>, labels: map<string, string>): seq<Row>
  {
    [DetailHeader] + seq(|es|, i requires 0 <= i < |es| => DetailRow(labels, es[i]))
  }

  function MoodValues(es: seq<Entry>): seq<string>
  {
    seq(|es|, i requires 0 <= i < |es| => es[i].moodValue)
  }

  /** `counts.items()`: each key with its count, in key order. */
  function ItemsOf(keys: seq<string>, counts: map<string, nat>): seq<MoodCount>
    requires forall v :: v in keys ==> v in counts
  {
    seq(|keys|, k requires 0 <= k < |keys| => MoodCount(keys[k], counts[keys[k]]))
  }

  /** The counting dictionary after scanning `vs`: its keys, in insertion
      order, are the values first seen in `vs`, each mapped to its number of
      occurrences. */
  ghost predicate CountsMatch(keys: seq<string>, counts: map<string, nat>, vs: seq<string>)
  {
    && keys == FirstSeen(vs)
    && (forall v :: v in counts <==> v in keys)
    && (forall v :: v in counts ==> counts[v] == Occurrences(vs, v))
  }

  /** `counts[mv] = counts.get(mv, 0) + 1` for a value already counted keeps
      the dictionary in step with the scanned values. */
  lemma CountKnownValue(keys: seq<string>, counts: map<string, nat>, vs: seq<string>, x: string)
    requires CountsMatch(keys, counts, vs) && x in counts
    ensures CountsMatch(keys, counts[x := counts[x] + 1], vs + [x])
  {
    assert x in keys;
    FirstSeenSnoc(vs, x);
    assert FirstSeen(vs + [x]) == keys;
    var after := counts[x := counts[x] + 1];
    assert after.Keys == counts.Keys;
    forall v | v in after ensures after[v] == Occurrences(vs + [x], v) {
      OccurrencesSnoc(vs, x, v);
      if v == x {
        assert after[v] == counts[x] + 1;
      } else {
        assert after[v] == counts[v];
      }
    }
  }

  /** The same for a value seen for the first time, which becomes the last key. */
  lemma CountNewValue(keys: seq<string>, counts: map<string, nat>, vs: seq<string>, x: string)
    requires CountsMatch(keys, counts, vs) && x !in counts
    ensures CountsMatch(keys + [x], counts[x := 1], vs + [x])
  {
    FirstSeenSnoc(vs, x);
    var after := counts[x := 1];
    forall v | v in after ensures after[v] == Occurrences(vs + [x], v) {
      OccurrencesSnoc(vs, x, v);
    }
  }

  /** A dictionary in step with all of `vs` has the frequency table as its
      items. */
  lemma ItemsOfTally(keys: seq<string>, counts: map<string, nat>, vs: seq<string>)
    requires CountsMatch(keys, counts, vs)
    ensures ItemsOf(keys, counts) == Tally(vs)
  {
  }

  /** One more entry adds its mood value at the end. */
  lemma MoodValuesSnoc(es: seq<Entry>, i: nat)
    requires i < |es|
    ensures MoodValues(es[..i + 1]) == MoodValues(es[..i]) + [es[i].moodValue]
  {
  }

  /** The summary table, or none when there is nothing to count. */
  function SummaryOf(es: seq<Entry>, labels: map<string, string>): Option<seq<Row>>
  {
    var counts := Tally(MoodValues(es));
    if counts == [] then None else Some(SummaryRows(SortByCountDesc(counts), labels))
  }

  // ---------------------------------------------------------------------------
  // Header line and file name
  // ---------------------------------------------------------------------------

  /** The timeframe line: "All time" exactly when neither bound is given. */
  function Timeframe(start: Option<string>, end: Option<string>): (line: string)
    ensures line == "All time" <==> !Given(start) && !Given(end)
  {
    if !(Given(start) || Given(end)) then "All time"
    else
      var line := "From " + OrElse(start, "...") + " to " + OrElse(end, "...");
      assert line[0] == 'F';
      line
  }

  const FilenamePrefix: string := "mood_report_"
  const FilenameSuffix: string := ".pdf"

  /** The suggested file name: `mood_report_{start or 'start'}_{end or 'end'}.pdf`. */
  function Filename(start: Option<string>, end: Option<string>): (name: string)
    ensures FilenamePrefix <= name
    ensures |name| >= |FilenameSuffix| && name[|name| - |FilenameSuffix|..] == FilenameSuffix
  {
    FilenamePrefix + OrElse(start, "start") + "_" + OrElse(end, "end") + FilenameSuffix
  }

  lemma DropCommonPrefix(p: string, x: string, y: string)
    requires p + x == p + y
    ensures x == y
  {
    assert x == (p + x)[|p|..];
    assert y == (p + y)[|p|..];
  }

  lemma DropCommonSuffix(x: string, y: string, q: string)
    requires x + q == y + q
    ensures x == y
  {
    assert x == (x + q)[..|x|];
    assert y == (y + q)[..|y|];
  }

  lemma Regroup(p: string, a: string, b: string, q: string)
    ensures p + a + "_" + b + q == p + (a + ['_'] + (b + q))
  {
  }

  /** Position of the first `sep` in `s`, or `|s|` when there is none. */
  function SeparatorIndex(s: string, sep: char): (i: nat)
    ensures i <= |s|
    ensures i < |s| ==> s[i] == sep
  {
    if s == [] then 0
    else if s[0] == sep then 0
    else SeparatorIndex(s[1..], sep) + 1
  }

  lemma {:induction false} FirstSeparator(a: string, b: string, sep: char)
    requires sep !in a
    ensures SeparatorIndex(a + [sep] + b, sep) == |a|
  {
    if a != [] {
      assert (a + [sep] + b)[1..] == a[1..] + [sep] + b;
      FirstSeparator(a[1..], b, sep);
    }
  }

  /** Text joined around a separator it does not contain splits back uniquely. */
  lemma SplitAtSeparator(a1: string, b1: string, a2: string, b2: string, sep: char)
    requires sep !in a1 && sep !in a2
    requires a1 + [sep] + b1 == a2 + [sep] + b2
    ensures a1 == a2 && b1 == b2
  {
    var t := a1 + [sep] + b1;
    FirstSeparator(a1, b1, sep);
    FirstSeparator(a2, b2, sep);
    assert a1 == t[..|a1|];
    assert a2 == (a2 + [sep] + b2)[..|a2|];
    DropCommonPrefix(a1 + [sep], b1, b2);
  }

  /** When the start bound has no underscore (an ISO date has none), the file
      name determines the bound texts it encodes. */
  lemma FilenameDeterminesBounds(s1: Option<string>, e1: Option<string>, s2: Option<string>, e2: Option<string>)
    requires '_' !in OrElse(s1, "start") && '_' !in OrElse(s2, "start")
    requires Filename(s1, e1) == Filename(s2, e2)
    ensures OrElse(s1, "start") == OrElse(s2, "start")
    ensures OrElse(e1, "end") == OrElse(e2, "end")
  {
    var a1, a2 := OrElse(s1, "start"), OrElse(s2, "start");
    var b1, b2 := OrElse(e1, "end"), OrElse(e2, "end");
    var u1, u2 := b1 + FilenameSuffix, b2 + FilenameSuffix;
    Regroup(FilenamePrefix, a1, b1, FilenameSuffix);
    Regroup(FilenamePrefix, a2, b2, FilenameSuffix);
    DropCommonPrefix(FilenamePrefix, a1 + ['_'] + u1, a2 + ['_'] + u2);
    SplitAtSeparator(a1, u1, a2, u2, '_');
    DropCommonSuffix(b1, b2, FilenameSuffix);
  }

  // ---------------------------------------------------------------------------
  // The report
  // ---------------------------------------------------------------------------

  /** What the exported document shows (besides the fixed "Summary" and
      "Entries" headings): title, timeframe line, summary table (absent when
      there are no entries), detail table, and the suggested file name. */
  datatype ReportContent = ReportContent(
    title: string,
    timeframe: string,
    summary: Option<seq<Row>>,
    details: seq<Row>,
    filename: string)

  /** The report for already filtered, date-sorted entries and a palette. */
  function ReportOf(es: seq<Entry>, moods: seq<Mood>, start: Option<string>, end: Option<string>): ReportContent
  {
    var labels := LabelMap(moods);
    ReportContent(Title, Timeframe(start, end), SummaryOf(es, labels), DetailRows(es, labels), Filename(start, end))
  }

  /** The summary is left out exactly when there are no entries. */
  lemma SummaryAbsentIffNoEntries(es: seq<Entry>, moods: seq<Mood>, start: Option<string>, end: Option<string>)
    ensures ReportOf(es, moods, start, end).summary.None? <==> es == []
  {
    var vs := MoodValues(es);
    if es != [] {
      assert vs[0] in FirstSeen(vs);
    }
  }

  /** The summary table has the header and then, for each mood value of the
      entries, once, in descending order of count with ties in order of first
      occurrence, its label and its count; the count cell reads back as the
      number of entries with that value. */
  lemma SummaryTableFacts(es: seq<Entry>, moods: seq<Mood>, start: Option<string>, end: Option<string>)
    requires es != []
    ensures var vs := MoodValues(es);
      var items := SortByCountDesc(Tally(vs));
      var rows := ReportOf(es, moods, start, end).summary;
      && rows.Some?
      && |rows.value| == |items| + 1
      && rows.value[0] == SummaryHeader
      && (forall k :: 0 <= k < |items| ==>
            && rows.value[k + 1][0] == LabelFor(LabelMap(moods), items[k].value)
            && ParseDigits(rows.value[k + 1][1]) == Occurrences(vs, items[k].value))
  {
    var vs := MoodValues(es);
    var items := SortByCountDesc(Tally(vs));
    var labels := LabelMap(moods);
    SortedTallyEmpty(vs);
    assert ReportOf(es, moods, start, end).summary == Some(SummaryRows(items, labels));
    SummaryRowsFacts(items, labels);
    SortedTallyCoversValues(vs);
    var rows := SummaryRows(items, labels);
    forall k | 0 <= k < |items|
      ensures ParseDigits(rows[k + 1][1]) == Occurrences(vs, items[k].value)
    {
      NatToStringRoundTrip(items[k].count);
    }
  }

  /** The rows of the summary table, for given items and labels. */
  lemma SummaryRowsFacts(items: seq<MoodCount>, labels: map<string, string>)
    ensures var rows := SummaryRows(items, labels);
      && |rows| == |items| + 1
      && rows[0] == SummaryHeader
      && (forall k :: 0 <= k < |items| ==> rows[k + 1] == SummaryRow(labels, items[k]))
  {
  }

  /** The rows of the detail table, for given labels. */
  lemma DetailRowsFacts(es: seq<Entry>, labels: map<string, string>)
    ensures var rows := DetailRows(es, labels);
      && |rows| == |es| + 1
      && rows[0] == DetailHeader
      && (forall i :: 0 <= i < |es| ==> rows[i + 1] == DetailRow(labels, es[i]))
  {
  }

  /** The detail table has the header and then one row per entry, in the
      entries' order: its date, its label (falling back to the raw value), its
      emoji, and its note cut to at most 200 characters. */
  lemma DetailTableFacts(es: seq<Entry>, moods: seq<Mood>, start: Option<string>, end: Option<string>)
    ensures var rows := ReportOf(es, moods, start, end).details;
      && |rows| == |es| + 1
      && rows[0] == DetailHeader
      && (forall i :: 0 <= i < |es| ==>
            && rows[i + 1][0] == es[i].date
            && rows[i + 1][1] == LabelFor(LabelMap(moods), es[i].moodValue)
            && rows[i + 1][2] == es[i].emoji
            && |rows[i + 1][3]| <= NoteLimit
            && rows[i + 1][3] <= OrElse(es[i].note, ""))
  {
    var labels := LabelMap(moods);
    var rows := ReportOf(es, moods, start, end).details;
    assert rows == DetailRows(es, labels);
    DetailRowsFacts(es, labels);
    forall i | 0 <= i < |es|
      ensures && rows[i + 1][0] == es[i].date
              && rows[i + 1][1] == LabelFor(labels, es[i].moodValue)
              && rows[i + 1][2] == es[i].emoji
              && |rows[i + 1][3]| <= NoteLimit
              && rows[i + 1][3] <= OrElse(es[i].note, "")
    {
      DetailRowCells(labels, es[i]);
    }
  }

  /** The cells of one detail row. */
  lemma DetailRowCells(labels: map<string, string>, e: Entry)
    ensures var row := DetailRow(labels, e);
      && |row| == 4
      && row[0] == e.date
      && row[1] == LabelFor(labels, e.moodValue)
      && row[2] == e.emoji
      && |row[3]| <= NoteLimit
      && row[3] <= OrElse(e.note, "")
  {
  }

  /** Two "happy" days and one "sad" day, under labels that show them as
      Happy and Sad, give the summary Happy 2, Sad 1. */
  lemma SummaryExample(es: seq<Entry>, labels: map<string, string>)
    requires |es| == 3
    requires es[0].moodValue == "happy" && es[1].moodValue == "sad" && es[2].moodValue == "happy"
    requires LabelFor(labels, "happy") == "Happy" && LabelFor(labels, "sad") == "Sad"
    ensures SummaryOf(es, labels) == Some([["Mood", "Count"], ["Happy", "2"], ["Sad", "1"]])
  {
    TallyExample("happy", "sad");
    var counts := [MoodCount("happy", 2), MoodCount("sad", 1)];
    var vs := MoodValues(es);
    assert vs == ["happy", "sad", "happy"] by {
      assert |vs| == 3 && vs[0] == "happy" && vs[1] == "sad" && vs[2] == "happy";
    }
    assert SummaryOf(es, labels) == Some(SummaryRows(counts, labels));
    SummaryRowsExample(labels);
  }

  lemma SummaryRowsExample(labels: map<string, string>)
    requires LabelFor(labels, "happy") == "Happy" && LabelFor(labels, "sad") == "Sad"
    ensures SummaryRows([MoodCount("happy", 2), MoodCount("sad", 1)], labels)
      == [["Mood", "Count"], ["Happy", "2"], ["Sad", "1"]]
  {
    var counts := [MoodCount("happy", 2), MoodCount("sad", 1)];
    SummaryRowsFacts(counts, labels);
    CountCellExamples();
    var rows := SummaryRows(counts, labels);
    assert rows[1] == SummaryRow(labels, counts[0]) == ["Happy", "2"];
    assert rows[2] == SummaryRow(labels, counts[1]) == ["Sad", "1"];
    assert |rows| == 3 && rows[0] == SummaryHeader;
  }

  lemma CountCellExamples()
    ensures NatToString(2) == "2" && NatToString(1) == "1"
  {
  }

  /** The same under the built-in palette, in the report itself. */
  lemma DefaultPaletteSummaryExample(es: seq<Entry>, start: Option<string>, end: Option<string>)
    requires |es| == 3
    requires es[0].moodValue == "happy" && es[1].moodValue == "sad" && es[2].moodValue == "happy"
    ensures ReportOf(es, DefaultMoods, start, end).summary == Some([["Mood", "Count"], ["Happy", "2"], ["Sad", "1"]])
  {
    DefaultLabels();
    SummaryExample(es, LabelMap(DefaultMoods));
  }

  /** Under the built-in palette "happy" shows as Happy and "sad" as Sad. */
  lemma DefaultLabels()
    ensures LabelFor(LabelMap(DefaultMoods), "happy") == "Happy"
    ensures LabelFor(LabelMap(DefaultMoods), "sad") == "Sad"
  {
    assert LastWithValue(DefaultMoods, 0);
    assert LastWithValue(DefaultMoods, 4);
    LookupMapLastWins(DefaultMoods, MoodLabel, 0);
    LookupMapLastWins(DefaultMoods, MoodLabel, 4);
  }

  /** With no entries the report holds the header and an empty detail table. */
  lemma EmptyReport(moods: seq<Mood>, start: Option<string>, end: Option<string>)
    ensures ReportOf([], moods, start, end).summary == None
    ensures ReportOf([], moods, start, end).details == [DetailHeader]
  {
    SummaryAbsentIffNoEntries([], moods, start, end);
  }

  // ---------------------------------------------------------------------------
  // Building the report
  // ---------------------------------------------------------------------------

  /** The counting loop: `counts[mv] = counts.get(mv, 0) + 1` over the
      entries, keys kept in insertion order. */
  method CountMoods(es: seq<Entry>) returns (counts: seq<MoodCount>)
    ensures counts == Tally(MoodValues(es))
  {
    var keys: seq<string> := [];
    var tally: map<string, nat> := map[];
    for i := 0 to |es|
      invariant CountsMatch(keys, tally, MoodValues(es[..i]))
    {
      var mv := es[i].moodValue;
      MoodValuesSnoc(es, i);
      if mv in tally {
        CountKnownValue(keys, tally, MoodValues(es[..i]), mv);
        tally := tally[mv := tally[mv] + 1];
      } else {
        CountNewValue(keys, tally, MoodValues(es[..i]), mv);
        tally := tally[mv := 1];
        keys := keys + [mv];
      }
    }
    assert es[..|es|] == es;
    counts := ItemsOf(keys, tally);
    ItemsOfTally(keys, tally, MoodValues(es));
  }

  /** The loop that appends one summary row per sorted item. */
  method SummaryTable(items: seq<MoodCount>, labels: map<string, string>) returns (rows: seq<Row>)
    ensures rows == SummaryRows(items, labels)
  {
    rows := [SummaryHeader];
    for k := 0 to |items|
      invariant |rows| == k + 1 && rows[0] == SummaryHeader
      invariant forall j :: 0 <= j < k ==> rows[j + 1] == SummaryRow(labels, items[j])
    {
      rows := rows + [SummaryRow(labels, items[k])];
    }
  }

  /** The loop that appends one detail row per entry. */
  method DetailTable(es: seq<Entry>, labels: map<string, string>) returns (rows: seq<Row>)
    ensures rows == DetailRows(es, labels)
  {
    rows := [DetailHeader];
    for i := 0 to |es|
      invariant |rows| == i + 1 && rows[0] == DetailHeader
      invariant forall j :: 0 <= j < i ==> rows[j + 1] == DetailRow(labels, es[j])
    {
      rows := rows + [DetailRow(labels, es[i])];
    }
  }

  /** The report body of `export_pdf` for fetched entries and a palette. */
  method BuildReport(es: seq<Entry>, moods: seq<Mood>, start: Option<string>, end: Option<string>)
    returns (report: ReportContent)
    ensures report == ReportOf(es, moods, start, end)
  {
    var labels := LabelMap(moods);
    var counts := CountMoods(es);
    var summary: Option<seq<Row>> := None;
    if counts != [] {
      var rows := SummaryTable(SortByCountDesc(counts), labels);
      summary := Some(rows);
    }
    var details := DetailTable(es, labels);
    report := ReportContent(Title, Timeframe(start, end), summary, details, Filename(start, end));
  }

  /** `GET /export/pdf?start=&end=`: the entries the range listing returns and
      the palette in force, turned into the report. */
  method ExportPdf(store: EntryStore, config: ConfigStore, start: Option<string>, end: Option<string>)
    returns (report: ReportContent)
    ensures report == ReportOf(ListEntries(store.entries, start, end), ActiveMoods(config.doc), start, end)
  {
    var entries := store.List(start, end);
    var moods := config.Get();
    report := BuildReport(entries, moods, start, end);
  }
}
