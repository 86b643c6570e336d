/** The admin results table: the time column, the sortable-header state,
    the search box filter, the CSV export text, the score colour and the
    career label. */
module ResultsTable {
  import opened Wrappers
  import opened Seqs
  import opened Records
  import opened Text
  import Timer
  import QuizData

  /** The row shape the table reads; nullable columns are `Option`s. */
  datatype TableRow = TableRow(
    id: string,
    childName: string,
    age: Option<nat>,
    parentName: Option<string>,
    parentEmail: Option<string>,
    parentPhone: Option<string>,
    schoolName: Option<string>,
    careerPrediction: string,
    logicalScore: nat,
    completionTimeSeconds: Option<nat>,
    createdAt: string)

  // ------------------------------------------------------------ time cell

  /** `formatTime` of the table: `'-'` for a null or zero time, otherwise the
      `m:ss` clock text. */
  function FormatTime(t: Option<nat>): (r: string)
    ensures r == "-" <==> t.None? || t.value == 0
    ensures t.Some? && t.value != 0 ==> Timer.ParseClock(r) == Some(t.value)
  {
    if t.None? || t.value == 0 then "-"
    else
      Timer.ParseFormatClock(t.value);
      Timer.FormatClock(t.value)
  }

  // ------------------------------------------------------------- sorting

  datatype SortField = ChildName | LogicalScore | CompletionTimeSeconds | CreatedAt
  datatype SortDirection = Asc | Desc
  datatype SortState = SortState(field: SortField, direction: SortDirection)

  /** The table opens sorted by creation date, newest first. */
  const InitialSort := SortState(CreatedAt, Desc)

  function Flip(d: SortDirection): (r: SortDirection)
    ensures r != d
  {
    if d == Asc then Desc else Asc
  }

  /** `handleSort(field)`: clicking the current column reverses the
      direction; clicking another column selects it, descending. */
  function HandleSort(s: SortState, f: SortField): (r: SortState)
    ensures r.field == f
    ensures f == s.field ==> r.direction != s.direction
    ensures f != s.field ==> r.direction == Desc
  {
    if s.field == f then s.(direction := Flip(s.direction))
    else SortState(f, Desc)
  }

  /** Clicking the current column twice restores the sort state. */
  lemma HandleSortTwice(s: SortState)
    ensures HandleSort(HandleSort(s, s.field), s.field) == s
  {
  }

  /** Clicking a new column twice sorts it ascending. */
  lemma HandleSortNewColumnTwice(s: SortState, f: SortField)
    requires f != s.field
    ensures HandleSort(HandleSort(s, f), f) == SortState(f, Asc)
  {
  }

  // ------------------------------------------------------------- search

  /** `name?.toLowerCase().includes(term.toLowerCase())` for a nullable
      name: a null name never matches. */
  predicate NameMatches(name: Option<string>, term: string)
  {
    name.Some? && Includes(ToLower(name.value), ToLower(term))
  }

  /** The search predicate: the term occurs, ignoring case, in the child's
      name, the parent's name or the school name. */
  predicate Matches(r: TableRow, term: string)
  {
    NameMatches(Some(r.childName), term) || NameMatches(r.parentName, term)
    || NameMatches(r.schoolName, term)
  }

  /** `filteredResults` before sorting: the matching rows, in order. The
      shown rows are drawn from the results, never more of them. */
  function FilterResults(rs: seq<TableRow>, term: string): (fs: seq<TableRow>)
    ensures forall r :: r in fs <==> r in rs && Matches(r, term)
    ensures multiset(fs) <= multiset(rs)
    ensures |fs| <= |rs|
  {
    Filter(rs, (r: TableRow) => Matches(r, term))
  }

  /** An empty search box shows every row. */
  lemma EmptyTermKeepsAll(rs: seq<TableRow>)
    ensures FilterResults(rs, "") == rs
  {
    forall i | 0 <= i < |rs|
      ensures Matches(rs[i], "")
    {
      IncludesEmpty(ToLower(rs[i].childName));
    }
    FilterKeepsAll(rs, (r: TableRow) => Matches(r, ""));
  }

  lemma {:induction false} LowerCharIdempotent(c: char)
    ensures LowerChar(LowerChar(c)) == LowerChar(c)
  {
  }

  /** Lower-casing twice is lower-casing once. */
  lemma ToLowerIdempotent(s: string)
    ensures ToLower(ToLower(s)) == ToLower(s)
  {
    forall i | 0 <= i < |s|
      ensures ToLower(ToLower(s))[i] == ToLower(s)[i]
    {
      LowerCharIdempotent(s[i]);
    }
  }

  /** The search ignores the case of the term. */
  lemma FilterIgnoresTermCase(rs: seq<TableRow>, term: string)
    ensures FilterResults(rs, ToLower(term)) == FilterResults(rs, term)
  {
    ToLowerIdempotent(term);
    FilterCongruent(rs, (r: TableRow) => Matches(r, ToLower(term)), (r: TableRow) => Matches(r, term));
  }

  /** A row with neither a parent name nor a school name matches only
      through the child's name. */
  lemma NullNamesNeverMatch(r: TableRow, term: string)
    requires r.parentName.None? && r.schoolName.None?
    ensures Matches(r, term) <==> Includes(ToLower(r.childName), ToLower(term))
  {
  }

  // ---------------------------------------------------------------- CSV

  const CsvHeaders: seq<string> := [
    "Child Name", "Age", "Parent Name", "Parent Email", "Parent Phone",
    "School", "Career Prediction", "Score", "Time (seconds)", "Date"]

  /** `s || ''` for a nullable string. */
  function TextOrEmpty(s: Option<string>): (r: string)
    ensures r == "" <==> s.None? || s.value == ""
    ensures s.Some? ==> r == s.value
  {
    if s.Some? then s.value else ""
  }

  /** `n || ''` for a nullable number: null and 0 give an empty cell. */
  function NumberOrEmpty(n: Option<nat>): (r: string)
    ensures r == "" <==> n.None? || n.value == 0
    ensures n.Some? && n.value != 0 ==> IsCanonicalDecimal(r) && DecimalValue(r) == n.value
  {
    if n.None? || n.value == 0 then "" else NatToString(n.value)
  }

  /** The ten cells of one exported row, in header order. */
  function CsvCells(r: TableRow): (cells: seq<string>)
    ensures |cells| == |CsvHeaders|
  {
    [r.childName, NumberOrEmpty(r.age), TextOrEmpty(r.parentName),
     TextOrEmpty(r.parentEmail), TextOrEmpty(r.parentPhone),
     TextOrEmpty(r.schoolName), r.careerPrediction, NatToString(r.logicalScore),
     NumberOrEmpty(r.completionTimeSeconds), r.createdAt]
  }

  /** Each cell is wrapped in double quotes; inner quotes are not escaped. */
  function Quote(cell: string): (q: string)
    ensures |q| == |cell| + 2 && q[0] == '"' && q[|q| - 1] == '"' && q[1..|q| - 1] == cell
  {
    "\"" + cell + "\""
  }

  function QuoteAll(cells: seq<string>): (qs: seq<string>)
    ensures |qs| == |cells| && forall i :: 0 <= i < |cells| ==> qs[i] == Quote(cells[i])
  {
    seq(|cells|, i requires 0 <= i < |cells| => Quote(cells[i]))
  }

  /** One CSV line: the quoted cells joined by `,`. */
  function CsvLine(cells: seq<string>): string
  {
    Join(QuoteAll(cells), ",")
  }

  /** One line per result, in result order. */
  function RowLines(rs: seq<TableRow>): (ls: seq<string>)
    ensures |ls| == |rs| && forall i :: 0 <= i < |rs| ==> ls[i] == CsvLine(CsvCells(rs[i]))
  {
    seq(|rs|, i requires 0 <= i < |rs| => CsvLine(CsvCells(rs[i])))
  }

  /** The lines of the export: the header line, then one line per result
      (all results, whatever the search box holds). */
  function CsvLines(rs: seq<TableRow>): (lines: seq<string>)
    ensures |lines| == |rs| + 1
  {
    [CsvLine(CsvHeaders)] + RowLines(rs)
  }

  /** `csvContent`: the lines joined by a newline. The text starts with the
      header line, and is only that line when there are no results. */
  function Csv(rs: seq<TableRow>): (text: string)
    ensures CsvLine(CsvHeaders) <= text
    ensures |rs| == 0 ==> text == CsvLine(CsvHeaders)
  {
    var lines := [CsvLine(CsvHeaders)] + RowLines(rs);
    JoinHead(lines, "\n");
    Join(lines, "\n")
  }

  /** A row whose fields hold no newline exports a newline-free line. */
  predicate NoNewline(r: TableRow)
  {
    forall i :: 0 <= i < |CsvCells(r)| ==> '\n' !in CsvCells(r)[i]
  }

  lemma LineAvoids(cells: seq<string>, c: char)
    requires c != '"' && c != ','
    requires forall i :: 0 <= i < |cells| ==> c !in cells[i]
    ensures c !in CsvLine(cells)
  {
    var qs := QuoteAll(cells);
    forall i | 0 <= i < |qs|
      ensures c !in qs[i]
    {
      assert qs[i] == "\"" + cells[i] + "\"";
    }
    JoinAvoids(qs, ",", c);
  }

  lemma HeaderLineAvoidsNewline()
    ensures '\n' !in CsvLine(CsvHeaders)
  {
    assert forall i :: 0 <= i < |CsvHeaders| ==> '\n' !in CsvHeaders[i];
    LineAvoids(CsvHeaders, '\n');
  }

  lemma RowLinesAvoidNewline(rs: seq<TableRow>)
    requires forall i :: 0 <= i < |rs| ==> NoNewline(rs[i])
    ensures forall i :: 0 <= i < |rs| ==> '\n' !in RowLines(rs)[i]
  {
    forall i | 0 <= i < |rs|
      ensures '\n' !in RowLines(rs)[i]
    {
      LineAvoids(CsvCells(rs[i]), '\n');
    }
  }

  /** Reading the export back line by line gives the header line and then
      exactly one line per result, in order, when no field holds a newline. */
  lemma CsvSplitsIntoLines(rs: seq<TableRow>)
    requires forall i :: 0 <= i < |rs| ==> NoNewline(rs[i])
    ensures var lines := Split(Csv(rs), '\n');
            |lines| == |rs| + 1 && lines[0] == CsvLine(CsvHeaders)
            && forall i :: 0 <= i < |rs| ==> lines[i + 1] == CsvLine(CsvCells(rs[i]))
  {
    HeaderLineAvoidsNewline();
    RowLinesAvoidNewline(rs);
    assert "\n" == ['\n'];
    SplitOfJoinCons(CsvLine(CsvHeaders), RowLines(rs), '\n');
  }

  /** Reading a line back at its commas gives the quoted cells, when no cell
      holds a comma. */
  lemma CsvLineFields(cells: seq<string>)
    requires |cells| >= 1 && forall i :: 0 <= i < |cells| ==> ',' !in cells[i]
    ensures Split(CsvLine(cells), ',') == QuoteAll(cells)
  {
    var qs := QuoteAll(cells);
    forall i | 0 <= i < |qs|
      ensures ',' !in qs[i]
    {
      assert qs[i] == "\"" + cells[i] + "\"";
    }
    SplitOfJoin(qs, ',');
  }

  /** Falsy optional columns export as empty cells and present ones as
      their text; the score is always printed, 0 included. */
  lemma CsvCellsOfRow(r: TableRow)
    ensures CsvCells(r)[0] == r.childName && CsvCells(r)[6] == r.careerPrediction
    ensures CsvCells(r)[9] == r.createdAt
    ensures CsvCells(r)[1] == "" <==> r.age.None? || r.age.value == 0
    ensures r.age.Some? && r.age.value != 0 ==>
              IsCanonicalDecimal(CsvCells(r)[1]) && DecimalValue(CsvCells(r)[1]) == r.age.value
    ensures CsvCells(r)[2] == if r.parentName.Some? then r.parentName.value else ""
    ensures CsvCells(r)[3] == if r.parentEmail.Some? then r.parentEmail.value else ""
    ensures CsvCells(r)[4] == if r.parentPhone.Some? then r.parentPhone.value else ""
    ensures CsvCells(r)[5] == if r.schoolName.Some? then r.schoolName.value else ""
    ensures IsCanonicalDecimal(CsvCells(r)[7]) && DecimalValue(CsvCells(r)[7]) == r.logicalScore
    ensures CsvCells(r)[8] == "" <==> r.completionTimeSeconds.None? || r.completionTimeSeconds.value == 0
    ensures r.completionTimeSeconds.Some? && r.completionTimeSeconds.value != 0 ==>
              IsCanonicalDecimal(CsvCells(r)[8])
              && DecimalValue(CsvCells(r)[8]) == r.completionTimeSeconds.value
  {
  }

  // ---------------------------------------------------- score, label

  datatype ScoreColour = Green | Yellow | Red

  /** The score cell's colour: green from 70, yellow from 40, red below. */
  function ScoreBand(score: int): (c: ScoreColour)
    ensures c == Green <==> score >= 70
    ensures c == Yellow <==> 40 <= score < 70
    ensures c == Red <==> score < 40
  {
    if score >= 70 then Green else if score >= 40 then Yellow else Red
  }

  function ColourRank(c: ScoreColour): nat
  {
    match c
    case Red => 0
    case Yellow => 1
    case Green => 2
  }

  /** A higher score never gets a worse colour. */
  lemma ScoreBandMonotone(s: int, t: int)
    requires s <= t
    ensures ColourRank(ScoreBand(s)) <= ColourRank(ScoreBand(t))
  {
  }

  /** `careerLabels`, keyed with snake-case spellings. */
  const CareerLabels: Entries<string, string> := [
    ("scientist", "🔬 Scientist"),
    ("engineer", "⚙️ Engineer"),
    ("tech_hero", "🤖 Tech Hero"),
    ("artist", "🎨 Artist"),
    ("doctor", "🏥 Doctor"),
    ("sportsperson", "⚽ Sportsperson"),
    ("environment_hero", "🌿 Environment Hero")]

  /** `careerLabels[tag] || tag`. */
  function CareerLabel(tag: string): (r: string)
    ensures tag !in Keys(CareerLabels) ==> r == tag
    ensures Get(CareerLabels, tag).Some? && Get(CareerLabels, tag).value != "" ==>
              r == Get(CareerLabels, tag).value
  {
    match Get(CareerLabels, tag)
    case Some(text) => if text != "" then text else tag
    case None => tag
  }

  /** A quiz tag whose spelling matches a key shows its label. */
  lemma CareerLabelShown()
    ensures CareerLabel(QuizData.Tag(QuizData.Scientist)) == "🔬 Scientist"
  {
  }

  /** The camel-case quiz tags `techHero` and `environmentHero` miss the
      snake-case keys and show raw. */
  lemma CareerLabelRawForCamelCaseTags()
    ensures CareerLabel(QuizData.Tag(QuizData.TechHero)) == "techHero"
    ensures CareerLabel(QuizData.Tag(QuizData.EnvironmentHero)) == "environmentHero"
  {
    assert Keys(CareerLabels) == ["scientist", "engineer", "tech_hero", "artist",
                                  "doctor", "sportsperson", "environment_hero"];
  }
}
