/**
 * The turn history page: completed and cancelled turns, filtered by status, court, a date
 * range and a search, newest first, and the CSV file it exports.
 */
module History {

  import opened Wrappers
  import opened Strings
  import opened Dates
  import opened Domain
  import opened Lists
  import opened Sorting
  import opened TurnSearch
  import opened CsvExport

  /** `historicalTurns`: the COMPLETED and CANCELLED turns, in list order. */
  function HistoricalTurns(turns: seq<PregameTurn>): (r: seq<PregameTurn>)
    ensures forall t | t in r :: t in turns && (HasStatus(t, Completed) || HasStatus(t, Cancelled))
    ensures forall t | t in turns && (HasStatus(t, Completed) || HasStatus(t, Cancelled)) :: t in r
  {
    Filter(turns, (t: PregameTurn) => HasStatus(t, Completed) || HasStatus(t, Cancelled))
  }

  /**
   * The page's filters: `None` stands for 'all' and for an empty date field. The date bounds
   * are day numbers of the `YYYY-MM-DD` texts the raw date is compared with.
   */
  datatype HistoryFilters = HistoryFilters(
    status: Option<TurnStatus>,
    court: Option<int>,
    startDate: Option<int>,
    endDate: Option<int>,
    query: string)

  predicate Kept(t: PregameTurn, f: HistoryFilters) {
    && (f.status.Some? ==> t.status == f.status)
    && (f.court.Some? ==> t.courtId == f.court.value)
    && !(f.startDate.Some? && t.date.Some? && TextBefore(t.date.value, f.startDate.value))
    && !(f.endDate.Some? && t.date.Some? && TextAfter(t.date.value, f.endDate.value))
    && MatchesSearch(t, f.query)
  }

  /**
   * `filteredTurns`. The bounds are inclusive on whole days, an undated turn passes both, and
   * a turn whose date text carries a time is excluded on the end day itself.
   */
  function FilteredHistory(turns: seq<PregameTurn>, f: HistoryFilters): (r: seq<PregameTurn>)
    ensures forall t | t in r :: t in turns && MatchesSearch(t, f.query)
    ensures forall t | t in r :: f.status.Some? ==> t.status == f.status
    ensures forall t | t in r :: f.court.Some? ==> t.courtId == f.court.value
    ensures forall t | t in r && t.date.Some? :: f.startDate.Some? ==> t.date.value.day >= f.startDate.value
    ensures forall t | t in r && t.date.Some? :: f.endDate.Some? ==>
      t.date.value.day <= f.endDate.value && (t.date.value.day == f.endDate.value ==> t.date.value.time.None?)
    ensures forall t | t in turns && Kept(t, f) :: t in r
  {
    Filter(turns, (t: PregameTurn) => Kept(t, f))
  }

  /** An undated turn passes every date bound. */
  lemma UndatedPassesDateRange(t: PregameTurn, f: HistoryFilters)
    requires t.date.None?
    ensures Kept(t, f) <==> Kept(t, f.(startDate := None, endDate := None))
  {
  }

  /** `sortedTurns`: newest first, the comparator giving 0 when a date is missing. */
  function SortedHistory(turns: seq<PregameTurn>): (r: seq<PregameTurn>)
    ensures multiset(r) == multiset(turns)
    ensures AllDated(turns) ==> forall i, j | 0 <= i < j < |r| ::
      r[i].date.Some? && r[j].date.Some? && Instant(r[i].date.value) >= Instant(r[j].date.value)
  {
    if AllDated(turns) then
      SortNewestFirst(turns);
      Sort(turns, EarlierThan)
    else Sort(turns, EarlierThan)
  }

  // ---------------------------------------------------------------- the CSV export

  const HistoryHeaders: seq<string> :=
    ["Fecha", "Horario", "Cancha", "Estado", "Jugadores", "Precio Total", "Precio por Jugador"]

  /**
   * The seven texts of a turn's CSV row. The money columns depend on locale formatting, so
   * the formatters of the total and per-player amounts are parameters. A status without a
   * label is `undefined`, which a join writes as the empty text.
   */
  function HistoryFields(t: PregameTurn, total: int -> string, perPlayer: int -> string): (r: seq<string>)
    ensures |r| == |HistoryHeaders|
    ensures r[0] == DateText(t)
    ensures r[1] == t.startTime + " - " + t.endTime
    ensures r[2] == if t.courtName.Some? && t.courtName.value != [] then t.courtName.value else "N/A"
    ensures t.status.Some? ==> r[3] == StatusLabel(t.status.value)
    ensures t.status.None? ==> r[3] == ""
    ensures r[4] == IntToString(if Truthy(t.playersCount) then t.playersCount.value else 0)
    ensures t.price == 0 ==> r[5] == "N/A" && r[6] == "N/A"
    ensures t.price != 0 ==> r[5] == "$" + total(t.price) && r[6] == "$" + perPlayer(t.price)
  {
    [ DateText(t),
      t.startTime + " - " + t.endTime,
      if t.courtName.Some? && t.courtName.value != [] then t.courtName.value else "N/A",
      if t.status.Some? then StatusLabel(t.status.value) else "",
      IntToString(if Truthy(t.playersCount) then t.playersCount.value else 0),
      if t.price != 0 then "$" + total(t.price) else "N/A",
      if t.price != 0 then "$" + perPlayer(t.price) else "N/A" ]
  }

  /** The outcome of `handleExportCSV` as written: a text, or the exception of `csvData[0]` being undefined. */
  datatype CsvOutcome = Thrown | Written(text: string)

  function PlainLine(fields: seq<string>): string {
    Join(fields, ",")
  }

  /** `handleExportCSV` as written: keys and values joined by commas without any quoting. */
  function HistoryCsvAsWritten(turns: seq<PregameTurn>, total: int -> string, perPlayer: int -> string): (r: CsvOutcome)
    ensures r == Thrown <==> turns == []
    ensures r.Written? ==> StartsWith(r.text, PlainLine(HistoryHeaders))
  {
    if turns == [] then Thrown
    else
      var lines := WrittenLines(PlainLine(HistoryHeaders), turns, total, perPlayer);
      var text := Join(lines, "\n");
      assert StartsWith(text, lines[0]);
      Written(text)
  }

  /** The header line, then each row joined plainly. */
  function WrittenLines(header: string, turns: seq<PregameTurn>, total: int -> string, perPlayer: int -> string): (ls: seq<string>)
    ensures |ls| == |turns| + 1 && ls[0] == header
    ensures forall i | 0 <= i < |turns| :: ls[i + 1] == PlainLine(HistoryFields(turns[i], total, perPlayer))
  {
    [header] +
      seq(|turns|, i requires 0 <= i < |turns| => PlainLine(HistoryFields(turns[i], total, perPlayer)))
  }

  /** Each record joined plainly. */
  function PlainLines(table: seq<seq<string>>): (ls: seq<string>)
    ensures |ls| == |table| && forall i | 0 <= i < |table| :: ls[i] == PlainLine(table[i])
  {
    seq(|table|, i requires 0 <= i < |table| => PlainLine(table[i]))
  }

  /** Exporting an empty history throws instead of writing a file. */
  lemma EmptyHistoryExportThrows(total: int -> string, perPlayer: int -> string)
    ensures HistoryCsvAsWritten([], total, perPlayer) == Thrown
  {
  }

  /** A line of the export as written splits into one column more per comma inside the values. */
  lemma PlainLineColumns(t: PregameTurn, total: int -> string, perPlayer: int -> string)
    ensures var fields := HistoryFields(t, total, perPlayer);
      |Split(PlainLine(fields), ',')| == |HistoryHeaders| + SepsIn(fields, ',')
  {
    var fields := HistoryFields(t, total, perPlayer);
    JoinCount(fields, ',');
    SplitCount(PlainLine(fields), ',');
  }

  /**
   * A court name holding a comma shifts the columns of its row: the row splits into more
   * pieces than the seven headers.
   */
  lemma CommaInCourtNameShiftsColumns(t: PregameTurn, total: int -> string, perPlayer: int -> string)
    requires t.courtName.Some? && ',' in t.courtName.value
    ensures |Split(PlainLine(HistoryFields(t, total, perPlayer)), ',')| > |HistoryHeaders|
  {
    var fields := HistoryFields(t, total, perPlayer);
    PlainLineColumns(t, total, perPlayer);
    assert fields[2] == t.courtName.value;
    assert multiset(fields[2])[','] > 0;
    SepsInAt(fields, ',', 2);
  }

  lemma {:induction false} SepsInAt(parts: seq<string>, sep: char, k: nat)
    requires k < |parts|
    ensures SepsIn(parts, sep) >= multiset(parts[k])[sep]
    decreases k
  {
    if k > 0 {
      SepsInAt(parts[1..], sep, k - 1);
    }
  }

  /** The history table, header first. */
  function HistoryTable(turns: seq<PregameTurn>, total: int -> string, perPlayer: int -> string): (t: seq<seq<string>>)
    ensures |t| == |turns| + 1 && t[0] == HistoryHeaders
    ensures forall i | 0 <= i < |turns| :: t[i + 1] == HistoryFields(turns[i], total, perPlayer)
  {
    [HistoryHeaders] + seq(|turns|, i requires 0 <= i < |turns| => HistoryFields(turns[i], total, perPlayer))
  }

  /**
   * The export as intended: nothing for an empty history, and otherwise escaped fields, so
   * reading the file gives back the header and every row's seven texts.
   */
  function HistoryCsv(turns: seq<PregameTurn>, total: int -> string, perPlayer: int -> string): (r: Option<string>)
    ensures r.None? <==> turns == []
    ensures r.Some? ==> ParseCsv(r.value) == Some(HistoryTable(turns, total, perPlayer))
  {
    if turns == [] then None
    else
      var table := HistoryTable(turns, total, perPlayer);
      ParseSerialized(table);
      Some(Serialize(table))
  }

  /** Where no value holds a comma, quote or line feed, the intended export is the written one. */
  lemma HistoryCsvAgreesWithoutSpecialCharacters(turns: seq<PregameTurn>, total: int -> string, perPlayer: int -> string)
    requires turns != []
    requires forall i, k | 0 <= i < |turns| && 0 <= k < 7 :: !NeedsQuotes(HistoryFields(turns[i], total, perPlayer)[k])
    ensures HistoryCsvAsWritten(turns, total, perPlayer) == Written(HistoryCsv(turns, total, perPlayer).value)
  {
    var table := HistoryTable(turns, total, perPlayer);
    HeadersPlain();
    forall i | 0 <= i < |table| ensures forall k | 0 <= k < |table[i]| :: !NeedsQuotes(table[i][k]) {
      if i > 0 {
        assert table[i] == HistoryFields(turns[i - 1], total, perPlayer);
      }
    }
    SerializePlain(table);
    assert PlainLines(table) == WrittenLines(PlainLine(HistoryHeaders), turns, total, perPlayer);
  }

  /** Serialising records none of whose fields needs quotes is joining them plainly. */
  lemma SerializePlain(table: seq<seq<string>>)
    requires forall i | 0 <= i < |table| :: forall k | 0 <= k < |table[i]| :: !NeedsQuotes(table[i][k])
    ensures Serialize(table) == Join(PlainLines(table), "\n")
  {
    forall i | 0 <= i < |table| ensures RecordLine(table[i]) == PlainLine(table[i]) {
      EscapeAllPlain(table[i]);
    }
    assert Lines(table) == PlainLines(table);
  }

  lemma HeadersPlain()
    ensures forall k | 0 <= k < |HistoryHeaders| :: !NeedsQuotes(HistoryHeaders[k])
  {
  }

  lemma EscapeAllPlain(fields: seq<string>)
    requires forall k | 0 <= k < |fields| :: !NeedsQuotes(fields[k])
    ensures RecordLine(fields) == PlainLine(fields)
  {
    assert EscapeAll(fields) == fields;
  }
}
