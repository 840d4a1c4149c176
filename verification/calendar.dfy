/**
 * The month calendar of turns: the turns of the displayed month, the court and status
 * filters (cancelled turns are never shown), the grouping of turns by day, the colour of a
 * day cell, its chips and the selection made by clicking a day.
 */
module Calendar {

  import opened Wrappers
  import opened Strings
  import opened Dates
  import opened Domain
  import opened Lists

  /** `STATUS_COLORS`. */
  function StatusColor(s: TurnStatus): string {
    match s
    case Available => "#5BE12C"
    case Pending => "#FFA500"
    case ReadyToPlay => "#4ECDC4"
    case Cancelled => "#FF6B6B"
    case Completed => "#0A2239"
  }

  /** A dated turn whose day lies in the displayed month `[monthStart, monthEnd]`. */
  predicate InMonth(t: PregameTurn, monthStart: int, monthEnd: int) {
    t.date.Some? && monthStart <= t.date.value.day <= monthEnd
  }

  /** `monthTurns`: the turns dated in the displayed month, in list order. */
  function MonthTurns(turns: seq<PregameTurn>, monthStart: int, monthEnd: int): (r: seq<PregameTurn>)
    ensures forall t | t in r :: t in turns && InMonth(t, monthStart, monthEnd)
    ensures forall t | t in turns && InMonth(t, monthStart, monthEnd) :: t in r
  {
    Filter(turns, (t: PregameTurn) => InMonth(t, monthStart, monthEnd))
  }

  datatype CourtFilter = AllCourts | OnlyCourt(courtId: int)

  datatype StatusFilter = AllStatuses | OnlyStatus(status: TurnStatus)

  predicate Shown(t: PregameTurn, court: CourtFilter, status: StatusFilter) {
    && t.status != Some(Cancelled)
    && (court.OnlyCourt? ==> t.courtId == court.courtId)
    && (status.OnlyStatus? ==> t.status == Some(status.status))
  }

  /** `filteredTurns`: cancelled turns are dropped before the court and status filters. */
  function FilteredTurns(turns: seq<PregameTurn>, court: CourtFilter, status: StatusFilter): (r: seq<PregameTurn>)
    ensures forall t | t in r :: t in turns && t.status != Some(Cancelled)
    ensures forall t | t in r :: court.OnlyCourt? ==> t.courtId == court.courtId
    ensures forall t | t in r :: status.OnlyStatus? ==> t.status == Some(status.status)
    ensures forall t | t in turns && Shown(t, court, status) :: t in r
    ensures status == OnlyStatus(Cancelled) ==> r == []
  {
    var r := Filter(turns, (t: PregameTurn) => Shown(t, court, status));
    assert r != [] ==> r[0] in r;
    r
  }

  predicate OnDay(t: PregameTurn, day: int) {
    t.date.Some? && t.date.value.day == day
  }

  /** The turns dated on `day`, in list order. */
  function OfDay(turns: seq<PregameTurn>, day: int): seq<PregameTurn> {
    Filter(turns, (t: PregameTurn) => OnDay(t, day))
  }

  /** `m` holds, under each day, the turns of that day, and has an entry for every dated turn. */
  ghost predicate Grouped(turns: seq<PregameTurn>, m: map<int, seq<PregameTurn>>) {
    && (forall d | d in m :: m[d] == OfDay(turns, d) && m[d] != [])
    && (forall t | t in turns && t.date.Some? :: t.date.value.day in m)
  }

  /**
   * `turnsByDate`: each dated turn is appended to the list under its day, so a day's list is
   * the turns of that day in input order.
   */
  function TurnsByDate(turns: seq<PregameTurn>): (m: map<int, seq<PregameTurn>>)
    ensures forall d | d in m :: m[d] == OfDay(turns, d) && m[d] != []
    ensures forall t | t in turns && t.date.Some? :: t.date.value.day in m
    decreases |turns|
  {
    if turns == [] then map[]
    else
      var init := turns[..|turns| - 1];
      var t := turns[|turns| - 1];
      var m := TurnsByDate(init);
      assert turns == init + [t];
      assert Grouped(init, m);
      var m' := if t.date.None? then m else
        m[t.date.value.day := (if t.date.value.day in m then m[t.date.value.day] else []) + [t]];
      TurnsByDateStep(init, t, m);
      assert Grouped(turns, m');
      m'
  }

  /** Appending a turn adds it to its own day only. */
  lemma OfDaySnoc(init: seq<PregameTurn>, t: PregameTurn, d: int)
    ensures OfDay(init + [t], d) == OfDay(init, d) + (if OnDay(t, d) then [t] else [])
  {
    FilterAppend(init, [t], (u: PregameTurn) => OnDay(u, d));
    assert [t][1..] == [];
  }

  /** A day without an entry has no turns. */
  lemma OfDayAbsent(init: seq<PregameTurn>, m: map<int, seq<PregameTurn>>, d: int)
    requires Grouped(init, m) && d !in m
    ensures OfDay(init, d) == []
  {
    assert Count(init, (u: PregameTurn) => OnDay(u, d)) == 0;
  }

  lemma TurnsByDateStep(init: seq<PregameTurn>, t: PregameTurn, m: map<int, seq<PregameTurn>>)
    requires Grouped(init, m)
    ensures var m' := if t.date.None? then m else
        m[t.date.value.day := (if t.date.value.day in m then m[t.date.value.day] else []) + [t]];
      Grouped(init + [t], m')
  {
    forall d {
      OfDaySnoc(init, t, d);
    }
    if t.date.Some? {
      var e := t.date.value.day;
      if e !in m {
        OfDayAbsent(init, m, e);
      }
    }
  }

  /** `getTurnsForDate`: the turns of a day, none when the day has no entry. */
  function TurnsForDate(m: map<int, seq<PregameTurn>>, day: int): seq<PregameTurn> {
    if day in m then m[day] else []
  }

  /** Every shown turn with a date is found under its own day and under no other. */
  lemma TurnOnItsOwnDay(turns: seq<PregameTurn>, t: PregameTurn, day: int)
    requires t in turns && t.date.Some?
    ensures t in TurnsForDate(TurnsByDate(turns), day) <==> t.date.value.day == day
  {
  }

  /** `handleDateClick`: a day with exactly one turn selects it; otherwise nothing changes. */
  function DateClick(m: map<int, seq<PregameTurn>>, day: int, selected: Option<PregameTurn>): (r: Option<PregameTurn>)
    ensures |TurnsForDate(m, day)| == 1 ==> r == Some(TurnsForDate(m, day)[0])
    ensures |TurnsForDate(m, day)| != 1 ==> r == selected
  {
    var ts := TurnsForDate(m, day);
    if |ts| > 0 && |ts| == 1 then Some(ts[0]) else selected
  }

  predicate AnyWithStatus(turns: seq<PregameTurn>, s: TurnStatus) {
    exists t | t in turns :: t.status == Some(s)
  }

  /**
   * `getDayColor`: transparent for a day without turns, otherwise the colour of the first of
   * ready, pending and completed present, falling back to the available colour.
   */
  function DayColor(turns: seq<PregameTurn>): (c: string)
    ensures turns == [] <==> c == "transparent"
    ensures c == StatusColor(ReadyToPlay) <==> AnyWithStatus(turns, ReadyToPlay)
    ensures c == StatusColor(Pending) <==> !AnyWithStatus(turns, ReadyToPlay) && AnyWithStatus(turns, Pending)
    ensures c == StatusColor(Completed) <==>
      !AnyWithStatus(turns, ReadyToPlay) && !AnyWithStatus(turns, Pending) && AnyWithStatus(turns, Completed)
    ensures c != StatusColor(Cancelled)
  {
    if turns == [] then "transparent"
    else if AnyWithStatus(turns, ReadyToPlay) then StatusColor(ReadyToPlay)
    else if AnyWithStatus(turns, Pending) then StatusColor(Pending)
    else if AnyWithStatus(turns, Completed) then StatusColor(Completed)
    else StatusColor(Available)
  }

  /** A day cell: up to two chips, and the `+n más` note for the turns beyond them. */
  datatype DayCell = DayCell(chips: seq<PregameTurn>, more: Option<string>)

  function DayCellOf(turns: seq<PregameTurn>): (c: DayCell)
    ensures |c.chips| == if |turns| < 2 then |turns| else 2
    ensures c.chips <= turns
    ensures c.more.Some? <==> |turns| > 2
    ensures |turns| > 2 ==> c.more == Some("+" + NatToString(|turns| - 2) + " más")
  {
    var chips := if |turns| < 2 then turns else turns[..2];
    DayCell(chips, if |turns| > 2 then Some("+" + NatToString(|turns| - 2) + " más") else None)
  }

  /**
   * `getCourtName`: the turn's own court name when non-empty, otherwise the name of the first
   * court whose id is the turn's court or selected court, otherwise 'N/A'.
   */
  function CourtName(t: PregameTurn, courts: seq<Court>): (name: string)
    ensures t.courtName.Some? && t.courtName.value != [] ==> name == t.courtName.value
    ensures (t.courtName.None? || t.courtName.value == []) ==>
      name == match FindCourtFor(t, courts) case Some(c) => (if c.name != [] then c.name else "N/A") case None => "N/A"
    ensures (t.courtName.None? || t.courtName.value == []) && (forall c | c in courts :: !ServesTurn(c, t)) ==>
      name == "N/A"
    ensures name != []
  {
    if t.courtName.Some? && t.courtName.value != [] then t.courtName.value
    else
      match FindCourtFor(t, courts)
      case Some(c) => if c.name != [] then c.name else "N/A"
      case None => "N/A"
  }

  predicate ServesTurn(c: Court, t: PregameTurn) {
    c.id == t.courtId || (t.selectedCourtId.Some? && c.id == t.selectedCourtId.value)
  }

  function FindCourtFor(t: PregameTurn, courts: seq<Court>): (r: Option<Court>)
    ensures r.Some? ==> r.value in courts && ServesTurn(r.value, t)
    ensures r.None? <==> forall c | c in courts :: !ServesTurn(c, t)
    ensures r.Some? ==> exists i | 0 <= i < |courts| ::
      courts[i] == r.value && forall k | 0 <= k < i :: !ServesTurn(courts[k], t)
    decreases |courts|
  {
    if courts == [] then None
    else if ServesTurn(courts[0], t) then Some(courts[0])
    else
      assert forall c | c in courts :: c == courts[0] || c in courts[1..];
      var r := FindCourtFor(t, courts[1..]);
      if r.Some? then
        var i :| 0 <= i < |courts| - 1 && courts[1..][i] == r.value
          && forall k | 0 <= k < i :: !ServesTurn(courts[1..][k], t);
        assert courts[i + 1] == r.value;
        assert forall k | 0 <= k < i + 1 :: !ServesTurn(courts[k], t);
        r
      else r
  }

  /** The label of a chip: start time and court name. */
  function ChipLabel(t: PregameTurn, courts: seq<Court>): (s: string)
    ensures StartsWith(s, t.startTime) && EndsWith(s, CourtName(t, courts))
  {
    var name := CourtName(t, courts);
    var s := t.startTime + " - " + name;
    assert s[|s| - |name|..] == name;
    s
  }
}
