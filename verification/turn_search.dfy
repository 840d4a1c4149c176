/**
 * What the pending-turn and history pages share: the free-text search over court name and
 * date, and the date comparators their lists are sorted with.
 */
module TurnSearch {

  import opened Wrappers
  import opened Strings
  import opened Dates
  import opened Domain
  import opened Sorting

  /** The turn's date as `dd/MM/yyyy`, or '' without one. */
  function DateText(t: PregameTurn): string {
    match t.date
    case Some(d) => SlashDayText(d.day)
    case None => ""
  }

  /**
   * The search of both pages: an empty query keeps every turn; otherwise the lower-cased
   * query must occur in the lower-cased court name or in the `dd/MM/yyyy` date.
   */
  predicate MatchesSearch(t: PregameTurn, query: string) {
    query == [] ||
      var q := ToLower(query);
      Contains(ToLower(t.courtName.GetOr("")), q) || Contains(DateText(t), q)
  }

  /** `new Date(a.date).getTime() - new Date(b.date).getTime() > 0`, and 0 when either date is missing. */
  predicate LaterThan(a: PregameTurn, b: PregameTurn) {
    a.date.Some? && b.date.Some? && Instant(a.date.value) > Instant(b.date.value)
  }

  /** The reversed comparator of the history page: newest first. */
  predicate EarlierThan(a: PregameTurn, b: PregameTurn) {
    LaterThan(b, a)
  }

  predicate AllDated(turns: seq<PregameTurn>) {
    forall t | t in turns :: t.date.Some?
  }

  /** Earliest first: among dated turns, the sort orders by date and time and keeps every turn. */
  lemma SortEarliestFirst(turns: seq<PregameTurn>)
    requires AllDated(turns)
    ensures var r := Sort(turns, LaterThan);
      && multiset(r) == multiset(turns) && AllDated(r)
      && forall i, j | 0 <= i < j < |r| :: Instant(r[i].date.value) <= Instant(r[j].date.value)
  {
    var u := set t | t in turns;
    SortSorted(turns, LaterThan, u);
    var r := Sort(turns, LaterThan);
    forall i | 0 <= i < |r| ensures r[i].date.Some? {
      assert r[i] in multiset(turns);
    }
  }

  /** Newest first: among dated turns, the sort orders by date and time, latest first. */
  lemma SortNewestFirst(turns: seq<PregameTurn>)
    requires AllDated(turns)
    ensures var r := Sort(turns, EarlierThan);
      && multiset(r) == multiset(turns) && AllDated(r)
      && forall i, j | 0 <= i < j < |r| :: Instant(r[i].date.value) >= Instant(r[j].date.value)
  {
    var u := set t | t in turns;
    SortSorted(turns, EarlierThan, u);
    var r := Sort(turns, EarlierThan);
    forall i | 0 <= i < |r| ensures r[i].date.Some? {
      assert r[i] in multiset(turns);
    }
  }
}
