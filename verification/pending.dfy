/**
 * The page of pending turns: the PENDING turns matching the search, earliest first, with
 * how many players each still needs and whether it is today or tomorrow.
 */
module PendingTurns {

  import opened Wrappers
  import opened Strings
  import opened Domain
  import opened Lists
  import opened Sorting
  import opened TurnSearch
  import Statistics

  predicate Listed(t: PregameTurn, query: string) {
    HasStatus(t, Pending) && MatchesSearch(t, query)
  }

  /** `pendingTurns`: only PENDING turns, and with a query only those it matches. */
  function PendingList(turns: seq<PregameTurn>, query: string): (r: seq<PregameTurn>)
    ensures forall t | t in r :: t in turns && HasStatus(t, Pending) && MatchesSearch(t, query)
    ensures forall t | t in turns && HasStatus(t, Pending) && MatchesSearch(t, query) :: t in r
    ensures query == [] ==> r == Filter(turns, (t: PregameTurn) => HasStatus(t, Pending))
  {
    if query == [] then
      FilterSame(turns, (t: PregameTurn) => Listed(t, query), (t: PregameTurn) => HasStatus(t, Pending));
      Filter(turns, (t: PregameTurn) => Listed(t, query))
    else Filter(turns, (t: PregameTurn) => Listed(t, query))
  }

  /** `sortedTurns`: earliest first, the comparator giving 0 when a date is missing. */
  function SortedPending(turns: seq<PregameTurn>): (r: seq<PregameTurn>)
    ensures multiset(r) == multiset(turns)
    ensures AllDated(turns) ==> forall i, j | 0 <= i < j < |r| ::
      r[i].date.Some? && r[j].date.Some? && Dates.Instant(r[i].date.value) <= Dates.Instant(r[j].date.value)
  {
    if AllDated(turns) then
      SortEarliestFirst(turns);
      Sort(turns, LaterThan)
    else Sort(turns, LaterThan)
  }

  /** `getPlayersNeeded`: the free places of the turn; with the players present they make four. */
  function PlayersNeeded(t: PregameTurn): (n: nat)
    ensures n + CountPlayers(t) == 4
    ensures n == 0 <==> forall k | 0 <= k < 4 :: Truthy(t.players[k].id)
    ensures n == 4 <==> forall k | 0 <= k < 4 :: !Truthy(t.players[k].id)
  {
    var missing := 4 - CountPlayers(t);
    if missing > 0 then missing else 0
  }

  /**
   * `isTurnNearDate`: a dated turn whose calendar day is today or tomorrow. On a PENDING
   * turn it agrees with the turns the dashboard's pending alert counts.
   */
  function IsTurnNearDate(t: PregameTurn, today: int): (near: bool)
    ensures t.date.None? ==> !near
    ensures HasStatus(t, Pending) ==> (near <==> Statistics.PendingNear(t, today))
  {
    match t.date
    case None => false
    case Some(d) => today <= d.day && d.day <= today + 1
  }

  /** The colour of the `n/4` chip: 'success' exactly when nobody is missing. */
  function CountChipColor(t: PregameTurn): (c: string)
    ensures c == "success" <==> CountPlayers(t) == 4
    ensures c == "warning" <==> CountPlayers(t) < 4
  {
    if PlayersNeeded(t) == 0 then "success" else "warning"
  }

  /** The text of the `n/4` chip. */
  function CountChipLabel(t: PregameTurn): string {
    NatToString(CountPlayers(t)) + "/4"
  }

  /** `Faltan n jugador(es)`: the plural ending unless exactly one player is missing. */
  function NeededLabel(t: PregameTurn): (s: string)
    ensures EndsWith(s, "es") <==> PlayersNeeded(t) != 1
    ensures StartsWith(s, "Faltan " + NatToString(PlayersNeeded(t)) + " jugador")
  {
    var n := PlayersNeeded(t);
    var head := "Faltan " + NatToString(n) + " jugador";
    assert head[|head| - 2..] == "or";
    if n != 1 then
      var s := head + "es";
      assert s[|s| - 2..] == "es";
      s
    else head
  }
}
