/**
 * The club statistics the dashboard derives from the fetched courts and turns: court counts,
 * today's figures, revenue, unique players, the weekday histogram, the per-day revenue series,
 * the most used court, the status histogram and the alerts. "Today", the first day of the
 * month and the start of the revenue window are day numbers passed in.
 */
module Statistics {

  import opened Wrappers
  import opened Strings
  import opened Dates
  import opened Domain
  import opened Lists

  // ---------------------------------------------------------------- courts

  /** The courts of club `clubId`. */
  function ClubCourts(courts: seq<Court>, clubId: int): (r: seq<Court>)
    ensures forall c | c in r :: c.clubId == clubId && c in courts
    ensures forall c | c in courts && c.clubId == clubId :: c in r
  {
    Filter(courts, (c: Court) => c.clubId == clubId)
  }

  datatype CourtCounts = CourtCounts(total: nat, available: nat, maintenance: int)

  /**
   * Total, available and in-maintenance courts. Maintenance is computed as total minus
   * available, which is exactly the number of unavailable courts.
   */
  function CountCourts(clubCourts: seq<Court>): (r: CourtCounts)
    ensures r.total == |clubCourts|
    ensures r.available + r.maintenance == r.total
    ensures r.maintenance == Count(clubCourts, (c: Court) => !c.isAvailable)
    ensures r.maintenance == 0 <==> forall c | c in clubCourts :: c.isAvailable
  {
    var total := |clubCourts|;
    var available := Count(clubCourts, (c: Court) => c.isAvailable);
    CountSplit(clubCourts, (c: Court) => c.isAvailable, (c: Court) => !c.isAvailable);
    CourtCounts(total, available, total - available)
  }

  // ---------------------------------------------------------------- today's turns

  datatype TodayStats = TodayStats(total: nat, completed: nat, pending: nat, available: nat, readyToPlay: nat)

  function StatusCount(turns: seq<PregameTurn>, s: TurnStatus): nat {
    Count(turns, (t: PregameTurn) => HasStatus(t, s))
  }

  /** A turn that earns the club its price: COMPLETED or READY_TO_PLAY. */
  predicate Earns(t: PregameTurn) {
    HasStatus(t, Completed) || HasStatus(t, ReadyToPlay)
  }

  /** Today's counts: each status counted on its own, the four never exceeding the total. */
  function ComputeTodayStats(turns: seq<PregameTurn>): (r: TodayStats)
    ensures r.total == |turns|
    ensures r.completed == StatusCount(turns, Completed) && r.pending == StatusCount(turns, Pending)
    ensures r.available == StatusCount(turns, Available) && r.readyToPlay == StatusCount(turns, ReadyToPlay)
    ensures r.completed + r.readyToPlay == Count(turns, Earns)
    ensures r.completed + r.pending + r.available + r.readyToPlay <= r.total
  {
    var stats := TodayStats(|turns|, StatusCount(turns, Completed), StatusCount(turns, Pending),
                            StatusCount(turns, Available), StatusCount(turns, ReadyToPlay));
    StatusCountsBounded(turns);
    stats
  }

  /** One status counted over two lists of turns is the sum of its counts over each. */
  lemma StatusCountAppend(a: seq<PregameTurn>, b: seq<PregameTurn>, s: TurnStatus)
    ensures StatusCount(a + b, s) == StatusCount(a, s) + StatusCount(b, s)
  {
    FilterAppend(a, b, (t: PregameTurn) => HasStatus(t, s));
  }

  /** Today's counts over two lists of turns are the field-wise sums of each list's counts. */
  lemma TodayStatsAppend(a: seq<PregameTurn>, b: seq<PregameTurn>)
    ensures var x, y, z := ComputeTodayStats(a), ComputeTodayStats(b), ComputeTodayStats(a + b);
      && z.total == x.total + y.total
      && z.completed == x.completed + y.completed && z.pending == x.pending + y.pending
      && z.available == x.available + y.available && z.readyToPlay == x.readyToPlay + y.readyToPlay
  {
    StatusCountAppend(a, b, Completed);
    StatusCountAppend(a, b, Pending);
    StatusCountAppend(a, b, Available);
    StatusCountAppend(a, b, ReadyToPlay);
  }

  lemma {:induction false} StatusCountsBounded(turns: seq<PregameTurn>)
    ensures StatusCount(turns, Completed) + StatusCount(turns, ReadyToPlay) == Count(turns, Earns)
    ensures StatusCount(turns, Completed) + StatusCount(turns, Pending)
          + StatusCount(turns, Available) + StatusCount(turns, ReadyToPlay) <= |turns|
    decreases |turns|
  {
    if turns != [] {
      StatusCountsBounded(turns[1..]);
      CountCons(turns, (t: PregameTurn) => HasStatus(t, Completed));
      CountCons(turns, (t: PregameTurn) => HasStatus(t, ReadyToPlay));
      CountCons(turns, (t: PregameTurn) => HasStatus(t, Pending));
      CountCons(turns, (t: PregameTurn) => HasStatus(t, Available));
      CountCons(turns, Earns);
    }
  }

  // ---------------------------------------------------------------- the month

  /** The turns whose day is on or after the first day of the month. */
  function MonthTurns(allTurns: seq<PregameTurn>, monthStart: int): (r: seq<PregameTurn>)
    ensures forall t | t in r :: t in allTurns && t.date.Some? && t.date.value.day >= monthStart
    ensures forall t | t in allTurns && t.date.Some? && t.date.value.day >= monthStart :: t in r
  {
    Filter(allTurns, (t: PregameTurn) => t.date.Some? && t.date.value.day >= monthStart)
  }

  /** The truthy ids of one turn's four player fields. */
  function TurnPlayerIds(t: PregameTurn): (ids: set<int>)
    ensures |ids| <= 4
  {
    var s := t.players;
    var ids := SlotId(s[0]) + SlotId(s[1]) + SlotId(s[2]) + SlotId(s[3]);
    assert |SlotId(s[0]) + SlotId(s[1])| <= 2;
    assert |SlotId(s[0]) + SlotId(s[1]) + SlotId(s[2])| <= 3;
    ids
  }

  /** The ids of a turn are the truthy ids of its four slots. */
  lemma TurnPlayerIdsMembers(t: PregameTurn)
    ensures forall x :: x in TurnPlayerIds(t) <==> x != 0 && exists k | 0 <= k < 4 :: t.players[k].id == Some(x)
  {
  }

  function SlotId(s: PlayerSlot): (ids: set<int>)
    ensures |ids| <= 1
    ensures forall x :: x in ids <==> x != 0 && s.id == Some(x)
  {
    if Truthy(s.id) then {s.id.value} else {}
  }

  /** The set of truthy player ids over `turns`. */
  function PlayerIds(turns: seq<PregameTurn>): (ids: set<int>)
    ensures forall x :: x in ids <==> exists t | t in turns :: x in TurnPlayerIds(t)
    decreases |turns|
  {
    if turns == [] then {}
    else
      var rest := PlayerIds(turns[1..]);
      PlayerIdsStep(turns, rest);
      TurnPlayerIds(turns[0]) + rest
  }

  /** The ids of the first turn joined to those of the rest are the ids of the whole list. */
  lemma PlayerIdsStep(turns: seq<PregameTurn>, rest: set<int>)
    requires turns != []
    requires forall x :: x in rest <==> exists t | t in turns[1..] :: x in TurnPlayerIds(t)
    ensures forall x :: x in TurnPlayerIds(turns[0]) + rest <==> exists t | t in turns :: x in TurnPlayerIds(t)
  {
    forall x
      ensures x in TurnPlayerIds(turns[0]) + rest <==> exists t | t in turns :: x in TurnPlayerIds(t)
    {
      if x in rest {
        var t :| t in turns[1..] && x in TurnPlayerIds(t);
        assert t in turns;
      }
      if x !in TurnPlayerIds(turns[0]) && exists t | t in turns :: x in TurnPlayerIds(t) {
        var t :| t in turns && x in TurnPlayerIds(t);
        var i :| 0 <= i < |turns| && turns[i] == t;
        assert turns[1..][i - 1] == t;
      }
    }
  }

  /** Every turn adds at most four players. */
  lemma {:induction false} PlayerIdsBound(turns: seq<PregameTurn>)
    ensures |PlayerIds(turns)| <= 4 * |turns|
    decreases |turns|
  {
    if turns != [] {
      PlayerIdsBound(turns[1..]);
      var a, b := TurnPlayerIds(turns[0]), PlayerIds(turns[1..]);
      assert PlayerIds(turns) == a + b;
      assert |a + b| <= |a| + |b|;
    }
  }

  /** `uniquePlayersThisMonth`: at most four new players per turn. */
  function UniquePlayers(turns: seq<PregameTurn>): (n: nat)
    ensures n == |PlayerIds(turns)|
    ensures n <= 4 * |turns|
    ensures n > 0 <==> exists i, k | 0 <= i < |turns| && 0 <= k < 4 :: Truthy(turns[i].players[k].id)
  {
    PlayerIdsBound(turns);
    UniquePlayersEmpty(turns);
    |PlayerIds(turns)|
  }

  lemma UniquePlayersEmpty(turns: seq<PregameTurn>)
    ensures PlayerIds(turns) != {} <==> exists i, k | 0 <= i < |turns| && 0 <= k < 4 :: Truthy(turns[i].players[k].id)
  {
    if PlayerIds(turns) != {} {
      var x :| x in PlayerIds(turns);
      PlayerIdHasField(turns, x);
    }
    if exists i, k | 0 <= i < |turns| && 0 <= k < 4 :: Truthy(turns[i].players[k].id) {
      var i, k :| 0 <= i < |turns| && 0 <= k < 4 && Truthy(turns[i].players[k].id);
      FieldGivesPlayerId(turns, i, k);
    }
  }

  /** A collected id stands in some player field. */
  lemma PlayerIdHasField(turns: seq<PregameTurn>, x: int)
    requires x in PlayerIds(turns)
    ensures exists i, k | 0 <= i < |turns| && 0 <= k < 4 :: Truthy(turns[i].players[k].id)
  {
    var t :| t in turns && x in TurnPlayerIds(t);
    var i :| 0 <= i < |turns| && turns[i] == t;
    TurnPlayerIdsMembers(t);
    var k :| 0 <= k < 4 && turns[i].players[k].id == Some(x);
    assert Truthy(turns[i].players[k].id);
  }

  /** A truthy player field puts its id among the collected ones. */
  lemma FieldGivesPlayerId(turns: seq<PregameTurn>, i: nat, k: nat)
    requires i < |turns| && k < 4 && Truthy(turns[i].players[k].id)
    ensures turns[i].players[k].id.value in PlayerIds(turns)
  {
    TurnPlayerIdsMembers(turns[i]);
    assert turns[i].players[k].id.value in TurnPlayerIds(turns[i]);
  }

  /** The players of two lists of turns are the players of each list together. */
  lemma PlayerIdsAppend(a: seq<PregameTurn>, b: seq<PregameTurn>)
    ensures PlayerIds(a + b) == PlayerIds(a) + PlayerIds(b)
  {
    forall x
      ensures x in PlayerIds(a + b) <==> x in PlayerIds(a) + PlayerIds(b)
    {
      if x in PlayerIds(a + b) {
        var t :| t in a + b && x in TurnPlayerIds(t);
      }
    }
  }

  /** Reordering the turns does not change the number of distinct players. */
  lemma UniquePlayersOrderFree(a: seq<PregameTurn>, b: seq<PregameTurn>)
    requires multiset(a) == multiset(b)
    ensures UniquePlayers(a) == UniquePlayers(b)
  {
    forall x
      ensures x in PlayerIds(a) <==> x in PlayerIds(b)
    {
      if x in PlayerIds(a) {
        var t :| t in a && x in TurnPlayerIds(t);
        assert t in multiset(b);
      }
      if x in PlayerIds(b) {
        var t :| t in b && x in TurnPlayerIds(t);
        assert t in multiset(a);
      }
    }
    assert PlayerIds(a) == PlayerIds(b);
  }

  /** Adding turns never lowers the number of distinct players. */
  lemma UniquePlayersGrow(a: seq<PregameTurn>, b: seq<PregameTurn>)
    ensures UniquePlayers(a) <= UniquePlayers(a + b)
  {
    PlayerIdsAppend(a, b);
    SubsetSize(PlayerIds(a), PlayerIds(a + b));
  }

  /** A subset is never larger than its superset. */
  lemma SubsetSize<T>(x: set<T>, y: set<T>)
    requires x <= y
    ensures |x| <= |y|
  {
    var d := y - x;
    assert y == x + d;
    assert x * d == {};
    assert |x + d| == |x| + |d|;
  }

  // ---------------------------------------------------------------- weekday histogram

  const DayNames: seq<string> := ["Lunes", "Martes", "Miércoles", "Jueves", "Viernes", "Sábado", "Domingo"]

  /** The histogram bucket of a day: Monday first, so JavaScript's Sunday (0) is the last. */
  function BucketOf(day: int): (b: nat)
    ensures b < 7
    ensures b == 6 <==> JsWeekday(day) == 0
    ensures b < 6 ==> b == JsWeekday(day) - 1
  {
    var w := JsWeekday(day);
    if w == 0 then 6 else w - 1
  }

  predicate Dated(t: PregameTurn) {
    t.date.Some?
  }

  function Increment(counts: seq<nat>, b: nat): (r: seq<nat>)
    requires b < |counts|
    ensures |r| == |counts|
    ensures r[b] == counts[b] + 1 && forall i | 0 <= i < |counts| && i != b :: r[i] == counts[i]
  {
    counts[b := counts[b] + 1]
  }

  /** The seven counters after every dated turn has bumped its weekday's counter. */
  function Buckets(turns: seq<PregameTurn>): (r: seq<nat>)
    ensures |r| == 7
    decreases |turns|
  {
    if turns == [] then seq(7, _ => 0)
    else
      var rest := Buckets(turns[1..]);
      if Dated(turns[0]) then Increment(rest, BucketOf(turns[0].date.value.day)) else rest
  }

  predicate InBucket(t: PregameTurn, b: nat) {
    Dated(t) && BucketOf(t.date.value.day) == b
  }

  lemma BucketsCountAll(turns: seq<PregameTurn>)
    ensures forall i | 0 <= i < 7 :: Buckets(turns)[i] == Count(turns, (t: PregameTurn) => InBucket(t, i))
  {
    forall i | 0 <= i < 7
      ensures Buckets(turns)[i] == Count(turns, (t: PregameTurn) => InBucket(t, i))
    {
      BucketsCount(turns, i);
    }
  }

  /** Each counter counts the dated turns of its weekday. */
  lemma {:induction false} BucketsCount(turns: seq<PregameTurn>, b: nat)
    requires b < 7
    ensures Buckets(turns)[b] == Count(turns, (t: PregameTurn) => InBucket(t, b))
    decreases |turns|
  {
    if turns != [] {
      BucketsCount(turns[1..], b);
      CountCons(turns, (t: PregameTurn) => InBucket(t, b));
    }
  }

  function SumNat(s: seq<nat>): nat
    decreases |s|
  {
    if s == [] then 0 else s[0] + SumNat(s[1..])
  }

  lemma {:induction false} SumIncrement(counts: seq<nat>, b: nat)
    requires b < |counts|
    ensures SumNat(Increment(counts, b)) == SumNat(counts) + 1
    decreases |counts|
  {
    if b > 0 {
      SumIncrement(counts[1..], b - 1);
      assert Increment(counts, b)[1..] == Increment(counts[1..], b - 1);
    }
  }

  datatype DayOccupancy = DayOccupancy(day: string, occupancy: nat)

  /**
   * `calculateOccupancyByDayOfWeek`: seven entries, Lunes to Domingo, each the number of
   * dated turns falling on that weekday.
   */
  function OccupancyByDayOfWeek(turns: seq<PregameTurn>): (r: seq<DayOccupancy>)
    ensures |r| == 7
    ensures forall i | 0 <= i < 7 :: r[i].day == DayNames[i]
    ensures forall i | 0 <= i < 7 :: r[i].occupancy == Count(turns, (t: PregameTurn) => InBucket(t, i))
  {
    var counts := Buckets(turns);
    BucketsCountAll(turns);
    seq(7, i requires 0 <= i < 7 => DayOccupancy(DayNames[i], counts[i]))
  }

  lemma {:induction false} SumNatZeros(n: nat)
    ensures SumNat(seq(n, _ => 0)) == 0
  {
    if n > 0 {
      assert seq(n, _ => 0)[1..] == seq(n - 1, _ => 0);
      SumNatZeros(n - 1);
    }
  }

  /** The histogram accounts for every dated turn exactly once. */
  lemma {:induction false} OccupancySum(turns: seq<PregameTurn>)
    ensures SumNat(Buckets(turns)) == Count(turns, Dated)
    decreases |turns|
  {
    if turns == [] {
      SumNatZeros(7);
    } else {
      OccupancySum(turns[1..]);
      CountCons(turns, Dated);
      if Dated(turns[0]) {
        SumIncrement(Buckets(turns[1..]), BucketOf(turns[0].date.value.day));
      }
    }
  }

  // ---------------------------------------------------------------- revenue by day

  /** A turn counted in the revenue series: it earns, is dated, and is not before `startDay`. */
  predicate EarnsFrom(t: PregameTurn, startDay: int) {
    Earns(t) && Dated(t) && t.date.value.day >= startDay
  }

  predicate EarnsOn(t: PregameTurn, startDay: int, d: int) {
    EarnsFrom(t, startDay) && t.date.value.day == d
  }

  /** The `revenueByDate` object: each qualifying turn adds the price under its day. */
  function RevenueMap(turns: seq<PregameTurn>, price: int, startDay: int): map<int, int>
    decreases |turns|
  {
    if turns == [] then map[]
    else
      var m := RevenueMap(turns[1..], price, startDay);
      var t := turns[0];
      if EarnsFrom(t, startDay) then
        var d := t.date.value.day;
        m[d := (if d in m then m[d] else 0) + price]
      else m
  }

  function Lookup(m: map<int, int>, d: int): int {
    if d in m then m[d] else 0
  }

  /** The map holds, for each day, the price times the number of qualifying turns on it. */
  lemma {:induction false} RevenueMapCount(turns: seq<PregameTurn>, price: int, startDay: int, d: int)
    ensures Lookup(RevenueMap(turns, price, startDay), d) == price * Count(turns, (t: PregameTurn) => EarnsOn(t, startDay, d))
    decreases |turns|
  {
    if turns != [] {
      RevenueMapCount(turns[1..], price, startDay, d);
      CountCons(turns, (t: PregameTurn) => EarnsOn(t, startDay, d));
      RevenueMapHead(turns, price, startDay, d);
      var k := if EarnsOn(turns[0], startDay, d) then 1 else 0;
      var c := Count(turns[1..], (t: PregameTurn) => EarnsOn(t, startDay, d));
      assert Count(turns, (t: PregameTurn) => EarnsOn(t, startDay, d)) == k + c;
      Distribute(price, k, c);
      assert Lookup(RevenueMap(turns, price, startDay), d) == price * k + price * c;
    }
  }

  /** The first turn adds the price under day `d` exactly when it earns on that day. */
  lemma RevenueMapHead(turns: seq<PregameTurn>, price: int, startDay: int, d: int)
    requires turns != []
    ensures Lookup(RevenueMap(turns, price, startDay), d) ==
      Lookup(RevenueMap(turns[1..], price, startDay), d) + (if EarnsOn(turns[0], startDay, d) then price else 0)
  {
  }

  lemma Distribute(a: int, b: int, c: int)
    ensures a * (b + c) == a * b + a * c
  {
  }

  datatype DayRevenue = DayRevenue(day: int, revenue: int)

  /** One entry per day from `start` to `today`, inclusive. */
  function Series(m: map<int, int>, start: int, today: int): (r: seq<DayRevenue>)
    ensures |r| == if start > today then 0 else today - start + 1
    ensures forall i | 0 <= i < |r| :: r[i] == DayRevenue(start + i, Lookup(m, start + i))
    decreases today - start + 1
  {
    if start > today then [] else [DayRevenue(start, Lookup(m, start))] + Series(m, start + 1, today)
  }

  /**
   * `calculateRevenueByDay`: every day from `startDay` to `today` with no gaps, each with the
   * price times the number of earning turns dated that day (a day before `startDay` never
   * earns, since the text comparison keeps only dates on or after it).
   */
  function RevenueByDay(turns: seq<PregameTurn>, price: int, startDay: int, today: int): (r: seq<DayRevenue>)
    ensures |r| == if startDay > today then 0 else today - startDay + 1
    ensures forall i | 0 <= i < |r| :: r[i].day == startDay + i
    ensures forall i | 0 <= i < |r| ::
      r[i].revenue == price * Count(turns, (t: PregameTurn) => EarnsOn(t, startDay, startDay + i))
  {
    RevenueMapCountAll(turns, price, startDay);
    Series(RevenueMap(turns, price, startDay), startDay, today)
  }

  lemma RevenueMapCountAll(turns: seq<PregameTurn>, price: int, startDay: int)
    ensures forall d :: (Lookup(RevenueMap(turns, price, startDay), d)
      == price * Count(turns, (t: PregameTurn) => EarnsOn(t, startDay, d)))
  {
    forall d
      ensures Lookup(RevenueMap(turns, price, startDay), d) == price * Count(turns, (t: PregameTurn) => EarnsOn(t, startDay, d))
    {
      RevenueMapCount(turns, price, startDay, d);
    }
  }

  /** Fed only the month's turns, the series is zero on every day before the month starts. */
  lemma RevenueBeforeMonthIsZero(turns: seq<PregameTurn>, price: int, startDay: int, today: int, monthStart: int)
    requires forall t | t in turns :: Dated(t) && t.date.value.day >= monthStart
    ensures forall e | e in RevenueByDay(turns, price, startDay, today) && e.day < monthStart :: e.revenue == 0
  {
    var r := RevenueByDay(turns, price, startDay, today);
    forall e | e in r && e.day < monthStart
      ensures e.revenue == 0
    {
      var i :| 0 <= i < |r| && r[i] == e;
      NoEarningsBefore(turns, startDay, startDay + i, monthStart);
      assert e.revenue == price * 0;
    }
  }

  lemma NoEarningsBefore(turns: seq<PregameTurn>, startDay: int, d: int, monthStart: int)
    requires forall t | t in turns :: Dated(t) && t.date.value.day >= monthStart
    requires d < monthStart
    ensures Count(turns, (t: PregameTurn) => EarnsOn(t, startDay, d)) == 0
  {
    assert forall t | t in turns :: !EarnsOn(t, startDay, d);
  }

  // ---------------------------------------------------------------- most used court

  predicate StrictlyAscending(ks: seq<nat>) {
    forall i, j | 0 <= i < j < |ks| :: ks[i] < ks[j]
  }

  /** Adds an integer key to an object whose keys iterate in ascending order. */
  function InsertKey(ks: seq<nat>, k: nat): (r: seq<nat>)
    requires StrictlyAscending(ks)
    ensures StrictlyAscending(r)
    ensures forall x :: x in r <==> x in ks || x == k
    decreases |ks|
  {
    if ks == [] then [k]
    else if k == ks[0] then ks
    else if k < ks[0] then [k] + ks
    else
      var rest := InsertKey(ks[1..], k);
      assert forall x | x in ks[1..] :: ks[0] < x by {
        forall x | x in ks[1..] ensures ks[0] < x {
          var j :| 0 <= j < |ks[1..]| && ks[1..][j] == x;
          assert ks[j + 1] == x;
        }
      }
      var r := [ks[0]] + rest;
      assert forall j | 1 <= j < |r| :: r[j] in rest && ks[0] < r[j] by {
        forall j | 1 <= j < |r| ensures r[j] in rest && ks[0] < r[j] {
          assert r[j] == rest[j - 1];
        }
      }
      r
  }

  /** The keys of `courtUsage`, in `Object.entries` order: the truthy court ids, ascending. */
  function UsageKeys(turns: seq<PregameTurn>): (r: seq<nat>)
    ensures StrictlyAscending(r)
    ensures forall x :: x in r <==> x > 0 && exists t | t in turns :: t.courtId == x
    decreases |turns|
  {
    if turns == [] then []
    else
      var rest := UsageKeys(turns[1..]);
      assert forall t | t in turns[1..] :: t in turns;
      assert forall t | t in turns :: t == turns[0] || t in turns[1..];
      if turns[0].courtId > 0 then InsertKey(rest, turns[0].courtId) else rest
  }

  function CourtUsage(turns: seq<PregameTurn>, id: nat): nat {
    Count(turns, (t: PregameTurn) => t.courtId == id)
  }

  /** The `forEach` over the entries: a key replaces the best only with a strictly larger count. */
  function PickMax(keys: seq<nat>, count: nat -> nat, best: Option<nat>, maxCount: nat): (Option<nat>, nat)
    decreases |keys|
  {
    if keys == [] then (best, maxCount)
    else if count(keys[0]) > maxCount then PickMax(keys[1..], count, Some(keys[0]), count(keys[0]))
    else PickMax(keys[1..], count, best, maxCount)
  }

  /** What the scan promises: the count it ends with bounds every key, and a new best is the first key reaching it. */
  ghost predicate PickMaxPost(keys: seq<nat>, count: nat -> nat, best: Option<nat>, maxCount: nat, b: Option<nat>, m: nat) {
    && m >= maxCount
    && (forall k | k in keys :: count(k) <= m)
    && (b.Some? ==> count(b.value) == m)
    && (b == best ==> m == maxCount)
    && (b != best ==> && b.Some? && b.value in keys && m > maxCount
                      && forall k | k in keys && k < b.value :: count(k) < m)
  }

  lemma {:induction false} PickMaxSpec(keys: seq<nat>, count: nat -> nat, best: Option<nat>, maxCount: nat)
    requires StrictlyAscending(keys)
    requires best.Some? ==> count(best.value) == maxCount && forall k | k in keys :: best.value < k
    ensures PickMaxPost(keys, count, best, maxCount, PickMax(keys, count, best, maxCount).0, PickMax(keys, count, best, maxCount).1)
    decreases |keys|
  {
    if keys != [] {
      var k0 := keys[0];
      assert forall k | k in keys[1..] :: k in keys && k0 < k;
      var r := PickMax(keys, count, best, maxCount);
      if count(k0) > maxCount {
        PickMaxSpec(keys[1..], count, Some(k0), count(k0));
        PickMaxTake(keys, count, best, maxCount, r.0, r.1);
      } else {
        PickMaxSpec(keys[1..], count, best, maxCount);
        PickMaxKeep(keys, count, best, maxCount, r.0, r.1);
      }
    }
  }

  /** The first key beats the best so far: the rest of the scan starts from it. */
  lemma PickMaxTake(keys: seq<nat>, count: nat -> nat, best: Option<nat>, maxCount: nat, b: Option<nat>, m: nat)
    requires keys != [] && StrictlyAscending(keys) && count(keys[0]) > maxCount
    requires best.Some? ==> count(best.value) == maxCount && forall k | k in keys :: best.value < k
    requires PickMaxPost(keys[1..], count, Some(keys[0]), count(keys[0]), b, m)
    ensures PickMaxPost(keys, count, best, maxCount, b, m)
  {
    assert forall k | k in keys :: k == keys[0] || k in keys[1..];
    assert forall k | k in keys[1..] :: keys[0] < k;
  }

  /** The first key does not beat the best so far: the scan goes on without it. */
  lemma PickMaxKeep(keys: seq<nat>, count: nat -> nat, best: Option<nat>, maxCount: nat, b: Option<nat>, m: nat)
    requires keys != [] && StrictlyAscending(keys) && count(keys[0]) <= maxCount
    requires best.Some? ==> count(best.value) == maxCount && forall k | k in keys :: best.value < k
    requires PickMaxPost(keys[1..], count, best, maxCount, b, m)
    ensures PickMaxPost(keys, count, best, maxCount, b, m)
  {
    assert forall k | k in keys :: k == keys[0] || k in keys[1..];
    assert forall k | k in keys[1..] :: k in keys;
  }

  /** The winning court id and its count, before the court lookup. */
  function MostUsedId(turns: seq<PregameTurn>): (r: (Option<nat>, nat))
    ensures r.0.None? <==> forall t | t in turns :: t.courtId == 0
    ensures r.0.Some? ==> r.0.value > 0 && r.1 == CourtUsage(turns, r.0.value)
    ensures r.0.Some? ==> forall c: nat | c > 0 :: CourtUsage(turns, c) <= r.1
    ensures r.0.Some? ==> forall c: nat | 0 < c < r.0.value :: CourtUsage(turns, c) < r.1
  {
    var keys := UsageKeys(turns);
    var count := (c: nat) => CourtUsage(turns, c);
    MostUsedIdSpec(turns);
    PickMax(keys, count, None, 0)
  }

  lemma MostUsedIdSpec(turns: seq<PregameTurn>)
    ensures var r := PickMax(UsageKeys(turns), (c: nat) => CourtUsage(turns, c), None, 0);
      && (r.0.None? <==> forall t | t in turns :: t.courtId == 0)
      && (r.0.Some? ==> r.0.value > 0 && r.1 == CourtUsage(turns, r.0.value))
      && (r.0.Some? ==> forall c: nat | c > 0 :: CourtUsage(turns, c) <= r.1)
      && (r.0.Some? ==> forall c: nat | 0 < c < r.0.value :: CourtUsage(turns, c) < r.1)
  {
    var keys := UsageKeys(turns);
    var count := (c: nat) => CourtUsage(turns, c);
    PickMaxSpec(keys, count, None, 0);
    UsageKeysUsed(turns);
    var r := PickMax(keys, count, None, 0);
    if r.0.None? {
      forall t | t in turns
        ensures t.courtId == 0
      {
        assert t.courtId > 0 ==> t.courtId in keys;
      }
    }
  }

  /** A positive court id is a key exactly when some turn uses it. */
  lemma UsageKeysUsed(turns: seq<PregameTurn>)
    ensures forall c: nat | c > 0 :: c in UsageKeys(turns) <==> CourtUsage(turns, c) > 0
  {
    var keys := UsageKeys(turns);
    forall c: nat | c > 0
      ensures c in keys <==> CourtUsage(turns, c) > 0
    {
      if c in keys {
        var t :| t in turns && t.courtId == c;
      }
    }
  }

  datatype MostUsedCourt = MostUsedCourt(courtId: nat, courtName: string, turnCount: nat)

  /** The first court with id `id` (`courts.find`). */
  function FindCourt(courts: seq<Court>, id: nat): (r: Option<Court>)
    ensures r.Some? ==> r.value in courts && r.value.id == id
    ensures r.None? <==> forall c | c in courts :: c.id != id
    decreases |courts|
  {
    if courts == [] then None
    else if courts[0].id == id then Some(courts[0])
    else
      assert forall c | c in courts :: c == courts[0] || c in courts[1..];
      FindCourt(courts[1..], id)
  }

  /**
   * `calculateMostUsedCourt`: the court with the strictly largest number of turns, the lowest
   * id winning a tie; nothing when no turn names a court or the winner is not in the list.
   */
  function CalculateMostUsedCourt(turns: seq<PregameTurn>, courts: seq<Court>): (r: Option<MostUsedCourt>)
    ensures (forall t | t in turns :: t.courtId == 0) ==> r.None?
    ensures r.Some? ==> exists c | c in courts :: c.id == r.value.courtId && c.name == r.value.courtName
    ensures r.Some? ==> r.value.courtId > 0 && r.value.turnCount == CourtUsage(turns, r.value.courtId)
    ensures r.Some? ==> forall c: nat | c > 0 :: CourtUsage(turns, c) <= r.value.turnCount
    ensures r.Some? ==> forall c: nat | 0 < c < r.value.courtId :: CourtUsage(turns, c) < r.value.turnCount
    ensures r.None? && MostUsedId(turns).0.Some? ==> forall c | c in courts :: c.id != MostUsedId(turns).0.value
  {
    var (best, maxCount) := MostUsedId(turns);
    if best.Some? && best.value != 0 then
      match FindCourt(courts, best.value)
      case Some(court) => Some(MostUsedCourt(court.id, court.name, maxCount))
      case None => None
    else None
  }

  // ---------------------------------------------------------------- turns by status

  /** `turn.status || 'UNKNOWN'`. */
  function StatusKey(t: PregameTurn): string {
    match t.status
    case Some(s) => StatusName(s)
    case None => "UNKNOWN"
  }

  datatype StatusEntry = StatusEntry(status: string, count: nat)

  /** The statuses that have an entry. */
  function Keys(es: seq<StatusEntry>): set<string>
    decreases |es|
  {
    if es == [] then {} else {es[0].status} + Keys(es[1..])
  }

  /** No status has two entries. */
  predicate DistinctKeys(es: seq<StatusEntry>)
    decreases |es|
  {
    es == [] || (es[0].status !in Keys(es[1..]) && DistinctKeys(es[1..]))
  }

  /** Adds one to the entry for `k`, or appends a new entry at the end (insertion order). */
  function Bump(es: seq<StatusEntry>, k: string): (r: seq<StatusEntry>)
    decreases |es|
  {
    if es == [] then [StatusEntry(k, 1)]
    else if es[0].status == k then [StatusEntry(k, es[0].count + 1)] + es[1..]
    else [es[0]] + Bump(es[1..], k)
  }

  /** The histogram after counting `keys` left to right. */
  function Tally(keys: seq<string>): seq<StatusEntry>
    decreases |keys|
  {
    if keys == [] then [] else Bump(Tally(keys[..|keys| - 1]), keys[|keys| - 1])
  }

  function Occurrences(keys: seq<string>, k: string): nat
    decreases |keys|
  {
    if keys == [] then 0
    else Occurrences(keys[..|keys| - 1], k) + (if keys[|keys| - 1] == k then 1 else 0)
  }

  function SumCounts(es: seq<StatusEntry>): nat
    decreases |es|
  {
    if es == [] then 0 else es[0].count + SumCounts(es[1..])
  }

  /** The count of the first entry for `k`, or 0. */
  function EntryCount(es: seq<StatusEntry>, k: string): nat
    decreases |es|
  {
    if es == [] then 0 else if es[0].status == k then es[0].count else EntryCount(es[1..], k)
  }

  predicate AllPositive(es: seq<StatusEntry>) {
    forall i | 0 <= i < |es| :: es[i].count > 0
  }

  lemma {:induction false} BumpKeys(es: seq<StatusEntry>, k: string)
    ensures Keys(Bump(es, k)) == Keys(es) + {k}
    ensures DistinctKeys(es) ==> DistinctKeys(Bump(es, k))
    decreases |es|
  {
    if es != [] && es[0].status != k {
      BumpKeys(es[1..], k);
      assert Bump(es, k)[1..] == Bump(es[1..], k);
    } else if es != [] {
      assert Bump(es, k)[1..] == es[1..];
    }
  }

  lemma {:induction false} BumpCounts(es: seq<StatusEntry>, k: string)
    ensures SumCounts(Bump(es, k)) == SumCounts(es) + 1
    ensures forall x :: EntryCount(Bump(es, k), x) == EntryCount(es, x) + (if x == k then 1 else 0)
    ensures AllPositive(es) ==> AllPositive(Bump(es, k))
    decreases |es|
  {
    if es != [] && es[0].status != k {
      BumpCounts(es[1..], k);
      var r := Bump(es, k);
      assert r[1..] == Bump(es[1..], k);
      if AllPositive(es) {
        assert AllPositive(es[1..]) by {
          forall i | 0 <= i < |es[1..]| ensures es[1..][i].count > 0 {
            assert es[1..][i] == es[i + 1];
          }
        }
        forall i | 0 <= i < |r| ensures r[i].count > 0 {
          if i > 0 {
            assert r[i] == Bump(es[1..], k)[i - 1];
          }
        }
      }
    } else if es != [] {
      assert Bump(es, k)[1..] == es[1..];
    }
  }

  lemma {:induction false} TallySpec(keys: seq<string>)
    ensures DistinctKeys(Tally(keys))
    ensures SumCounts(Tally(keys)) == |keys|
    ensures Keys(Tally(keys)) == set k | k in keys
    ensures forall x :: EntryCount(Tally(keys), x) == Occurrences(keys, x)
    ensures AllPositive(Tally(keys))
    decreases |keys|
  {
    if keys != [] {
      var front, last := keys[..|keys| - 1], keys[|keys| - 1];
      TallySpec(front);
      BumpKeys(Tally(front), last);
      BumpCounts(Tally(front), last);
      assert keys == front + [last];
      assert (set k | k in keys) == (set k | k in front) + {last};
    }
  }

  /** The index of the first occurrence of `x` in `keys`, or `|keys|` when it does not occur. */
  function FirstIndex(keys: seq<string>, x: string): (n: nat)
    ensures n <= |keys|
    ensures n < |keys| ==> keys[n] == x
    ensures forall m | 0 <= m < n :: keys[m] != x
    decreases |keys|
  {
    if keys == [] then 0 else if keys[0] == x then 0 else 1 + FirstIndex(keys[1..], x)
  }

  /** Appending a key does not move the first occurrence of a key already present. */
  lemma FirstIndexPrefix(front: seq<string>, last: string, x: string)
    requires x in front
    ensures FirstIndex(front, x) < |front|
    ensures FirstIndex(front + [last], x) == FirstIndex(front, x)
  {
    var b := FirstIndex(front, x);
    var i :| 0 <= i < |front| && front[i] == x;
    assert b <= i;
    var a := FirstIndex(front + [last], x);
    assert (front + [last])[b] == x;
    assert a <= b;
    assert (front + [last])[a] == front[a];
  }

  /** The first occurrence of a new key is at the end. */
  lemma FirstIndexNew(front: seq<string>, last: string)
    requires last !in front
    ensures FirstIndex(front + [last], last) == |front|
  {
    var keys := front + [last];
    var a := FirstIndex(keys, last);
    assert keys[|front|] == last;
  }

  /** Bumping keeps the statuses in place, and a new status is appended at the end. */
  lemma {:induction false} BumpStatuses(es: seq<StatusEntry>, k: string)
    ensures k in Keys(es) ==> |Bump(es, k)| == |es|
    ensures k !in Keys(es) ==> |Bump(es, k)| == |es| + 1 && Bump(es, k)[|es|].status == k
    ensures forall i | 0 <= i < |es| :: Bump(es, k)[i].status == es[i].status
    decreases |es|
  {
    if es != [] && es[0].status != k {
      BumpStatuses(es[1..], k);
      var r := Bump(es, k);
      assert r[1..] == Bump(es[1..], k);
      forall i | 0 < i < |es| ensures r[i].status == es[i].status {
        assert r[i] == Bump(es[1..], k)[i - 1] && es[i] == es[1..][i - 1];
      }
    }
  }

  /** The histogram lists its statuses in the order of their first appearance in `keys`. */
  lemma {:induction false} TallyOrder(keys: seq<string>)
    ensures var r := Tally(keys);
      forall i, j | 0 <= i < j < |r| :: FirstIndex(keys, r[i].status) < FirstIndex(keys, r[j].status)
    decreases |keys|
  {
    if keys != [] {
      var front, last := keys[..|keys| - 1], keys[|keys| - 1];
      assert keys == front + [last];
      TallyOrder(front);
      TallySpec(front);
      var es := Tally(front);
      KeysHasEntries(es);
      BumpStatuses(es, last);
      assert Tally(keys) == Bump(es, last);
      assert last in front <==> last in Keys(es);
      forall i | 0 <= i < |es| ensures es[i].status in front {
        assert es[i].status in Keys(es);
      }
      OrderAfterBump(front, last, es, Bump(es, last));
    }
  }

  /** One step of the tally keeps the statuses in order of first appearance. */
  lemma OrderAfterBump(front: seq<string>, last: string, es: seq<StatusEntry>, r: seq<StatusEntry>)
    requires forall i, j | 0 <= i < j < |es| :: FirstIndex(front, es[i].status) < FirstIndex(front, es[j].status)
    requires forall i | 0 <= i < |es| :: es[i].status in front
    requires last in front ==> |r| == |es|
    requires last !in front ==> |r| == |es| + 1 && r[|es|].status == last
    requires |es| <= |r|
    requires forall i | 0 <= i < |es| :: r[i].status == es[i].status
    ensures forall i, j | 0 <= i < j < |r| :: FirstIndex(front + [last], r[i].status) < FirstIndex(front + [last], r[j].status)
  {
    var keys := front + [last];
    forall i | 0 <= i < |es| ensures FirstIndex(keys, es[i].status) == FirstIndex(front, es[i].status) < |front| {
      FirstIndexPrefix(front, last, es[i].status);
    }
    if last !in front {
      FirstIndexNew(front, last);
    }
  }

  lemma {:induction false} KeysHasEntries(es: seq<StatusEntry>)
    ensures forall x :: x in Keys(es) <==> exists i | 0 <= i < |es| :: es[i].status == x
    decreases |es|
  {
    if es != [] {
      KeysHasEntries(es[1..]);
      forall x
        ensures x in Keys(es) <==> exists i | 0 <= i < |es| :: es[i].status == x
      {
        if x in Keys(es[1..]) {
          var i :| 0 <= i < |es[1..]| && es[1..][i].status == x;
          assert es[i + 1].status == x;
        }
        if exists i | 0 <= i < |es| :: es[i].status == x {
          var i :| 0 <= i < |es| && es[i].status == x;
          if i > 0 {
            assert es[1..][i - 1].status == x;
          }
        }
      }
    }
  }

  lemma {:induction false} DistinctPairwise(es: seq<StatusEntry>)
    requires DistinctKeys(es)
    ensures forall i, j | 0 <= i < j < |es| :: es[i].status != es[j].status
    ensures forall i | 0 <= i < |es| :: EntryCount(es, es[i].status) == es[i].count
    decreases |es|
  {
    if es != [] {
      DistinctPairwise(es[1..]);
      KeysHasEntries(es[1..]);
      forall i, j | 0 <= i < j < |es|
        ensures es[i].status != es[j].status
      {
        if i == 0 {
          assert es[1..][j - 1].status == es[j].status;
        } else {
          assert es[1..][i - 1] == es[i] && es[1..][j - 1] == es[j];
        }
      }
      forall i | 0 <= i < |es|
        ensures EntryCount(es, es[i].status) == es[i].count
      {
        if i > 0 {
          assert es[1..][i - 1] == es[i];
        }
      }
    }
  }

  /**
   * `calculateTurnsByStatus`: one entry per distinct status (a missing one read as
   * 'UNKNOWN'), in order of first appearance, each with its number of turns; the counts add
   * up to the number of turns.
   */
  function TurnsByStatus(turns: seq<PregameTurn>): (r: seq<StatusEntry>)
    ensures forall i, j | 0 <= i < j < |r| :: r[i].status != r[j].status
    ensures SumCounts(r) == |turns|
    ensures forall t | t in turns :: exists i | 0 <= i < |r| :: r[i].status == StatusKey(t)
    ensures forall i | 0 <= i < |r| :: r[i].count > 0 && exists t | t in turns :: StatusKey(t) == r[i].status
    ensures forall i | 0 <= i < |r| :: r[i].count == Occurrences(StatusKeys(turns), r[i].status)
    ensures forall i, j | 0 <= i < j < |r| ::
      FirstIndex(StatusKeys(turns), r[i].status) < FirstIndex(StatusKeys(turns), r[j].status)
  {
    TurnsByStatusSpec(turns);
    TallyOrder(StatusKeys(turns));
    Tally(StatusKeys(turns))
  }

  function StatusKeys(turns: seq<PregameTurn>): (keys: seq<string>)
    ensures |keys| == |turns|
    ensures forall k | 0 <= k < |turns| :: keys[k] == StatusKey(turns[k])
  {
    seq(|turns|, k requires 0 <= k < |turns| => StatusKey(turns[k]))
  }

  lemma TurnsByStatusSpec(turns: seq<PregameTurn>)
    ensures var r := Tally(StatusKeys(turns));
      && (forall i, j | 0 <= i < j < |r| :: r[i].status != r[j].status)
      && SumCounts(r) == |turns|
      && (forall t | t in turns :: exists i | 0 <= i < |r| :: r[i].status == StatusKey(t))
      && (forall i | 0 <= i < |r| :: r[i].count > 0 && exists t | t in turns :: StatusKey(t) == r[i].status)
      && (forall i | 0 <= i < |r| :: r[i].count == Occurrences(StatusKeys(turns), r[i].status))
  {
    var keys := StatusKeys(turns);
    TallySpec(keys);
    var r := Tally(keys);
    DistinctPairwise(r);
    KeysHasEntries(r);
    forall t | t in turns
      ensures exists i | 0 <= i < |r| :: r[i].status == StatusKey(t)
    {
      var k :| 0 <= k < |turns| && turns[k] == t;
      assert keys[k] == StatusKey(t);
      assert StatusKey(t) in Keys(r);
    }
    forall i | 0 <= i < |r|
      ensures exists t | t in turns :: StatusKey(t) == r[i].status
    {
      assert r[i].status in Keys(r);
      var k :| 0 <= k < |keys| && keys[k] == r[i].status;
      assert turns[k] in turns;
    }
  }

  // ---------------------------------------------------------------- alerts

  datatype AlertKind = MaintenanceAlert | PendingTurnsAlert | PriceChangeAlert
  datatype Severity = Warning | Info | Error
  datatype Alert = Alert(kind: AlertKind, message: string, severity: Severity)

  /** A PENDING turn dated today or tomorrow, at day granularity. */
  predicate PendingNear(t: PregameTurn, today: int) {
    HasStatus(t, Pending) && Dated(t) && today <= t.date.value.day <= today + 1
  }

  /** The plural suffix the alert texts add when a count exceeds one. */
  function PluralIfMany(n: int, suffix: string): string {
    if n > 1 then suffix else ""
  }

  function MaintenanceMessage(n: nat): string {
    NatToString(n) + " cancha" + PluralIfMany(n, "s") + " en mantenimiento"
  }

  function PendingMessage(n: nat): string {
    NatToString(n) + " turno" + PluralIfMany(n, "s") + " pendiente" + PluralIfMany(n, "s") + " para hoy o mañana"
  }

  /** The number of courts in maintenance (not available). */
  function MaintenanceCount(courts: seq<Court>): (n: nat)
    ensures n == 0 <==> forall c | c in courts :: c.isAvailable
  {
    Count(courts, (c: Court) => !c.isAvailable)
  }

  /** The number of PENDING turns dated today or tomorrow. */
  function PendingNearCount(turns: seq<PregameTurn>, today: int): (n: nat)
    ensures n == 0 <==> forall t | t in turns :: !PendingNear(t, today)
  {
    Count(turns, (t: PregameTurn) => PendingNear(t, today))
  }

  /**
   * `generateAlerts`: a maintenance warning when some court is unavailable, then a pending
   * notice when some PENDING turn is dated today or tomorrow, each carrying its count; no
   * other alert.
   */
  function GenerateAlerts(courts: seq<Court>, turns: seq<PregameTurn>, today: int): (r: seq<Alert>)
    ensures |r| == (if exists c | c in courts :: !c.isAvailable then 1 else 0)
                 + (if exists t | t in turns :: PendingNear(t, today) then 1 else 0)
    ensures (exists c | c in courts :: !c.isAvailable) <==> |r| > 0 && r[0].kind == MaintenanceAlert
    ensures (exists t | t in turns :: PendingNear(t, today)) <==> |r| > 0 && r[|r| - 1].kind == PendingTurnsAlert
    ensures forall a | a in r :: a.kind != PriceChangeAlert
    ensures forall a | a in r :: (a.kind == MaintenanceAlert <==> a.severity == Warning)
    ensures forall a | a in r :: (a.kind == PendingTurnsAlert <==> a.severity == Info)
    ensures forall a | a in r && a.kind == MaintenanceAlert :: a.message == MaintenanceMessage(MaintenanceCount(courts))
    ensures forall a | a in r && a.kind == PendingTurnsAlert :: a.message == PendingMessage(PendingNearCount(turns, today))
  {
    AlertsFor(MaintenanceCount(courts), PendingNearCount(turns, today))
  }

  /** The alerts for given counts of courts in maintenance and of near PENDING turns. */
  function AlertsFor(maintenance: nat, pending: nat): (r: seq<Alert>)
    ensures |r| == (if maintenance > 0 then 1 else 0) + (if pending > 0 then 1 else 0)
    ensures maintenance > 0 <==> |r| > 0 && r[0].kind == MaintenanceAlert
    ensures pending > 0 <==> |r| > 0 && r[|r| - 1].kind == PendingTurnsAlert
    ensures forall a | a in r :: a.kind != PriceChangeAlert
    ensures forall a | a in r :: (a.kind == MaintenanceAlert <==> a.severity == Warning)
    ensures forall a | a in r :: (a.kind == PendingTurnsAlert <==> a.severity == Info)
    ensures forall a | a in r && a.kind == MaintenanceAlert :: a.message == MaintenanceMessage(maintenance)
    ensures forall a | a in r && a.kind == PendingTurnsAlert :: a.message == PendingMessage(pending)
  {
    var m := Alert(MaintenanceAlert, MaintenanceMessage(maintenance), Warning);
    var p := Alert(PendingTurnsAlert, PendingMessage(pending), Info);
    if maintenance > 0 && pending > 0 then [m, p]
    else if maintenance > 0 then [m]
    else if pending > 0 then [p]
    else []
  }

  /**
   * Only unavailable courts and near PENDING turns raise alerts: adding available courts and
   * turns that are not pending for today or tomorrow leaves the alerts as they were.
   */
  lemma AlertsIgnoreQuietInputs(courts: seq<Court>, moreCourts: seq<Court>,
                                turns: seq<PregameTurn>, moreTurns: seq<PregameTurn>, today: int)
    requires forall c | c in moreCourts :: c.isAvailable
    requires forall t | t in moreTurns :: !PendingNear(t, today)
    ensures GenerateAlerts(courts + moreCourts, turns + moreTurns, today) == GenerateAlerts(courts, turns, today)
  {
    FilterAppend(courts, moreCourts, (c: Court) => !c.isAvailable);
    FilterAppend(turns, moreTurns, (t: PregameTurn) => PendingNear(t, today));
    assert MaintenanceCount(moreCourts) == 0;
    assert PendingNearCount(moreTurns, today) == 0;
  }

  // ---------------------------------------------------------------- the whole report

  datatype ClubStatistics = ClubStatistics(
    totalCourts: nat,
    availableCourts: nat,
    maintenanceCourts: int,
    todayTurns: TodayStats,
    todayRevenue: int,
    monthRevenue: int,
    uniquePlayersThisMonth: nat,
    occupancyByDayOfWeek: seq<DayOccupancy>,
    revenueByDay: seq<DayRevenue>,
    mostUsedCourt: Option<MostUsedCourt>,
    turnsByStatus: seq<StatusEntry>,
    alerts: seq<Alert>)

  /**
   * `getClubStatistics`, given the fetched courts, today's turns, all turns and the club's
   * price. Revenue is the number of earning turns times the price, a missing price counting
   * as zero; the month figures use only turns on or after `monthStart`.
   */
  function GetClubStatistics(clubId: int, courts: seq<Court>, todayTurns: seq<PregameTurn>,
                             allTurns: seq<PregameTurn>, clubPrice: Option<int>,
                             today: int, monthStart: int, windowStart: int): (r: ClubStatistics)
    ensures r.availableCourts + r.maintenanceCourts == r.totalCourts
    ensures r.maintenanceCourts == Count(ClubCourts(courts, clubId), (c: Court) => !c.isAvailable)
    ensures r.totalCourts == |ClubCourts(courts, clubId)|
    ensures r.todayRevenue == Count(todayTurns, Earns) * clubPrice.GetOr(0)
    ensures r.monthRevenue == Count(MonthTurns(allTurns, monthStart), Earns) * clubPrice.GetOr(0)
    ensures r.todayTurns == ComputeTodayStats(todayTurns)
    ensures r.uniquePlayersThisMonth == |PlayerIds(MonthTurns(allTurns, monthStart))|
    ensures r.uniquePlayersThisMonth <= 4 * |MonthTurns(allTurns, monthStart)|
    ensures |r.occupancyByDayOfWeek| == 7
    ensures SumCounts(r.turnsByStatus) == |MonthTurns(allTurns, monthStart)|
    ensures forall e | e in r.revenueByDay && e.day < monthStart :: e.revenue == 0
    ensures r.alerts == GenerateAlerts(ClubCourts(courts, clubId), todayTurns, today)
    ensures |r.alerts| <= 2
    ensures r.occupancyByDayOfWeek == OccupancyByDayOfWeek(MonthTurns(allTurns, monthStart))
    ensures r.revenueByDay == RevenueByDay(MonthTurns(allTurns, monthStart), clubPrice.GetOr(0), windowStart, today)
    ensures r.turnsByStatus == TurnsByStatus(MonthTurns(allTurns, monthStart))
    ensures r.mostUsedCourt == CalculateMostUsedCourt(todayTurns, ClubCourts(courts, clubId))
  {
    var clubCourts := ClubCourts(courts, clubId);
    var counts := CountCourts(clubCourts);
    var todayStats := ComputeTodayStats(todayTurns);
    var price := clubPrice.GetOr(0);
    var month := MonthTurns(allTurns, monthStart);
    var revenue := RevenueByDay(month, price, windowStart, today);
    RevenueBeforeMonthIsZero(month, price, windowStart, today, monthStart);
    var byStatus := TurnsByStatus(month);
    var alerts := GenerateAlerts(clubCourts, todayTurns, today);
    var todayCount := todayStats.completed + todayStats.readyToPlay;
    assert todayCount == Count(todayTurns, Earns);
    var monthCount := Count(month, Earns);
    ClubStatistics(
      counts.total, counts.available, counts.maintenance,
      todayStats,
      todayCount * price,
      monthCount * price,
      UniquePlayers(month),
      OccupancyByDayOfWeek(month),
      revenue,
      CalculateMostUsedCourt(todayTurns, clubCourts),
      byStatus,
      alerts)
  }
}
