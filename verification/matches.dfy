/**
 * The matches page: the search over player and court names, the court filter, the list of
 * courts offered by the filter, pagination and the labels of a row.
 */
module Matches {

  import opened Wrappers
  import opened Strings
  import opened Domain
  import opened Lists

  /** The players' lower-cased names joined by single spaces. */
  function PlayerNamesText(m: Match): string {
    Join(seq(|m.players|, k requires 0 <= k < |m.players| => ToLower(m.players[k].name)), " ")
  }

  /** The search: the lower-cased term occurs in the joined player names or in the court name. */
  predicate MatchesTerm(m: Match, term: string) {
    var q := ToLower(term);
    Contains(PlayerNamesText(m), q) || Contains(ToLower(m.courtName.GetOr("")), q)
  }

  /** A search term can match across two adjacent player names. */
  lemma TermSpansTwoNames()
    ensures var m := Match(1, 1, None, "completed", [MatchPlayer(1, "ana"), MatchPlayer(2, "bel")]);
      MatchesTerm(m, "a b")
  {
    var m := Match(1, 1, None, "completed", [MatchPlayer(1, "ana"), MatchPlayer(2, "bel")]);
    assert ToLower("ana") == "ana" && ToLower("bel") == "bel" && ToLower("a b") == "a b";
    var names := seq(|m.players|, k requires 0 <= k < |m.players| => ToLower(m.players[k].name));
    assert names == ["ana", "bel"];
    assert names[1..] == ["bel"];
    assert Join(names, " ") == names[0] + " " + Join(names[1..], " ");
    assert PlayerNamesText(m) == "ana bel";
    assert OccursAt("ana bel", "a b", 2);
  }

  predicate Kept(m: Match, term: string, court: Option<int>) {
    (term != [] ==> MatchesTerm(m, term)) && (court.Some? ==> m.courtId == court.value)
  }

  /**
   * `filteredMatches`: the search when the term is non-empty, then the court filter
   * (`court_id === Number(filterCourt)`) when one is chosen; order is kept.
   */
  function FilteredMatches(ms: seq<Match>, term: string, court: Option<int>): (r: seq<Match>)
    ensures forall m | m in r :: m in ms && Kept(m, term, court)
    ensures forall m | m in ms && Kept(m, term, court) :: m in r
    ensures term == [] && court.None? ==> r == ms
    ensures r == Filter(ms, (m: Match) => Kept(m, term, court))
    ensures IsSubseq(r, ms)
  {
    var kept := (m: Match) => Kept(m, term, court);
    var search := (m: Match) => MatchesTerm(m, term);
    var onCourt := (m: Match) => court.Some? && m.courtId == court.value;
    var searched := if term != [] then Filter(ms, search) else ms;
    var r := if court.Some? then Filter(searched, onCourt) else searched;
    TwoFiltersKeep(ms, term, court, search, onCourt, r);
    FilterSubseq(ms, kept);
    r
  }

  /** The two filters of the page in a row are the one filter by `Kept`. */
  lemma TwoFiltersKeep(ms: seq<Match>, term: string, court: Option<int>,
                       search: Match -> bool, onCourt: Match -> bool, r: seq<Match>)
    requires forall m :: search(m) == MatchesTerm(m, term)
    requires forall m :: onCourt(m) == (court.Some? && m.courtId == court.value)
    requires r == if court.Some? then Filter(if term != [] then Filter(ms, search) else ms, onCourt)
                  else if term != [] then Filter(ms, search) else ms
    ensures r == Filter(ms, (m: Match) => Kept(m, term, court))
  {
    var kept := (m: Match) => Kept(m, term, court);
    if term != [] && court.Some? {
      assert forall m :: kept(m) == (search(m) && onCourt(m));
      FilterFilterAs(ms, search, onCourt, kept);
    } else if term != [] {
      assert forall m :: kept(m) == search(m);
      FilterSame(ms, search, kept);
    } else if court.Some? {
      assert forall m :: kept(m) == onCourt(m);
      FilterSame(ms, onCourt, kept);
    } else {
      FilterAllOrNothing(ms, kept);
    }
  }

  // ---------------------------------------------------------------- the courts of the filter

  /** A match that names its court: a truthy court id and a non-empty court name. */
  predicate NamesCourt(m: Match) {
    m.courtId != 0 && m.courtName.Some? && m.courtName.value != []
  }

  function EntryKeys(es: seq<(int, string)>): (ks: seq<int>)
    ensures |ks| == |es| && forall k | 0 <= k < |es| :: ks[k] == es[k].0
  {
    seq(|es|, k requires 0 <= k < |es| => es[k].0)
  }

  predicate DistinctKeys(es: seq<(int, string)>) {
    forall i, j | 0 <= i < j < |es| :: es[i].0 != es[j].0
  }

  /** `Map.set`: an existing key keeps its place and takes the new value; a new key goes last. */
  function Put(es: seq<(int, string)>, id: int, name: string): (r: seq<(int, string)>)
    requires DistinctKeys(es)
    ensures DistinctKeys(r)
    ensures id in EntryKeys(es) ==> |r| == |es| && EntryKeys(r) == EntryKeys(es)
    ensures id !in EntryKeys(es) ==> r == es + [(id, name)]
    ensures forall k | 0 <= k < |r| :: r[k].1 == if r[k].0 == id then name else es[k].1
  {
    var ks := EntryKeys(es);
    if id in ks then
      var k :| 0 <= k < |ks| && ks[k] == id;
      var r := es[k := (id, name)];
      assert EntryKeys(r) == ks;
      r
    else es + [(id, name)]
  }

  /** The name the last match naming court `id` gives it. */
  function LastName(ms: seq<Match>, id: int): string
    decreases |ms|
  {
    if ms == [] then ""
    else
      var m := ms[|ms| - 1];
      if NamesCourt(m) && m.courtId == id then m.courtName.value else LastName(ms[..|ms| - 1], id)
  }

  /** The index of the first match naming court `id`, or `|ms|` if there is none. */
  function FirstSeen(ms: seq<Match>, id: int): (k: nat)
    ensures k <= |ms|
    ensures k < |ms| ==> NamesCourt(ms[k]) && ms[k].courtId == id
    ensures forall j | 0 <= j < k :: !(NamesCourt(ms[j]) && ms[j].courtId == id)
    decreases |ms|
  {
    if ms == [] then 0
    else
      var front := FirstSeen(ms[..|ms| - 1], id);
      if front < |ms| - 1 then front
      else if NamesCourt(ms[|ms| - 1]) && ms[|ms| - 1].courtId == id then |ms| - 1
      else |ms|
  }

  /**
   * `courts`: one entry per court id named by some match, in the order the ids first
   * appear, each with the name of the last match naming it.
   */
  function CourtOptions(ms: seq<Match>): (es: seq<(int, string)>)
    ensures DistinctKeys(es)
    ensures forall id :: id in EntryKeys(es) <==> FirstSeen(ms, id) < |ms|
    ensures forall k | 0 <= k < |es| :: es[k].1 == LastName(ms, es[k].0)
    ensures forall i, j | 0 <= i < j < |es| :: FirstSeen(ms, es[i].0) < FirstSeen(ms, es[j].0)
    decreases |ms|
  {
    if ms == [] then []
    else
      var init := ms[..|ms| - 1];
      var m := ms[|ms| - 1];
      var es := CourtOptions(init);
      assert ms == init + [m];
      CourtOptionsStep(init, m, es);
      if NamesCourt(m) then Put(es, m.courtId, m.courtName.value) else es
  }

  /** Options are what they were, except that a match naming its court is put in. */
  ghost predicate OptionsOf(ms: seq<Match>, es: seq<(int, string)>) {
    && DistinctKeys(es)
    && (forall id :: id in EntryKeys(es) <==> FirstSeen(ms, id) < |ms|)
    && (forall k | 0 <= k < |es| :: es[k].1 == LastName(ms, es[k].0))
    && (forall i, j | 0 <= i < j < |es| :: FirstSeen(ms, es[i].0) < FirstSeen(ms, es[j].0))
  }

  lemma FirstSeenSnoc(init: seq<Match>, m: Match, id: int)
    ensures FirstSeen(init + [m], id) ==
      if FirstSeen(init, id) < |init| then FirstSeen(init, id)
      else if NamesCourt(m) && m.courtId == id then |init| else |init| + 1
  {
    assert (init + [m])[..|init|] == init;
  }

  lemma LastNameSnoc(init: seq<Match>, m: Match, id: int)
    ensures LastName(init + [m], id) == if NamesCourt(m) && m.courtId == id then m.courtName.value else LastName(init, id)
  {
    assert (init + [m])[..|init|] == init;
  }

  lemma CourtOptionsStep(init: seq<Match>, m: Match, es: seq<(int, string)>)
    requires OptionsOf(init, es)
    ensures OptionsOf(init + [m], if NamesCourt(m) then Put(es, m.courtId, m.courtName.value) else es)
  {
    if NamesCourt(m) {
      SnocFactsHold(init, m);
      if m.courtId !in EntryKeys(es) {
        NewCourtStep(init, m, es);
      } else {
        KnownCourtStep(init, m, es);
      }
    } else {
      SilentStep(init, m, es);
    }
  }

  lemma SnocFactsHold(init: seq<Match>, m: Match)
    requires NamesCourt(m)
    ensures SnocFacts(init, m)
  {
    forall id ensures FirstSeen(init + [m], id) == FirstSeenAfter(init, m, id) {
      FirstSeenSnoc(init, m, id);
    }
    forall id ensures LastName(init + [m], id) == if m.courtId == id then m.courtName.value else LastName(init, id) {
      LastNameSnoc(init, m, id);
    }
  }

  /** A match that names no court leaves the options as they were. */
  lemma SilentStep(init: seq<Match>, m: Match, es: seq<(int, string)>)
    requires OptionsOf(init, es) && !NamesCourt(m)
    ensures OptionsOf(init + [m], es)
  {
    forall id ensures FirstSeen(init + [m], id) == if FirstSeen(init, id) < |init| then FirstSeen(init, id) else |init| + 1 {
      FirstSeenSnoc(init, m, id);
    }
    forall id ensures LastName(init + [m], id) == LastName(init, id) {
      LastNameSnoc(init, m, id);
    }
  }

  /** How the first and last sightings change when a court-naming match is appended. */
  ghost predicate SnocFacts(init: seq<Match>, m: Match)
    requires NamesCourt(m)
  {
    && (forall id :: FirstSeen(init + [m], id) == FirstSeenAfter(init, m, id))
    && (forall id :: LastName(init + [m], id) == if m.courtId == id then m.courtName.value else LastName(init, id))
  }

  function FirstSeenAfter(init: seq<Match>, m: Match, id: int): nat {
    if FirstSeen(init, id) < |init| then FirstSeen(init, id)
    else if m.courtId == id then |init| else |init| + 1
  }

  lemma NewCourtStep(init: seq<Match>, m: Match, es: seq<(int, string)>)
    requires OptionsOf(init, es) && NamesCourt(m) && m.courtId !in EntryKeys(es)
    requires SnocFacts(init, m)
    ensures OptionsOf(init + [m], Put(es, m.courtId, m.courtName.value))
  {
    NewCourtKeys(init, m, es);
    NewCourtOrder(init, m, es);
    NewCourtNames(init, m, es);
  }

  lemma NewCourtKeys(init: seq<Match>, m: Match, es: seq<(int, string)>)
    requires OptionsOf(init, es) && NamesCourt(m) && m.courtId !in EntryKeys(es)
    requires SnocFacts(init, m)
    ensures forall id :: id in EntryKeys(es + [(m.courtId, m.courtName.value)]) <==> FirstSeen(init + [m], id) < |init| + 1
  {
    assert EntryKeys(es + [(m.courtId, m.courtName.value)]) == EntryKeys(es) + [m.courtId];
  }

  lemma NewCourtOrder(init: seq<Match>, m: Match, es: seq<(int, string)>)
    requires OptionsOf(init, es) && NamesCourt(m) && m.courtId !in EntryKeys(es)
    requires SnocFacts(init, m)
    ensures var r := es + [(m.courtId, m.courtName.value)];
      forall i, j | 0 <= i < j < |r| :: FirstSeen(init + [m], r[i].0) < FirstSeen(init + [m], r[j].0)
  {
    var r := es + [(m.courtId, m.courtName.value)];
    forall i, j | 0 <= i < j < |r| ensures FirstSeen(init + [m], r[i].0) < FirstSeen(init + [m], r[j].0) {
      assert r[i] == es[i];
      assert r[i].0 in EntryKeys(es);
      if j < |es| {
        assert r[j] == es[j];
        assert r[j].0 in EntryKeys(es);
      }
    }
  }

  lemma NewCourtNames(init: seq<Match>, m: Match, es: seq<(int, string)>)
    requires OptionsOf(init, es) && NamesCourt(m) && m.courtId !in EntryKeys(es)
    requires SnocFacts(init, m)
    ensures var r := es + [(m.courtId, m.courtName.value)];
      forall k | 0 <= k < |r| :: r[k].1 == LastName(init + [m], r[k].0)
  {
    var r := es + [(m.courtId, m.courtName.value)];
    forall k | 0 <= k < |r| ensures r[k].1 == LastName(init + [m], r[k].0) {
      if k < |es| {
        assert r[k] == es[k];
        assert r[k].0 in EntryKeys(es);
      }
    }
  }

  lemma KnownCourtStep(init: seq<Match>, m: Match, es: seq<(int, string)>)
    requires OptionsOf(init, es) && NamesCourt(m) && m.courtId in EntryKeys(es)
    requires SnocFacts(init, m)
    ensures OptionsOf(init + [m], Put(es, m.courtId, m.courtName.value))
  {
    var ms := init + [m];
    var r := Put(es, m.courtId, m.courtName.value);
    assert EntryKeys(r) == EntryKeys(es);
    forall k | 0 <= k < |r| ensures r[k].0 == es[k].0 {
      assert EntryKeys(r)[k] == EntryKeys(es)[k];
    }
  }

  // ---------------------------------------------------------------- pagination

  /** JavaScript `s.slice(start, end)` for non-negative bounds: both are clamped to the length. */
  function Slice<T>(s: seq<T>, start: nat, end: nat): (r: seq<T>)
    ensures |r| <= if end >= start then end - start else 0
    ensures start <= |s| && start <= end ==> r == s[start..if end <= |s| then end else |s|]
    ensures start >= |s| ==> r == []
  {
    var lo := if start <= |s| then start else |s|;
    var hi := if end <= |s| then end else |s|;
    if lo <= hi then s[lo..hi] else []
  }

  /** `paginatedMatches`: page `page` of `rows` entries. */
  function Page<T>(s: seq<T>, page: nat, rows: nat): (r: seq<T>)
    ensures |r| <= rows
    ensures page * rows <= |s| ==> r == s[page * rows..if page * rows + rows <= |s| then page * rows + rows else |s|]
  {
    Slice(s, page * rows, page * rows + rows)
  }

  /** The first `n` pages. */
  function Pages<T>(s: seq<T>, n: nat, rows: nat): seq<T>
    decreases n
  {
    if n == 0 then [] else Pages(s, n - 1, rows) + Page(s, n - 1, rows)
  }

  /** The first `n` pages in order are the list up to entry `n * rows`. */
  lemma {:induction false} PagesArePrefix<T>(s: seq<T>, n: nat, rows: nat)
    ensures Pages(s, n, rows) == s[..if n * rows <= |s| then n * rows else |s|]
    decreases n
  {
    if n > 0 {
      PagesArePrefix(s, n - 1, rows);
      var lo, hi := (n - 1) * rows, n * rows;
      PageStep(n, rows);
      assert lo + rows == hi;
      if lo <= |s| {
        var end := if hi <= |s| then hi else |s|;
        assert Page(s, n - 1, rows) == s[lo..end];
        assert s[..lo] + s[lo..end] == s[..end];
      } else {
        assert Page(s, n - 1, rows) == [];
      }
    }
  }

  lemma PageStep(n: nat, rows: nat)
    requires n > 0
    ensures (n - 1) * rows + rows == n * rows
  {
  }

  /** Enough pages cover the whole list, each entry exactly once. */
  lemma PagesCoverList<T>(s: seq<T>, rows: nat)
    requires rows > 0
    ensures Pages(s, |s| / rows + 1, rows) == s
  {
    var q := |s| / rows;
    PagesArePrefix(s, q + 1, rows);
    PagesBound(|s|, rows);
    assert s[..|s|] == s;
  }

  /** One page more than the quotient reaches past the end. */
  lemma PagesBound(len: nat, rows: nat)
    requires rows > 0
    ensures len <= (len / rows + 1) * rows
  {
    var q := len / rows;
    assert q * rows + len % rows == len;
    assert (q + 1) * rows == q * rows + rows;
  }

  /** The page state of the table. */
  datatype Pagination = Pagination(page: nat, rows: nat)

  /** Changing the page size goes back to the first page. */
  function ChangeRowsPerPage(p: Pagination, rows: nat): (q: Pagination)
    ensures q.page == 0 && q.rows == rows
  {
    Pagination(0, rows)
  }

  // ---------------------------------------------------------------- labels

  /** The status label: the known statuses in Spanish, any other status as is. */
  function MatchStatusLabel(status: string): (s: string)
    ensures status !in {"available", "reserved", "in_progress", "completed", "cancelled"} ==> s == status
  {
    if status == "available" then "Disponible"
    else if status == "reserved" then "Reservado"
    else if status == "in_progress" then "En Progreso"
    else if status == "completed" then "Completado"
    else if status == "cancelled" then "Cancelado"
    else status
  }

  function MatchStatusColor(status: string): (c: string)
    ensures status !in {"available", "reserved", "in_progress", "completed", "cancelled"} ==> c == "default"
  {
    if status == "available" then "default"
    else if status == "reserved" then "info"
    else if status == "in_progress" then "warning"
    else if status == "completed" then "success"
    else if status == "cancelled" then "error"
    else "default"
  }

  /** `n jugador(es)`: the plural ending unless there is exactly one player. */
  function PlayersLabel(n: nat): (s: string)
    ensures EndsWith(s, "es") <==> n != 1
    ensures StartsWith(s, NatToString(n) + " jugador")
  {
    var head := NatToString(n) + " jugador";
    assert head[|head| - 2..] == "or";
    if n != 1 then
      var s := head + "es";
      assert s[|s| - 2..] == "es";
      s
    else head
  }
}
