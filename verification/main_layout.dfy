/**
 * The frame around every page: the club's courts (and the warning when it has none), the
 * badges of the side menu, which menu entry is selected and the title of the top bar.
 */
module MainLayout {

  import opened Wrappers
  import opened Strings
  import opened Domain
  import opened Lists

  /**
   * The courts query: disabled (an empty list) unless the user has a truthy club id, and then
   * the courts whose club is the user's, in the order received.
   */
  function ClubCourts(courts: seq<Court>, clubId: Option<int>): (r: seq<Court>)
    ensures !Truthy(clubId) ==> r == []
    ensures forall c | c in r :: c in courts && c.clubId == clubId.value
    ensures Truthy(clubId) ==> forall c | c in courts && c.clubId == clubId.value :: c in r
  {
    if !Truthy(clubId) then [] else Filter(courts, (c: Court) => c.clubId == clubId.value)
  }

  /** The menu warns about courts when the club has none. */
  predicate HasNoCourts(courts: seq<Court>, clubId: Option<int>) {
    |ClubCourts(courts, clubId)| == 0
  }

  /** The warning shows exactly when there is no club, or no court of the list belongs to it. */
  lemma NoCourtsWarning(courts: seq<Court>, clubId: Option<int>)
    ensures HasNoCourts(courts, clubId) <==> !Truthy(clubId) || forall c | c in courts :: c.clubId != clubId.value
  {
    var r := ClubCourts(courts, clubId);
    if Truthy(clubId) && r != [] {
      assert r[0] in r;
    }
  }

  /** The notification types the layout counts as turn related, as written. */
  const TurnTypesAsWritten: seq<string> := ["turn_joined", "turn_complete", "external_request", "turn_cancelled"]

  /** The same list with the type the notifications page actually knows for a completed turn. */
  const TurnTypes: seq<string> := TurnTypesAsWritten + ["turn_completed"]

  /** Unread, and of a turn type or carrying a `turn_id` key (even a null one). */
  predicate TurnRelated(types: seq<string>, n: Notification) {
    !n.isRead && (n.kind in types || n.turnRef != NoTurnRef)
  }

  /** The count of the Turnos badge for a list of turn types; `|| 0` when nothing was fetched. */
  function TurnCountWith(types: seq<string>, data: Option<seq<Notification>>): (r: nat)
    ensures data.None? ==> r == 0
    ensures data.Some? ==> r <= |data.value|
    ensures r == 0 <==> data.None? || forall n | n in data.value :: !TurnRelated(types, n)
    ensures data.Some? && (forall n | n in data.value :: TurnRelated(types, n)) ==> r == |data.value|
    ensures data.Some? ==> r == |set i | 0 <= i < |data.value| && TurnRelated(types, data.value[i])|
  {
    if data.None? then 0 else
      var p := (n: Notification) => TurnRelated(types, n);
      CountIndices(data.value, p);
      assert Positions(data.value, p) == set i | 0 <= i < |data.value| && TurnRelated(types, data.value[i]);
      Count(data.value, p)
  }

  function UnreadTurnCountAsWritten(data: Option<seq<Notification>>): nat {
    TurnCountWith(TurnTypesAsWritten, data)
  }

  function UnreadTurnCount(data: Option<seq<Notification>>): nat {
    TurnCountWith(TurnTypes, data)
  }

  /**
   * An unread 'turn_completed' notification without a turn id is missed by the list as written:
   * the program's menu shows no Turnos badge for it, the corrected menu shows one.
   */
  lemma TurnCompletedMissed(pathname: string, courts: seq<Court>, clubId: Option<int>, unreadCount: Option<int>)
    ensures var n := Notification(1, "Turno completo", "", "turn_completed", false, NoTurnRef);
      && UnreadTurnCountAsWritten(Some([n])) == 0 && UnreadTurnCount(Some([n])) == 1
      && Menu(pathname, courts, clubId, Some([n]), unreadCount)[1].badge == NoBadge
      && CorrectedMenu(pathname, courts, clubId, Some([n]), unreadCount)[1].badge == CountBadge(1)
  {
    var n := Notification(1, "Turno completo", "", "turn_completed", false, NoTurnRef);
    assert n.kind !in TurnTypesAsWritten;
    assert n.kind in TurnTypes;
    assert forall m | m in [n] :: m == n;
    assert MenuItems[1].text == "Turnos";
  }

  /** The corrected list only adds to the count: whatever was counted still is. */
  lemma CorrectionOnlyAdds(data: Option<seq<Notification>>)
    ensures UnreadTurnCountAsWritten(data) <= UnreadTurnCount(data)
  {
    if data.Some? {
      FilterMonotone(data.value, (n: Notification) => TurnRelated(TurnTypesAsWritten, n),
        (n: Notification) => TurnRelated(TurnTypes, n));
    }
  }

  datatype MenuItem = MenuItem(text: string, path: string)

  /** The side menu, in display order. */
  const MenuItems: seq<MenuItem> := [
    MenuItem("Inicio", "/"),
    MenuItem("Turnos", "/turnos"),
    MenuItem("Canchas", "/canchas"),
    MenuItem("Partidos", "/partidos"),
    MenuItem("Notificaciones", "/notificaciones"),
    MenuItem("Estadísticas", "/estadisticas"),
    MenuItem("Configuración", "/configuracion")
  ]

  /** An entry is selected on its own path, and the Turnos entry on every path under '/turnos'. */
  predicate IsSelected(item: MenuItem, pathname: string) {
    pathname == item.path || (item.path == "/turnos" && StartsWith(pathname, "/turnos"))
  }

  /** No two menu entries are selected at once. */
  lemma AtMostOneSelected(pathname: string, i: int, j: int)
    requires 0 <= i < |MenuItems| && 0 <= j < |MenuItems|
    requires IsSelected(MenuItems[i], pathname) && IsSelected(MenuItems[j], pathname)
    ensures i == j
  {
    if StartsWith(pathname, "/turnos") {
      assert pathname[2] == "/turnos"[2];
    }
  }

  /** Every page under '/turnos' (a turn's detail, the calendar) keeps the Turnos entry selected. */
  lemma TurnsSubpageSelectsTurnos(pathname: string, rest: string)
    requires pathname == "/turnos" + rest
    ensures IsSelected(MenuItems[1], pathname)
    ensures forall i | 0 <= i < |MenuItems| && i != 1 :: !IsSelected(MenuItems[i], pathname)
  {
    assert pathname[..7] == "/turnos";
    forall i | 0 <= i < |MenuItems| && i != 1 ensures !IsSelected(MenuItems[i], pathname) {
      if IsSelected(MenuItems[i], pathname) {
        AtMostOneSelected(pathname, 1, i);
      }
    }
  }

  /** A badge on a menu entry, with its number. */
  datatype Badge = NoBadge | CountBadge(count: int)

  /** How one menu entry is drawn. */
  datatype EntryView = EntryView(item: MenuItem, selected: bool, badge: Badge, noCourtsWarning: bool)

  /**
   * One menu entry: the Turnos entry carries the unread turn count and the Notificaciones entry
   * the unread count (`unread_count || 0`), each only when positive; the Canchas entry warns
   * when the club has no courts.
   */
  function Entry(item: MenuItem, pathname: string, turnCount: nat, unreadCount: Option<int>, noCourts: bool): (v: EntryView)
    ensures v.item == item && (v.selected <==> IsSelected(item, pathname))
    ensures v.badge.CountBadge? ==> v.badge.count > 0
    ensures item.text == "Turnos" ==> (v.badge.CountBadge? <==> turnCount > 0) && (turnCount > 0 ==> v.badge.count == turnCount)
    ensures item.text == "Notificaciones" ==>
      (v.badge.CountBadge? <==> unreadCount.Some? && unreadCount.value > 0)
      && (v.badge.CountBadge? ==> v.badge.count == unreadCount.value)
    ensures item.text != "Turnos" && item.text != "Notificaciones" ==> v.badge == NoBadge
    ensures v.noCourtsWarning <==> item.text == "Canchas" && noCourts
  {
    var unread := unreadCount.GetOr(0);
    var badge :=
      if item.text == "Turnos" && turnCount > 0 then CountBadge(turnCount)
      else if item.text == "Notificaciones" && unread > 0 then CountBadge(unread)
      else NoBadge;
    EntryView(item, IsSelected(item, pathname), badge, item.text == "Canchas" && noCourts)
  }

  /** The menu drawn with a given Turnos count. */
  function MenuWithCount(pathname: string, turnCount: nat, noCourts: bool, unreadCount: Option<int>): (vs: seq<EntryView>)
    ensures |vs| == |MenuItems|
    ensures forall i | 0 <= i < |vs| :: vs[i] == Entry(MenuItems[i], pathname, turnCount, unreadCount, noCourts)
  {
    seq(|MenuItems|, i requires 0 <= i < |MenuItems| => Entry(MenuItems[i], pathname, turnCount, unreadCount, noCourts))
  }

  /** The side menu as the program draws it: the Turnos badge counts with the type list as written. */
  function Menu(pathname: string, courts: seq<Court>, clubId: Option<int>,
                data: Option<seq<Notification>>, unreadCount: Option<int>): (vs: seq<EntryView>)
    ensures |vs| == |MenuItems|
    ensures forall i | 0 <= i < |vs| ::
      vs[i] == Entry(MenuItems[i], pathname, UnreadTurnCountAsWritten(data), unreadCount, HasNoCourts(courts, clubId))
  {
    MenuWithCount(pathname, UnreadTurnCountAsWritten(data), HasNoCourts(courts, clubId), unreadCount)
  }

  /** The side menu with the corrected type list, which also counts 'turn_completed'. */
  function CorrectedMenu(pathname: string, courts: seq<Court>, clubId: Option<int>,
                         data: Option<seq<Notification>>, unreadCount: Option<int>): (vs: seq<EntryView>)
    ensures |vs| == |MenuItems|
    ensures forall i | 0 <= i < |vs| ::
      vs[i] == Entry(MenuItems[i], pathname, UnreadTurnCount(data), unreadCount, HasNoCourts(courts, clubId))
  {
    MenuWithCount(pathname, UnreadTurnCount(data), HasNoCourts(courts, clubId), unreadCount)
  }

  /** In the program's menu the Turnos badge shows exactly when a notification counts under the written list. */
  lemma TurnsBadgeShown(pathname: string, courts: seq<Court>, clubId: Option<int>,
                        data: Option<seq<Notification>>, unreadCount: Option<int>)
    ensures Menu(pathname, courts, clubId, data, unreadCount)[1].badge.CountBadge? <==>
      data.Some? && exists n | n in data.value :: TurnRelated(TurnTypesAsWritten, n)
  {
    assert MenuItems[1].text == "Turnos";
  }

  /** In the corrected menu it shows exactly when a notification counts under the corrected list. */
  lemma CorrectedTurnsBadgeShown(pathname: string, courts: seq<Court>, clubId: Option<int>,
                                 data: Option<seq<Notification>>, unreadCount: Option<int>)
    ensures CorrectedMenu(pathname, courts, clubId, data, unreadCount)[1].badge.CountBadge? <==>
      data.Some? && exists n | n in data.value :: TurnRelated(TurnTypes, n)
  {
    assert MenuItems[1].text == "Turnos";
  }

  /** Apart from the Turnos badge, the two menus agree, and the corrected one shows that badge whenever the program's does. */
  lemma CorrectedMenuOnlyAddsBadge(pathname: string, courts: seq<Court>, clubId: Option<int>,
                                   data: Option<seq<Notification>>, unreadCount: Option<int>)
    ensures var a := Menu(pathname, courts, clubId, data, unreadCount);
      var b := CorrectedMenu(pathname, courts, clubId, data, unreadCount);
      && (forall i | 0 <= i < |MenuItems| && i != 1 :: a[i] == b[i])
      && (a[1].badge.CountBadge? ==> b[1].badge.CountBadge?)
  {
    CorrectionOnlyAdds(data);
    MenuCountOnlyTouchesTurnos(pathname, UnreadTurnCountAsWritten(data), UnreadTurnCount(data),
      HasNoCourts(courts, clubId), unreadCount);
  }

  /** Raising the Turnos count changes only the Turnos entry, and keeps a shown badge shown. */
  lemma MenuCountOnlyTouchesTurnos(pathname: string, n: nat, m: nat, noCourts: bool, unreadCount: Option<int>)
    ensures var a, b := MenuWithCount(pathname, n, noCourts, unreadCount), MenuWithCount(pathname, m, noCourts, unreadCount);
      && (forall i | 0 <= i < |MenuItems| && i != 1 :: a[i] == b[i])
      && (n <= m && a[1].badge.CountBadge? ==> b[1].badge.CountBadge?)
  {
    TurnosOnlyAtOne();
    forall i | 0 <= i < |MenuItems| && i != 1
      ensures Entry(MenuItems[i], pathname, n, unreadCount, noCourts) == Entry(MenuItems[i], pathname, m, unreadCount, noCourts)
    {
      EntryIgnoresCount(MenuItems[i], pathname, n, m, unreadCount, noCourts);
    }
  }

  /** Only the second menu item is Turnos. */
  lemma TurnosOnlyAtOne()
    ensures MenuItems[1].text == "Turnos"
    ensures forall i | 0 <= i < |MenuItems| && i != 1 :: MenuItems[i].text != "Turnos"
  {
  }

  /** An entry other than Turnos does not depend on the Turnos count. */
  lemma EntryIgnoresCount(item: MenuItem, pathname: string, n: nat, m: nat, unreadCount: Option<int>, noCourts: bool)
    requires item.text != "Turnos"
    ensures Entry(item, pathname, n, unreadCount, noCourts) == Entry(item, pathname, m, unreadCount, noCourts)
  {
  }

  /** `find`: the index of the first menu entry whose path is exactly `pathname`. */
  function FindByPath(items: seq<MenuItem>, pathname: string): (r: Option<nat>)
    ensures r.Some? ==> r.value < |items| && items[r.value].path == pathname
    ensures r.Some? ==> forall k | 0 <= k < r.value :: items[k].path != pathname
    ensures r.None? ==> forall k | 0 <= k < |items| :: items[k].path != pathname
    decreases |items|
  {
    if items == [] then None
    else if items[0].path == pathname then Some(0)
    else
      match FindByPath(items[1..], pathname)
      case None => None
      case Some(k) => Some(k + 1)
  }

  /** With distinct paths, the entry found is the only one with that path. */
  lemma FoundIsOnly(items: seq<MenuItem>, pathname: string)
    requires forall i, j | 0 <= i < j < |items| :: items[i].path != items[j].path
    ensures FindByPath(items, pathname).Some? ==>
      forall i | 0 <= i < |items| && items[i].path == pathname :: i == FindByPath(items, pathname).value
  {

  }

  /** Menu entries are told apart by their paths (they differ in length), and each has a caption. */
  lemma MenuPathsDistinct()
    ensures forall i, j | 0 <= i < j < |MenuItems| :: MenuItems[i].path != MenuItems[j].path
    ensures forall i | 0 <= i < |MenuItems| :: MenuItems[i].text != []
  {
    forall i, j | 0 <= i < j < |MenuItems| ensures MenuItems[i].path != MenuItems[j].path {
      assert |MenuItems[i].path| != |MenuItems[j].path|;
    }
  }

  /**
   * The title of the top bar: 'Dashboard' on '/', the text of the menu entry whose path is the
   * location (only an exact match counts), otherwise 'Paddio Club'.
   */
  function HeaderTitle(pathname: string): (t: string)
    ensures pathname == "/" ==> t == "Dashboard"
    ensures forall i | 0 <= i < |MenuItems| && MenuItems[i].path == pathname && pathname != "/" :: t == MenuItems[i].text
    ensures (forall i | 0 <= i < |MenuItems| :: MenuItems[i].path != pathname) ==> t == "Paddio Club"
  {
    MenuPathsDistinct();
    FoundIsOnly(MenuItems, pathname);
    if pathname == "/" then "Dashboard"
    else
      match FindByPath(MenuItems, pathname)
      case Some(k) => if MenuItems[k].text != [] then MenuItems[k].text else "Paddio Club"
      case None => "Paddio Club"
  }

  /** A turn's page keeps the Turnos entry selected but falls back to the club title. */
  lemma TurnDetailTitle(id: string)
    requires id != []
    ensures IsSelected(MenuItems[1], "/turnos/" + id)
    ensures HeaderTitle("/turnos/" + id) == "Paddio Club"
  {
    var pathname := "/turnos/" + id;
    assert pathname == "/turnos" + ("/" + id);
    TurnsSubpageSelectsTurnos(pathname, "/" + id);
    forall i | 0 <= i < |MenuItems| ensures MenuItems[i].path != pathname {
      if i != 1 {
        assert !IsSelected(MenuItems[i], pathname);
      } else {
        assert |pathname| > 7;
      }
    }
  }
}
