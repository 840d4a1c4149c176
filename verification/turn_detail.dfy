/**
 * The turn detail page: which invitation belongs to each of the four player fields, the
 * edits it sends to the backend (add a player, remove a player, change date, time or court),
 * and who may cancel which pending invitations.
 */
module TurnDetail {

  import opened Wrappers
  import opened Strings
  import opened Dates
  import opened Domain
  import opened Lists

  // ---------------------------------------------------------------- invitations per slot

  /** The truthy player ids of the turn (`assignedPlayerIds`). */
  predicate Assigned(t: PregameTurn, id: int) {
    exists k | 0 <= k < 4 :: Truthy(t.players[k].id) && t.players[k].id.value == id
  }

  predicate PendingFor(t: PregameTurn, inv: Invitation) {
    inv.status == InvPending && !Assigned(t, inv.invitedPlayerId)
  }

  /** The pending invitations for players not yet in the turn, in list order. */
  function PendingInvitations(t: PregameTurn, invitations: seq<Invitation>): (r: seq<Invitation>)
    ensures forall inv | inv in r :: inv in invitations && PendingFor(t, inv)
    ensures forall inv | inv in invitations && PendingFor(t, inv) :: inv in r
  {
    Filter(invitations, (inv: Invitation) => PendingFor(t, inv))
  }

  /** The first invitation addressed to `id`, whatever its status (`find`). */
  function InvitationFor(invitations: seq<Invitation>, id: int): (r: Option<Invitation>)
    ensures r.Some? ==> r.value in invitations && r.value.invitedPlayerId == id
    ensures r.None? <==> forall inv | inv in invitations :: inv.invitedPlayerId != id
    ensures r.Some? ==> exists i | 0 <= i < |invitations| ::
      invitations[i] == r.value && forall k | 0 <= k < i :: invitations[k].invitedPlayerId != id
    decreases |invitations|
  {
    if invitations == [] then None
    else if invitations[0].invitedPlayerId == id then Some(invitations[0])
    else
      assert forall inv | inv in invitations :: inv == invitations[0] || inv in invitations[1..];
      var r := InvitationFor(invitations[1..], id);
      if r.Some? then
        var i :| 0 <= i < |invitations| - 1 && invitations[1..][i] == r.value
          && forall k | 0 <= k < i :: invitations[1..][k].invitedPlayerId != id;
        assert invitations[i + 1] == r.value;
        assert forall k | 0 <= k < i + 1 :: invitations[k].invitedPlayerId != id;
        r
      else r
  }

  /** The number of empty player fields among the first `idx`. */
  function EmptyBefore(t: PregameTurn, idx: nat): (n: nat)
    requires idx <= 4
    ensures n <= idx
    decreases idx
  {
    if idx == 0 then 0
    else EmptyBefore(t, idx - 1) + (if Truthy(t.players[idx - 1].id) then 0 else 1)
  }

  datatype PositionView = PositionView(slot: PlayerSlot, caption: string, invitation: Option<Invitation>)

  function SlotLabel(k: nat): string
    requires k < 4
  {
    ["Jugador 1", "Jugador 2", "Jugador 3", "Jugador 4"][k]
  }

  /**
   * `positionsWithInvitations`: four entries in field order. An occupied field shows the
   * first invitation for its player; the k-th empty field shows the k-th pending invitation
   * for a player not in the turn, if there is one.
   */
  function PositionsWithInvitations(t: PregameTurn, invitations: seq<Invitation>): (r: seq<PositionView>)
    ensures |r| == 4
    ensures forall k | 0 <= k < 4 :: r[k].slot == t.players[k] && r[k].caption == SlotLabel(k)
    ensures forall k | 0 <= k < 4 && Truthy(t.players[k].id) ::
      r[k].invitation == InvitationFor(invitations, t.players[k].id.value)
    ensures forall k | 0 <= k < 4 && !Truthy(t.players[k].id) ::
      var pending, e := PendingInvitations(t, invitations), EmptyBefore(t, k);
      r[k].invitation == if e < |pending| then Some(pending[e]) else None
  {
    var pending := PendingInvitations(t, invitations);
    seq(4, k requires 0 <= k < 4 =>
      PositionView(t.players[k], SlotLabel(k),
        if Truthy(t.players[k].id) then InvitationFor(invitations, t.players[k].id.value)
        else
          var e := EmptyBefore(t, k);
          if e < |pending| then Some(pending[e]) else None))
  }

  lemma {:induction false} EmptyBeforeMonotone(t: PregameTurn, i: nat, j: nat)
    requires i < j <= 4 && !Truthy(t.players[i].id)
    ensures EmptyBefore(t, i) < EmptyBefore(t, j)
    decreases j
  {
    if j > i + 1 {
      EmptyBeforeMonotone(t, i, j - 1);
    }
  }

  predicate DistinctIds(invitations: seq<Invitation>) {
    forall i, j | 0 <= i < j < |invitations| :: invitations[i].id != invitations[j].id
  }

  lemma {:induction false} FilterKeepsDistinct(invitations: seq<Invitation>, p: Invitation -> bool)
    requires DistinctIds(invitations)
    ensures DistinctIds(Filter(invitations, p))
    decreases |invitations|
  {
    if invitations != [] {
      var rest := invitations[1..];
      assert DistinctIds(rest) by {
        forall i, j | 0 <= i < j < |rest| ensures rest[i].id != rest[j].id {
          assert rest[i] == invitations[i + 1] && rest[j] == invitations[j + 1];
        }
      }
      FilterKeepsDistinct(rest, p);
      var fr := Filter(rest, p);
      if p(invitations[0]) {
        var r := [invitations[0]] + fr;
        forall i, j | 0 <= i < j < |r| ensures r[i].id != r[j].id {
          if i == 0 {
            assert r[j] == fr[j - 1] && fr[j - 1] in rest;
            var m :| 0 <= m < |rest| && rest[m] == fr[j - 1];
            assert invitations[m + 1] == r[j];
          } else {
            assert r[i] == fr[i - 1] && r[j] == fr[j - 1];
          }
        }
        assert Filter(invitations, p) == r;
      } else {
        assert Filter(invitations, p) == fr;
      }
    }
  }

  /** With distinct invitation ids, no two empty fields show the same invitation. */
  lemma EmptySlotsShareNoInvitation(t: PregameTurn, invitations: seq<Invitation>, i: nat, j: nat)
    requires DistinctIds(invitations)
    requires i < j < 4
    requires !Truthy(t.players[i].id) && !Truthy(t.players[j].id)
    ensures var r := PositionsWithInvitations(t, invitations);
      r[i].invitation.Some? ==> r[i].invitation != r[j].invitation
  {
    var pending := PendingInvitations(t, invitations);
    FilterKeepsDistinct(invitations, (inv: Invitation) => PendingFor(t, inv));
    EmptyBeforeMonotone(t, i, j);
  }

  /** `hasEmptySlots`: some field has neither a player nor an invitation. */
  predicate HasEmptySlots(views: seq<PositionView>) {
    exists k | 0 <= k < |views| :: !Truthy(views[k].slot.id) && views[k].invitation.None?
  }

  /**
   * There is a really empty field exactly when the empty fields outnumber the pending
   * invitations for players outside the turn.
   */
  lemma HasEmptySlotsIff(t: PregameTurn, invitations: seq<Invitation>)
    ensures HasEmptySlots(PositionsWithInvitations(t, invitations))
        <==> EmptyBefore(t, 4) > |PendingInvitations(t, invitations)|
  {
    var r := PositionsWithInvitations(t, invitations);
    var pending := PendingInvitations(t, invitations);
    if EmptyBefore(t, 4) > |pending| {
      var k := LastEmpty(t, 4);
      assert r[k].invitation.None?;
    }
    if HasEmptySlots(r) {
      var k :| 0 <= k < 4 && !Truthy(r[k].slot.id) && r[k].invitation.None?;
      EmptyBeforeMonotone(t, k, 4);
    }
  }

  /** The last empty field below `idx`, which has `EmptyBefore(t, idx) - 1` empty fields before it. */
  function LastEmpty(t: PregameTurn, idx: nat): (k: nat)
    requires idx <= 4 && EmptyBefore(t, idx) > 0
    ensures k < idx && !Truthy(t.players[k].id) && EmptyBefore(t, k) == EmptyBefore(t, idx) - 1
    decreases idx
  {
    if !Truthy(t.players[idx - 1].id) then idx - 1 else LastEmpty(t, idx - 1)
  }

  /** `hasPendingInvitations`. */
  predicate HasPendingInvitations(invitations: seq<Invitation>) {
    exists inv | inv in invitations :: inv.status == InvPending
  }

  function InvitationLabel(inv: Option<Invitation>): (s: string)
    ensures s == "" <==> inv.None?
  {
    match inv
    case None => ""
    case Some(i) =>
      match i.status
      case InvPending => if i.isExternalRequest then "Solicitud pendiente" else "Invitación pendiente"
      case InvAccepted => "Aceptada"
      case InvDeclined => "Rechazada"
      case InvExpired => "Expirada"
      case InvCancelled => "Cancelada"
  }

  function InvitationColor(inv: Option<Invitation>): (s: string)
    ensures s == "warning" <==> inv.Some? && inv.value.status == InvPending
    ensures s == "default" <==> inv.None?
  {
    match inv
    case None => "default"
    case Some(i) =>
      match i.status
      case InvPending => "warning"
      case InvAccepted => "success"
      case _ => "error"
  }

  // ---------------------------------------------------------------- edits sent to the backend

  /** What a partial update says about one player field. */
  datatype SlotUpdate = NoChange | SetPlayer(playerId: int) | ClearPlayer

  /** A `PregameTurnUpdate`; an absent key is `None` or `NoChange`. */
  datatype TurnUpdate = TurnUpdate(
    slots: seq<SlotUpdate>,
    date: Option<string>,
    startTime: Option<string>,
    selectedCourtId: Option<int>)

  const EmptyUpdate := TurnUpdate([NoChange, NoChange, NoChange, NoChange], None, None, None)

  predicate IsEmptyUpdate(u: TurnUpdate) {
    (forall k | 0 <= k < |u.slots| :: u.slots[k] == NoChange) && u.date.None? && u.startTime.None? && u.selectedCourtId.None?
  }

  /** The result of a handler: an update mutation, an error toast, or nothing at all. */
  datatype Action = Send(update: TurnUpdate) | Refuse(message: string) | Ignore

  function SetOnly(k: nat, u: SlotUpdate): (r: seq<SlotUpdate>)
    requires k < 4
    ensures |r| == 4 && r[k] == u && forall m | 0 <= m < 4 && m != k :: r[m] == NoChange
  {
    [NoChange, NoChange, NoChange, NoChange][k := u]
  }

  /** The first player field without a truthy id. */
  function FirstEmpty(t: PregameTurn): (r: Option<nat>)
    ensures r.Some? ==> r.value < 4 && !Truthy(t.players[r.value].id)
    ensures r.Some? ==> forall m | 0 <= m < r.value :: Truthy(t.players[m].id)
    ensures r.None? <==> forall m | 0 <= m < 4 :: Truthy(t.players[m].id)
  {
    if !Truthy(t.players[0].id) then Some(0)
    else if !Truthy(t.players[1].id) then Some(1)
    else if !Truthy(t.players[2].id) then Some(2)
    else if !Truthy(t.players[3].id) then Some(3)
    else None
  }

  /**
   * `handleAddPlayer`: the chosen player's id goes into the first empty field and nothing
   * else is written; a full turn is refused with an error message.
   */
  function HandleAddPlayer(t: PregameTurn, selected: Option<int>): (a: Action)
    ensures selected.None? ==> a == Ignore
    ensures selected.Some? && CountPlayers(t) == 4 ==> a == Refuse("El turno ya está completo")
    ensures selected.Some? && CountPlayers(t) < 4 ==>
      && a.Send?
      && var k := FirstEmpty(t).value;
         a.update == EmptyUpdate.(slots := SetOnly(k, SetPlayer(selected.value)))
  {
    match selected
    case None => Ignore
    case Some(id) =>
      match FirstEmpty(t)
      case Some(k) => Send(EmptyUpdate.(slots := SetOnly(k, SetPlayer(id))))
      case None => Refuse("El turno ya está completo")
  }

  /** The first player field whose id is exactly `id`. */
  function FieldOf(t: PregameTurn, id: int): (r: Option<nat>)
    ensures r.Some? ==> r.value < 4 && t.players[r.value].id == Some(id)
    ensures r.Some? ==> forall m | 0 <= m < r.value :: t.players[m].id != Some(id)
    ensures r.None? <==> forall m | 0 <= m < 4 :: t.players[m].id != Some(id)
  {
    if t.players[0].id == Some(id) then Some(0)
    else if t.players[1].id == Some(id) then Some(1)
    else if t.players[2].id == Some(id) then Some(2)
    else if t.players[3].id == Some(id) then Some(3)
    else None
  }

  /**
   * `handleRemovePlayer`: the first field holding the player is cleared; its side and court
   * position are set to `undefined`, which JSON leaves out, so only the id goes out as
   * `null`. When no field holds the player the empty update is still sent.
   */
  function HandleRemovePlayer(t: PregameTurn, playerToRemove: Option<int>): (a: Action)
    ensures !Truthy(playerToRemove) ==> a == Ignore
    ensures Truthy(playerToRemove) ==> a.Send?
    ensures Truthy(playerToRemove) && FieldOf(t, playerToRemove.value).None? ==> a == Send(EmptyUpdate)
    ensures Truthy(playerToRemove) && FieldOf(t, playerToRemove.value).Some? ==>
      a.update == EmptyUpdate.(slots := SetOnly(FieldOf(t, playerToRemove.value).value, ClearPlayer))
  {
    if !Truthy(playerToRemove) then Ignore
    else
      match FieldOf(t, playerToRemove.value)
      case Some(k) => Send(EmptyUpdate.(slots := SetOnly(k, ClearPlayer)))
      case None => Send(EmptyUpdate)
  }

  /**
   * Merges a partial update into a turn: each present player, time or court key overwrites
   * its field; a player key touches only that player's id.
   */
  function Apply(t: PregameTurn, u: TurnUpdate): (r: PregameTurn)
    requires |u.slots| == 4
    ensures r.id == t.id && r.status == t.status
    ensures forall k | 0 <= k < 4 && u.slots[k] == NoChange :: r.players[k] == t.players[k]
    ensures forall k | 0 <= k < 4 && u.slots[k].SetPlayer? :: r.players[k] == t.players[k].(id := Some(u.slots[k].playerId))
    ensures forall k | 0 <= k < 4 && u.slots[k] == ClearPlayer :: r.players[k] == t.players[k].(id := None)
    ensures r.selectedCourtId == (if u.selectedCourtId.Some? then u.selectedCourtId else t.selectedCourtId)
    ensures r.startTime == (if u.startTime.Some? then u.startTime.value else t.startTime)
    ensures r.(players := t.players, selectedCourtId := t.selectedCourtId, startTime := t.startTime) == t
  {
    var players := seq(4, k requires 0 <= k < 4 =>
      match u.slots[k]
      case NoChange => t.players[k]
      case SetPlayer(id) => t.players[k].(id := Some(id))
      case ClearPlayer => t.players[k].(id := None));
    t.(players := players,
       selectedCourtId := if u.selectedCourtId.Some? then u.selectedCourtId else t.selectedCourtId,
       startTime := if u.startTime.Some? then u.startTime.value else t.startTime)
  }

  /** Adding a player to a turn with room fills exactly one more field. */
  lemma AddPlayerFillsOneField(t: PregameTurn, id: int)
    requires id != 0 && CountPlayers(t) < 4
    ensures var a := HandleAddPlayer(t, Some(id));
      a.Send? && CountPlayers(Apply(t, a.update)) == CountPlayers(t) + 1
  {
    var a := HandleAddPlayer(t, Some(id));
    var k := FirstEmpty(t).value;
    var r := Apply(t, a.update);
    assert r.players == t.players[k := t.players[k].(id := Some(id))];
    CountTruthyUpdate(t.players, k, t.players[k].(id := Some(id)));
  }

  /** Removing a player that holds a field empties exactly one field. */
  lemma RemovePlayerEmptiesOneField(t: PregameTurn, id: int)
    requires id != 0 && FieldOf(t, id).Some?
    ensures var a := HandleRemovePlayer(t, Some(id));
      a.Send? && CountPlayers(Apply(t, a.update)) == CountPlayers(t) - 1
  {
    var a := HandleRemovePlayer(t, Some(id));
    var k := FieldOf(t, id).value;
    var r := Apply(t, a.update);
    assert r.players == t.players[k := t.players[k].(id := None)];
    CountTruthyUpdate(t.players, k, t.players[k].(id := None));
  }

  lemma {:induction false} CountTruthyUpdate(s: seq<PlayerSlot>, k: nat, v: PlayerSlot)
    requires k < |s|
    ensures CountTruthy(s[k := v]) + (if Truthy(s[k].id) then 1 else 0)
         == CountTruthy(s) + (if Truthy(v.id) then 1 else 0)
    decreases |s|
  {
    if k > 0 {
      CountTruthyUpdate(s[1..], k - 1, v);
      assert s[k := v][1..] == s[1..][k - 1 := v];
    } else {
      assert s[k := v][1..] == s[1..];
    }
  }

  /**
   * `handleSaveChanges`: the date, start time and court go into the update only when each
   * is given and differs from the turn (the date against its `yyyy-MM-dd` text, the court
   * against `court_id`); with no difference the editor just closes.
   */
  function HandleSaveChanges(t: PregameTurn, editedDate: string, editedStartTime: string, editedCourtId: Option<int>): (a: Action)
    ensures a.Send? || a == Ignore
    ensures a.Send? ==> !IsEmptyUpdate(a.update) && a.update.slots == EmptyUpdate.slots
    ensures a.Send? ==> (a.update.date.Some? <==> editedDate != [] && editedDate != CurrentDateText(t))
    ensures a.Send? && a.update.date.Some? ==> a.update.date.value == editedDate
    ensures a.Send? ==> (a.update.startTime.Some? <==> editedStartTime != [] && editedStartTime != t.startTime)
    ensures a.Send? && a.update.startTime.Some? ==> a.update.startTime.value == editedStartTime
    ensures a.Send? ==> (a.update.selectedCourtId.Some? <==> Truthy(editedCourtId) && editedCourtId.value != t.courtId)
    ensures a.Send? && a.update.selectedCourtId.Some? ==> a.update.selectedCourtId == editedCourtId
    ensures a == Ignore <==>
      && (editedDate == [] || editedDate == CurrentDateText(t))
      && (editedStartTime == [] || editedStartTime == t.startTime)
      && (!Truthy(editedCourtId) || editedCourtId.value == t.courtId)
  {
    var date := if editedDate != [] && editedDate != CurrentDateText(t) then Some(editedDate) else None;
    var time := if editedStartTime != [] && editedStartTime != t.startTime then Some(editedStartTime) else None;
    var court := if Truthy(editedCourtId) && editedCourtId.value != t.courtId then editedCourtId else None;
    var u := TurnUpdate(EmptyUpdate.slots, date, time, court);
    if date.Some? || time.Some? || court.Some? then Send(u) else Ignore
  }

  /** The turn's date as the edit form shows it, or '' without one. */
  function CurrentDateText(t: PregameTurn): string {
    match t.date
    case Some(d) => IsoDayText(d.day)
    case None => ""
  }

  /** Saving what the form was opened with sends nothing. */
  lemma SaveUnchangedSendsNothing(t: PregameTurn)
    ensures HandleSaveChanges(t, CurrentDateText(t), t.startTime, Some(t.courtId)) == Ignore
  {
  }

  // ---------------------------------------------------------------- cancelling invitations

  datatype User = User(id: int, isAdmin: bool, clubId: Option<int>)

  /** `isOrganizer`: `Number(player1_id)` is the user's id; `Number(null)` is 0. */
  predicate IsOrganizer(t: PregameTurn, u: User) {
    t.players[0].id.GetOr(0) == u.id
  }

  /** `isClubAdmin`: an administrator with a club. */
  predicate IsClubAdmin(u: User) {
    u.isAdmin && u.clubId.Some?
  }

  /**
   * The invitations the user may cancel: every pending one for the organizer or a club
   * administrator, otherwise only the pending ones the user sent.
   */
  function CancellableInvitations(t: PregameTurn, u: User, invitations: seq<Invitation>): (r: seq<Invitation>)
    ensures forall inv | inv in r :: inv in invitations && inv.status == InvPending
    ensures IsOrganizer(t, u) || IsClubAdmin(u) ==>
      forall inv | inv in invitations && inv.status == InvPending :: inv in r
    ensures !(IsOrganizer(t, u) || IsClubAdmin(u)) ==>
      forall inv | inv in invitations && inv.status == InvPending ::
        inv in r <==> u.id != 0 && inv.inviterId != 0 && inv.inviterId == u.id
  {
    var pending := Filter(invitations, (inv: Invitation) => inv.status == InvPending);
    if IsOrganizer(t, u) || IsClubAdmin(u) then pending
    else Filter(pending, (inv: Invitation) => u.id != 0 && inv.inviterId != 0 && inv.inviterId == u.id)
  }

  /** `handleCancelTurn`: a blank reason is refused, otherwise the reason is sent. */
  function HandleCancelTurn(reason: string): (a: CancelAction)
    ensures a.CancelRefused? <==> Blank(reason)
    ensures a.CancelSent? ==> a.reason == reason && Trim(reason) != []
  {
    if Trim(reason) == [] then CancelRefused("Por favor, ingresa un motivo para la cancelación")
    else CancelSent(reason)
  }

  datatype CancelAction = CancelSent(reason: string) | CancelRefused(message: string)

  datatype BatchResult = BatchResult(successful: nat, failed: nat, total: nat)

  /** The outcome of cancelling a batch, given which requests were fulfilled. */
  function CountBatch(fulfilled: seq<bool>): (r: BatchResult)
    ensures r.successful + r.failed == r.total == |fulfilled|
    ensures r.failed == 0 <==> forall b | b in fulfilled :: b
    ensures r.successful == multiset(fulfilled)[true] && r.failed == multiset(fulfilled)[false]
  {
    CountSplit(fulfilled, (b: bool) => b, (b: bool) => !b);
    CountIsMultiplicity(fulfilled, (b: bool) => b, true);
    CountIsMultiplicity(fulfilled, (b: bool) => !b, false);
    BatchResult(Count(fulfilled, (b: bool) => b), Count(fulfilled, (b: bool) => !b), |fulfilled|)
  }
}
