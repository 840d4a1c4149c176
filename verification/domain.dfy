/**
 * The records the dashboard fetches from the club's backend: pregame turns with their four
 * player fields, invitations, notifications, matches and courts.
 */
module Domain {

  import opened Wrappers
  import opened Dates

  datatype TurnStatus = Available | Pending | ReadyToPlay | Cancelled | Completed

  /** The backend's spelling of a status. */
  function StatusName(s: TurnStatus): string {
    match s
    case Available => "AVAILABLE"
    case Pending => "PENDING"
    case ReadyToPlay => "READY_TO_PLAY"
    case Cancelled => "CANCELLED"
    case Completed => "COMPLETED"
  }

  /** `STATUS_LABELS` of the calendar and history pages. */
  function StatusLabel(s: TurnStatus): string {
    match s
    case Available => "Disponible"
    case Pending => "Pendiente"
    case ReadyToPlay => "Listo"
    case Cancelled => "Cancelado"
    case Completed => "Completado"
  }

  /** `player<k>_side`: the player's stroke, `drive` or `reves`. */
  datatype Side = Drive | Reves

  /** `player<k>_court_position`: the half of the court, `izquierda` or `derecha`. */
  datatype CourtPosition = Izquierda | Derecha

  /** One of the fields `player<k>_id`, `player<k>_side`, `player<k>_court_position`. */
  datatype PlayerSlot = PlayerSlot(id: Option<int>, side: Option<Side>, courtPosition: Option<CourtPosition>)

  const EmptySlot := PlayerSlot(None, None, None)

  /** The four player fields, `player1` first. */
  type Slots = s: seq<PlayerSlot> | |s| == 4 witness [EmptySlot, EmptySlot, EmptySlot, EmptySlot]

  /**
   * A pregame turn. `status` is optional because the statistics code reads untyped records
   * and maps a missing status to 'UNKNOWN'; `playersCount` is the endpoint's `players_count`.
   */
  datatype PregameTurn = PregameTurn(
    id: int,
    turnId: int,
    courtId: nat,
    courtName: Option<string>,
    selectedCourtId: Option<int>,
    date: Option<TurnDate>,
    startTime: string,
    endTime: string,
    price: int,
    status: Option<TurnStatus>,
    players: Slots,
    playersCount: Option<int>)

  predicate HasStatus(t: PregameTurn, s: TurnStatus) {
    t.status == Some(s)
  }

  datatype InvitationStatus = InvPending | InvAccepted | InvDeclined | InvExpired | InvCancelled

  datatype Invitation = Invitation(
    id: int,
    turnId: int,
    inviterId: int,
    invitedPlayerId: int,
    status: InvitationStatus,
    isExternalRequest: bool)

  /** What `data.turn_id` of a notification holds: nothing, JSON null, or a number. */
  datatype TurnRef = NoTurnRef | NullTurnRef | TurnRefId(turnId: int)

  datatype Notification = Notification(
    id: int,
    title: string,
    message: string,
    kind: string,
    isRead: bool,
    turnRef: TurnRef)

  datatype MatchPlayer = MatchPlayer(id: int, name: string)

  datatype Match = Match(
    id: int,
    courtId: nat,
    courtName: Option<string>,
    status: string,
    players: seq<MatchPlayer>)

  datatype Court = Court(id: nat, name: string, clubId: int, isAvailable: bool)

  /** The number of truthy entries among the given player id fields. */
  function CountTruthy(slots: seq<PlayerSlot>): (n: nat)
    ensures n <= |slots|
    ensures n == 0 <==> forall k | 0 <= k < |slots| :: !Truthy(slots[k].id)
    ensures n == |slots| <==> forall k | 0 <= k < |slots| :: Truthy(slots[k].id)
    decreases |slots|
  {
    if slots == [] then 0
    else (if Truthy(slots[0].id) then 1 else 0) + CountTruthy(slots[1..])
  }

  /**
   * `countPlayers`: how many of `player1_id..player4_id` are set. It is 4 exactly when
   * every field is set and 0 exactly when none is.
   */
  function CountPlayers(t: PregameTurn): (n: nat)
    ensures n <= 4
    ensures n == 0 <==> forall k | 0 <= k < 4 :: !Truthy(t.players[k].id)
    ensures n == 4 <==> forall k | 0 <= k < 4 :: Truthy(t.players[k].id)
  {
    CountTruthy(t.players)
  }

  /**
   * `getTurnPrice`: the turn's own price when positive, else the club's `price_per_turn`
   * when known and positive, else nothing.
   */
  function TurnPrice(t: PregameTurn, clubPrice: Option<int>): (r: Option<int>)
    ensures r.Some? ==> r.value > 0
    ensures t.price > 0 ==> r == Some(t.price)
    ensures t.price <= 0 && clubPrice.Some? && clubPrice.value > 0 ==> r == clubPrice
    ensures r.None? <==> t.price <= 0 && (clubPrice.None? || clubPrice.value <= 0)
  {
    if t.price > 0 then Some(t.price)
    else if clubPrice.Some? && clubPrice.value > 0 then clubPrice
    else None
  }
}
