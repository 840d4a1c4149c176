/**
 * The query parameters the turn service sends: the optional date filter of the turn list,
 * and the parameter list of creating a turn from the club's side.
 */
module TurnService {

  import opened Wrappers
  import opened Strings
  import opened Lists

  /** The parameters the service can send; `Name` gives each its name on the wire. */
  datatype Param =
    | ClubId | StartTime | TargetDate | CourtId | OrganizerId
    | PlayerSide | PlayerPosition | CategoryRestricted | RestrictionType | IsMixedMatch | FreeCategory

  function Name(k: Param): string {
    match k
    case ClubId => "club_id"
    case StartTime => "start_time"
    case TargetDate => "target_date"
    case CourtId => "court_id"
    case OrganizerId => "organizer_player_id"
    case PlayerSide => "player_side"
    case PlayerPosition => "player_position"
    case CategoryRestricted => "category_restricted"
    case RestrictionType => "category_restriction_type"
    case IsMixedMatch => "is_mixed_match"
    case FreeCategory => "free_category"
  }

  /** Query parameters in the order they are appended. */
  type Query = seq<(Param, string)>

  /** The parameter names of a query, in order. */
  function QueryKeys(q: Query): seq<Param> {
    Firsts(q)
  }

  /** `getPregameTurnsForClub`: `target_date` only when a non-empty date is given. */
  function TurnListParams(targetDate: Option<string>): (q: Query)
    ensures q == [] <==> targetDate.None? || targetDate.value == []
    ensures q != [] ==> q == [(TargetDate, targetDate.value)]
  {
    if targetDate.Some? && targetDate.value != [] then [(TargetDate, targetDate.value)] else []
  }

  /** The arguments of `createTurnByClub`; `None` is an absent (undefined) argument. */
  datatype CreateParams = CreateParams(
    clubId: int,
    startTime: string,
    targetDate: string,
    courtId: int,
    organizerId: int,
    playerSide: Option<string>,
    playerPosition: Option<string>,
    categoryRestricted: Option<bool>,
    restrictionType: Option<string>,
    isMixedMatch: Option<bool>,
    freeCategory: Option<string>)

  const FixedKeys: seq<Param> := [ClubId, StartTime, TargetDate, CourtId, OrganizerId]

  const OptionalKeys: seq<Param> :=
    [PlayerSide, PlayerPosition, CategoryRestricted, RestrictionType, IsMixedMatch, FreeCategory]

  function BoolText(b: bool): string {
    if b then "true" else "false"
  }

  /** A string argument is sent when non-empty (truthy); a boolean one whenever it is defined. */
  predicate Sent(p: CreateParams, key: Param) {
    match key
    case PlayerSide => p.playerSide.Some? && p.playerSide.value != []
    case PlayerPosition => p.playerPosition.Some? && p.playerPosition.value != []
    case CategoryRestricted => p.categoryRestricted.Some?
    case RestrictionType => p.restrictionType.Some? && p.restrictionType.value != []
    case IsMixedMatch => p.isMixedMatch.Some?
    case FreeCategory => p.freeCategory.Some? && p.freeCategory.value != []
    case _ => true
  }

  /** The text sent under `key`, for a key that is sent. */
  function ValueOf(p: CreateParams, key: Param): string {
    match key
    case ClubId => IntToString(p.clubId)
    case StartTime => p.startTime
    case TargetDate => p.targetDate
    case CourtId => IntToString(p.courtId)
    case OrganizerId => IntToString(p.organizerId)
    case PlayerSide => p.playerSide.GetOr("")
    case PlayerPosition => p.playerPosition.GetOr("")
    case CategoryRestricted => BoolText(p.categoryRestricted.GetOr(false))
    case RestrictionType => p.restrictionType.GetOr("")
    case IsMixedMatch => BoolText(p.isMixedMatch.GetOr(false))
    case FreeCategory => p.freeCategory.GetOr("")
  }

  /** The five required parameters, always sent, in their fixed order. */
  function RequiredPart(p: CreateParams): (q: Query)
    ensures QueryKeys(q) == FixedKeys
    ensures forall i | 0 <= i < |q| :: q[i].1 == ValueOf(p, q[i].0) && Sent(p, q[i].0)
  {
    var q := [(ClubId, IntToString(p.clubId)), (StartTime, p.startTime), (TargetDate, p.targetDate),
              (CourtId, IntToString(p.courtId)), (OrganizerId, IntToString(p.organizerId))];
    assert QueryKeys(q) == FixedKeys;
    q
  }

  /** Each optional parameter of `keys`, in that order, appended when it is sent. */
  function OptionalPart(p: CreateParams, keys: seq<Param>): (q: Query)
    ensures forall i | 0 <= i < |q| :: q[i].1 == ValueOf(p, q[i].0) && Sent(p, q[i].0) && q[i].0 in keys
    decreases |keys|
  {
    if keys == [] then []
    else
      var rest := OptionalPart(p, keys[1..]);
      (if Sent(p, keys[0]) then [(keys[0], ValueOf(p, keys[0]))] else []) + rest
  }

  /**
   * `createTurnByClub`: the five required parameters first, then each optional one that is
   * sent, in a fixed order, each with its value.
   */
  function CreateQuery(p: CreateParams): (q: Query)
    ensures QueryKeys(q) == FixedKeys + Filter(OptionalKeys, (k: Param) => Sent(p, k))
    ensures forall i | 0 <= i < |q| :: q[i].1 == ValueOf(p, q[i].0) && Sent(p, q[i].0)
  {
    var r := RequiredPart(p);
    var o := OptionalPart(p, OptionalKeys);
    OptionalKeysFilter(p, OptionalKeys);
    JoinParts(p, r, o);
    r + o
  }

  lemma JoinParts(p: CreateParams, r: Query, o: Query)
    requires QueryKeys(r) == FixedKeys && forall i | 0 <= i < |r| :: r[i].1 == ValueOf(p, r[i].0) && Sent(p, r[i].0)
    requires forall i | 0 <= i < |o| :: o[i].1 == ValueOf(p, o[i].0) && Sent(p, o[i].0)
    ensures QueryKeys(r + o) == FixedKeys + QueryKeys(o)
    ensures forall i | 0 <= i < |r + o| :: (r + o)[i].1 == ValueOf(p, (r + o)[i].0) && Sent(p, (r + o)[i].0)
  {
    assert |r| == 5;
  }

  lemma {:induction false} OptionalKeysFilter(p: CreateParams, keys: seq<Param>)
    ensures QueryKeys(OptionalPart(p, keys)) == Filter(keys, (k: Param) => Sent(p, k))
    decreases |keys|
  {
    if keys != [] {
      OptionalKeysFilter(p, keys[1..]);
      var head: Query := if Sent(p, keys[0]) then [(keys[0], ValueOf(p, keys[0]))] else [];
      QueryKeysAppend(head, OptionalPart(p, keys[1..]));
      assert QueryKeys(head) == if Sent(p, keys[0]) then [keys[0]] else [];
    }
  }

  lemma QueryKeysAppend(a: Query, b: Query)
    ensures QueryKeys(a + b) == QueryKeys(a) + QueryKeys(b)
  {
  }

  /** A boolean argument that is defined is sent even when false. */
  lemma FalseFlagIsSent(p: CreateParams)
    requires p.categoryRestricted == Some(false)
    ensures (CategoryRestricted, "false") in CreateQuery(p)
  {
    assert OptionalKeys[2] == CategoryRestricted;
    SentKeyIn(p, CreateQuery(p), OptionalKeys, CategoryRestricted);
  }

  lemma SentKeyIn(p: CreateParams, q: Query, keys: seq<Param>, key: Param)
    requires QueryKeys(q) == FixedKeys + Filter(keys, (k: Param) => Sent(p, k))
    requires forall i | 0 <= i < |q| :: q[i].1 == ValueOf(p, q[i].0)
    requires key in keys && Sent(p, key)
    ensures (key, ValueOf(p, key)) in q
  {
    var opt := Filter(keys, (k: Param) => Sent(p, k));
    assert key in opt;
    var j :| 0 <= j < |opt| && opt[j] == key;
    assert QueryKeys(q)[5 + j] == key;
    assert q[5 + j] == (key, ValueOf(p, key));
  }

  /** A flag that is absent or true never reaches the query as "false". */
  lemma NoFalseFlagSent(p: CreateParams)
    requires p.categoryRestricted != Some(false) && p.isMixedMatch != Some(false)
    ensures (CategoryRestricted, "false") !in CreateQuery(p) && (IsMixedMatch, "false") !in CreateQuery(p)
  {
    NoFalseFlagIn(p, CreateQuery(p));
  }

  lemma NoFalseFlagIn(p: CreateParams, q: Query)
    requires p.categoryRestricted != Some(false) && p.isMixedMatch != Some(false)
    requires forall i | 0 <= i < |q| :: q[i].1 == ValueOf(p, q[i].0) && Sent(p, q[i].0)
    ensures (CategoryRestricted, "false") !in q && (IsMixedMatch, "false") !in q
  {
    forall i | 0 <= i < |q| ensures q[i] != (CategoryRestricted, "false") && q[i] != (IsMixedMatch, "false") {
      assert q[i].1 == ValueOf(p, q[i].0) && Sent(p, q[i].0);
    }
  }
}
