/**
 * The notifications page: the unread/read split of the list, the label and colour of a
 * notification type, the unread counter, opening a notification, and the link to its turn.
 */
module Notifications {

  import opened Wrappers
  import opened Strings
  import opened Domain
  import opened Lists

  /** `TYPE_LABELS`, with the raw type for a type it does not know. */
  function TypeLabel(kind: string): (caption: string)
    ensures kind !in KnownTypes ==> caption == kind
    ensures kind in KnownTypes ==> caption != kind && caption != []
  {
    if kind == "turn_cancelled" then "Turno Cancelado"
    else if kind == "turn_completed" then "Turno Completado"
    else if kind == "turn_joined" then "Jugador Agregado"
    else if kind == "external_request" then "Nuevo Turno"
    else if kind == "external_request_rejected" then "Solicitud Rechazada"
    else if kind == "broadcast_notification" then "Notificación Global"
    else if kind == "admin_notification" then "Notificación Administrativa"
    else kind
  }

  const KnownTypes: seq<string> := ["turn_cancelled", "turn_completed", "turn_joined", "external_request",
                                    "external_request_rejected", "broadcast_notification", "admin_notification"]

  /** `TYPE_COLORS`, with 'default' for a type it does not know. */
  function TypeColor(kind: string): (color: string)
    ensures kind !in KnownTypes <==> color == "default"
  {
    if kind == "turn_cancelled" then "error"
    else if kind == "turn_completed" then "success"
    else if kind == "turn_joined" then "info"
    else if kind == "external_request" then "warning"
    else if kind == "external_request_rejected" then "error"
    else if kind == "broadcast_notification" then "primary"
    else if kind == "admin_notification" then "secondary"
    else "default"
  }

  predicate Unread(n: Notification) {
    !n.isRead
  }

  /** `data?.notifications || []`. */
  function Listed(data: Option<seq<Notification>>): seq<Notification> {
    data.GetOr([])
  }

  /**
   * The two sections of the page: the unread notifications, then the read ones, each in the
   * order of the list; between them they hold every notification exactly once.
   */
  function Sections(data: Option<seq<Notification>>): (r: (seq<Notification>, seq<Notification>))
    ensures forall n | n in r.0 :: !n.isRead
    ensures forall n | n in r.1 :: n.isRead
    ensures multiset(r.0) + multiset(r.1) == multiset(Listed(data))
    ensures |r.0| + |r.1| == |Listed(data)|
    ensures IsSubseq(r.0, Listed(data)) && IsSubseq(r.1, Listed(data))
  {
    var ns := Listed(data);
    var unread := Filter(ns, (n: Notification) => !n.isRead);
    var read := Filter(ns, (n: Notification) => n.isRead);
    FilterPartition(ns, (n: Notification) => !n.isRead, (n: Notification) => n.isRead);
    FilterSubseq(ns, (n: Notification) => !n.isRead);
    FilterSubseq(ns, (n: Notification) => n.isRead);
    assert |multiset(unread) + multiset(read)| == |ns|;
    (unread, read)
  }

  /** The unread counter: shown only for a positive count, with a plural 's' unless it is one. */
  function UnreadCounter(unreadCount: Option<int>): (text: Option<string>)
    ensures text.Some? <==> unreadCount.Some? && unreadCount.value > 0
    ensures text.Some? ==> StartsWith(text.value, NatToString(unreadCount.value))
    ensures text.Some? ==> (EndsWith(text.value, "s") <==> unreadCount.value != 1)
  {
    var count := unreadCount.GetOr(0);
    if count > 0 then
      var t := NatToString(count) + " no leída" + (if count != 1 then "s" else "");
      assert t[..|NatToString(count)|] == NatToString(count);
      assert t[|t| - 1] == if count != 1 then 's' else 'a';
      Some(t)
    else None
  }

  /** `handleViewDetails`: the notification is opened, and marked read only if it was unread. */
  function ViewDetails(n: Notification): (r: (Notification, Option<int>))
    ensures r.0 == n
    ensures r.1.Some? <==> !n.isRead
    ensures r.1.Some? ==> r.1.value == n.id
  {
    (n, if !n.isRead then Some(n.id) else None)
  }

  /** The 'Ver turno' button: present when the opened notification carries a truthy turn id, leading to that turn. */
  function TurnLink(selected: Option<Notification>): (path: Option<string>)
    ensures path.Some? <==> selected.Some? && selected.value.turnRef.TurnRefId? && selected.value.turnRef.turnId != 0
    ensures path.Some? ==> path.value == "/turnos/" + IntToString(selected.value.turnRef.turnId)
  {
    if selected.Some? && selected.value.turnRef.TurnRefId? && selected.value.turnRef.turnId != 0 then
      Some("/turnos/" + IntToString(selected.value.turnRef.turnId))
    else None
  }
}
