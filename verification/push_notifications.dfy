/**
 * The hook that announces new notifications: it remembers the ids it has processed, picks
 * the unread notifications it has not seen yet, announces the important ones (a cancelled
 * turn, an external request) before the others, and forgets everything at logout.
 */
module PushNotifications {

  import opened Wrappers
  import opened Strings
  import opened Domain
  import opened Lists

  /** The browser notification and toast shown for one notification. */
  datatype Announcement = Announcement(
    id: int,
    title: string,
    body: string,
    tag: string,
    requireInteraction: bool,
    toastMillis: nat)

  predicate Important(n: Notification) {
    n.kind == "turn_cancelled" || n.kind == "external_request"
  }

  /** The unread notifications whose id has not been processed yet. */
  function NewNotifications(processed: set<int>, ns: seq<Notification>): (r: seq<Notification>)
    ensures forall n | n in r :: n in ns && !n.isRead && n.id !in processed
    ensures forall n | n in ns && !n.isRead && n.id !in processed :: n in r
  {
    var unread := Filter(ns, (n: Notification) => !n.isRead);
    Filter(unread, (n: Notification) => n.id !in processed)
  }

  /** An important notification asks for interaction, is tagged with its type and id, and stays ten seconds. */
  function Announce(n: Notification): (a: Announcement)
    ensures a.id == n.id && a.title == n.title && a.body == n.message
    ensures a.requireInteraction <==> Important(n)
    ensures Important(n) ==> a.tag == n.kind + "_" + IntToString(n.id) && a.toastMillis == 10000
    ensures !Important(n) ==> a.tag == "notification_" + IntToString(n.id) && a.toastMillis == 5000
  {
    if Important(n) then Announcement(n.id, n.title, n.message, n.kind + "_" + IntToString(n.id), true, 10000)
    else Announcement(n.id, n.title, n.message, "notification_" + IntToString(n.id), false, 5000)
  }

  function AnnounceAll(ns: seq<Notification>): (r: seq<Announcement>)
    ensures |r| == |ns| && forall k | 0 <= k < |ns| :: r[k] == Announce(ns[k])
  {
    Map(ns, Announce)
  }

  function IdSet(ns: seq<Notification>): (r: set<int>)
    ensures forall n | n in ns :: n.id in r
    ensures forall id | id in r :: exists n | n in ns :: n.id == id
  {
    set n | n in ns :: n.id
  }

  function Ids(ns: seq<Notification>): (r: seq<int>)
    ensures |r| == |ns| && forall k | 0 <= k < |ns| :: r[k] == ns[k].id
  {
    seq(|ns|, k requires 0 <= k < |ns| => ns[k].id)
  }

  /**
   * One run of the detection effect on the fetched list (`None` before it arrives): nothing
   * changes without new notifications; otherwise their ids join the processed set and each is
   * announced once, the important ones first, each group in list order.
   */
  function Detect(processed: set<int>, data: Option<seq<Notification>>): (r: (set<int>, seq<Announcement>))
    ensures data.None? ==> r == (processed, [])
    ensures data.Some? ==>
      var incoming := NewNotifications(processed, data.value);
      && (incoming == [] ==> r == (processed, []))
      && r.0 == processed + IdSet(incoming)
      && r.1 == AnnounceAll(Filter(incoming, Important)) + AnnounceAll(Filter(incoming, (n: Notification) => !Important(n)))
  {
    if data.None? then (processed, [])
    else
      var incoming := NewNotifications(processed, data.value);
      if incoming == [] then (processed, [])
      else
        var important := Filter(incoming, Important);
        var other := Filter(incoming, (n: Notification) => !Important(n));
        (processed + IdSet(incoming), AnnounceAll(important) + AnnounceAll(other))
  }

  /** Every new notification is announced exactly once, and nothing else is. */
  lemma DetectAnnouncesEachOnce(processed: set<int>, ns: seq<Notification>)
    ensures var incoming := NewNotifications(processed, ns);
      var r := Detect(processed, Some(ns));
      multiset(r.1) == multiset(AnnounceAll(incoming))
  {
    var incoming := NewNotifications(processed, ns);
    MapFilterPartition(incoming, Important, (n: Notification) => !Important(n), Announce);
  }

  /** Ids that were processed are never announced again. */
  lemma ProcessedNotAnnounced(processed: set<int>, data: Option<seq<Notification>>)
    ensures forall a | a in Detect(processed, data).1 :: a.id !in processed && a.id in Detect(processed, data).0
  {
    if data.Some? {
      var incoming := NewNotifications(processed, data.value);
      var important := Filter(incoming, Important);
      var other := Filter(incoming, (n: Notification) => !Important(n));
      forall a | a in AnnounceAll(important) + AnnounceAll(other)
        ensures a.id !in processed && a.id in processed + IdSet(incoming)
      {
        if a in AnnounceAll(important) {
          AnnouncedFrom(important, incoming, a);
        } else {
          AnnouncedFrom(other, incoming, a);
        }
      }
    }
  }

  /** An announcement made for a part of the new notifications carries the id of one of them. */
  lemma AnnouncedFrom(part: seq<Notification>, incoming: seq<Notification>, a: Announcement)
    requires forall n | n in part :: n in incoming
    requires a in AnnounceAll(part)
    ensures exists n | n in incoming :: n.id == a.id
  {
    var k :| 0 <= k < |part| && AnnounceAll(part)[k] == a;
    assert part[k] in incoming;
  }

  /** The logout effect: the processed set is emptied whenever the user is not authenticated. */
  function OnAuthChange(isAuthenticated: bool, processed: set<int>): (r: set<int>)
    ensures !isAuthenticated ==> r == {}
    ensures isAuthenticated ==> r == processed
  {
    if isAuthenticated then processed else {}
  }

  /** The announcements of a session: the detection effect run on each fetched list in turn. */
  function Session(processed: set<int>, fetches: seq<Option<seq<Notification>>>): (r: (set<int>, seq<seq<Announcement>>))
    ensures |r.1| == |fetches|
    ensures processed <= r.0
    decreases |fetches|
  {
    if fetches == [] then (processed, [])
    else
      var step := Detect(processed, fetches[0]);
      var rest := Session(step.0, fetches[1..]);
      (rest.0, [step.1] + rest.1)
  }

  /** No id is announced by two different fetches. */
  predicate AnnouncedOnce(anns: seq<seq<Announcement>>) {
    forall i, j, a, b | 0 <= i < j < |anns| && a in anns[i] && b in anns[j] :: a.id != b.id
  }

  /** Every id announced in `anns` was new at the start and is remembered at the end. */
  predicate AnnouncedFresh(processed: set<int>, final: set<int>, anns: seq<seq<Announcement>>) {
    forall i, a | 0 <= i < |anns| && a in anns[i] :: a.id !in processed && a.id in final
  }

  /** Within a session no id is announced twice: two different fetches never announce the same id. */
  lemma {:induction false} SessionAnnouncesOnce(processed: set<int>, fetches: seq<Option<seq<Notification>>>)
    ensures AnnouncedOnce(Session(processed, fetches).1)
    ensures AnnouncedFresh(processed, Session(processed, fetches).0, Session(processed, fetches).1)
    decreases |fetches|
  {
    if fetches != [] {
      var step := Detect(processed, fetches[0]);
      var rest := Session(step.0, fetches[1..]);
      SessionAnnouncesOnce(step.0, fetches[1..]);
      ProcessedNotAnnounced(processed, fetches[0]);
      SessionStep(processed, step.0, step.1, rest.0, rest.1);
    }
  }

  /** One fetch's announcements put before those of the later fetches keep every id announced once. */
  lemma SessionStep(processed: set<int>, mid: set<int>, first: seq<Announcement>,
                    final: set<int>, later: seq<seq<Announcement>>)
    requires processed <= mid <= final
    requires forall a | a in first :: a.id !in processed && a.id in mid
    requires AnnouncedOnce(later) && AnnouncedFresh(mid, final, later)
    ensures AnnouncedOnce([first] + later) && AnnouncedFresh(processed, final, [first] + later)
  {
    var anns := [first] + later;
    forall i, a: Announcement | 0 <= i < |anns| && a in anns[i] ensures a.id !in processed && a.id in final {
      if i > 0 {
        assert anns[i] == later[i - 1];
      }
    }
    forall i, j, a: Announcement, b: Announcement | 0 <= i < j < |anns| && a in anns[i] && b in anns[j]
      ensures a.id != b.id
    {
      assert anns[j] == later[j - 1];
      if i > 0 {
        assert anns[i] == later[i - 1];
      } else {
        assert b.id !in mid;
      }
    }
  }
}
