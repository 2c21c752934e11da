/**
 * The history panel's share of the session repository: restoring a
 * soft-deleted session, and the panel's single notification slot whose
 * expiry timers are never cancelled.
 */
module History {
  import opened Optional
  import opened Sessions
  import opened Storage
  import Sidebar

  datatype Kind = Success | Error

  datatype Notification = Notification(message: string, kind: Kind)

  /** Milliseconds a posted notification is meant to stay up. */
  const Lifetime: nat := 3000

  const AlreadyActiveMessage: string := "This session is already active!"
  const RestoredMessage: string := "Session restored successfully!"

  /**
   * The notification slot and the deadlines of the timers posting has
   * started. A timer, when it fires, empties the slot whatever it holds.
   */
  datatype Banner = Banner(shown: Option<Notification>, timers: seq<nat>)

  /**
   * showNotification at `now`. The timers already due have fired by then;
   * the slot is overwritten and one more timer is started, and no pending
   * timer is cancelled.
   */
  function Post(b: Banner, message: string, kind: Kind, now: nat): (r: Banner)
    ensures r.shown == Some(Notification(message, kind))
    ensures forall d :: d in r.timers <==> (d in b.timers && d > now) || d == now + Lifetime
    ensures forall d :: d in r.timers ==> d > now
  {
    Banner(Some(Notification(message, kind)), Expire(b, now).timers + [now + Lifetime])
  }

  /** The deadlines still pending at `now`, in order. */
  function Later(timers: seq<nat>, now: nat): (r: seq<nat>)
    ensures forall d :: d in r <==> d in timers && d > now
  {
    if timers == [] then []
    else
      assert timers == [timers[0]] + timers[1..];
      (if timers[0] > now then [timers[0]] else []) + Later(timers[1..], now)
  }

  /** Does some timer reach its deadline by `now`? */
  function Fired(timers: seq<nat>, now: nat): (b: bool)
    ensures b <==> exists d :: d in timers && d <= now
  {
    if timers == [] then false
    else if timers[0] <= now then
      assert timers[0] in timers;
      true
    else
      assert forall d :: d in timers <==> d == timers[0] || d in timers[1..];
      Fired(timers[1..], now)
  }

  /** Time passes to `now`: every timer due fires and empties the slot; the others stay pending. */
  function Expire(b: Banner, now: nat): (r: Banner)
    ensures forall d :: d in r.timers <==> d in b.timers && d > now
    ensures (exists d :: d in b.timers && d <= now) ==> r.shown == None
    ensures (forall d :: d in b.timers ==> d > now) ==> r.shown == b.shown
  {
    Banner(if Fired(b.timers, now) then None else b.shown, Later(b.timers, now))
  }

  /**
   * A notification posted at `postedAt` when no timer still pending then
   * falls due by `now` is up at `now` exactly when its own timer has not
   * fired yet.
   */
  lemma ShownForLifetime(b: Banner, message: string, kind: Kind, postedAt: nat, now: nat)
    requires forall d :: d in b.timers && d > postedAt ==> d > now
    ensures var r := Expire(Post(b, message, kind, postedAt), now);
            r.shown == if now < postedAt + Lifetime then Some(Notification(message, kind)) else None
  {
    var p := Post(b, message, kind, postedAt);
    assert postedAt + Lifetime in p.timers;
  }

  /**
   * The timer of an earlier notification, still pending when a new one is
   * posted, clears the new one at its own deadline, before the new one's
   * lifetime is over.
   */
  lemma StaleTimerClearsNewer(b: Banner, message: string, kind: Kind, postedAt: nat, earlier: nat)
    requires earlier in b.timers && postedAt < earlier < postedAt + Lifetime
    ensures Post(b, message, kind, postedAt).shown == Some(Notification(message, kind))
    ensures Expire(Post(b, message, kind, postedAt), earlier).shown == None
  {
    assert earlier in Post(b, message, kind, postedAt).timers;
  }

  /** Two notifications posted 2 s apart: the first one's timer removes the second after only 1 s. */
  lemma SecondNotificationCutShort()
    ensures var b := Post(Post(Banner(None, []), RestoredMessage, Success, 0), AlreadyActiveMessage, Error, 2000);
            Expire(b, 2999).shown == Some(Notification(AlreadyActiveMessage, Error)) && Expire(b, 3000).shown == None
  {
  }

  /** Posted 5 s apart, the first timer has fired before the second post, which then stays up its full 3 s. */
  lemma SpacedNotificationKeepsLifetime()
    ensures var b := Post(Post(Banner(None, []), RestoredMessage, Success, 0), AlreadyActiveMessage, Error, 5000);
            Expire(b, 7999).shown == Some(Notification(AlreadyActiveMessage, Error)) && Expire(b, 8000).shown == None
  {
    var first := Post(Banner(None, []), RestoredMessage, Success, 0);
    ShownForLifetime(first, AlreadyActiveMessage, Error, 5000, 7999);
    ShownForLifetime(first, AlreadyActiveMessage, Error, 5000, 8000);
  }

  /**
   * restoreSession's record: the deleted record with missing messages
   * defaulted to empty, `restoredAt` stamped and `active` false. Id, name,
   * creation time and the deletion stamp are carried over unchanged.
   */
  function Restored(target: Session, restoredAt: string): (r: Session)
    ensures target.messages.Some? ==> r.messages == target.messages
    ensures target.messages.None? ==> r.messages == Some([])
    ensures r.restoredAt == Some(restoredAt) && r.active == Some(false)
    ensures r.id == target.id && r.name == target.name && r.createdAt == target.createdAt
    ensures r.deletedAt == target.deletedAt
  {
    target.(messages := Some(target.messages.GetOr([])), restoredAt := Some(restoredAt), active := Some(false))
  }

  /**
   * Both halves of a restore on the lists. A target whose id is already
   * active changes nothing. Otherwise every deleted record with the id goes,
   * the others keep their order, and the restored record (stamped by the
   * history panel, then again by the sidebar) goes to the front of the
   * active list. No id becomes both active and deleted.
   */
  function RestoreLists(l: Lists, target: Session, historyAt: string, sidebarAt: string): (r: Lists)
    ensures HasId(l.active, target.id) ==> r == l
    ensures !HasId(l.active, target.id) ==>
      && |r.active| == |l.active| + 1
      && r.active[0] == Sidebar.PrepareRestored(Restored(target, historyAt), sidebarAt)
      && r.active[1..] == l.active
      && r.deleted == RemoveId(l.deleted, target.id)
      && Ids(r.active) == Ids(l.active) + {target.id}
    ensures Disjoint(l) ==> Disjoint(r)
  {
    if HasId(l.active, target.id) then l
    else
      var s := Sidebar.PrepareRestored(Restored(target, historyAt), sidebarAt);
      var r := Lists([s] + l.active, RemoveId(l.deleted, target.id));
      assert forall x :: x in r.active <==> x == s || x in l.active;
      assert Ids(r.active) == Ids(l.active) + {target.id};
      r
  }

  /** The store after restoreSession: the filtered deleted list written when auto-save is on and the target was not active. */
  function RestoreWrites(items: map<string, Stored>, autoSave: bool, before: Lists, target: Session, after: Lists): (r: map<string, Stored>)
    ensures autoSave && !HasId(before.active, target.id) ==>
      DeletedKey in r && r[DeletedKey] == SessionList(after.deleted) && SameOutside(r, items, {DeletedKey})
    ensures !(autoSave && !HasId(before.active, target.id)) ==> r == items
  {
    if autoSave && !HasId(before.active, target.id) then items[DeletedKey := SessionList(after.deleted)] else items
  }

  class HistoryPanel {
    var banner: Banner
    /** The last clock reading the panel has seen; the clock never goes back. */
    var clock: nat

    /** Every timer due by the last clock reading has fired. */
    ghost predicate Valid()
      reads this
    {
      forall d :: d in banner.timers ==> d > clock
    }

    constructor (now: nat)
      ensures Valid() && banner == Banner(None, []) && clock == now
    {
      banner := Banner(None, []);
      clock := now;
    }

    /** showNotification, whose kind defaults to success. */
    method ShowNotification(message: string, now: nat, kind: Kind := Success)
      requires Valid() && clock <= now
      modifies this
      ensures Valid() && clock == now
      ensures banner == Post(old(banner), message, kind, now)
    {
      banner := Post(banner, message, kind, now);
      clock := now;
    }

    /** The clock reaches `now`: the timers due fire. */
    method Tick(now: nat)
      requires Valid() && clock <= now
      modifies this
      ensures Valid() && clock == now
      ensures banner == Expire(old(banner), now)
    {
      banner := Expire(banner, now);
      clock := now;
    }

    /**
     * restoreSession against the sidebar that opened the panel. A target
     * already active only posts an error: no list, store or callback is
     * touched and nothing is handed over. Otherwise the deleted list loses
     * the target's id, it is written to the store when auto-save is on, the
     * restored record is handed to the sidebar's restore callback (and
     * returned), and a success notification is posted.
     */
    method RestoreSession(sidebar: Sidebar.SidebarState, target: Session, restoredAt: string, sidebarRestoredAt: string, now: nat)
      returns (handed: Option<Session>)
      requires Valid() && clock <= now
      modifies this, sidebar, sidebar.storage
      ensures Valid() && clock == now
      ensures sidebar.State() == RestoreLists(old(sidebar.State()), target, restoredAt, sidebarRestoredAt)
      ensures sidebar.storage.items ==
        RestoreWrites(old(sidebar.storage.items), sidebar.autoSave, old(sidebar.State()), target, sidebar.State())
      ensures HasId(old(sidebar.active), target.id) ==>
        handed == None && banner == Post(old(banner), AlreadyActiveMessage, Error, now)
      ensures !HasId(old(sidebar.active), target.id) ==>
        handed == Some(Restored(target, restoredAt)) && banner == Post(old(banner), RestoredMessage, Success, now)
      ensures sidebar.autoSave == old(sidebar.autoSave) && sidebar.editing == old(sidebar.editing)
    {
      if HasId(sidebar.active, target.id) {
        ShowNotification(AlreadyActiveMessage, now, Error);
        handed := None;
        return;
      }
      var restored := Restored(target, restoredAt);
      var updatedDeleted := RemoveId(sidebar.deleted, target.id);
      sidebar.SetDeletedSessions(updatedDeleted);
      if sidebar.autoSave {
        sidebar.storage.SetItem(DeletedKey, SessionList(updatedDeleted));
      }
      sidebar.HandleSessionRestore(restored, sidebarRestoredAt);
      handed := Some(restored);
      ShowNotification(RestoredMessage, now);
    }
  }
}
