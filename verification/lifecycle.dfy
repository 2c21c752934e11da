/**
 * The two panels together. A session deleted and then restored comes back
 * to the front of the active list; and over any run of the repository's
 * operations no id is both active and deleted, and while auto-save is off
 * no session data reappears in the store.
 */
module Lifecycle {
  import opened Optional
  import opened Sessions
  import opened Storage
  import Sidebar
  import History

  /**
   * Delete the first active record with `id`, then restore the copy that
   * went to the end of the deleted list. It returns to the front of the
   * active list with its id, name, creation time and messages (missing ones
   * as empty); its deletion stamp stays, its restore stamp is the sidebar's
   * and it is marked inactive. The other active records keep their order,
   * the deleted list is as before and no id is both active and deleted.
   */
  lemma DeleteThenRestore(l: Lists, id: string, deletedAt: string, historyAt: string, sidebarAt: string)
    requires Disjoint(l) && HasId(l.active, id)
    ensures
      var d := Sidebar.DeleteLists(l, id, deletedAt);
      var r := History.RestoreLists(d, d.deleted[|d.deleted| - 1], historyAt, sidebarAt);
      var original := FindById(l.active, id).value;
      && r.active != []
      && r.active[0].id == id
      && r.active[0].name == original.name
      && r.active[0].createdAt == original.createdAt
      && r.active[0].messages == Some(original.messages.GetOr([]))
      && r.active[0].deletedAt == Some(deletedAt)
      && r.active[0].restoredAt == Some(sidebarAt)
      && r.active[0].active == Some(false)
      && r.active[1..] == RemoveId(l.active, id)
      && r.deleted == l.deleted
      && Disjoint(r)
  {
    var d := Sidebar.DeleteLists(l, id, deletedAt);
    var stamped := d.deleted[|d.deleted| - 1];
    assert stamped.id == id;
    assert !HasId(d.active, id);
    assert d.deleted == l.deleted + [stamped] by {
      assert d.deleted == d.deleted[..|l.deleted|] + [stamped];
    }
    RemoveIdAppend(l.deleted, [stamped], id);
    assert RemoveId([stamped], id) == [];
    assert id !in Ids(l.deleted);
  }

  /** The repository as a value: the two lists, the auto-save flag and the store. */
  datatype Repository = Repository(lists: Lists, autoSave: bool, items: map<string, Stored>)

  /** The repository's operations, with the clock readings each one takes. */
  datatype Op =
    | Delete(id: string, deletedAt: string)
    | Restore(target: Session, historyAt: string, sidebarAt: string)
    | Rename(id: string, newName: string)
    | Activate(id: string)
    | Clear
    | Toggle
    | Sync(selected: Option<string>)

  /** The store holds no session data. */
  predicate Erased(items: map<string, Stored>) {
    SessionsKey !in items && DeletedKey !in items && ActiveIdKey !in items
  }

  /**
   * One operation. Each keeps ids from being both active and deleted; with
   * auto-save off, only the toggle turns it on, and no other operation
   * writes session data to the store; turning it off erases that data at
   * once and leaves the lists as they are.
   */
  function Step(r: Repository, op: Op): (s: Repository)
    ensures Disjoint(r.lists) ==> Disjoint(s.lists)
    ensures !r.autoSave && !op.Toggle? ==> !s.autoSave
    ensures !r.autoSave && !op.Toggle? && Erased(r.items) ==> Erased(s.items)
    ensures r.autoSave && op.Toggle? ==> !s.autoSave && Erased(s.items) && s.lists == r.lists
  {
    match op
    case Delete(id, deletedAt) =>
      var after := Sidebar.DeleteLists(r.lists, id, deletedAt);
      Repository(after, r.autoSave, Sidebar.DeleteWrites(r.items, r.autoSave, r.lists, id, after))
    case Restore(target, historyAt, sidebarAt) =>
      var after := History.RestoreLists(r.lists, target, historyAt, sidebarAt);
      Repository(after, r.autoSave, History.RestoreWrites(r.items, r.autoSave, r.lists, target, after))
    case Rename(id, newName) =>
      r.(lists := Lists(Sidebar.EditName(r.lists.active, id, newName), r.lists.deleted))
    case Activate(id) =>
      r.(lists := Lists(Sidebar.Activate(r.lists.active, id), r.lists.deleted))
    case Clear =>
      Repository(Lists([], []), r.autoSave, r.items - SessionKeys())
    case Toggle =>
      Repository(r.lists, !r.autoSave, Sidebar.ToggleWrites(r.items, !r.autoSave))
    case Sync(selected) =>
      r.(items := Sidebar.Synced(r.items, r.autoSave, r.lists, selected))
  }

  function Run(r: Repository, ops: seq<Op>): Repository
    decreases |ops|
  {
    if ops == [] then r else Run(Step(r, ops[0]), ops[1..])
  }

  /** No run of operations makes an id both active and deleted. */
  lemma {:induction false} RunKeepsDisjoint(r: Repository, ops: seq<Op>)
    requires Disjoint(r.lists)
    ensures Disjoint(Run(r, ops).lists)
    decreases |ops|
  {
    if ops != [] {
      RunKeepsDisjoint(Step(r, ops[0]), ops[1..]);
    }
  }

  /**
   * Once auto-save is off and the session data erased, no run of operations
   * without a toggle writes it back, and auto-save stays off.
   */
  lemma {:induction false} ErasedWhileOff(r: Repository, ops: seq<Op>)
    requires !r.autoSave && Erased(r.items)
    requires forall k :: 0 <= k < |ops| ==> !ops[k].Toggle?
    ensures !Run(r, ops).autoSave && Erased(Run(r, ops).items)
    decreases |ops|
  {
    if ops != [] {
      ErasedWhileOff(Step(r, ops[0]), ops[1..]);
    }
  }
}
