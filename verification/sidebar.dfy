/**
 * The sidebar panel's share of the session repository: creating, renaming,
 * activating and soft-deleting sessions, clearing the history, the
 * auto-save switch and the effect that mirrors the lists into storage.
 * The list edits are pure functions; `SidebarState` holds the panel's state
 * and updates it, and the store, in place.
 */
module Sidebar {
  import opened Optional
  import opened Sessions
  import opened Storage
  import Text

  /** handleEditName's list edit: the records with `id` take `name`; nothing else changes. */
  function Rename(ss: seq<Session>, id: string, name: string): (r: seq<Session>)
    ensures |r| == |ss|
    ensures forall k :: 0 <= k < |ss| ==>
      && r[k].name == (if ss[k].id == id then name else ss[k].name)
      && r[k] == ss[k].(name := r[k].name)
    ensures Ids(r) == Ids(ss)
  {
    if ss == [] then []
    else
      var head := if ss[0].id == id then ss[0].(name := name) else ss[0];
      var r := [head] + Rename(ss[1..], id, name);
      SameIds(r, ss);
      r
  }

  /** activateSession's list edit: `active` becomes true exactly on the records with `id`, false on the rest. */
  function Activate(ss: seq<Session>, id: string): (r: seq<Session>)
    ensures |r| == |ss|
    ensures forall k :: 0 <= k < |ss| ==>
      && r[k].active == Some(ss[k].id == id)
      && r[k] == ss[k].(active := r[k].active)
    ensures Ids(r) == Ids(ss)
  {
    if ss == [] then []
    else
      var head := ss[0].(active := Some(ss[0].id == id));
      var r := [head] + Activate(ss[1..], id);
      SameIds(r, ss);
      r
  }

  /**
   * deleteSession's list edit. An id with no active record changes nothing.
   * Otherwise every active record with the id goes, the others keep their
   * order, and one copy of the first such record, stamped with the deletion
   * time, goes to the end of the deleted list. No id is lost and no id
   * becomes both active and deleted.
   */
  function DeleteLists(l: Lists, id: string, deletedAt: string): (r: Lists)
    ensures !HasId(l.active, id) ==> r == l
    ensures HasId(l.active, id) ==>
      && r.active == RemoveId(l.active, id)
      && |r.deleted| == |l.deleted| + 1
      && r.deleted[..|l.deleted|] == l.deleted
      && r.deleted[|l.deleted|] == FindById(l.active, id).value.(deletedAt := Some(deletedAt))
      && r.deleted[|l.deleted|].id == id
    ensures Ids(r.active) + Ids(r.deleted) == Ids(l.active) + Ids(l.deleted)
    ensures Disjoint(l) ==> Disjoint(r)
  {
    match FindById(l.active, id)
    case None => l
    case Some(s) =>
      var stamped := s.(deletedAt := Some(deletedAt));
      var r := Lists(RemoveId(l.active, id), l.deleted + [stamped]);
      assert r.deleted[..|l.deleted|] == l.deleted;
      assert forall x :: x in r.deleted <==> x in l.deleted || x == stamped;
      assert Ids(r.deleted) == Ids(l.deleted) + {id};
      r
  }

  /** handleSessionRestore's record: missing messages become empty, `restoredAt` is stamped, the rest is kept. */
  function PrepareRestored(s: Session, restoredAt: string): (r: Session)
    ensures s.messages.Some? ==> r.messages == s.messages
    ensures s.messages.None? ==> r.messages == Some([])
    ensures r.restoredAt == Some(restoredAt)
    ensures r.id == s.id && r.name == s.name && r.createdAt == s.createdAt
    ensures r.deletedAt == s.deletedAt && r.active == s.active
  {
    s.(messages := Some(s.messages.GetOr([])), restoredAt := Some(restoredAt))
  }

  /**
   * The store after the auto-save effect. With auto-save on, the two lists
   * are written and the selected session's id too when there is one (with
   * none, whatever id was stored stays). With auto-save off the three
   * session keys are removed. Other keys are untouched.
   */
  function Synced(items: map<string, Stored>, autoSave: bool, l: Lists, selected: Option<string>): (r: map<string, Stored>)
    ensures autoSave ==> SessionsKey in r && r[SessionsKey] == SessionList(l.active)
    ensures autoSave ==> DeletedKey in r && r[DeletedKey] == SessionList(l.deleted)
    ensures autoSave && selected.Some? ==> ActiveIdKey in r && r[ActiveIdKey] == Id(selected.value)
    ensures autoSave && selected.None? ==> (ActiveIdKey in r <==> ActiveIdKey in items)
    ensures autoSave && selected.None? && ActiveIdKey in items ==> r[ActiveIdKey] == items[ActiveIdKey]
    ensures !autoSave ==> SessionsKey !in r && DeletedKey !in r && ActiveIdKey !in r
    ensures SameOutside(r, items, SessionKeys())
  {
    if autoSave then
      var m := items[SessionsKey := SessionList(l.active)][DeletedKey := SessionList(l.deleted)];
      if selected.Some? then m[ActiveIdKey := Id(selected.value)] else m
    else
      items - SessionKeys()
  }

  /** Running the effect twice is running it once. */
  lemma SyncedIdempotent(items: map<string, Stored>, autoSave: bool, l: Lists, selected: Option<string>)
    ensures Synced(Synced(items, autoSave, l, selected), autoSave, l, selected) == Synced(items, autoSave, l, selected)
  {
  }

  /**
   * With auto-save on, deleteSession's own writes of the two lists are the
   * ones the effect makes afterwards: the store ends up the same with or
   * without them.
   */
  lemma DeleteWritesAgreeWithEffect(items: map<string, Stored>, l: Lists, selected: Option<string>)
    ensures var written := items[DeletedKey := SessionList(l.deleted)][SessionsKey := SessionList(l.active)];
            Synced(written, true, l, selected) == Synced(items, true, l, selected)
  {
  }

  /**
   * The store after deleteSession: with auto-save on and the id found, both
   * lists written as they now are; otherwise untouched.
   */
  function DeleteWrites(items: map<string, Stored>, autoSave: bool, before: Lists, id: string, after: Lists): (r: map<string, Stored>)
    ensures autoSave && HasId(before.active, id) ==>
      && SessionsKey in r && DeletedKey in r
      && r[SessionsKey] == SessionList(after.active) && r[DeletedKey] == SessionList(after.deleted)
      && SameOutside(r, items, {SessionsKey, DeletedKey})
    ensures !(autoSave && HasId(before.active, id)) ==> r == items
  {
    if autoSave && HasId(before.active, id)
    then items[DeletedKey := SessionList(after.deleted)][SessionsKey := SessionList(after.active)]
    else items
  }

  /** The store after toggleAutoSave set the flag to `enabled`: the flag stored, the session keys gone when it is off. */
  function ToggleWrites(items: map<string, Stored>, enabled: bool): (r: map<string, Stored>)
    ensures AutoSaveKey in r && r[AutoSaveKey] == Flag(enabled)
    ensures !enabled ==> SessionsKey !in r && DeletedKey !in r && ActiveIdKey !in r
    ensures enabled ==> SameOutside(r, items, {AutoSaveKey})
    ensures SameOutside(r, items, SessionKeys() + {AutoSaveKey})
  {
    (if enabled then items else items - SessionKeys())[AutoSaveKey := Flag(enabled)]
  }

  /** handleEditName's list edit, guard included: a name that trims to nothing changes nothing. */
  function EditName(ss: seq<Session>, id: string, newName: string): (r: seq<Session>)
    ensures Text.AllSpace(newName) ==> r == ss
    ensures !Text.AllSpace(newName) ==> r == Rename(ss, id, Text.Trim(newName))
    ensures Ids(r) == Ids(ss)
  {
    var trimmed := Text.Trim(newName);
    if trimmed == [] then ss else Rename(ss, id, trimmed)
  }

  /** The auto-save flag at mount from what `getItem('autoSave')` gave: the stored flag, or true when none is stored. */
  function InitialAutoSave(saved: Option<Stored>): (on: bool)
    ensures saved.Some? && saved.value.Flag? ==> on == saved.value.on
    ensures saved.None? ==> on
  {
    if saved.Some? && saved.value.Flag? then saved.value.on else true
  }

  /** The deleted list at mount from what `getItem('deletedSessions')` gave: the stored list, or empty when none is stored. */
  function InitialDeleted(saved: Option<Stored>): (d: seq<Session>)
    ensures saved.Some? && saved.value.SessionList? ==> d == saved.value.sessions
    ensures saved.None? ==> d == []
  {
    if saved.Some? && saved.value.SessionList? then saved.value.sessions else []
  }

  class SidebarState {
    /** The `sessions` prop: the active list, owned by the parent and replaced through `setSessions`. */
    var active: seq<Session>
    var deleted: seq<Session>
    var autoSave: bool
    /** The id whose name is being edited, if any. */
    var editing: Option<string>
    const storage: LocalStorage

    function State(): Lists
      reads this
    {
      Lists(active, deleted)
    }

    /** Mounting the panel: the flag and the deleted list are read back from the store. */
    constructor (storage: LocalStorage, sessions: seq<Session>)
      ensures this.storage == storage
      ensures active == sessions && editing == None
      ensures autoSave == InitialAutoSave(storage.GetItem(AutoSaveKey))
      ensures deleted == InitialDeleted(storage.GetItem(DeletedKey))
    {
      this.storage := storage;
      active := sessions;
      editing := None;
      autoSave := InitialAutoSave(storage.GetItem(AutoSaveKey));
      deleted := InitialDeleted(storage.GetItem(DeletedKey));
    }

    /** The auto-save effect, run after the lists, the flag or the selected session change. */
    method SyncStore(selected: Option<string>)
      modifies storage
      ensures storage.items == Synced(old(storage.items), autoSave, State(), selected)
    {
      if autoSave {
        storage.SetItem(SessionsKey, SessionList(active));
        storage.SetItem(DeletedKey, SessionList(deleted));
        if selected.Some? {
          storage.SetItem(ActiveIdKey, Id(selected.value));
        }
      } else {
        storage.RemoveItem(SessionsKey);
        storage.RemoveItem(DeletedKey);
        storage.RemoveItem(ActiveIdKey);
      }
    }

    /**
     * Flips the flag and returns the new value (handed to the parent). Turning
     * it off removes the session keys at once; the flag itself is always stored.
     */
    method ToggleAutoSave() returns (enabled: bool)
      modifies this, storage
      ensures enabled == !old(autoSave) && autoSave == enabled
      ensures State() == old(State()) && editing == old(editing)
      ensures storage.items == ToggleWrites(old(storage.items), enabled)
    {
      enabled := !autoSave;
      if !enabled {
        storage.RemoveItem(SessionsKey);
        storage.RemoveItem(DeletedKey);
        storage.RemoveItem(ActiveIdKey);
      }
      autoSave := enabled;
      storage.SetItem(AutoSaveKey, Flag(enabled));
    }

    /**
     * Soft-deletes the session with `id`. Returns the deleted session's name
     * (handed to the parent), or None when no active session has the id, in
     * which case nothing changes. With auto-save on both lists are written.
     */
    method DeleteSession(id: string, deletedAt: string) returns (deletedName: Option<string>)
      modifies this, storage
      ensures State() == DeleteLists(old(State()), id, deletedAt)
      ensures deletedName.Some? <==> HasId(old(active), id)
      ensures deletedName.Some? ==> deletedName.value == FindById(old(active), id).value.name
      ensures storage.items == DeleteWrites(old(storage.items), autoSave, old(State()), id, State())
      ensures autoSave == old(autoSave) && editing == old(editing)
    {
      var found := FindById(active, id);
      deletedName := None;
      if found.Some? {
        var updatedDeleted := deleted + [found.value.(deletedAt := Some(deletedAt))];
        deleted := updatedDeleted;
        var updatedActive := RemoveId(active, id);
        active := updatedActive;
        if autoSave {
          storage.SetItem(DeletedKey, SessionList(updatedDeleted));
          storage.SetItem(SessionsKey, SessionList(updatedActive));
        }
        deletedName := Some(found.value.name);
      }
    }

    /** Clearing the history once the user has confirmed: both lists emptied, the session keys removed. */
    method HandleClearHistory()
      modifies this, storage
      ensures active == [] && deleted == []
      ensures storage.items == old(storage.items) - SessionKeys()
      ensures autoSave == old(autoSave) && editing == old(editing)
    {
      active := [];
      deleted := [];
      storage.RemoveItem(SessionsKey);
      storage.RemoveItem(DeletedKey);
      storage.RemoveItem(ActiveIdKey);
    }

    /**
     * The record addNewSession hands to the parent: its id is the clock
     * reading `stamp` in decimal, its name "Session n" where n, read back
     * from the name, is one more than the number of active sessions, and it
     * has no messages.
     */
    method AddNewSession(stamp: nat, createdAt: string) returns (s: Session)
      ensures s.id == Text.Decimal(stamp)
      ensures s.name == "Session " + Text.Decimal(|active| + 1)
      ensures |s.name| > 8 && s.name[..8] == "Session "
      ensures forall k :: 8 <= k < |s.name| ==> Text.IsDigit(s.name[k])
      ensures Text.DigitsValue(s.name[8..]) == |active| + 1
      ensures s.messages == Some([]) && s.createdAt == createdAt
      ensures s.deletedAt == None && s.restoredAt == None && s.active == None
    {
      var numeral := Text.Decimal(|active| + 1);
      Text.DecimalRoundTrip(|active| + 1);
      s := Session(Text.Decimal(stamp), "Session " + numeral, Some([]), createdAt, None, None, None);
      assert s.name[8..] == numeral;
    }

    /** The restore callback: the prepared record goes to the front of the active list. */
    method HandleSessionRestore(restored: Session, restoredAt: string)
      modifies this
      ensures active == [PrepareRestored(restored, restoredAt)] + old(active)
      ensures deleted == old(deleted) && autoSave == old(autoSave) && editing == old(editing)
    {
      active := [PrepareRestored(restored, restoredAt)] + active;
    }

    /** The `setDeletedSessions` setter the history panel is given. */
    method SetDeletedSessions(updated: seq<Session>)
      modifies this
      ensures deleted == updated
      ensures active == old(active) && autoSave == old(autoSave) && editing == old(editing)
    {
      deleted := updated;
    }

    method StartEditing(id: string)
      modifies this
      ensures editing == Some(id)
      ensures State() == old(State()) && autoSave == old(autoSave)
    {
      editing := Some(id);
    }

    /**
     * Ends editing. A name that trims to nothing is ignored; otherwise the
     * records with `id` take the trimmed name, which is never empty and has
     * no white space at either end.
     */
    method HandleEditName(id: string, newName: string)
      modifies this
      ensures editing == None
      ensures active == EditName(old(active), id, newName)
      ensures forall k :: 0 <= k < |active| && old(active)[k].id == id && !Text.AllSpace(newName) ==>
        active[k].name != [] && !Text.IsSpace(active[k].name[0]) && !Text.IsSpace(active[k].name[|active[k].name| - 1])
      ensures deleted == old(deleted) && autoSave == old(autoSave)
    {
      var trimmed := Text.Trim(newName);
      if trimmed != [] {
        active := Rename(active, id, trimmed);
      }
      editing := None;
    }

    method ActivateSession(id: string)
      modifies this
      ensures active == Activate(old(active), id)
      ensures deleted == old(deleted) && autoSave == old(autoSave) && editing == old(editing)
    {
      active := Activate(active, id);
    }
  }
}
