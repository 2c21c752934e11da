/**
 * The browser's `localStorage` as the panels use it: a string-keyed store
 * updated in place with `setItem` and `removeItem`. JSON encoding is
 * abstracted away: a stored value is the list, id or flag that was written.
 */
module Storage {
  import opened Optional
  import opened Sessions

  datatype Stored = SessionList(sessions: seq<Session>) | Id(id: string) | Flag(on: bool)

  const SessionsKey: string := "sessions"
  const DeletedKey: string := "deletedSessions"
  const ActiveIdKey: string := "activeSessionId"
  const AutoSaveKey: string := "autoSave"

  /** The three keys that hold session data; auto-save off and clearing the history remove them together. */
  function SessionKeys(): set<string> {
    {SessionsKey, DeletedKey, ActiveIdKey}
  }

  /** `a` and `b` agree on every key outside `keys`. */
  ghost predicate SameOutside(a: map<string, Stored>, b: map<string, Stored>, keys: set<string>) {
    forall k :: k !in keys ==> (k in a <==> k in b) && (k in a ==> a[k] == b[k])
  }

  class LocalStorage {
    var items: map<string, Stored>

    constructor (items: map<string, Stored>)
      ensures this.items == items
    {
      this.items := items;
    }

    function GetItem(key: string): (r: Option<Stored>)
      reads this
      ensures r.Some? <==> key in items
      ensures r.Some? ==> r.value == items[key]
    {
      if key in items then Some(items[key]) else None
    }

    method SetItem(key: string, value: Stored)
      modifies this
      ensures items == old(items)[key := value]
    {
      items := items[key := value];
    }

    method RemoveItem(key: string)
      modifies this
      ensures items == old(items) - {key}
    {
      items := items - {key};
    }
  }
}
