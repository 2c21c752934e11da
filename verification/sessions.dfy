/**
 * Session records and the list operations both panels share: membership by
 * id (`some`), the first record with an id (`find`) and removal of every
 * record with an id (`filter`). A repository state is a pair of lists, the
 * active sessions and the soft-deleted ones.
 */
module Sessions {
  import opened Optional

  datatype Role = User | Bot

  /** A chat message; the repository stores and moves messages but never looks inside them. */
  datatype Message = Message(id: string, role: Role, text: string)

  /**
   * A session record as the panels build it. A field JavaScript may leave out
   * is an Option: `messages` may be missing on a record read back from
   * storage, `deletedAt`/`restoredAt` are set by delete and restore, and
   * `active` only by activation or restore.
   */
  datatype Session = Session(
    id: string,
    name: string,
    messages: Option<seq<Message>>,
    createdAt: string,
    deletedAt: Option<string>,
    restoredAt: Option<string>,
    active: Option<bool>)

  /** The ids occurring in a list of sessions. */
  function Ids(ss: seq<Session>): set<string> {
    set s | s in ss :: s.id
  }

  /** Two lists with the same id at every position have the same ids. */
  lemma SameIds(a: seq<Session>, b: seq<Session>)
    requires |a| == |b|
    requires forall k :: 0 <= k < |a| ==> a[k].id == b[k].id
    ensures Ids(a) == Ids(b)
  {
  }

  /** `ss.some(s => s.id === id)`. */
  function HasId(ss: seq<Session>, id: string): (b: bool)
    ensures b <==> id in Ids(ss)
    ensures b <==> exists k :: 0 <= k < |ss| && ss[k].id == id
  {
    if ss == [] then false
    else
      assert ss == [ss[0]] + ss[1..];
      ss[0].id == id || HasId(ss[1..], id)
  }

  /** `ss.find(s => s.id === id)`: the first record carrying `id`, if any. */
  function FindById(ss: seq<Session>, id: string): (r: Option<Session>)
    ensures r.None? <==> id !in Ids(ss)
    ensures r.Some? ==> exists k :: 0 <= k < |ss| && ss[k] == r.value && forall j :: 0 <= j < k ==> ss[j].id != id
    ensures r.Some? ==> r.value in ss && r.value.id == id
  {
    if ss == [] then None
    else if ss[0].id == id then
      Some(ss[0])
    else
      var r := FindById(ss[1..], id);
      assert ss == [ss[0]] + ss[1..];
      if r.Some? then
        var k :| 0 <= k < |ss[1..]| && ss[1..][k] == r.value && forall j :: 0 <= j < k ==> ss[1..][j].id != id;
        assert ss[k + 1] == r.value;
        r
      else
        r
  }

  /** `ss.filter(s => s.id !== id)`: every record carrying `id` removed, the rest in their order. */
  function RemoveId(ss: seq<Session>, id: string): (r: seq<Session>)
    ensures forall s :: s in r <==> s in ss && s.id != id
    ensures Ids(r) == Ids(ss) - {id}
    ensures |r| <= |ss|
    ensures id !in Ids(ss) ==> r == ss
  {
    if ss == [] then []
    else
      assert ss == [ss[0]] + ss[1..];
      if ss[0].id == id then RemoveId(ss[1..], id)
      else [ss[0]] + RemoveId(ss[1..], id)
  }

  /** Removal works piecewise along the list, so it keeps the survivors in their original order. */
  lemma {:induction false} RemoveIdAppend(a: seq<Session>, b: seq<Session>, id: string)
    ensures RemoveId(a + b, id) == RemoveId(a, id) + RemoveId(b, id)
  {
    if a != [] {
      assert (a + b)[1..] == a[1..] + b;
      RemoveIdAppend(a[1..], b, id);
    } else {
      assert a + b == b;
    }
  }

  /** The state of the repository: the active list and the soft-deleted list. */
  datatype Lists = Lists(active: seq<Session>, deleted: seq<Session>)

  /** No id is both active and deleted. */
  predicate Disjoint(l: Lists) {
    Ids(l.active) !! Ids(l.deleted)
  }
}
