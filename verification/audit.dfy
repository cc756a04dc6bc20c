/** Save-time stamping and the soft-delete read filter of the database
    context. Stamping is a pure rewrite of the change tracker's entries; it
    runs before the rows are sent to the database. */
module Audit {
  import opened Wrappers
  import opened BaseEntity

  /** The tracked states of an entry (a detached entity is not tracked). */
  datatype EntityState = Unchanged | Added | Modified | Deleted

  /** One change-tracker entry: its state and the entity as it will be written. */
  datatype Entry<T> = Entry(state: EntityState, row: Row<T>)

  /** The acting user stamped on every change. The context has no source for
      it yet and always uses `null`. */
  const CurrentUserId: Option<Guid> := None

  /** No entry asks for a physical delete. */
  predicate NoDeletes<T>(es: seq<Entry<T>>) {
    forall i :: 0 <= i < |es| ==> es[i].state != Deleted
  }

  /** `b` is `a` with creation and update stamps set to (`now`, `actor`). */
  predicate CreationStamped(a: AuditFields, b: AuditFields, now: Timestamp, actor: Option<Guid>) {
    b == a.(createdAt := now, createdBy := actor, updatedAt := now, updatedBy := actor)
  }

  /** `b` is `a` with only the update stamp set to (`now`, `actor`). */
  predicate UpdateStamped(a: AuditFields, b: AuditFields, now: Timestamp, actor: Option<Guid>) {
    b == a.(updatedAt := now, updatedBy := actor)
  }

  /** `b` is `a` turned into a tombstone at (`now`, `actor`), update stamp untouched. */
  predicate Tombstoned(a: AuditFields, b: AuditFields, now: Timestamp, actor: Option<Guid>) {
    b == a.(isDeleted := true, deletedAt := Some(now), deletedBy := actor)
  }

  /** The effect of the save hook on one entry. */
  function StampEntry<T>(e: Entry<T>, now: Timestamp, actor: Option<Guid>): (r: Entry<T>)
    ensures r.row.data == e.row.data && r.row.audit.id == e.row.audit.id
    ensures r.state != Deleted
    ensures e.state == Added ==> r.state == Added && CreationStamped(e.row.audit, r.row.audit, now, actor)
    ensures e.state == Modified ==> r.state == Modified && UpdateStamped(e.row.audit, r.row.audit, now, actor)
    ensures e.state == Deleted ==> r.state == Modified && Tombstoned(e.row.audit, r.row.audit, now, actor)
    ensures e.state == Unchanged ==> r == e
  {
    var a := e.row.audit;
    match e.state
    case Added =>
      Entry(Added, e.row.(audit := a.(createdAt := now, createdBy := actor, updatedAt := now, updatedBy := actor)))
    case Modified =>
      Entry(Modified, e.row.(audit := a.(updatedAt := now, updatedBy := actor)))
    case Deleted =>
      Entry(Modified, e.row.(audit := a.(isDeleted := true, deletedAt := Some(now), deletedBy := actor)))
    case Unchanged =>
      e
  }

  /** The save hook over all tracked entries of one entity type, with one
      clock reading `now` shared by every entry. */
  function StampEntries<T>(es: seq<Entry<T>>, now: Timestamp, actor: Option<Guid>): (r: seq<Entry<T>>)
    ensures |r| == |es|
    ensures NoDeletes(r)
    ensures forall i :: 0 <= i < |es| ==> r[i].row.data == es[i].row.data
    ensures forall i :: 0 <= i < |es| ==> r[i].row.audit.id == es[i].row.audit.id
    ensures forall i :: 0 <= i < |es| ==> r[i] == StampEntry(es[i], now, actor)
    decreases |es|
  {
    if |es| == 0 then []
    else [StampEntry(es[0], now, actor)] + StampEntries(es[1..], now, actor)
  }

  /** The rows a standard query sees: tombstones are filtered out. */
  function FilteredRead<T>(t: map<Guid, Row<T>>): (r: map<Guid, Row<T>>)
    ensures r.Keys <= t.Keys
    ensures forall id :: id in r ==> r[id] == t[id] && Visible(r[id])
    ensures forall id :: id in t && Visible(t[id]) ==> id in r
  {
    map id | id in t && Visible(t[id]) :: t[id]
  }

  /** Every stamp written in one save carries the same time and the same actor:
      whatever an entry becomes, its stamped fields hold `now` and `actor`. */
  lemma {:induction false} OneClockPerSave<T>(es: seq<Entry<T>>, now: Timestamp, actor: Option<Guid>, i: nat)
    requires i < |es| && es[i].state != Unchanged
    ensures var a := StampEntries(es, now, actor)[i].row.audit;
      (es[i].state == Deleted ==> a.deletedAt == Some(now) && a.deletedBy == actor)
      && (es[i].state != Deleted ==> a.updatedAt == now && a.updatedBy == actor)
      && (es[i].state == Added ==> a.createdAt == now && a.createdBy == actor)
  {
    var r := StampEntries(es, now, actor);
    assert r[i] == StampEntry(es[i], now, actor);
  }

  /** With the context's actor, no stamp ever names a user. */
  lemma NoActorIsRecorded<T>(e: Entry<T>, now: Timestamp)
    ensures var r := StampEntry(e, now, CurrentUserId).row.audit;
      (e.state == Added ==> r.createdBy == None && r.updatedBy == None)
      && (e.state == Modified ==> r.updatedBy == None)
      && (e.state == Deleted ==> r.deletedBy == None)
  {
  }

  /** A deleted entry that is saved turns into a tombstone the filter hides. */
  lemma DeletedEntryIsHidden<T>(e: Entry<T>, now: Timestamp, actor: Option<Guid>)
    requires e.state == Deleted
    ensures !Visible(StampEntry(e, now, actor).row)
    ensures StampEntry(e, now, actor).state == Modified
  {
  }
}
