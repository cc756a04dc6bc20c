/** The fields every entity inherits from `BaseEntity`: identity, the audit
    stamps and the soft-delete tombstone. Inheritance becomes composition: a
    stored row pairs these fields with the entity-specific payload. */
module BaseEntity {
  import opened Wrappers

  /** A `Guid`; `EmptyGuid` is `Guid.Empty`, the value of an unset key. */
  type Guid = nat
  const EmptyGuid: Guid := 0

  /** A `DateTime` as a count of 100-nanosecond ticks; `MinTimestamp` is `default(DateTime)`. */
  type Timestamp = int
  const MinTimestamp: Timestamp := 0
  const TicksPerHour: int := 36_000_000_000
  const TicksPerDay: int := 24 * TicksPerHour

  /** The range of a C# `int` and of a PostgreSQL `integer` column. */
  type Int32 = x: int | -0x8000_0000 <= x < 0x8000_0000

  /** The columns declared by `BaseEntity`. The actor columns are nullable
      user ids, as the context assigns them (see README). */
  datatype AuditFields = AuditFields(
    id: Guid,
    createdAt: Timestamp,
    createdBy: Option<Guid>,
    updatedAt: Timestamp,
    updatedBy: Option<Guid>,
    isDeleted: bool,
    deletedAt: Option<Timestamp>,
    deletedBy: Option<Guid>)

  /** One row of an entity table: the inherited fields plus the entity's own. */
  datatype Row<T> = Row(audit: AuditFields, data: T)

  /** A row that the soft-delete query filter lets through. */
  predicate Visible<T>(r: Row<T>) {
    !r.audit.isDeleted
  }

  /** The inherited fields of a freshly constructed entity whose `Id` is set to `id`. */
  function NewAudit(id: Guid): (a: AuditFields)
    ensures a.id == id
    ensures !a.isDeleted && a.deletedAt == None && a.deletedBy == None
  {
    AuditFields(id, MinTimestamp, None, MinTimestamp, None, false, None, None)
  }

  /** A freshly constructed entity is visible to every filtered read. */
  lemma FreshRowIsVisible<T>(id: Guid, data: T)
    ensures Visible(Row(NewAudit(id), data))
  {
  }
}
