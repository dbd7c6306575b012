/** The state side of common/models.py and common/managers.py: the table behind
    one soft-deletable model (an `IsDeletedModel` subclass such as Product),
    with the queryset and manager operations that change it, and the model instance
    whose `delete` flags its row and whose `hard_delete` removes it. */
module Models {
  import opened Wrappers
  import opened Managers

  /** The database errors the operations below can raise. */
  datatype DbError =
    | IntegrityError   // an INSERT whose primary key is already stored
    | DatabaseError    // a `save(update_fields=...)` that matched no row
    | ValueError       // deleting an instance whose primary key is None

  /** The primary key is unique (common/models.py:9). */
  ghost predicate DistinctIds<T>(rows: seq<Row<T>>)
  {
    forall i, j :: 0 <= i < j < |rows| ==> rows[i].id != rows[j].id
  }

  /** The lookup `pk=id`. */
  function WithId<T>(id: Id): Row<T> -> bool
  {
    (x: Row<T>) => x.id == id
  }

  /** Every row, as the lookup of `unfiltered()` without further filters keeps it. */
  function AnyRow<T>(): Row<T> -> bool
  {
    (x: Row<T>) => true
  }

  /** A filtered queryset of a table with unique ids has unique ids. */
  lemma {:induction false} FilterKeepsDistinct<T(!new)>(rows: seq<Row<T>>, keep: Row<T> -> bool)
    requires DistinctIds(rows)
    ensures DistinctIds(Filter(rows, keep))
  {
    if rows != [] {
      var rest := rows[1..];
      assert DistinctIds(rest) by {
        forall i, j | 0 <= i < j < |rest| ensures rest[i].id != rest[j].id {
          assert rest[i] == rows[i + 1] && rest[j] == rows[j + 1];
        }
      }
      FilterKeepsDistinct(rest, keep);
      var tail := Filter(rest, keep);
      forall x | x in tail ensures x.id != rows[0].id {
        var k :| 0 <= k < |rest| && rest[k] == x;
        assert rows[k + 1] == x;
      }
      var head := if keep(rows[0]) then [rows[0]] else [];
      var r := head + tail;
      forall i, j | 0 <= i < j < |r| ensures r[i].id != r[j].id {
        if head != [] && i == 0 {
          assert r[j] == tail[j - 1] && r[j] in tail;
        } else {
          assert r[i] == tail[i - |head|] && r[j] == tail[j - |head|];
        }
      }
    }
  }

  /** The stored rows of one soft-deletable model. */
  class SoftDeleteTable<T(==,!new)> {
    var rows: seq<Row<T>>

    ghost predicate Valid()
      reads this
    {
      DistinctIds(rows)
    }

    constructor ()
      ensures Valid() && rows == []
    {
      rows := [];
    }

    /** `Model.objects.all()`: what the default manager shows (common/managers.py:34-35). */
    function Objects(): (r: seq<Row<T>>)
      reads this
      ensures forall x :: x in r <==> x in rows && !x.isDeleted
    {
      Live(rows)
    }

    /** `Model.objects.unfiltered()`: every stored row (common/managers.py:37-38). */
    function All(): (r: seq<Row<T>>)
      reads this
      ensures forall x :: x in r <==> x in rows
      ensures forall x :: x in rows && x.isDeleted ==> x in r
    {
      Scoped(rows, Unfiltered)
    }

    /** `Model.objects.get_or_none(...)`: the one visible row the lookup matches, None when no
        visible row matches, MultipleObjectsReturned when several do. A soft-deleted row is never returned. */
    function GetOrNone(lookup: Row<T> -> bool): (r: Result<Option<Row<T>>, LookupError>)
      reads this
      ensures r == Ok(None) <==> forall x :: x in rows && !x.isDeleted ==> !lookup(x)
      ensures r.Ok? && r.value.Some? ==>
        && r.value.value in rows && !r.value.value.isDeleted && lookup(r.value.value)
        && forall x :: x in rows && !x.isDeleted && lookup(x) ==> x == r.value.value
      ensures r.Err? <==> |Filter(Objects(), lookup)| > 1
      ensures r.Err? ==> r.error == MultipleObjectsReturned
    {
      Managers.GetOrNone(Objects(), lookup)
    }

    /** Saving a new instance: one INSERT of a row with the given UUID, the clock's time in
        both timestamps, `is_deleted` False and `deleted_at` null. A taken UUID violates the
        primary key and inserts nothing. */
    method Create(id: Id, fields: T, now: Time) returns (r: Result<Row<T>, DbError>)
      requires Valid()
      modifies this
      ensures Valid()
      ensures id in Ids(old(rows)) ==> r == Err(IntegrityError) && rows == old(rows)
      ensures id !in Ids(old(rows)) ==>
        && r == Ok(Row(id, now, now, false, None, fields))
        && rows == old(rows) + [r.value]
    {
      if id in Ids(rows) {
        return Err(IntegrityError);
      }
      var row := Row(id, now, now, false, None, fields);
      rows := rows + [row];
      r := Ok(row);
    }

    /** `IsDeletedQuerySet.delete` on the queryset `<scope>.filter(lookup)`: with `hardDelete`
        the selected rows are removed, otherwise they are flagged and stamped with `now`.
        Returns the number of rows selected. */
    method Delete(scope: Scope, lookup: Row<T> -> bool, hardDelete: bool, now: Time) returns (count: nat)
      requires Valid()
      modifies this
      ensures Valid()
      ensures count == |Filter(old(rows), (x: Row<T>) => Selected(x, scope, lookup))|
      ensures hardDelete ==> rows == HardDeleted(old(rows), scope, lookup)
      ensures !hardDelete ==> rows == SoftDeleted(old(rows), scope, lookup, now)
    {
      if hardDelete {
        count := HardDeleteWhere(scope, lookup);
      } else {
        count := SoftDeleteWhere(scope, lookup, now);
      }
    }

    /** The hard branch: the DELETE the base queryset issues. */
    method HardDeleteWhere(scope: Scope, lookup: Row<T> -> bool) returns (count: nat)
      requires Valid()
      modifies this
      ensures Valid()
      ensures count == |Filter(old(rows), (x: Row<T>) => Selected(x, scope, lookup))|
      ensures rows == HardDeleted(old(rows), scope, lookup)
    {
      count := |Filter(rows, (x: Row<T>) => Selected(x, scope, lookup))|;
      FilterKeepsDistinct(rows, (x: Row<T>) => !Selected(x, scope, lookup));
      rows := HardDeleted(rows, scope, lookup);
    }

    /** The soft branch: `update(is_deleted=True, deleted_at=now)`, one UPDATE that does not touch
        `updated_at`. */
    method SoftDeleteWhere(scope: Scope, lookup: Row<T> -> bool, now: Time) returns (count: nat)
      requires Valid()
      modifies this
      ensures Valid()
      ensures count == |Filter(old(rows), (x: Row<T>) => Selected(x, scope, lookup))|
      ensures rows == SoftDeleted(old(rows), scope, lookup, now)
      ensures Ids(rows) == Ids(old(rows))
    {
      count := |Filter(rows, (x: Row<T>) => Selected(x, scope, lookup))|;
      SoftDeleteKeepsRows(rows, scope, lookup, now);
      rows := SoftDeleted(rows, scope, lookup, now);
    }

    /** `IsDeletedManager.hard_delete`: `unfiltered().delete(hard_delete=True)` removes every row,
        soft-deleted ones included. */
    method HardDelete() returns (count: nat)
      requires Valid()
      modifies this
      ensures Valid()
      ensures rows == []
      ensures count == |old(rows)|
    {
      FilterKeepsAll(rows, (x: Row<T>) => Selected(x, Unfiltered, AnyRow()));
      HardDeleteAllEmpties(rows);
      count := HardDeleteWhere(Unfiltered, AnyRow());
    }
  }

  /** A lookup every row satisfies keeps the whole queryset. */
  lemma {:induction false} FilterKeepsAll<R(!new)>(qs: seq<R>, lookup: R -> bool)
    requires forall x :: x in qs ==> lookup(x)
    ensures Filter(qs, lookup) == qs
  {
    if qs != [] {
      assert qs[0] in qs;
      FilterKeepsAll(qs[1..], lookup);
      assert qs == [qs[0]] + qs[1..];
    }
  }

  /** A soft-deletable model object in memory, as loaded from its table. Its columns are typed
      fields here because `delete` and `hard_delete` name them; `UpdateMixin.update` sets
      attributes by name and so works on the attribute map of `Utils.ModelObject` instead. */
  class Instance<T(==,!new)> {
    var id: Option<Id>
    var createdAt: Time
    var updatedAt: Time
    var isDeleted: bool
    var deletedAt: Option<Time>
    var fields: T

    /** The object `get_or_none` or a queryset hands out for a stored row. */
    constructor Load(row: Row<T>)
      ensures id == Some(row.id) && createdAt == row.createdAt && updatedAt == row.updatedAt
      ensures isDeleted == row.isDeleted && deletedAt == row.deletedAt && fields == row.fields
    {
      id := Some(row.id);
      createdAt, updatedAt := row.createdAt, row.updatedAt;
      isDeleted, deletedAt := row.isDeleted, row.deletedAt;
      fields := row.fields;
    }

    /** `IsDeletedModel.delete`: set `is_deleted` and `deleted_at` on the object, then
        `save(update_fields=["is_deleted", "deleted_at"])`. That save first gives an object with
        no primary key the field's default (a fresh `uuid4`, passed in as `newPk`), then issues
        an UPDATE by primary key over all stored rows that writes those two columns and nothing
        else; an UPDATE that matches no row raises DatabaseError. The row stays stored but the
        default manager no longer shows it. */
    method Delete(table: SoftDeleteTable<T>, now: Time, newPk: Id) returns (r: Result<(), DbError>)
      requires table.Valid()
      modifies this, table
      ensures table.Valid()
      ensures isDeleted && deletedAt == Some(now)
      ensures id == (if old(id).None? then Some(newPk) else old(id))
      ensures fields == old(fields) && createdAt == old(createdAt) && updatedAt == old(updatedAt)
      ensures id.value !in Ids(old(table.rows)) ==> r == Err(DatabaseError) && table.rows == old(table.rows)
      ensures id.value in Ids(old(table.rows)) ==>
        && r == Ok(())
        && table.rows == SoftDeleted(old(table.rows), Unfiltered, WithId(id.value), now)
        && Ids(table.rows) == Ids(old(table.rows))
        && forall x :: x in table.Objects() ==> x.id != id.value
    {
      isDeleted := true;
      deletedAt := Some(now);
      if id.None? {
        id := Some(newPk);
      }
      var pk := id.value;
      if pk !in Ids(table.rows) {
        return Err(DatabaseError);
      }
      SoftDeletedAreHidden(table.rows, Unfiltered, WithId(pk), now);
      var matched := table.SoftDeleteWhere(Unfiltered, WithId(pk), now);
      r := Ok(());
    }

    /** `IsDeletedModel.hard_delete`: the model's own `delete`, which removes the row with this
        primary key (from all stored rows) and then sets the object's primary key to None.
        `hard_delete` returns nothing. */
    method HardDelete(table: SoftDeleteTable<T>) returns (r: Result<(), DbError>)
      requires table.Valid()
      modifies this, table
      ensures table.Valid()
      ensures isDeleted == old(isDeleted) && deletedAt == old(deletedAt) && fields == old(fields)
      ensures createdAt == old(createdAt) && updatedAt == old(updatedAt)
      ensures old(id).None? ==> r == Err(ValueError) && table.rows == old(table.rows) && id == old(id)
      ensures old(id).Some? ==>
        && r == Ok(())
        && table.rows == HardDeleted(old(table.rows), Unfiltered, WithId(old(id).value))
        && Ids(table.rows) == Ids(old(table.rows)) - {old(id).value}
        && id.None?
    {
      if id.None? {
        return Err(ValueError);
      }
      var pk := id.value;
      PkSelectsAtMostOne(table.rows, pk);
      var removed := table.HardDeleteWhere(Unfiltered, WithId(pk));
      id := None;
      r := Ok(());
    }
  }

  /** With unique ids the lookup `pk=id` selects one row when the id is stored and none
      otherwise, and removing it removes exactly that id. */
  lemma PkSelectsAtMostOne<T(!new)>(rows: seq<Row<T>>, pk: Id)
    requires DistinctIds(rows)
    ensures |Filter(rows, (x: Row<T>) => Selected(x, Unfiltered, WithId(pk)))| == if pk in Ids(rows) then 1 else 0
    ensures Ids(HardDeleted(rows, Unfiltered, WithId(pk))) == Ids(rows) - {pk}
  {
    CountById(rows, pk, (x: Row<T>) => Selected(x, Unfiltered, WithId(pk)));
    var left := HardDeleted(rows, Unfiltered, WithId(pk));
    forall id | id in Ids(rows) - {pk} ensures id in Ids(left) {
      var x :| x in rows && x.id == id;
      assert x in left;
    }
  }

  /** Counting the rows a primary-key lookup selects. */
  lemma {:induction false} CountById<T(!new)>(rows: seq<Row<T>>, pk: Id, sel: Row<T> -> bool)
    requires DistinctIds(rows)
    requires forall x :: sel(x) <==> x.id == pk
    ensures |Filter(rows, sel)| == if pk in Ids(rows) then 1 else 0
  {
    if rows != [] {
      var rest := rows[1..];
      assert DistinctIds(rest) by {
        forall i, j | 0 <= i < j < |rest| ensures rest[i].id != rest[j].id {
          assert rest[i] == rows[i + 1] && rest[j] == rows[j + 1];
        }
      }
      CountById(rest, pk, sel);
      assert Ids(rows) == {rows[0].id} + Ids(rest) by {
        assert rows == [rows[0]] + rest;
      }
    }
  }
}
