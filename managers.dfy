/** The query side of common/managers.py: querysets are sequences of rows,
    lookups are predicates on a row, and the two managers differ only in the
    rows their default queryset starts from. */
module Managers {
  import opened Wrappers

  /** A stored row of a soft-deletable model: BaseModel's id and timestamps
      (common/models.py:9-11), IsDeletedModel's flag and deletion time
      (common/models.py:20-21), and `fields` for the concrete model's own columns. */
  datatype Row<T> = Row(
    id: Id,
    createdAt: Time,
    updatedAt: Time,
    isDeleted: bool,
    deletedAt: Option<Time>,
    fields: T)

  /** The two errors `QuerySet.get` raises. */
  datatype LookupError = DoesNotExist | MultipleObjectsReturned

  /** `QuerySet.filter(**lookups)`: the rows the lookup keeps, in their order. */
  function Filter<R(!new)>(qs: seq<R>, lookup: R -> bool): (r: seq<R>)
    ensures |r| <= |qs|
    ensures forall x :: x in r <==> x in qs && lookup(x)
  {
    if qs == [] then []
    else (if lookup(qs[0]) then [qs[0]] else []) + Filter(qs[1..], lookup)
  }

  /** `QuerySet.get(**lookups)`: the one matching row, or the error naming why there is not exactly one. */
  function Get<R(!new)>(qs: seq<R>, lookup: R -> bool): (r: Result<R, LookupError>)
    ensures r.Ok? <==> |Filter(qs, lookup)| == 1
    ensures r.Ok? ==> r.value in qs && lookup(r.value)
    ensures r.Ok? ==> forall x :: x in qs && lookup(x) ==> x == r.value
    ensures r == Err(DoesNotExist) <==> forall x :: x in qs ==> !lookup(x)
  {
    var hits := Filter(qs, lookup);
    if |hits| == 0 then Err(DoesNotExist)
    else if |hits| == 1 then
      assert hits == [hits[0]];
      Ok(hits[0])
    else
      assert hits[0] in hits;
      Err(MultipleObjectsReturned)
  }

  /** `GetOrNoneManager.get_or_none` over the manager's queryset `qs`: `get` with
      DoesNotExist turned into None; MultipleObjectsReturned is not caught. */
  function GetOrNone<R(!new)>(qs: seq<R>, lookup: R -> bool): (r: Result<Option<R>, LookupError>)
    ensures r == Ok(None) <==> forall x :: x in qs ==> !lookup(x)
    ensures r.Ok? && r.value.Some? ==>
      && r.value.value in qs && lookup(r.value.value)
      && forall x :: x in qs && lookup(x) ==> x == r.value.value
    ensures r.Err? <==> |Filter(qs, lookup)| > 1
    ensures r.Err? ==> r.error == MultipleObjectsReturned
  {
    match Get(qs, lookup)
    case Ok(row) => Ok(Some(row))
    case Err(DoesNotExist) => Ok(None)
    case Err(MultipleObjectsReturned) => Err(MultipleObjectsReturned)
  }

  /** `IsDeletedManager.get_queryset`: the rows whose is_deleted is False. */
  function Live<T(!new)>(rows: seq<Row<T>>): (r: seq<Row<T>>)
    ensures forall x :: x in r <==> x in rows && !x.isDeleted
  {
    Filter(rows, (x: Row<T>) => !x.isDeleted)
  }

  /** Where a queryset starts: `objects` (the default queryset above) or `objects.unfiltered()`. */
  datatype Scope = Default | Unfiltered

  /** The rows a scope starts from. */
  function Scoped<T(!new)>(rows: seq<Row<T>>, scope: Scope): (r: seq<Row<T>>)
    ensures scope == Unfiltered ==> r == rows
    ensures forall x :: x in r <==> x in rows && (scope == Unfiltered || !x.isDeleted)
  {
    match scope
    case Default => Live(rows)
    case Unfiltered => rows
  }

  /** Whether `row` belongs to the queryset `<scope>.filter(lookup)`. */
  predicate Selected<T>(row: Row<T>, scope: Scope, lookup: Row<T> -> bool)
  {
    (scope == Unfiltered || !row.isDeleted) && lookup(row)
  }

  /** The table after the soft branch of `IsDeletedQuerySet.delete`:
      `update(is_deleted=True, deleted_at=now)` on the selected rows. */
  function SoftDeleted<T(!new)>(rows: seq<Row<T>>, scope: Scope, lookup: Row<T> -> bool, now: Time): (r: seq<Row<T>>)
    ensures |r| == |rows|
    ensures forall i :: 0 <= i < |rows| ==>
      && r[i].id == rows[i].id
      && r[i].fields == rows[i].fields
      && r[i].createdAt == rows[i].createdAt
      && r[i].updatedAt == rows[i].updatedAt
    ensures forall i :: 0 <= i < |rows| && Selected(rows[i], scope, lookup) ==>
      r[i].isDeleted && r[i].deletedAt == Some(now)
    ensures forall i :: 0 <= i < |rows| && !Selected(rows[i], scope, lookup) ==> r[i] == rows[i]
  {
    if rows == [] then []
    else
      var head := rows[0];
      var head' := if Selected(head, scope, lookup) then head.(isDeleted := true, deletedAt := Some(now)) else head;
      [head'] + SoftDeleted(rows[1..], scope, lookup, now)
  }

  /** The table after the hard branch of `IsDeletedQuerySet.delete`: the selected rows are gone. */
  function HardDeleted<T(!new)>(rows: seq<Row<T>>, scope: Scope, lookup: Row<T> -> bool): (r: seq<Row<T>>)
    ensures forall x :: x in r <==> x in rows && !Selected(x, scope, lookup)
  {
    Filter(rows, (x: Row<T>) => !Selected(x, scope, lookup))
  }

  /** The ids a sequence of rows holds: vocabulary for the contracts below, not a source operation. */
  function Ids<T(==,!new)>(rows: seq<Row<T>>): (ids: set<Id>)
    ensures forall x :: x in rows ==> x.id in ids
    ensures forall id :: id in ids ==> exists x :: x in rows && x.id == id
  {
    set x | x in rows :: x.id
  }

  /** A soft delete removes no row: the same ids are stored afterwards. */
  lemma SoftDeleteKeepsRows<T(!new)>(rows: seq<Row<T>>, scope: Scope, lookup: Row<T> -> bool, now: Time)
    ensures Ids(SoftDeleted(rows, scope, lookup, now)) == Ids(rows)
  {
  }

  /** After a soft delete through the default manager, no row the queryset selected
      is visible to that manager any more, and every row it did not select still is. */
  lemma SoftDeletedAreHidden<T(!new)>(rows: seq<Row<T>>, scope: Scope, lookup: Row<T> -> bool, now: Time)
    ensures forall x :: x in Live(SoftDeleted(rows, scope, lookup, now)) ==> x in rows && !Selected(x, scope, lookup)
    ensures forall x :: x in Live(rows) && !Selected(x, scope, lookup) ==> x in Live(SoftDeleted(rows, scope, lookup, now))
  {
  }

  /** `get_or_none` through `IsDeletedManager` never returns a soft-deleted row. */
  lemma GetOrNoneHidesDeleted<T(!new)>(rows: seq<Row<T>>, lookup: Row<T> -> bool)
    ensures var r := GetOrNone(Live(rows), lookup);
      r.Ok? && r.value.Some? ==> r.value.value in rows && !r.value.value.isDeleted
  {
  }

  /** A hard delete from the unfiltered queryset with a lookup that keeps everything
      (the manager-level `hard_delete`) leaves no row, deleted or not. */
  lemma HardDeleteAllEmpties<T(!new)>(rows: seq<Row<T>>)
    ensures HardDeleted(rows, Unfiltered, (x: Row<T>) => true) == []
  {
    FilterRejectingAll(rows, (x: Row<T>) => !Selected(x, Unfiltered, (y: Row<T>) => true));
  }

  /** A lookup that no row satisfies yields the empty queryset. */
  lemma {:induction false} FilterRejectingAll<R(!new)>(qs: seq<R>, lookup: R -> bool)
    requires forall x :: x in qs ==> !lookup(x)
    ensures Filter(qs, lookup) == []
  {
    if qs != [] {
      assert qs[0] in qs;
      FilterRejectingAll(qs[1..], lookup);
    }
  }

  /** When no two rows share a key, a lookup on that key selects at most one row. */
  lemma {:induction false} UniqueKeySelectsAtMostOne<R(!new), K>(qs: seq<R>, key: R -> K, k: K, lookup: R -> bool)
    requires forall i, j :: 0 <= i < j < |qs| ==> key(qs[i]) != key(qs[j])
    requires forall x :: lookup(x) <==> key(x) == k
    ensures |Filter(qs, lookup)| <= 1
  {
    if qs != [] {
      var rest := qs[1..];
      assert forall i, j :: 0 <= i < j < |rest| ==> key(rest[i]) != key(rest[j]) by {
        forall i, j | 0 <= i < j < |rest| ensures key(rest[i]) != key(rest[j]) {
          assert rest[i] == qs[i + 1] && rest[j] == qs[j + 1];
        }
      }
      UniqueKeySelectsAtMostOne(rest, key, k, lookup);
      if lookup(qs[0]) {
        forall x | x in rest ensures !lookup(x) {
          var j :| 0 <= j < |rest| && rest[j] == x;
          assert qs[j + 1] == x;
        }
        FilterRejectingAll(rest, lookup);
      }
    }
  }
}
