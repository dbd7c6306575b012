# OnlineStore core, modelled in Dafny

This project models the core of the OnlineStore back end (a Django REST shop): the
order aggregate and its totals, the unique transaction reference an order receives
on its first save, the soft-delete machinery shared by the shop's models (managers,
querysets and instance methods), the serializer helpers (attribute-copying `update`
and the `exclude_fields` serializer), the claims written into a user's JWT, and the
three access rules.

Modules follow the source files:

- `Wrappers` (wrappers.dfy): `Option`, `Result`, and the `Id` (a UUID) and `Time` types.
- `Managers` (managers.dfy): `core/apps/common/managers.py` as pure queryset functions.
  A table is a sequence of rows; a lookup is a predicate on a row.
- `Models` (models.dfy): `core/apps/common/models.py` together with the state-changing
  side of the managers. A soft-deletable table is a class over its rows. A loaded model
  object is a class whose `delete` and `hard_delete` change both the object and the table.
- `Utils` (utils.dfy): `core/apps/common/utils.py`. The random code generator takes its
  random choices as a parameter. `UpdateMixin.update` works on a model object class.
- `Orders` (orders.dfy): `core/apps/profiles/models.py`: status choices, order lines,
  cart subtotal and total, and `Order.save` over an orders table with a unique `tx_ref`.
  Money is integer cents.
- `Accounts` (accounts.dfy): `core/apps/accounts/serializers.py`: `get_token` writing
  `group` and `role` into a token, plus the user attributes it and the access rules read.
- `Permissions` (permissions.dfy): `core/apps/common/permissions.py`: IsOwner, IsSeller and IsStaff.
- `Serializers` (serializers.dfy): `core/apps/common/serializers.py`: `exclude_fields`.

The clock (`timezone.now()`), `uuid4`, `secrets.choice` and the parent JWT serializer's
token are parameters: `now`, the row id, a sequence of picks, and the base payload.

## Model

| member | source | states |
|---|---|---|
| Managers.Filter | core/apps/common/managers.py:35 | a filtered queryset holds exactly the rows of the queryset the lookup keeps, and is no longer |
| Managers.Get | core/apps/common/managers.py:20 | `get` succeeds iff exactly one row matches; the result is that row; DoesNotExist iff no row matches |
| Managers.GetOrNone | core/apps/common/managers.py:17-22 | None iff no row matches; a returned row matches and is the only match; MultipleObjectsReturned is not caught and is raised iff more than one row matches |
| Managers.Live | core/apps/common/managers.py:34-35 | the default queryset holds exactly the stored rows with `is_deleted` False |
| Managers.Scoped | core/apps/common/managers.py:34-38 | `unfiltered()` starts from every row, the default manager from the live rows only |
| Managers.SoftDeleted | core/apps/common/managers.py:29-30 | a soft delete flags each selected row and stamps `deleted_at` with the current time; id, fields, `created_at` and `updated_at` are untouched; unselected rows are unchanged |
| Managers.HardDeleted | core/apps/common/managers.py:27-28 | after a hard delete the table holds exactly the rows the queryset did not select |
| Managers.SoftDeleteKeepsRows | core/apps/common/managers.py:29-30 | a soft delete removes no row: the same primary keys are stored afterwards |
| Managers.SoftDeletedAreHidden | core/apps/common/managers.py:29-35 | after a soft delete the default manager shows none of the selected rows and still shows every live row that was not selected |
| Managers.GetOrNoneHidesDeleted | core/apps/common/managers.py:17-22 | `get_or_none` through the soft-delete manager never returns a soft-deleted row |
| Managers.HardDeleteAllEmpties | core/apps/common/managers.py:40-41 | `hard_delete` from the unfiltered queryset leaves no row, soft-deleted or not |
| Managers.UniqueKeySelectsAtMostOne | core/apps/profiles/models.py:42 | on a unique column a lookup by value selects at most one row |
| Models.SoftDeleteTable.constructor | core/apps/common/models.py:19-23 | a new table is empty and has distinct primary keys |
| Models.SoftDeleteTable.Objects | core/apps/common/managers.py:34-35 | `objects.all()` shows exactly the rows not flagged deleted |
| Models.SoftDeleteTable.All | core/apps/common/managers.py:37-38 | `objects.unfiltered()` shows every stored row, soft-deleted ones included |
| Models.SoftDeleteTable.GetOrNone | core/apps/common/managers.py:17-22 | `objects.get_or_none` returns the only visible match, None iff there is no visible match, and MultipleObjectsReturned iff more than one visible row matches; never a deleted row |
| Models.SoftDeleteTable.Create | core/apps/common/models.py:9-21 | a new row gets the given UUID, both timestamps set from the clock reading `now`, `is_deleted` False, `deleted_at` null; a taken UUID raises IntegrityError and stores nothing |
| Models.SoftDeleteTable.Delete | core/apps/common/managers.py:25-30 | `delete(hard_delete=...)` removes the selected rows when hard, otherwise soft-deletes them; returns how many rows were selected; primary keys stay unique |
| Models.SoftDeleteTable.HardDeleteWhere | core/apps/common/managers.py:27-28 | the hard branch removes exactly the selected rows |
| Models.SoftDeleteTable.SoftDeleteWhere | core/apps/common/managers.py:29-30 | the soft branch flags exactly the selected rows and keeps every primary key stored |
| Models.SoftDeleteTable.HardDelete | core/apps/common/managers.py:40-41 | the manager's `hard_delete` empties the table and reports every row removed |
| Models.Instance.Load | core/apps/common/models.py:9-21 | a loaded object carries its row's key, timestamps, deletion flag and fields |
| Models.Instance.Delete | core/apps/common/models.py:28-31 | the object is flagged deleted at now; an object without a primary key first gets a fresh one from the `uuid4` default; if a stored row has the key, only its two deletion columns are written, it stays stored and `objects` no longer shows it; otherwise DatabaseError is raised and nothing is written |
| Models.Instance.HardDelete | core/apps/common/models.py:33-34 | the row with the object's key is removed, every other key stays, the object's key becomes None and nothing is returned; a None key raises ValueError |
| Models.PkSelectsAtMostOne | core/apps/common/models.py:9 | with a unique primary key, a lookup by key selects one row if the key is stored and none otherwise, and removing it removes exactly that key |
| Utils.SpellIsCode | core/apps/common/utils.py:16-17 | twelve choices always spell a code of twelve allowed symbols, and distinct choices give distinct codes |
| Utils.EveryCodeIsReachable | core/apps/common/utils.py:16-17 | every twelve-symbol string over the alphabet can be generated |
| Utils.CodeAvoidsAmbiguousSymbols | core/apps/common/utils.py:16 | a code never holds the digit 0 or a lower-case letter |
| Utils.FirstUniqueIsFresh | core/apps/common/utils.py:17-21 | a generated code is a code and is held by no stored row |
| Utils.FirstUniqueFailsIffAllCollide | core/apps/common/utils.py:18-21 | the generator retries exactly while the drawn code is taken: it fails iff every attempt collides, and otherwise returns the first attempt that does not |
| Utils.GenerateUniqueCode | core/apps/common/utils.py:5-21 | the retry loop returns the first untaken attempt, a twelve-symbol code no stored row holds |
| Utils.ModelObject.constructor | core/apps/common/utils.py:26 | an object with the given attributes and stored values |
| Utils.ModelObject.Save | core/apps/common/utils.py:29 | `save()` writes every attribute |
| Utils.Update | core/apps/common/utils.py:26-30 | every validated key is set to its value, every other attribute is kept, the object is saved, and the same object is returned |
| Orders.StatusesAreTheChoices | core/apps/profiles/models.py:23-37 | the delivery and payment statuses are exactly the declared choices, one status per stored value |
| Orders.NewLine | core/apps/profiles/models.py:80-83 | a line created with the defaults has no order (it is a cart line) and quantity 1 |
| Orders.LineTotal | core/apps/profiles/models.py:85-87 | a line of quantity 0 costs 0; with a non-negative price the total is non-negative and at least one unit's price when the quantity is at least 1 |
| Orders.NewLineCostsOneUnit | core/apps/profiles/models.py:83-87 | a new line costs exactly its product's current price |
| Orders.LineTotalByQuantity | core/apps/profiles/models.py:85-87 | a line of `q1 + q2` units costs as much as one of `q1` and one of `q2` units of the same product |
| Orders.CartTotal | core/apps/profiles/models.py:64-67 | the cart total is the cart subtotal |
| Orders.SubtotalCountsAttachedLines | core/apps/profiles/models.py:58-62 | the subtotal is the sum of `price_current * quantity` over every stored line attached to the order, and lines of other orders or carts add nothing |
| Orders.SubtotalSplits | core/apps/profiles/models.py:58-62 | the subtotal over two sets of lines is the sum of their subtotals |
| Orders.SubtotalOfNoLines | core/apps/profiles/models.py:58-62 | an order with no attached lines has subtotal 0 |
| Orders.SubtotalOfAttachedLine | core/apps/profiles/models.py:58-62 | attaching a line raises the subtotal by that line's total; adding a line of another order changes nothing |
| Orders.SubtotalIgnoresLineOrder | core/apps/profiles/models.py:58-62 | the order in which lines are stored does not change the subtotal |
| Orders.SubtotalNotNegative | core/apps/profiles/models.py:64-67 | with non-negative prices the cart total is non-negative |
| Orders.UpsertKeepsKeysUnique | core/apps/profiles/models.py:42 | writing an order whose `tx_ref` no other order holds keeps primary keys and `tx_ref` unique, stores the row and keeps every other order |
| Orders.OrderTable.constructor | core/apps/profiles/models.py:40-42 | a new orders table is empty |
| Orders.OrderTable.GetOrNone | core/apps/common/managers.py:17-22 | `Order.objects.get_or_none` returns the only matching order, None iff no order matches, and MultipleObjectsReturned (not caught) iff more than one matches |
| Orders.OrderTable.Store | core/apps/profiles/models.py:42 | a write whose `tx_ref` another order holds raises IntegrityError and changes nothing; otherwise the row is updated or inserted by primary key and the keys stay unique |
| Orders.TxRefLookupIsUnambiguous | core/apps/profiles/models.py:42 | looking an order up by `tx_ref` never raises MultipleObjectsReturned |
| Orders.Order.constructor | core/apps/profiles/models.py:40-47 | a new order has a blank `tx_ref`, both statuses PENDING and no timestamps |
| Orders.Order.Save | core/apps/profiles/models.py:72-75 | the first save gives the order a fresh twelve-symbol `tx_ref` no other order holds and sets both timestamps from the clock reading `now`; later saves keep `tx_ref` and `created_at`, refresh `updated_at`, and are written iff no other order holds the `tx_ref`; the table's keys stay unique |
| Accounts.WithUserClaims | core/apps/accounts/serializers.py:24-29 | staff get group "admin" and their role claim is left as it was; others get group "user" and role = their account type; every other claim is kept |
| Accounts.Token.constructor | core/apps/accounts/serializers.py:22 | the token starts with the parent serializer's claims |
| Accounts.Token.Set | core/apps/accounts/serializers.py:26 | writing a claim replaces that claim only |
| Accounts.GetToken | core/apps/accounts/serializers.py:20-30 | the issued token carries exactly the claims above |
| Permissions.SellerHasObjectPermissionStaffFirst | core/apps/common/permissions.py:17-18 | staff are always granted; wherever the rule as written answers, the corrected rule gives the same answer |
| Permissions.StaffPassesObjectChecks | core/apps/common/permissions.py:8-30 | staff pass IsOwner's and IsStaff's checks for any object and method, and IsSeller's object check when they have a Seller row |
| Permissions.StaffWithoutSellerRowRaises | core/apps/common/permissions.py:13-18 | a staff BUYER with no Seller row passes IsSeller's view check, then the object check as written raises RelatedObjectDoesNotExist where the corrected rule grants |
| Permissions.StaffRuleSplitsOnSafeMethods | core/apps/common/permissions.py:21-30 | IsStaff grants GET, HEAD and OPTIONS to anyone, the anonymous user included, and every other method only to staff |
| Permissions.SellerViewNeedsApprovedSeller | core/apps/common/permissions.py:13-15 | a non-staff account passes IsSeller's view check only as an approved SELLER, every approved SELLER passes, and a SELLER account without a Seller row raises |
| Permissions.AnonymousIsRefused | core/apps/common/permissions.py:5-18 | the anonymous user fails IsOwner and IsSeller at view level, owns nothing, and raises AttributeError in IsSeller's object check |
| Serializers.ExcludedDropsExactlyTheNames | core/apps/common/serializers.py:17-20 | when every pop succeeds, exactly the listed fields are dropped and every other field is kept |
| Serializers.ExcludedFailsOnMissingName | core/apps/common/serializers.py:19-20 | the exclusion raises KeyError iff some listed name is not a field or is listed twice, and the error names the first such entry |
| Serializers.DynamicFieldSerializer.constructor | core/apps/common/serializers.py:4 | a serializer object with no fields and no arguments yet |
| Serializers.DynamicFieldSerializer.Init | core/apps/common/serializers.py:10-20 | `exclude_fields` is not passed to the parent; with no exclusion the fields are the declared ones; otherwise the fields are the declared ones minus the listed names, or the KeyError of the first name that cannot be popped |

## Left out

- The cart and checkout views, the token views, and all other API view handlers: they are not part of this model.
- `CreateUserSerializer.validate_password` calls Django's `make_password`, a hash that is foreign code.
- The parent JWT serializer's own claims and signing: the token payload passed in stands for them.
- Claims that are not strings: the payload is a map from names to strings.
- `Utils.GenerateUniqueCode`: the source recurses without bound until a free code appears (and would hit Python's recursion limit). Here the random choices are a finite parameter, and when they run out the model returns None. `Orders.Order.Save` reports this as `CodesExhausted`.
- `Utils.GenerateUniqueCode` is modelled for the `tx_ref` column of orders, its only caller among the modelled files. The set of values the column holds is its input.
- Concurrency: two saves that draw the same free code at once would collide at the unique index. The model runs operations one at a time.
- `Orders.Order.Save` writes an update-or-insert by primary key. Django's choice between UPDATE and INSERT, and the `force_insert` and `update_fields` arguments, are not modelled.
- `Orders.OrderRow` carries the columns the operations read or write. The shipping snapshot columns and `date_delivered` are left out; nothing in the core computes them.
- `Orders.CartSubtotal` uses integer cents. It does not model `Decimal` digit limits or any floating point. It requires every line's product to have a price, as the non-null product link guarantees.
- The `OrderItem.product.in_stock` property, `__str__` methods, `Meta.ordering` and field lengths are left out. They are presentation or declarative configuration.
- Cascading deletes along foreign keys are left out: the tables are modelled one at a time.
- Models.SoftDeleteTable.Create: one clock reading `now` stands for both auto timestamps. Django reads the clock once for `created_at` (`auto_now_add`) and again for `updated_at` (`auto_now`), so the two can differ by microseconds; the model sets both to `now`.
- Orders.Order.Save: on the first save one clock reading `now` stands for both `created_at` and `updated_at`, which Django reads separately and which can differ by microseconds.
- Managers.GetOrNone: lookups are total predicates on a row. A lookup value the field cannot convert (a malformed UUID string in `get_or_none(id=...)`) makes Django raise ValidationError, which `get_or_none` does not catch; that error is not modelled.
- Models.SoftDeleteTable.Delete: returns the number of rows selected. The hard branch in Django returns a `(total, per-model counts)` tuple; the per-model counts are not modelled, as cascades are not.
- Models.SoftDeleteTable.HardDeleteWhere: returns the number of rows removed, not Django's `(total, per-model counts)` tuple.
- Models.SoftDeleteTable.HardDelete: returns the number of rows removed, not Django's `(total, per-model counts)` tuple.
- `Utils.ModelObject.Save` writes every attribute and does not model `auto_now` on `updated_at`. The attribute map stands for the model's columns.
- `Serializers.DynamicFieldSerializer.Init` requires `exclude_fields`, when given, to be a list of names or None. An other value (a string iterated character by character, a non-iterable) is not modelled.
- `Permissions`: the object's owner and seller links are given as ids. Comparing a model instance with a user is modelled as comparing their ids.

## Findings

| source | as written | input that shows it | evidently intended | confidence | as-written member | corrected member |
|---|---|---|---|---|---|---|
| core/apps/common/permissions.py:18 | `obj.seller == request.user.seller or request.user.is_staff` reads `request.user.seller` before the staff test | a staff account of type BUYER with no Seller row: IsSeller's view check grants it (line 15), then the object check raises RelatedObjectDoesNotExist | staff are granted, as the `or request.user.is_staff` clause says | not executed | Permissions.StaffWithoutSellerRowRaises | Permissions.SellerHasObjectPermissionStaffFirst |
