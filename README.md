# SQL statement builder — a Dafny model

This project models the statement builders of the Go package `db/sql`. It also
models the helpers they use from `utils`. From a payload struct and a
condition struct tagged with `db:"…"`, the builders produce parameterised SQL
text and a map of named binds:

- `BuildCreateQuery` builds `INSERT INTO t (a, b) VALUES (:a, :b)`.
- `BuildUpdateQuery` builds `UPDATE t SET a=:val_a WHERE id=:cond_id`.
- `BuildDeleteQuery` builds `DELETE FROM t WHERE …`.
- `BuildSelectQuery` builds `SELECT … FROM t WHERE … LIMIT :paginate_limit OFFSET :paginate_offset`.
- `BuildCountQuery` builds `SELECT COUNT(*) FROM t WHERE …`.
- `BuildBulkUpdateQuery` puts one UPDATE per item inside `START TRANSACTION;` … `COMMIT;`. The bind keys of item `i` are prefixed `idx<i>_`.
- `BuildCondition` turns a condition struct into `a=:cond_a AND b IN (:cond_b)`. An empty slice contributes nothing.

The Go code reflects over structs. In the model, reflection is replaced by an
explicit descriptor (`Fields.Input`): a struct is the sequence of its fields
in declaration order. Each field carries its tag map and its value. The value
is a pointer (nil or set) or a plain value, either a scalar or a slice.

Modules:

- `Wrappers`: `Option`.
- `Strings`: Go's string order (compared by code point), `strings.Join`, `strconv.Itoa` and its inverse.
- `Fields`: `utils/map.go`.
- `Paginate`: `utils/paginate.go`.
- `Condition`: the bind keys and `BuildCondition`.
- `Statements`: INSERT, UPDATE, DELETE, SELECT and COUNT.
- `Bulk`: the bulk UPDATE.

Each builder is an imperative method. Its loops and in-place steps follow the
Go code:

- `sort.Strings` sorts an `array` in place.
- The bind map grows entry by entry.

Each builder method is proved equal to a specification function (`…Spec`),
and the properties are proved about that function. The helpers `SortStrings`,
`InsertAt`, `MergeBinds` and `SortMapKeys` state their results directly. Sorted key order is specified by
`SortedSeq`, which picks the least element (so it is `ghost`). Any correct
sort gives the same sequence (`Strings.SortedUnique`). Go's `int` is taken to
be 64 bits wide. The page offset is computed with explicit two's-complement
wrap-around.

Errors are a chain, `Condition.Error`, that mirrors the `%w` wrapping. Each
`Wrap(stage, inner)` stands for one `fmt.Errorf` message. `FilterCondition`
is used at both of its sites, in SELECT and in COUNT. `RootCause` is what
`errors.Unwrap` reaches at the end.

## Model

| member | source | states |
|---|---|---|
| Fields.StructToMap | utils/map.go:9-36 | An empty tag fails with TagRequired, checked before the kind. A non-struct fails with NotStruct. Both failures return an empty map. A struct gives exactly `FieldMap` of its fields. |
| Fields.Extract | utils/map.go:9-36 | The same outcomes as a function: an empty tag gives TagRequired, whatever the input. Otherwise a non-struct gives NotStruct, and a struct is always extracted, to exactly `FieldMap` of its fields. |
| Fields.WireName | utils/map.go:22 | `StructTag.Get`: the wire name for the scheme, and "" when the tag has no entry for the scheme. |
| Fields.FieldMapKeys | utils/map.go:18-34 | A wire name is a key iff some field carries it with a non-empty tag and is not a nil pointer. |
| Fields.FieldMapLastWins | utils/map.go:27-33 | Of several present fields sharing a wire name, the last gives the value. A set pointer is dereferenced one level. |
| Fields.FieldMapUnset | utils/map.go:27-30 | Making the only field with a given wire name a nil pointer removes exactly that key. |
| Fields.SortedSeq | utils/map.go:38-45 | The sorted key sequence of a set: ascending (so no duplicates), the same length and the same members. |
| Fields.InsertAt | utils/map.go:43 | One insertion step in place: the prefix one longer is sorted, the elements after it are untouched, and the array's multiset of elements is unchanged. |
| Fields.SortStrings | utils/map.go:43 | `sort.Strings` in place: the array ends sorted and is a permutation of its old contents. |
| Fields.SortMapKeys | utils/map.go:38-45 | Returns every key of the map once, in ascending order, with length `len(m)`. The result equals `SortedSeq(m.Keys)`. |
| Strings.SortedUnique | utils/map.go:43 | Two sorted sequences with the same multiset are equal. So the sorted result does not depend on the sort algorithm. |
| Strings.AscendingUnique | utils/map.go:38-45 | Two ascending sequences with the same members are equal. |
| Strings.JoinAppend | db/sql/query.go:36 | Joining one more part appends the separator and the part. |
| Strings.AtoiItoa | db/sql/query.go:26 | Decimal text read back gives the index it was written from. |
| Strings.ItoaInjective | db/sql/query.go:26 | Distinct batch indices give distinct prefixes. |
| Paginate.GetOffset | utils/paginate.go:13-18 | Every page below 1 gives offset 0. Otherwise the offset is `(page-1)*limit` modulo 2^64, and exactly that product when it fits in 64 bits. |
| Paginate.PagesTile | utils/paginate.go:13-18 | Without overflow, page p+1 starts exactly `limit` rows after page p. |
| Paginate.OffsetNonNegative | utils/paginate.go:13-18 | With a non-negative limit and no overflow, the offset is never negative. |
| Paginate.NegativeLimitOffset | utils/paginate.go:17 | The offset is not clamped: page 3 with limit -10 gives -20. |
| Paginate.OffsetWrapsAround | utils/paginate.go:17 | The product wraps: page 3 with limit 2^62 gives -2^63. |
| Paginate.Pagination | utils/paginate.go:27-42 | The data and total are kept. Without a request the page is DefaultPage (1) and the limit is the total. With a request the page and limit are copied from it. |
| Paginate.PaginationReadsBack | utils/paginate.go:27-42 | Read back as a request, the envelope is the same request. Without a request it reads back as one page at offset 0 whose limit is the total. |
| Condition.RootCause | db/sql/query.go:172 | Unwrapping an error chain ends at an error that is not a wrap. |
| Condition.CondKeyText | db/sql/query.go:177-180 | The WHERE key text is `cond_<name>` without a prefix and `idx<prefix>_cond_<name>` with one, and is exactly `BindKey` for the WHERE role. |
| Condition.ValKeyText | db/sql/query.go:52-55 | The SET key text is `val_<name>` without a prefix and `idx<prefix>_val_<name>` with one, and is exactly `BindKey` for the SET role. |
| Condition.BindKeyInjective | db/sql/query.go:52-55 | Under one prefix, a key determines its role (SET or WHERE) and its name, so SET and WHERE keys never collide. |
| Condition.BindKeyDistinct | db/sql/query.go:177-180 | Under one prefix and role, distinct names give distinct keys. |
| Condition.PrefixedKeyInjective | db/sql/query.go:177-180 | Keys with non-empty decimal prefixes determine the prefix, the role and the name. |
| Condition.KeyIndexOf | db/sql/query.go:178-180 | A key written under the prefix `Itoa(i)` reads back the index `i`. |
| Condition.BindsSpec | db/sql/query.go:191 | The binds of a name list: the keys are exactly the names' keys, each bound to its name's value. |
| Condition.BindsCount | db/sql/query.go:191 | Distinct names give exactly one bind per name. |
| Condition.UsedKeys | db/sql/query.go:182-185 | The names kept by the loop are exactly those whose value is not an empty slice or array. |
| Condition.UsedKeysAscending | db/sql/query.go:174-192 | Skipping names keeps ascending order. |
| Condition.CondNames | db/sql/query.go:174-185 | The constraining names are ascending, and contain exactly the keys whose value constrains. |
| Condition.Clause | db/sql/query.go:181-189 | A slice or array value gives `name IN (:key)`; any other value gives `name=:key`. The contract states that the clause starts with the field name and is longer than the name and key together. |
| Condition.ConditionClauses | db/sql/query.go:174-192 | The loop returns one clause per constraining name in key order. Its bind map holds exactly those names' WHERE binds. |
| Condition.BuildCondition | db/sql/query.go:167-194 | Extraction failure is wrapped, with empty text and binds. Otherwise the result is the clauses joined with " AND " and their binds (`ConditionSpec`). |
| Condition.ConditionEmptyIff | db/sql/query.go:193 | The condition text is empty iff no field constrains. |
| Condition.BindsShape | db/sql/query.go:191 | Distinct names: one bind per name, holding its value, and nothing else. |
| Condition.ConditionPlaceholdersBound | db/sql/query.go:174-193 | Clause j names field j and its placeholder key. That key is bound to the field's value, and the map holds nothing else. |
| Condition.BindsAgree | db/sql/query.go:191 | Binds depend only on the listed names' values. |
| Condition.EmptyListLikeAbsent | db/sql/query.go:182-185 | An empty slice in the condition map produces the same fragment as an absent key. |
| Condition.EmptyListFieldLikeNil | db/sql/query.go:182-185 | A pointer to an empty slice builds the same condition as a nil pointer, when no other present field has its wire name. |
| Condition.SharedNameEmptyListHidesScalar | db/sql/query.go:182-185 | With two fields tagged `id`, a later empty slice hides an earlier scalar: there is no constraint. A nil pointer in its place keeps `id=:cond_id`. |
| Statements.MergeBinds | db/sql/query.go:69-71 | Copying every entry of one map into another gives their union, with the copied entries winning. |
| Statements.MergeDisjoint | db/sql/query.go:69-71 | Merging maps with disjoint keys loses nothing: the sizes add and every entry survives. |
| Statements.ColumnLists | db/sql/query.go:86-92 | The INSERT loop: the columns are the keys in order, the placeholders are `:key`, and the binds are the listed entries. |
| Statements.BuildCreateQuery | db/sql/query.go:78-100 | Equals `CreateSpec`: a wrapped extraction error with empty binds, or the INSERT over the sorted keys with the field map as binds. |
| Statements.CreateColumnsAreBindKeys | db/sql/query.go:78-100 | INSERT fails iff extraction fails. Otherwise the column list is an ascending list of exactly the bind keys, and VALUES names `:column` position by position. |
| Statements.SetList | db/sql/query.go:50-59 | The SET loop: one `name=:key` per payload name in order, and exactly those SET binds. |
| Statements.BuildUpdateQuery | db/sql/query.go:41-76 | Equals `UpdateSpec`. A payload extraction failure gives empty binds. A condition failure or an empty condition also fails, but keeps the SET binds already made. Otherwise the result is the UPDATE with the SET binds plus the WHERE binds. |
| Statements.UpdateFailsIff | db/sql/query.go:41-76 | UPDATE fails iff the payload or condition cannot be extracted, or no condition field constrains. The failure has empty text. When both extract, the error is EmptyCondition. |
| Statements.SetBindsShape | db/sql/query.go:50-59 | The SET binds: one per payload name, under its SET key, and nothing else. |
| Statements.WhereBindsShape | db/sql/query.go:61-71 | The WHERE binds: one per constraining name, under its WHERE key, and nothing else. |
| Statements.SetWhereDisjoint | db/sql/query.go:50-74 | No SET key is a WHERE key. |
| Statements.UpdateRootCause | db/sql/query.go:46-68 | Unwrapping a failed UPDATE reaches the error that stopped it: the payload's extraction error first, then the condition's, otherwise the empty condition. |
| Statements.UpdateBindsShape | db/sql/query.go:41-76 | A successful UPDATE binds as many keys as payload names plus constraining names, each to its field's value. Every key is a SET or WHERE key under the prefix. |
| Statements.UpdateAllowsEmptySet | db/sql/query.go:50-76 | An empty payload is not rejected: the text is `UPDATE t SET  WHERE …`. |
| Statements.BuildDeleteQuery | db/sql/query.go:155-165 | Equals `DeleteSpec`: a wrapped condition error, EmptyCondition, or the DELETE with the WHERE binds. |
| Statements.DeleteFailsIff | db/sql/query.go:155-165 | DELETE fails iff the condition cannot be extracted or no field constrains, with empty text and binds. Otherwise its binds are one per constraining name. |
| Statements.BuildFilter | db/sql/query.go:110-122 | The optional condition block: nothing without a condition, a wrapped error on failure, and ` WHERE …` only when the condition text is non-empty. |
| Statements.PageBinds | db/sql/query.go:125-129 | The two paging binds: the offset from `GetOffset` and the limit. |
| Statements.FinishStatement | db/sql/query.go:110-131 | The tail of SELECT and COUNT: give up on a failed filter, otherwise append it, merge its binds and, when a page is requested, the paging clause and binds. |
| Statements.BuildSelectQuery | db/sql/query.go:102-132 | Sorts the caller's column array in place into a sorted permutation. The result equals `SelectSpec` of the sorted columns: FieldsRequired for an empty list, otherwise head, filter and page. |
| Statements.PageKeysAreNotCondKeys | db/sql/query.go:118-128 | The paging keys are never WHERE keys. |
| Statements.FilterShape | db/sql/query.go:110-122 | The filter fails iff a given condition cannot be extracted. It is ` WHERE <fragment>` exactly when a constraining field exists, and its binds are all WHERE keys. |
| Statements.StatementShape | db/sql/query.go:124-131 | Paging adds exactly two binds beside the filter's, overwriting none. |
| Statements.SelectShape | db/sql/query.go:102-132 | SELECT fails iff the columns are empty or the condition cannot be extracted. On success the text is head, filter and paging clause, and the binds are the filter's plus the two paging binds. |
| Statements.SelectSortsColumns | db/sql/query.go:107 | Whatever their order, the columns `username, email` end as `email, username`. |
| Statements.BuildCountQuery | db/sql/query.go:134-153 | Equals `CountSpec`. |
| Statements.CountIsSelectOfCount | db/sql/query.go:134-153 | COUNT is exactly the SELECT of the column `COUNT(*)` with no page. |
| Bulk.FirstFailure | db/sql/query.go:25-31 | The first failing item among the first n, with every earlier item succeeding. None iff all succeed. |
| Bulk.FirstFailureStays | db/sql/query.go:28-30 | Later items do not change an earlier first failure. |
| Bulk.BuildBulkUpdateQuery | db/sql/query.go:22-39 | Equals `BulkSpec`: item i is built with prefix `Itoa(i)`. The first failure aborts with a wrapped error, empty text and empty binds. Otherwise the items' statements, each ending in `;`, are joined by newlines inside the transaction markers, with the binds merged. |
| Bulk.BatchFailsIff | db/sql/query.go:25-31 | A batch fails iff some item fails. It then reports the first failing item's error, wrapped, with no text and no binds. |
| Bulk.BatchRootCause | db/sql/query.go:28-30 | Unwrapping a failed batch reaches the root cause of the first failing item. |
| Bulk.BulkRootCause | db/sql/query.go:25-30 | Unwrapping a failed bulk UPDATE reaches the root cause of the first failing update, built with its own index, after only successful updates. |
| Bulk.ItemsPrefixed | db/sql/query.go:26-27 | Every key bound by item i reads back the index i. |
| Bulk.PrefixedDisjoint | db/sql/query.go:32-34 | Items whose keys carry their own index bind disjoint keys. |
| Bulk.MergedKeys | db/sql/query.go:32-34 | Every merged key comes from some item. |
| Bulk.MergedKeeps | db/sql/query.go:32-34 | When items are disjoint, merging them keeps every item's binds unchanged. |
| Bulk.BatchSucceeds | db/sql/query.go:22-39 | A batch succeeds iff every item does, and then binds the merge of all items' binds. |
| Bulk.MergedBindsShape | db/sql/query.go:32-34 | Merging disjoint successful items keeps every item's binds and adds nothing else. |
| Bulk.BatchBinds | db/sql/query.go:22-39 | A successful batch of prefixed items merges without collision: every item's binds survive, no two items share a key, and each key comes from the item whose index it carries. |
| Bulk.BulkBindsNoCollision | db/sql/query.go:22-39 | The same for the items of a bulk UPDATE. |
| Bulk.BatchAppend | db/sql/query.go:35-37 | Appending a successful item to a non-empty successful batch adds one line before COMMIT and merges its binds. |
| Bulk.ItemsAppend | db/sql/query.go:25-27 | An appended update is built with the next index. |
| Bulk.EmptyBatch | db/sql/query.go:36-37 | An empty batch is `START TRANSACTION;\n\nCOMMIT;` with no binds. |
| Bulk.SecondItemFails | db/sql/query.go:28-30 | A non-struct payload in the second item fails the whole batch with that item's wrapped NotStruct error. |

## Left out

- `BindNamedQuery` (db/sql/query.go:196-206) is left out. It calls into an external library that this model does not include.
- `repo/` and `main.go` are not part of this model: database access, the repository layer and program start-up.
- The error message texts are left out. Each `fmt.Errorf`/`errors.New` site is one `Stage` or `Error` constructor.
- In UPDATE and DELETE, an empty condition wraps a nil error (`%w` with `err == nil`, db/sql/query.go:67 and 161). It is modelled as a plain `EmptyCondition`.
- Values are not inspected: an atom is a string, an integer or a boolean. Floating point, nested pointers, interface-typed fields and the panics of reflection are not modelled. Unexported fields and a nil interface under `reflect.TypeOf(val).Kind()` are examples of those panics.
- `Fields.StructToMap` dereferences exactly one level of pointer, as the source does. A pointer to a pointer is not modelled.
- `Fields.SortStrings`: Go's `sort.Strings` algorithm is not modelled; it is replaced by an insertion sort. By `Strings.SortedUnique`, every correct sort gives the same result.
- `Fields.SortMapKeys`: the order of `range` over a Go map is left open. The model picks keys in an arbitrary order before sorting.
- Go's `int` width is fixed at 64 bits, and Paginate fields are `Int64`. Other widths are not modelled.
- The three builder loops are written as helper methods that follow the Go loops line by line: `ConditionClauses`, `ColumnLists` and `SetList`. `FinishStatement` is the common tail of SELECT and COUNT, not a loop. `InsertAt` and `SortStrings` stand for the library call `sort.Strings`.
- Strings are sequences of Unicode code points. Tags, column names and keys are taken to be valid UTF-8: only then does code-point order (`Strings.Less`) agree with Go's byte-wise string comparison. Go strings holding invalid UTF-8 are not modelled.
- Bulk.BulkBindsNoCollision: the size of the merged bind map is not stated as the sum of the items' bind counts. The lemma states pairwise-disjoint keys, every item's binds kept, and nothing else bound, which together imply that sum.
- The bulk batch is also described through `Bulk.Batch` over per-item results. `BulkSpec` is `Batch` applied to the items of `UpdateSpec`.

### Behaviour worth knowing

- The offset is not clamped at zero. Pages below 1 are forced to offset 0; from page 1 on, the product `(page-1)*limit` is returned unclamped, so a negative limit gives a negative offset (`Paginate.NegativeLimitOffset`). A large product wraps around (`Paginate.OffsetWrapsAround`).
- An empty slice in a condition acts like an absent field when no other present field shares its wire name (`Condition.EmptyListFieldLikeNil`). When it is the last of several present fields sharing the name, it overwrites the earlier value, and that constraint is lost (`Condition.SharedNameEmptyListHidesScalar`).
- `BuildUpdateQuery` returns the SET binds it has built when the condition fails or is empty (`Statements.BuildUpdateQuery`). The bulk builder discards them and returns an empty bind map on any failure (`Bulk.BatchFailsIff`).
- `BuildSelectQuery` sorts the caller's column slice in place (`Statements.BuildSelectQuery`).
- UPDATE does not reject an empty SET list (`Statements.UpdateAllowsEmptySet`).
