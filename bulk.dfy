/**
 The bulk UPDATE of db/sql/query.go: one UPDATE per item, each with the
 item's index as its bind prefix, wrapped in a transaction. The first item
 that fails aborts the whole batch.

 How a batch combines its items' results (`Batch`) is stated over the
 sequence of per-item results; `Items` says what each item's result is.
 */
module Bulk {
  import opened Wrappers
  import opened Strings
  import opened Fields
  import opened Condition
  import opened Statements

  /** A payload to write and the condition that selects the rows (`sql.Update`). */
  datatype Update = Update(payload: Input, condition: Input)

  const Begin := "START TRANSACTION;\n"
  const Commit := "\nCOMMIT;"

  /** The UPDATE built for each item, prefixed with its index. */
  ghost function Items(table: string, inputs: seq<Update>): (r: seq<Built>)
    ensures |r| == |inputs|
  {
    seq(|inputs|, i requires 0 <= i < |inputs| => UpdateSpec(table, inputs[i].payload, inputs[i].condition, Itoa(i)))
  }

  /** The first failing result among the first `n`, if any. */
  function FirstFailure(items: seq<Built>, n: nat): (r: Option<nat>)
    requires n <= |items|
    ensures r.None? <==> forall i :: 0 <= i < n ==> items[i].err.None?
    ensures r.Some? ==> r.value < n && items[r.value].err.Some?
    ensures r.Some? ==> forall i :: 0 <= i < r.value ==> items[i].err.None?
  {
    if n == 0 then None
    else
      match FirstFailure(items, n - 1)
      case Some(i) => Some(i)
      case None => if items[n - 1].err.Some? then Some(n - 1) else None
  }

  /** The statements of the first `n` results, each closed by ';'. */
  function ItemQueries(items: seq<Built>, n: nat): (r: seq<string>)
    requires n <= |items|
    ensures |r| == n
  {
    seq(n, j requires 0 <= j < n => items[j].query + ";")
  }

  /** The binds of the first `n` results merged in order. */
  function MergedBinds(items: seq<Built>, n: nat): map<string, Value>
    requires n <= |items|
  {
    if n == 0 then map[] else MergedBinds(items, n - 1) + items[n - 1].binds
  }

  /** A batch of results: the first failure, wrapped, or the transaction. */
  function Batch(items: seq<Built>): Built
  {
    match FirstFailure(items, |items|)
    case Some(i) => Built("", map[], Some(Wrap(BulkItem, items[i].err.value)))
    case None => Built(Begin + Join(ItemQueries(items, |items|), "\n") + Commit, MergedBinds(items, |items|), None)
  }

  /** What `BuildBulkUpdateQuery` returns. */
  ghost function BulkSpec(table: string, inputs: seq<Update>): Built
  {
    Batch(Items(table, inputs))
  }

  /** Once a result has failed, later results do not change the first failure. */
  lemma {:induction false} FirstFailureStays(items: seq<Built>, n: nat, m: nat)
    requires n <= m <= |items| && FirstFailure(items, n).Some?
    ensures FirstFailure(items, m) == FirstFailure(items, n)
  {
    if m > n {
      FirstFailureStays(items, n, m - 1);
    }
  }

  lemma ItemQueriesStep(items: seq<Built>, n: nat)
    requires n < |items|
    ensures ItemQueries(items, n + 1) == ItemQueries(items, n) + [items[n].query + ";"]
  {
  }

  method BuildBulkUpdateQuery(table: string, inputs: seq<Update>) returns (query: string, bind: map<string, Value>, err: Option<Error>)
    ensures Built(query, bind, err) == BulkSpec(table, inputs)
  {
    ghost var items := Items(table, inputs);
    bind := map[];
    var queryArr: seq<string> := [];
    for idx := 0 to |inputs|
      invariant FirstFailure(items, idx).None?
      invariant queryArr == ItemQueries(items, idx)
      invariant bind == MergedBinds(items, idx)
    {
      var prefixIdx := Itoa(idx);
      var itemQuery, itemBind, itemErr := BuildUpdateQuery(table, inputs[idx].payload, inputs[idx].condition, prefixIdx);
      assert Built(itemQuery, itemBind, itemErr) == items[idx];
      if itemErr.Some? {
        FirstFailureStays(items, idx + 1, |inputs|);
        return "", map[], Some(Wrap(BulkItem, itemErr.value));
      }
      ItemQueriesStep(items, idx);
      queryArr := queryArr + [itemQuery + ";"];
      bind := MergeBinds(bind, itemBind);
    }
    query := Join(queryArr, "\n");
    query := Begin + query + Commit;
    err := None;
  }

  /** A batch fails exactly when some result fails; it then reports the first
      failing result's error, wrapped, with no text and no binds. */
  lemma BatchFailsIff(items: seq<Built>)
    ensures var b := Batch(items);
            && (b.err.Some? <==> exists i :: 0 <= i < |items| && items[i].err.Some?)
            && (b.err.Some? ==>
                 && b.query == "" && b.binds == map[]
                 && exists i :: 0 <= i < |items| && items[i].err.Some?
                      && (forall j :: 0 <= j < i ==> items[j].err.None?)
                      && b.err == Some(Wrap(BulkItem, items[i].err.value)))
  {
  }

  /** Unwrapping a failed batch reaches the root cause of the first failing
      result. */
  lemma BatchRootCause(items: seq<Built>)
    requires Batch(items).err.Some?
    ensures FirstFailure(items, |items|).Some?
    ensures RootCause(Batch(items).err.value) == RootCause(items[FirstFailure(items, |items|).value].err.value)
  {
  }

  /** Unwrapping a failed bulk UPDATE reaches the root cause of the first
      failing update, built with its own index. */
  lemma BulkRootCause(table: string, inputs: seq<Update>)
    requires BulkSpec(table, inputs).err.Some?
    ensures exists i :: 0 <= i < |inputs|
              && (forall j :: 0 <= j < i ==> UpdateSpec(table, inputs[j].payload, inputs[j].condition, Itoa(j)).err.None?)
              && var u := UpdateSpec(table, inputs[i].payload, inputs[i].condition, Itoa(i));
                 u.err.Some? && RootCause(BulkSpec(table, inputs).err.value) == RootCause(u.err.value)
  {
    var items := Items(table, inputs);
    BatchRootCause(items);
    var i := FirstFailure(items, |items|).value;
    assert items[i] == UpdateSpec(table, inputs[i].payload, inputs[i].condition, Itoa(i));
    forall j | 0 <= j < i
      ensures UpdateSpec(table, inputs[j].payload, inputs[j].condition, Itoa(j)).err.None?
    {
      assert items[j] == UpdateSpec(table, inputs[j].payload, inputs[j].condition, Itoa(j));
    }
  }

  /** Every successful result binds only keys carrying its own index. */
  ghost predicate Prefixed(items: seq<Built>)
  {
    forall i, k :: 0 <= i < |items| && items[i].err.None? && k in items[i].binds ==> KeyIndex(k) == Some(i)
  }

  /** The items of a bulk UPDATE are prefixed by their indices. */
  lemma ItemsPrefixed(table: string, inputs: seq<Update>)
    ensures Prefixed(Items(table, inputs))
  {
    var items := Items(table, inputs);
    forall i, k | 0 <= i < |items| && items[i].err.None? && k in items[i].binds
      ensures KeyIndex(k) == Some(i)
    {
      UpdateBindsShape(table, inputs[i].payload, inputs[i].condition, Itoa(i));
      var r, n :| IsRole(r) && k == BindKey(Itoa(i), r, n);
      KeyIndexOf(i, r, n);
    }
  }

  /** No two successful results bind the same key. */
  ghost predicate Disjoint(items: seq<Built>)
  {
    forall i, j, k ::
      0 <= i < |items| && 0 <= j < |items| && i != j && items[i].err.None? && items[j].err.None? && k in items[i].binds
      ==> k !in items[j].binds
  }

  /** Results prefixed by their indices are disjoint. */
  lemma PrefixedDisjoint(items: seq<Built>)
    requires Prefixed(items)
    ensures Disjoint(items)
  {
    forall i, j, k | 0 <= i < |items| && 0 <= j < |items| && i != j && items[i].err.None? && items[j].err.None? && k in items[i].binds
      ensures k !in items[j].binds
    {
      assert KeyIndex(k) == Some(i);
    }
  }

  /** Every merged key comes from one of the merged results. */
  lemma {:induction false} MergedKeys(items: seq<Built>, n: nat)
    requires n <= |items|
    ensures forall k :: k in MergedBinds(items, n) ==> exists i :: 0 <= i < n && k in items[i].binds
  {
    if n > 0 {
      MergedKeys(items, n - 1);
    }
  }

  /** When the first `n` results of a disjoint batch succeed, merging loses
      nothing: the merged map holds every result's binds unchanged. */
  lemma {:induction false} MergedKeeps(items: seq<Built>, n: nat)
    requires Disjoint(items)
    requires n <= |items| && forall i :: 0 <= i < n ==> items[i].err.None?
    ensures forall i, k :: 0 <= i < n && k in items[i].binds ==>
              k in MergedBinds(items, n) && MergedBinds(items, n)[k] == items[i].binds[k]
  {
    if n > 0 {
      MergedKeeps(items, n - 1);
    }
  }

  /** A batch succeeds exactly when every result does, and then binds the
      merge of all results' binds. */
  lemma BatchSucceeds(items: seq<Built>)
    ensures Batch(items).err.None? <==> forall i :: 0 <= i < |items| ==> items[i].err.None?
    ensures Batch(items).err.None? ==> Batch(items).binds == MergedBinds(items, |items|)
  {
  }

  /** Merging the binds of successful disjoint results keeps every result's
      binds unchanged, and nothing else is bound. */
  lemma MergedBindsShape(items: seq<Built>)
    requires Disjoint(items) && forall i :: 0 <= i < |items| ==> items[i].err.None?
    ensures var b := MergedBinds(items, |items|);
            && (forall i, k :: 0 <= i < |items| && k in items[i].binds ==> k in b && b[k] == items[i].binds[k])
            && (forall k :: k in b ==> exists i :: 0 <= i < |items| && k in items[i].binds)
  {
    MergedKeeps(items, |items|);
    MergedKeys(items, |items|);
  }

  /** `b` binds every result's keys to that result's values, no two results
      share a key, and every key of `b` comes from the result whose index it
      carries. */
  ghost predicate MergedWithoutCollision(items: seq<Built>, b: map<string, Value>)
  {
    && (forall i, j, k :: 0 <= i < |items| && 0 <= j < |items| && i != j && k in items[i].binds ==> k !in items[j].binds)
    && (forall i, k :: 0 <= i < |items| && k in items[i].binds ==> k in b && b[k] == items[i].binds[k])
    && (forall k :: k in b ==> exists i :: 0 <= i < |items| && k in items[i].binds && KeyIndex(k) == Some(i))
  }

  /** A successful batch of prefixed results merges their binds without collision. */
  lemma BatchBinds(items: seq<Built>)
    requires Prefixed(items) && Batch(items).err.None?
    ensures MergedWithoutCollision(items, Batch(items).binds)
  {
    BatchSucceeds(items);
    PrefixedDisjoint(items);
    MergedBindsShape(items);
  }

  /** A successful bulk UPDATE merges its items' binds without collision. */
  lemma BulkBindsNoCollision(table: string, inputs: seq<Update>)
    requires BulkSpec(table, inputs).err.None?
    ensures MergedWithoutCollision(Items(table, inputs), BulkSpec(table, inputs).binds)
  {
    ItemsPrefixed(table, inputs);
    BatchBinds(Items(table, inputs));
  }

  /** The first `n` results of a longer batch combine as in the shorter one. */
  lemma {:induction false} PrefixAgrees(items: seq<Built>, c: Built, n: nat)
    requires n <= |items|
    ensures FirstFailure(items + [c], n) == FirstFailure(items, n)
    ensures ItemQueries(items + [c], n) == ItemQueries(items, n)
    ensures MergedBinds(items + [c], n) == MergedBinds(items, n)
  {
    if n > 0 {
      PrefixAgrees(items, c, n - 1);
      assert (items + [c])[n - 1] == items[n - 1];
    }
    assert forall j :: 0 <= j < n ==> (items + [c])[j] == items[j];
  }

  /** Appending a successful result to a non-empty successful batch adds one
      line with its statement before the COMMIT and merges its binds. */
  lemma BatchAppend(items: seq<Built>, c: Built)
    requires |items| > 0 && Batch(items).err.None? && c.err.None?
    ensures Batch(items + [c])
            == Built(Begin + Join(ItemQueries(items, |items|), "\n") + "\n" + c.query + ";" + Commit, Batch(items).binds + c.binds, None)
  {
    var n := |items|;
    var longer := items + [c];
    PrefixAgrees(items, c, n);
    assert longer[n] == c;
    ItemQueriesStep(longer, n);
    JoinAppend(ItemQueries(items, n), "\n", c.query + ";");
  }

  /** Appending an update to a batch appends its result, built with the next index. */
  lemma ItemsAppend(table: string, inputs: seq<Update>, u: Update)
    ensures Items(table, inputs + [u]) == Items(table, inputs) + [UpdateSpec(table, u.payload, u.condition, Itoa(|inputs|))]
  {
    var longer := inputs + [u];
    var a, b := Items(table, longer), Items(table, inputs) + [UpdateSpec(table, u.payload, u.condition, Itoa(|inputs|))];
    forall j | 0 <= j < |a|
      ensures a[j] == b[j]
    {
      if j < |inputs| {
        assert longer[j] == inputs[j];
      } else {
        assert longer[j] == u;
      }
    }
  }

  /** An empty batch is an empty transaction. */
  lemma EmptyBatch(table: string)
    ensures BulkSpec(table, []) == Built("START TRANSACTION;\n\nCOMMIT;", map[], None)
  {
    assert Begin + Join([], "\n") + Commit == "START TRANSACTION;\n\nCOMMIT;";
  }

  /** A batch whose second item has a payload that is not a struct fails with
      that item's extraction error, even though the first item would succeed. */
  lemma SecondItemFails(table: string, first: Update, condition: Input)
    requires UpdateSpec(table, first.payload, first.condition, "0").err.None?
    ensures BulkSpec(table, [first, Update(NonRecord, condition)]).err
            == Some(Wrap(BulkItem, Wrap(UpdateFieldMap, MapFailed(NotStruct))))
  {
    var items := Items(table, [first, Update(NonRecord, condition)]);
    assert Itoa(0) == "0";
    assert items[0].err.None?;
    assert items[1] == Built("", map[], Some(Wrap(UpdateFieldMap, MapFailed(NotStruct))));
    assert FirstFailure(items, 2) == Some(1);
  }
}
