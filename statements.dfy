/**
 The statement builders of db/sql/query.go: INSERT, UPDATE, DELETE, SELECT and
 COUNT text with their named binds. Each builder is a method that grows its
 lists and its bind map as the Go code does, and is proved equal to a ghost
 function that says what it returns.
 */
module Statements {
  import opened Wrappers
  import opened Strings
  import opened Fields
  import opened Paginate
  import opened Condition

  /** Go's `for k, v := range from { into[k] = v }`: entries of `from` win. */
  method MergeBinds(into: map<string, Value>, from: map<string, Value>) returns (r: map<string, Value>)
    ensures r == into + from
  {
    r := into;
    var rest := from.Keys;
    while rest != {}
      invariant rest <= from.Keys
      invariant r.Keys == into.Keys + (from.Keys - rest)
      invariant forall k :: k in r ==> r[k] == (if k in from && k !in rest then from[k] else into[k])
      decreases rest
    {
      var key :| key in rest;
      r := r[key := from[key]];
      rest := rest - {key};
    }
    assert r.Keys == (into + from).Keys;
  }

  /** Merging maps with disjoint keys loses nothing: sizes add up and every
      entry of either map survives. */
  lemma MergeDisjoint(a: map<string, Value>, b: map<string, Value>)
    requires forall k :: k in a ==> k !in b
    ensures |a + b| == |a| + |b|
    ensures forall k :: k in a ==> k in a + b && (a + b)[k] == a[k]
    ensures forall k :: k in b ==> k in a + b && (a + b)[k] == b[k]
  {
    assert (a + b).Keys == a.Keys + b.Keys;
    assert a.Keys * b.Keys == {};
  }

  // INSERT

  /** The VALUES placeholders `:<name>`, one per column. */
  function Placeholders(names: seq<string>): (r: seq<string>)
    ensures |r| == |names|
  {
    seq(|names|, j requires 0 <= j < |names| => ":" + names[j])
  }

  /** The entries of `m` whose keys are among `keys`. */
  function Restrict(m: map<string, Value>, keys: seq<string>): (r: map<string, Value>)
    ensures forall k :: k in r <==> k in m && k in keys
    ensures forall k :: k in r ==> r[k] == m[k]
  {
    map k | k in m && k in keys :: m[k]
  }

  lemma RestrictAll(m: map<string, Value>, keys: seq<string>)
    requires forall k :: k in m ==> k in keys
    ensures Restrict(m, keys) == m
  {
    assert Restrict(m, keys).Keys == m.Keys;
  }

  /** One step of the INSERT loop. */
  lemma PlaceholdersStep(m: map<string, Value>, keys: seq<string>, i: nat)
    requires i < |keys| && keys[i] in m
    ensures keys[..i + 1] == keys[..i] + [keys[i]]
    ensures Placeholders(keys[..i + 1]) == Placeholders(keys[..i]) + [":" + keys[i]]
    ensures Restrict(m, keys[..i + 1]) == Restrict(m, keys[..i])[keys[i] := m[keys[i]]]
  {
    assert keys[..i + 1] == keys[..i] + [keys[i]];
    assert Restrict(m, keys[..i + 1]).Keys == Restrict(m, keys[..i]).Keys + {keys[i]};
  }

  /** What `BuildCreateQuery` returns: the payload's names in ascending order,
      each bound under its bare name. */
  ghost function CreateSpec(table: string, input: Input): Built
  {
    match Extract(input, Tag)
    case Failed(e) => Built("", map[], Some(Wrap(CreateFieldMap, MapFailed(e))))
    case Extracted(m) =>
      var names := SortedSeq(m.Keys);
      Built("INSERT INTO " + table + " (" + Join(names, ", ") + ") VALUES (" + Join(Placeholders(names), ", ") + ")", m, None)
  }

  /** The loop of `BuildCreateQuery`: the columns, their placeholders and
      their binds, in the order of `keys`. */
  method ColumnLists(fieldMap: map<string, Value>, keys: seq<string>)
    returns (fields: seq<string>, placeholders: seq<string>, binds: map<string, Value>)
    requires forall k :: k in keys ==> k in fieldMap
    ensures fields == keys && placeholders == Placeholders(keys)
    ensures binds == Restrict(fieldMap, keys)
  {
    fields, placeholders, binds := [], [], map[];
    for i := 0 to |keys|
      invariant fields == keys[..i]
      invariant placeholders == Placeholders(keys[..i])
      invariant binds == Restrict(fieldMap, keys[..i])
    {
      var key := keys[i];
      var val := fieldMap[key];
      PlaceholdersStep(fieldMap, keys, i);
      fields := fields + [key];
      placeholders := placeholders + [":" + key];
      binds := binds[key := val];
    }
    assert keys[..|keys|] == keys;
  }

  method BuildCreateQuery(table: string, input: Input) returns (query: string, binds: map<string, Value>, err: Option<Error>)
    ensures Built(query, binds, err) == CreateSpec(table, input)
  {
    var fieldMap, mapErr := StructToMap(input, Tag);
    if mapErr.Some? {
      return "", map[], Some(Wrap(CreateFieldMap, MapFailed(mapErr.value)));
    }
    var fieldKeys := SortMapKeys(fieldMap);
    var fields, placeholders;
    fields, placeholders, binds := ColumnLists(fieldMap, fieldKeys);
    RestrictAll(fieldMap, fieldKeys);
    query := "INSERT INTO " + table + " (" + Join(fields, ", ") + ") VALUES (" + Join(placeholders, ", ") + ")";
    err := None;
  }

  lemma PlaceholdersName(names: seq<string>)
    ensures forall j :: 0 <= j < |names| ==> Placeholders(names)[j] == ":" + names[j]
  {
  }

  /** INSERT fails exactly when extraction fails; otherwise its column list is
      the bind keys in ascending order, and the VALUES list names each column's
      own bind key in the same order. */
  lemma CreateColumnsAreBindKeys(table: string, input: Input)
    ensures var b := CreateSpec(table, input);
            && (b.err.Some? <==> Extract(input, Tag).Failed?)
            && (b.err.Some? ==> b.query == "" && b.binds == map[])
            && (b.err.None? ==>
                 exists names: seq<string> ::
                   && Ascending(names)
                   && (forall k :: k in names <==> k in b.binds)
                   && (forall j :: 0 <= j < |names| ==> Placeholders(names)[j] == ":" + names[j])
                   && b.query == "INSERT INTO " + table + " (" + Join(names, ", ") + ") VALUES (" + Join(Placeholders(names), ", ") + ")")
  {
    if Extract(input, Tag).Extracted? {
      var m := Extract(input, Tag).m;
      var names := SortedSeq(m.Keys);
      PlaceholdersName(names);
      var q := "INSERT INTO " + table + " (" + Join(names, ", ") + ") VALUES (" + Join(Placeholders(names), ", ") + ")";
      assert CreateSpec(table, input) == Built(q, m, None);
    }
  }

  // UPDATE

  /** The SET assignments `<name>=:<SET key>`, one per payload name. */
  function Assignments(names: seq<string>, prefix: string): (r: seq<string>)
    ensures |r| == |names|
  {
    seq(|names|, j requires 0 <= j < |names| => Assignment(names[j], BindKey(prefix, ValRole, names[j])))
  }

  /** The SET list of a payload map: every name in ascending order, empty
      slices included, with the SET binds. */
  ghost function SetOf(m: map<string, Value>, prefix: string): Fragment
  {
    var names := SortedSeq(m.Keys);
    Fragment(Join(Assignments(names, prefix), ", "), Binds(m, names, prefix, ValRole))
  }

  /** The part of UPDATE after the SET list: refuse a failed or empty
      condition, keeping the SET binds gathered so far, otherwise join. */
  function UpdateOf(table: string, s: Fragment, c: Built): Built
  {
    if c.err.Some? then Built("", s.binds, Some(Wrap(UpdateConditionMap, c.err.value)))
    else if c.query == "" then Built("", s.binds, Some(EmptyCondition))
    else Built("UPDATE " + table + " SET " + s.text + " WHERE " + c.query, s.binds + c.binds, None)
  }

  /** What `BuildUpdateQuery` returns. */
  ghost function UpdateSpec(table: string, payload: Input, condition: Input, prefix: string): Built
  {
    match Extract(payload, Tag)
    case Failed(e) => Built("", map[], Some(Wrap(UpdateFieldMap, MapFailed(e))))
    case Extracted(pm) => UpdateOf(table, SetOf(pm, prefix), ConditionSpec(condition, prefix))
  }

  /** Unwrapping a failed UPDATE reaches the error that stopped it: the
      payload's extraction error, then the condition's, then the empty
      condition. */
  lemma UpdateRootCause(table: string, payload: Input, condition: Input, prefix: string)
    ensures var b := UpdateSpec(table, payload, condition, prefix);
            var p, c := Extract(payload, Tag), Extract(condition, Tag);
            b.err.Some? ==>
              RootCause(b.err.value)
                == if p.Failed? then MapFailed(p.e)
                   else if c.Failed? then MapFailed(c.e)
                   else EmptyCondition
  {
  }

  /** One step of the SET loop. */
  lemma SetStep(m: map<string, Value>, keys: seq<string>, i: nat, prefix: string)
    requires i < |keys| && forall k :: k in keys ==> k in m
    ensures var key := keys[i];
            var bk := BindKey(prefix, ValRole, key);
            && Assignments(keys[..i + 1], prefix) == Assignments(keys[..i], prefix) + [Assignment(key, bk)]
            && Binds(m, keys[..i + 1], prefix, ValRole) == Binds(m, keys[..i], prefix, ValRole)[bk := m[key]]
  {
    assert keys[..i + 1][..i] == keys[..i];
    assert keys[..i + 1] == keys[..i] + [keys[i]];
  }

  /** The loop of `BuildUpdateQuery`: one assignment and one bind per name, in
      the order of `keys`. */
  method SetList(fieldMap: map<string, Value>, keys: seq<string>, prefixIdx: string)
    returns (fields: seq<string>, binds: map<string, Value>)
    requires forall k :: k in keys ==> k in fieldMap
    ensures fields == Assignments(keys, prefixIdx)
    ensures binds == Binds(fieldMap, keys, prefixIdx, ValRole)
  {
    fields, binds := [], map[];
    for i := 0 to |keys|
      invariant fields == Assignments(keys[..i], prefixIdx)
      invariant binds == Binds(fieldMap, keys[..i], prefixIdx, ValRole)
    {
      var key := keys[i];
      var keyBind := "val_" + key;
      if prefixIdx != "" {
        keyBind := "idx" + prefixIdx + "_val_" + key;
      }
      ValKeyText(prefixIdx, key);
      var val := fieldMap[key];
      SetStep(fieldMap, keys, i, prefixIdx);
      fields := fields + [key + "=:" + keyBind];
      binds := binds[keyBind := val];
    }
    assert keys[..|keys|] == keys;
  }

  method BuildUpdateQuery(table: string, payload: Input, condition: Input, prefixIdx: string)
    returns (query: string, binds: map<string, Value>, err: Option<Error>)
    ensures Built(query, binds, err) == UpdateSpec(table, payload, condition, prefixIdx)
  {
    binds := map[];
    var fieldMap, mapErr := StructToMap(payload, Tag);
    if mapErr.Some? {
      return "", binds, Some(Wrap(UpdateFieldMap, MapFailed(mapErr.value)));
    }
    var fieldKeys := SortMapKeys(fieldMap);
    var fields;
    fields, binds := SetList(fieldMap, fieldKeys, prefixIdx);
    var condQuery, condBind, condErr := BuildCondition(condition, prefixIdx);
    if condErr.Some? {
      return "", binds, Some(Wrap(UpdateConditionMap, condErr.value));
    }
    if condQuery == "" {
      return "", binds, Some(EmptyCondition);
    }
    binds := MergeBinds(binds, condBind);
    query := "UPDATE " + table + " SET " + Join(fields, ", ") + " WHERE " + condQuery;
    err := None;
  }

  /** UPDATE fails exactly when the payload or the condition cannot be
      extracted, or the condition has no constraining field. */
  lemma UpdateFailsIff(table: string, payload: Input, condition: Input, prefix: string)
    ensures var b := UpdateSpec(table, payload, condition, prefix);
            var c := Extract(condition, Tag);
            && (b.err.Some? <==> Extract(payload, Tag).Failed? || c.Failed? || CondNames(c.m) == [])
            && (b.err.Some? ==> b.query == "")
            && (b.err.Some? && Extract(payload, Tag).Extracted? && c.Extracted? ==> b.err == Some(EmptyCondition))
  {
    var c := Extract(condition, Tag);
    if c.Extracted? {
      ConditionEmptyIff(c.m, prefix);
    }
  }

  /** The SET binds: one per payload name, under its SET key. */
  lemma SetBindsShape(pm: map<string, Value>, prefix: string)
    ensures var b := SetOf(pm, prefix).binds;
            && |b| == |pm|
            && (forall n :: n in pm ==> BindKey(prefix, ValRole, n) in b && b[BindKey(prefix, ValRole, n)] == pm[n])
            && (forall k :: k in b ==> exists n :: n in pm && k == BindKey(prefix, ValRole, n))
  {
    var names := SortedSeq(pm.Keys);
    AscendingIsDistinct(names);
    BindsShape(pm, names, prefix, ValRole);
    assert |names| == |pm| by {
      assert |pm.Keys| == |pm|;
    }
  }

  /** The WHERE binds: one per constraining name, under its WHERE key. */
  lemma WhereBindsShape(cm: map<string, Value>, prefix: string)
    ensures var b := ConditionOf(cm, prefix).binds;
            && |b| == |CondNames(cm)|
            && (forall n :: n in CondNames(cm) ==> BindKey(prefix, CondRole, n) in b && b[BindKey(prefix, CondRole, n)] == cm[n])
            && (forall k :: k in b ==> exists n :: n in CondNames(cm) && k == BindKey(prefix, CondRole, n))
  {
    AscendingIsDistinct(CondNames(cm));
    BindsShape(cm, CondNames(cm), prefix, CondRole);
  }

  /** A SET key is never a WHERE key. */
  lemma SetWhereDisjoint(pm: map<string, Value>, cm: map<string, Value>, prefix: string)
    ensures forall k :: k in SetOf(pm, prefix).binds ==> k !in ConditionOf(cm, prefix).binds
  {
    SetBindsShape(pm, prefix);
    WhereBindsShape(cm, prefix);
    forall k | k in SetOf(pm, prefix).binds
      ensures k !in ConditionOf(cm, prefix).binds
    {
      var n1 :| n1 in pm && k == BindKey(prefix, ValRole, n1);
      if k in ConditionOf(cm, prefix).binds {
        var n2 :| n2 in CondNames(cm) && k == BindKey(prefix, CondRole, n2);
        BindKeyInjective(prefix, ValRole, n1, CondRole, n2);
      }
    }
  }

  /** A successful UPDATE binds every payload name under its SET key and every
      constraining condition name under its WHERE key, none overwriting
      another, and binds nothing else. */
  lemma UpdateBindsShape(table: string, payload: Input, condition: Input, prefix: string)
    requires UpdateSpec(table, payload, condition, prefix).err.None?
    ensures var b := UpdateSpec(table, payload, condition, prefix).binds;
            var pm, cm := Extract(payload, Tag).m, Extract(condition, Tag).m;
            && |b| == |pm| + |CondNames(cm)|
            && (forall n :: n in pm ==> BindKey(prefix, ValRole, n) in b && b[BindKey(prefix, ValRole, n)] == pm[n])
            && (forall n :: n in CondNames(cm) ==> BindKey(prefix, CondRole, n) in b && b[BindKey(prefix, CondRole, n)] == cm[n])
            && (forall k :: k in b ==> exists r, n :: IsRole(r) && k == BindKey(prefix, r, n))
  {
    var pm, cm := Extract(payload, Tag).m, Extract(condition, Tag).m;
    var s, c := SetOf(pm, prefix).binds, ConditionOf(cm, prefix).binds;
    assert UpdateSpec(table, payload, condition, prefix).binds == s + c;
    SetBindsShape(pm, prefix);
    WhereBindsShape(cm, prefix);
    SetWhereDisjoint(pm, cm, prefix);
    MergeDisjoint(s, c);
  }

  lemma EmptyPayloadSet(prefix: string)
    ensures Extract(Record([]), Tag) == Extracted(map[])
    ensures SetOf(map[], prefix) == Fragment("", map[])
  {
    var empty: map<string, Value> := map[];
    assert |SortedSeq(empty.Keys)| == 0;
  }

  lemma EmptySetUpdate(table: string, c: Built)
    requires c.err.None? && c.query != ""
    ensures UpdateOf(table, Fragment("", map[]), c) == Built("UPDATE " + table + " SET " + " WHERE " + c.query, c.binds, None)
  {
    var empty: map<string, Value> := map[];
    assert empty + c.binds == c.binds;
    assert "UPDATE " + table + " SET " + "" == "UPDATE " + table + " SET ";
  }

  /** Nothing rejects an empty payload: its SET list is empty. */
  lemma UpdateAllowsEmptySet(table: string, condition: Input, prefix: string)
    requires ConditionSpec(condition, prefix).err.None? && ConditionSpec(condition, prefix).query != ""
    ensures UpdateSpec(table, Record([]), condition, prefix)
            == Built("UPDATE " + table + " SET " + " WHERE " + ConditionSpec(condition, prefix).query, ConditionSpec(condition, prefix).binds, None)
  {
    EmptyPayloadSet(prefix);
    EmptySetUpdate(table, ConditionSpec(condition, prefix));
  }

  // DELETE

  /** What `BuildDeleteQuery` returns. */
  ghost function DeleteSpec(table: string, condition: Input): Built
  {
    var c := ConditionSpec(condition, "");
    if c.err.Some? then Built("", map[], Some(Wrap(DeleteCondition, c.err.value)))
    else if c.query == "" then Built("", map[], Some(EmptyCondition))
    else Built("DELETE FROM " + table + " WHERE " + c.query, c.binds, None)
  }

  method BuildDeleteQuery(table: string, condition: Input) returns (query: string, bind: map<string, Value>, err: Option<Error>)
    ensures Built(query, bind, err) == DeleteSpec(table, condition)
  {
    var condQuery, condBind, condErr := BuildCondition(condition, "");
    if condErr.Some? {
      return "", map[], Some(Wrap(DeleteCondition, condErr.value));
    }
    if condQuery == "" {
      return "", map[], Some(EmptyCondition);
    }
    query := "DELETE FROM " + table + " WHERE " + condQuery;
    return query, condBind, None;
  }

  /** DELETE fails exactly when the condition cannot be extracted or has no
      constraining field; on success its binds are the WHERE binds, one per
      constraining name. */
  lemma DeleteFailsIff(table: string, condition: Input)
    ensures var b := DeleteSpec(table, condition);
            var c := Extract(condition, Tag);
            && (b.err.Some? <==> c.Failed? || CondNames(c.m) == [])
            && (b.err.Some? ==> b.query == "" && b.binds == map[])
            && (b.err.None? ==>
                 && b.query == "DELETE FROM " + table + " WHERE " + ConditionOf(c.m, "").text
                 && |b.binds| == |CondNames(c.m)|
                 && forall n :: n in CondNames(c.m) ==> BindKey("", CondRole, n) in b.binds && b.binds[BindKey("", CondRole, n)] == c.m[n])
  {
    var c := Extract(condition, Tag);
    if c.Extracted? {
      ConditionEmptyIff(c.m, "");
      ConditionPlaceholdersBound(c.m, "");
      BindsSpec(c.m, CondNames(c.m), "", CondRole);
    }
  }

  // SELECT and COUNT

  /** The optional filter shared by SELECT and COUNT: ` WHERE <fragment>` when a
      condition is given and builds a clause, nothing otherwise. */
  ghost function FilterSpec(condition: Option<Input>): Built
  {
    match condition
    case None => Built("", map[], None)
    case Some(c) =>
      var b := ConditionSpec(c, "");
      if b.err.Some? then Built("", map[], Some(Wrap(FilterCondition, b.err.value)))
      else if b.query == "" then Built("", map[], None)
      else Built(" WHERE " + b.query, b.binds, None)
  }

  /** The condition block of `BuildSelectQuery` and `BuildCountQuery`. */
  method BuildFilter(condition: Option<Input>) returns (filter: string, bind: map<string, Value>, err: Option<Error>)
    ensures Built(filter, bind, err) == FilterSpec(condition)
  {
    filter, bind, err := "", map[], None;
    if condition.Some? {
      var condQuery, condBind, condErr := BuildCondition(condition.value, "");
      if condErr.Some? {
        return "", map[], Some(Wrap(FilterCondition, condErr.value));
      }
      if condQuery != "" {
        filter, bind := " WHERE " + condQuery, condBind;
      }
    }
  }

  const LimitKey := "paginate_limit"
  const OffsetKey := "paginate_offset"
  const PageClause := " LIMIT :paginate_limit OFFSET :paginate_offset"

  /** The binds of a page request. */
  function PageBinds(p: Paginate): (r: map<string, Value>)
    ensures r.Keys == {LimitKey, OffsetKey}
    ensures r[OffsetKey] == Scalar(Int(GetOffset(p))) && r[LimitKey] == Scalar(Int(p.limit))
  {
    map[OffsetKey := Scalar(Int(GetOffset(p))), LimitKey := Scalar(Int(p.limit))]
  }

  /** A statement head followed by the filter and, when a page is requested,
      the paging clause; a failed filter fails the statement. */
  function Statement(head: string, f: Built, paginate: Option<Paginate>): Built
  {
    if f.err.Some? then Built("", map[], f.err)
    else
      match paginate
      case None => Built(head + f.query, f.binds, None)
      case Some(p) => Built(head + f.query + PageClause, f.binds + PageBinds(p), None)
  }

  /** What `BuildSelectQuery` returns for the column list `fields` as it stands
      after sorting. */
  ghost function SelectSpec(table: string, fields: seq<string>, condition: Option<Input>, paginate: Option<Paginate>): Built
  {
    if |fields| == 0 then Built("", map[], Some(FieldsRequired))
    else Statement("SELECT " + Join(fields, ", ") + " FROM " + table, FilterSpec(condition), paginate)
  }

  /** The tail shared by `BuildSelectQuery` and `BuildCountQuery`: give up on a
      failed filter, otherwise append it and merge its binds, then append the
      paging clause and bind its two values when a page is requested. */
  method FinishStatement(head: string, filter: string, condBind: map<string, Value>, condErr: Option<Error>, paginate: Option<Paginate>)
    returns (query: string, bind: map<string, Value>, err: Option<Error>)
    ensures Built(query, bind, err) == Statement(head, Built(filter, condBind, condErr), paginate)
  {
    bind := map[];
    query := head;
    if condErr.Some? {
      return "", map[], condErr;
    }
    query := query + filter;
    bind := MergeBinds(bind, condBind);
    assert bind == condBind;
    if paginate.Some? {
      query := query + PageClause;
      bind := bind[OffsetKey := Scalar(Int(GetOffset(paginate.value)))];
      bind := bind[LimitKey := Scalar(Int(paginate.value.limit))];
      assert bind == condBind + PageBinds(paginate.value);
    }
    err := None;
  }

  /** Sorts the caller's column list in place, then builds the SELECT. */
  method BuildSelectQuery(table: string, fields: array<string>, condition: Option<Input>, paginate: Option<Paginate>)
    returns (query: string, bind: map<string, Value>, err: Option<Error>)
    modifies fields
    ensures Sorted(fields[..]) && multiset(fields[..]) == multiset(old(fields[..]))
    ensures Built(query, bind, err) == SelectSpec(table, fields[..], condition, paginate)
  {
    if fields.Length == 0 {
      return "", map[], Some(FieldsRequired);
    }
    SortStrings(fields);
    query := "SELECT " + Join(fields[..], ", ") + " FROM " + table;
    var filter, condBind, condErr := BuildFilter(condition);
    query, bind, err := FinishStatement(query, filter, condBind, condErr, paginate);
  }

  /** The paging keys are not WHERE keys. */
  lemma PageKeysAreNotCondKeys(n: string)
    ensures BindKey("", CondRole, n) != LimitKey && BindKey("", CondRole, n) != OffsetKey
  {
    assert BindKey("", CondRole, n)[0] == 'c';
  }

  /** A condition is given, extracts, and has a constraining field. */
  ghost predicate Filtered(condition: Option<Input>)
  {
    condition.Some? && Extract(condition.value, Tag).Extracted? && CondNames(Extract(condition.value, Tag).m) != []
  }

  /** The WHERE fragment of a filtering condition. */
  ghost function FilterFragment(condition: Option<Input>): Fragment
    requires Filtered(condition)
  {
    ConditionOf(Extract(condition.value, Tag).m, "")
  }

  /** The filter fails exactly when a given condition cannot be extracted. It
      is ` WHERE <fragment>` when the condition constrains and empty otherwise
      (no condition, or none of its fields constrains), and its binds are
      the WHERE binds, one per constraining name, all WHERE keys. */
  lemma FilterShape(condition: Option<Input>)
    ensures var f := FilterSpec(condition);
            && (f.err.Some? <==> condition.Some? && Extract(condition.value, Tag).Failed?)
            && (f.err.Some? ==> f.query == "" && f.binds == map[])
            && (f.err.None? && Filtered(condition) ==>
                 && f.query == " WHERE " + FilterFragment(condition).text
                 && f.binds == FilterFragment(condition).binds
                 && |f.binds| == |CondNames(Extract(condition.value, Tag).m)|)
            && (f.err.None? && !Filtered(condition) ==> f.query == "" && f.binds == map[])
            && (forall k :: k in f.binds ==> exists n :: k == BindKey("", CondRole, n))
  {
    if condition.Some? && Extract(condition.value, Tag).Extracted? {
      var m := Extract(condition.value, Tag).m;
      ConditionEmptyIff(m, "");
      ConditionPlaceholdersBound(m, "");
    }
  }

  /** A statement over a filter whose keys are all WHERE keys: the paging
      binds are added beside the filter's, none overwriting another. */
  lemma StatementShape(head: string, f: Built, paginate: Option<Paginate>)
    requires forall k :: k in f.binds ==> exists n :: k == BindKey("", CondRole, n)
    ensures var b := Statement(head, f, paginate);
            && (b.err.Some? <==> f.err.Some?)
            && (b.err.Some? ==> b.query == "" && b.binds == map[])
            && (b.err.None? ==>
                 && b.query == head + f.query + (if paginate.Some? then PageClause else "")
                 && |b.binds| == |f.binds| + (if paginate.Some? then 2 else 0)
                 && (forall k :: k in f.binds ==> k in b.binds && b.binds[k] == f.binds[k])
                 && (paginate.Some? ==>
                       && b.binds[OffsetKey] == Scalar(Int(GetOffset(paginate.value)))
                       && b.binds[LimitKey] == Scalar(Int(paginate.value.limit))))
  {
    if paginate.Some? {
      var pb := PageBinds(paginate.value);
      forall k | k in f.binds
        ensures k !in pb
      {
        var n :| k == BindKey("", CondRole, n);
        PageKeysAreNotCondKeys(n);
      }
      MergeDisjoint(f.binds, pb);
      assert |pb| == |{LimitKey, OffsetKey}| == 2;
    } else {
      assert head + f.query + "" == head + f.query;
    }
  }

  /** SELECT fails exactly on an empty column list or a condition that cannot
      be extracted. On success the WHERE part appears exactly when a condition
      with a constraining field is given, the paging part exactly when a page
      is requested, and the binds are the WHERE binds plus the two paging
      binds, none overwriting another. */
  lemma SelectShape(table: string, fields: seq<string>, condition: Option<Input>, paginate: Option<Paginate>)
    ensures var b := SelectSpec(table, fields, condition, paginate);
            var f := FilterSpec(condition);
            && (b.err.Some? <==> |fields| == 0 || (condition.Some? && Extract(condition.value, Tag).Failed?))
            && (b.err.Some? ==> b.query == "" && b.binds == map[])
            && (b.err.None? ==>
                 && b.query == "SELECT " + Join(fields, ", ") + " FROM " + table + f.query
                                + (if paginate.Some? then PageClause else "")
                 && |b.binds| == |f.binds| + (if paginate.Some? then 2 else 0)
                 && (forall k :: k in f.binds ==> k in b.binds && b.binds[k] == f.binds[k])
                 && (paginate.Some? ==>
                       && b.binds[OffsetKey] == Scalar(Int(GetOffset(paginate.value)))
                       && b.binds[LimitKey] == Scalar(Int(paginate.value.limit))))
  {
    FilterShape(condition);
    if |fields| > 0 {
      StatementShape("SELECT " + Join(fields, ", ") + " FROM " + table, FilterSpec(condition), paginate);
    }
  }

  /** Whatever order the column list comes in, the sorted list is the same:
      `[username, email]` always becomes `[email, username]`. */
  lemma SelectSortsColumns(sorted: seq<string>)
    requires Sorted(sorted) && multiset(sorted) == multiset(["username", "email"])
    ensures sorted == ["email", "username"]
  {
    assert Less("email", "username");
    assert multiset(["username", "email"]) == multiset(["email", "username"]);
    SortedUnique(sorted, ["email", "username"]);
  }

  /** What `BuildCountQuery` returns. */
  ghost function CountSpec(table: string, condition: Option<Input>): Built
  {
    Statement("SELECT COUNT(*) FROM " + table, FilterSpec(condition), None)
  }

  method BuildCountQuery(table: string, condition: Option<Input>) returns (query: string, bind: map<string, Value>, err: Option<Error>)
    ensures Built(query, bind, err) == CountSpec(table, condition)
  {
    query := "SELECT COUNT(*) FROM " + table;
    var filter, condBind, condErr := BuildFilter(condition);
    query, bind, err := FinishStatement(query, filter, condBind, condErr, None);
  }

  /** COUNT is the SELECT of the single column `COUNT(*)` without a page:
      same filter, same binds, same errors, and never a LIMIT. */
  lemma CountIsSelectOfCount(table: string, condition: Option<Input>)
    ensures CountSpec(table, condition) == SelectSpec(table, ["COUNT(*)"], condition, None)
  {
    assert Join(["COUNT(*)"], ", ") == "COUNT(*)";
    assert "SELECT " + "COUNT(*)" + " FROM " == "SELECT COUNT(*) FROM ";
  }
}
