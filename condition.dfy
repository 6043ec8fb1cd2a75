/**
 The WHERE-clause builder (`BuildCondition`), the bind-key convention and the
 error chain shared by all builders of db/sql/query.go.
 */
module Condition {
  import opened Wrappers
  import opened Strings
  import opened Fields

  /** The struct-tag scheme every builder extracts with. */
  const Tag := "db"

  /** Where an error was wrapped with `fmt.Errorf("...: %w", err)`. */
  datatype Stage =
    | ConditionFieldMap   // "failed build condition"
    | UpdateFieldMap      // "failed to build update query, make field map"
    | UpdateConditionMap  // "failed to build update query, make condition map"
    | CreateFieldMap      // "failed to build create query, make field map"
    | FilterCondition     // "failed to build field map" (SELECT and COUNT)
    | DeleteCondition     // "failed build condition" (DELETE)
    | BulkItem            // "failed to build bulk update query"

  /** An error chain: an extraction failure, a builder's own refusal, or a
      wrapped inner error. */
  datatype Error =
    | MapFailed(cause: MapError)
    | FieldsRequired
    | EmptyCondition
    | Wrap(stage: Stage, inner: Error)

  /** What `errors.Unwrap` reaches at the end of the chain. */
  function RootCause(e: Error): (r: Error)
    ensures !r.Wrap?
  {
    match e
    case Wrap(_, inner) => RootCause(inner)
    case _ => e
  }

  /** The three results of a builder: statement text, bind map, and the error
      (`None` for Go's nil). */
  datatype Built = Built(query: string, binds: map<string, Value>, err: Option<Error>)

  /** A WHERE fragment (or a SET list) with its binds. */
  datatype Fragment = Fragment(text: string, binds: map<string, Value>)

  const ValRole := "val"
  const CondRole := "cond"

  predicate IsRole(role: string)
  {
    role == ValRole || role == CondRole
  }

  function RoleKey(role: string, name: string): string
  {
    role + "_" + name
  }

  /** `val_<name>` / `cond_<name>`, or `idx<prefix>_val_<name>` / `idx<prefix>_cond_<name>`. */
  function BindKey(prefix: string, role: string, name: string): string
  {
    if prefix == "" then RoleKey(role, name) else "idx" + prefix + "_" + RoleKey(role, name)
  }

  /** Where the role starts inside a key. */
  function RoleAt(prefix: string): nat
  {
    if prefix == "" then 0 else |prefix| + 4
  }

  lemma BindKeyParts(prefix: string, role: string, name: string)
    requires IsRole(role)
    ensures var k := BindKey(prefix, role, name);
            && |k| > RoleAt(prefix)
            && k[RoleAt(prefix)] == role[0]
            && k[RoleAt(prefix) + |role| + 1..] == name
  {
    var k := BindKey(prefix, role, name);
    if prefix != "" {
      assert k[RoleAt(prefix)..] == RoleKey(role, name);
    }
  }

  /** With one prefix, the role and the name can be read back from a key: the
      SET keys and the WHERE keys of one statement never collide. */
  lemma BindKeyInjective(prefix: string, r1: string, n1: string, r2: string, n2: string)
    requires IsRole(r1) && IsRole(r2)
    requires BindKey(prefix, r1, n1) == BindKey(prefix, r2, n2)
    ensures r1 == r2 && n1 == n2
  {
    BindKeyParts(prefix, r1, n1);
    BindKeyParts(prefix, r2, n2);
  }

  /** Different names give different keys under one prefix and role. */
  lemma BindKeyDistinct(prefix: string, role: string, n1: string, n2: string)
    requires IsRole(role) && n1 != n2
    ensures BindKey(prefix, role, n1) != BindKey(prefix, role, n2)
  {
    BindKeyParts(prefix, role, n1);
    BindKeyParts(prefix, role, n2);
  }

  lemma UnderscoreAfterDigits(p: string, x: string)
    requires IsDigits(p)
    ensures (p + "_" + x)[|p|] == '_'
    ensures forall i :: 0 <= i < |p| ==> (p + "_" + x)[i] != '_'
  {
  }

  lemma DigitsThenUnderscore(p1: string, x1: string, p2: string, x2: string)
    requires IsDigits(p1) && IsDigits(p2)
    requires p1 + "_" + x1 == p2 + "_" + x2
    ensures p1 == p2 && x1 == x2
  {
    var s := p1 + "_" + x1;
    UnderscoreAfterDigits(p1, x1);
    UnderscoreAfterDigits(p2, x2);
    assert |p1| == |p2|;
    assert p1 == s[..|p1|] == p2;
    assert x1 == s[|p1| + 1..] == x2;
  }

  /** Keys with decimal prefixes record the prefix: keys of different batch
      items never collide. */
  lemma PrefixedKeyInjective(p1: string, r1: string, n1: string, p2: string, r2: string, n2: string)
    requires IsDigits(p1) && IsDigits(p2) && p1 != "" && p2 != ""
    requires IsRole(r1) && IsRole(r2)
    requires BindKey(p1, r1, n1) == BindKey(p2, r2, n2)
    ensures p1 == p2 && r1 == r2 && n1 == n2
  {
    var k := BindKey(p1, r1, n1);
    assert k[3..] == p1 + "_" + RoleKey(r1, n1);
    assert BindKey(p2, r2, n2)[3..] == p2 + "_" + RoleKey(r2, n2);
    DigitsThenUnderscore(p1, RoleKey(r1, n1), p2, RoleKey(r2, n2));
    BindKeyInjective(p1, r1, n1, r2, n2);
  }

  /** The length of the run of decimal digits that `s` starts with. */
  function DigitRun(s: string): (r: nat)
    ensures r <= |s| && IsDigits(s[..r])
    ensures r < |s| ==> !('0' <= s[r] <= '9')
  {
    if |s| == 0 || !('0' <= s[0] <= '9') then 0
    else
      var r := 1 + DigitRun(s[1..]);
      assert forall j :: 1 <= j < r ==> s[..r][j] == s[1..][..r - 1][j - 1];
      r
  }

  /** The batch index a key carries: the digits after a leading `idx`. */
  function KeyIndex(k: string): Option<nat>
  {
    if |k| >= 3 && k[..3] == "idx" then
      var rest := k[3..];
      Some(Atoi(rest[..DigitRun(rest)]))
    else None
  }

  lemma {:induction false} DigitRunOf(p: string, x: string)
    requires IsDigits(p)
    ensures DigitRun(p + "_" + x) == |p|
  {
    if |p| > 0 {
      assert (p + "_" + x)[1..] == p[1..] + "_" + x;
      DigitRunOf(p[1..], x);
    }
  }

  /** A key written with a batch index reads back that index. */
  lemma KeyIndexOf(i: nat, role: string, name: string)
    ensures KeyIndex(BindKey(Itoa(i), role, name)) == Some(i)
  {
    var p := Itoa(i);
    var k := BindKey(p, role, name);
    assert k[..3] == "idx";
    assert k[3..] == p + "_" + RoleKey(role, name);
    DigitRunOf(p, RoleKey(role, name));
    assert k[3..][..|p|] == p;
    AtoiItoa(i);
  }

  /** The binds `BindKey(prefix, role, n) := m[n]` for the names `names`, entered
      in order. */
  function Binds(m: map<string, Value>, names: seq<string>, prefix: string, role: string): map<string, Value>
    requires forall k :: k in names ==> k in m
  {
    if |names| == 0 then map[]
    else
      var last := names[|names| - 1];
      Binds(m, names[..|names| - 1], prefix, role)[BindKey(prefix, role, last) := m[last]]
  }

  /** The keys of `Binds` are the keys of the names, and each maps to its name's value. */
  lemma {:induction false} BindsSpec(m: map<string, Value>, names: seq<string>, prefix: string, role: string)
    requires IsRole(role)
    requires forall k :: k in names ==> k in m
    ensures forall bk :: bk in Binds(m, names, prefix, role) <==> exists n :: n in names && bk == BindKey(prefix, role, n)
    ensures forall n :: n in names ==> Binds(m, names, prefix, role)[BindKey(prefix, role, n)] == m[n]
  {
    if |names| > 0 {
      var init, last := names[..|names| - 1], names[|names| - 1];
      BindsSpec(m, init, prefix, role);
      forall n | n in names
        ensures Binds(m, names, prefix, role)[BindKey(prefix, role, n)] == m[n]
      {
        if n != last {
          BindKeyDistinct(prefix, role, n, last);
          assert n in init;
        }
      }
      forall bk | bk in Binds(m, names, prefix, role)
        ensures exists n :: n in names && bk == BindKey(prefix, role, n)
      {
        if bk != BindKey(prefix, role, last) {
          assert bk in Binds(m, init, prefix, role);
          var n :| n in init && bk == BindKey(prefix, role, n);
          assert n in names;
        }
      }
      forall n | n in names
        ensures BindKey(prefix, role, n) in Binds(m, names, prefix, role)
      {
        if n != last {
          assert n in init;
        }
      }
    }
  }

  /** Distinct names give as many binds as names. */
  lemma {:induction false} BindsCount(m: map<string, Value>, names: seq<string>, prefix: string, role: string)
    requires IsRole(role)
    requires forall k :: k in names ==> k in m
    requires Distinct(names)
    ensures |Binds(m, names, prefix, role)| == |names|
  {
    if |names| > 0 {
      var init, last := names[..|names| - 1], names[|names| - 1];
      BindsCount(m, init, prefix, role);
      var key := BindKey(prefix, role, last);
      assert key !in Binds(m, init, prefix, role) by {
        BindsSpec(m, init, prefix, role);
        forall n | n in init
          ensures BindKey(prefix, role, n) != key
        {
          var i :| 0 <= i < |init| && init[i] == n;
          assert names[i] == n;
          BindKeyDistinct(prefix, role, n, last);
        }
      }
    }
  }

  /** A value that constrains: anything but an empty slice or array. */
  predicate Used(v: Value)
  {
    !(v.List? && |v.items| == 0)
  }

  /** The names among `keys` whose value constrains, in the order of `keys`. */
  function UsedKeys(m: map<string, Value>, keys: seq<string>): (r: seq<string>)
    requires forall k :: k in keys ==> k in m
    ensures forall k :: k in r <==> k in keys && Used(m[k])
  {
    if |keys| == 0 then []
    else
      var init, last := UsedKeys(m, keys[..|keys| - 1]), keys[|keys| - 1];
      assert forall k :: k in keys <==> k in keys[..|keys| - 1] || k == last by {
        assert keys == keys[..|keys| - 1] + [last];
      }
      if Used(m[last]) then init + [last] else init
  }

  lemma {:induction false} UsedKeysAscending(m: map<string, Value>, keys: seq<string>)
    requires forall k :: k in keys ==> k in m
    requires Ascending(keys)
    ensures Ascending(UsedKeys(m, keys))
  {
    if |keys| > 0 {
      var init, last := keys[..|keys| - 1], keys[|keys| - 1];
      UsedKeysAscending(m, init);
      var u := UsedKeys(m, init);
      forall x | x in u
        ensures Less(x, last)
      {
        var i :| 0 <= i < |init| && init[i] == x;
        assert keys[i] == x;
      }
    }
  }

  /** The constraining names of a condition map, in ascending order. */
  ghost function CondNames(m: map<string, Value>): (r: seq<string>)
    ensures Ascending(r)
    ensures forall k :: k in r <==> k in m && Used(m[k])
  {
    var keys := SortedSeq(m.Keys);
    UsedKeysAscending(m, keys);
    UsedKeys(m, keys)
  }

  function Assignment(name: string, key: string): string
  {
    name + "=:" + key
  }

  /** `name IN (:key)` for a slice or array, `name=:key` for a scalar. */
  function Clause(name: string, v: Value, key: string): (c: string)
    ensures |c| > |name| + |key| && c[..|name|] == name
  {
    if v.List? then name + " IN (:" + key + ")" else Assignment(name, key)
  }

  /** One clause per name, its placeholder naming the name's WHERE key. */
  function Clauses(m: map<string, Value>, names: seq<string>, prefix: string): (r: seq<string>)
    requires forall k :: k in names ==> k in m
    ensures |r| == |names|
  {
    seq(|names|, j requires 0 <= j < |names| => Clause(names[j], m[names[j]], BindKey(prefix, CondRole, names[j])))
  }

  /** The WHERE fragment of a condition map: the clauses of its constraining
      names joined with " AND ", and their binds. */
  ghost function ConditionOf(m: map<string, Value>, prefix: string): Fragment
  {
    var names := CondNames(m);
    Fragment(Join(Clauses(m, names, prefix), " AND "), Binds(m, names, prefix, CondRole))
  }

  /** What `BuildCondition` returns. */
  ghost function ConditionSpec(condition: Input, prefix: string): Built
  {
    match Extract(condition, Tag)
    case Failed(e) => Built("", map[], Some(Wrap(ConditionFieldMap, MapFailed(e))))
    case Extracted(m) =>
      var f := ConditionOf(m, prefix);
      Built(f.text, f.binds, None)
  }

  /** The key texts the WHERE loop writes are the WHERE keys of `BindKey`. */
  lemma CondKeyText(prefix: string, key: string)
    ensures prefix == "" ==> "cond_" + key == BindKey(prefix, CondRole, key)
    ensures prefix != "" ==> "idx" + prefix + "_cond_" + key == BindKey(prefix, CondRole, key)
  {
    assert "cond_" + key == CondRole + "_" + key;
    assert "idx" + prefix + "_cond_" + key == "idx" + prefix + "_" + (CondRole + "_" + key);
  }

  /** The key texts the SET loop writes are the SET keys of `BindKey`. */
  lemma ValKeyText(prefix: string, key: string)
    ensures prefix == "" ==> "val_" + key == BindKey(prefix, ValRole, key)
    ensures prefix != "" ==> "idx" + prefix + "_val_" + key == BindKey(prefix, ValRole, key)
  {
    assert "val_" + key == ValRole + "_" + key;
    assert "idx" + prefix + "_val_" + key == "idx" + prefix + "_" + (ValRole + "_" + key);
  }

  /** One step of the WHERE loop: a constraining key adds its clause and its
      bind, any other key adds nothing. */
  lemma ConditionStep(m: map<string, Value>, keys: seq<string>, i: nat, prefix: string)
    requires i < |keys| && forall k :: k in keys ==> k in m
    ensures var used, key := UsedKeys(m, keys[..i]), keys[i];
            var bk := BindKey(prefix, CondRole, key);
            && (!Used(m[key]) ==> UsedKeys(m, keys[..i + 1]) == used)
            && (Used(m[key]) ==>
                 && UsedKeys(m, keys[..i + 1]) == used + [key]
                 && Clauses(m, used + [key], prefix) == Clauses(m, used, prefix) + [Clause(key, m[key], bk)]
                 && Binds(m, used + [key], prefix, CondRole) == Binds(m, used, prefix, CondRole)[bk := m[key]])
  {
    assert keys[..i + 1][..i] == keys[..i];
    var used := UsedKeys(m, keys[..i]);
    assert (used + [keys[i]])[..|used|] == used;
  }

  /** The loop of `BuildCondition`: one clause and one bind per key whose
      value constrains, in the order of `keys`. */
  method ConditionClauses(condMap: map<string, Value>, keys: seq<string>, prefixIdx: string)
    returns (cond: seq<string>, bind: map<string, Value>)
    requires forall k :: k in keys ==> k in condMap
    ensures cond == Clauses(condMap, UsedKeys(condMap, keys), prefixIdx)
    ensures bind == Binds(condMap, UsedKeys(condMap, keys), prefixIdx, CondRole)
  {
    cond, bind := [], map[];
    ghost var used: seq<string> := [];
    for i := 0 to |keys|
      invariant used == UsedKeys(condMap, keys[..i])
      invariant forall k :: k in used ==> k in condMap
      invariant cond == Clauses(condMap, used, prefixIdx)
      invariant bind == Binds(condMap, used, prefixIdx, CondRole)
    {
      var key := keys[i];
      var val := condMap[key];
      ConditionStep(condMap, keys, i, prefixIdx);
      var bindKey := "cond_" + key;
      if prefixIdx != "" {
        bindKey := "idx" + prefixIdx + "_cond_" + key;
      }
      CondKeyText(prefixIdx, key);
      var str := "";
      if val.List? {
        if |val.items| == 0 {
          continue;
        }
        str := key + " IN (:" + bindKey + ")";
      } else {
        str := key + "=:" + bindKey;
      }
      cond := cond + [str];
      bind := bind[bindKey := val];
      used := used + [key];
    }
    assert keys[..|keys|] == keys;
  }

  /** Builds the WHERE fragment clause by clause over the sorted keys. */
  method BuildCondition(condition: Input, prefixIdx: string) returns (query: string, bind: map<string, Value>, err: Option<Error>)
    ensures Built(query, bind, err) == ConditionSpec(condition, prefixIdx)
  {
    var condMap, mapErr := StructToMap(condition, Tag);
    if mapErr.Some? {
      return "", map[], Some(Wrap(ConditionFieldMap, MapFailed(mapErr.value)));
    }
    var keys := SortMapKeys(condMap);
    var cond;
    cond, bind := ConditionClauses(condMap, keys, prefixIdx);
    query := Join(cond, " AND ");
    err := None;
  }

  /** The fragment is empty exactly when no field constrains. */
  lemma ConditionEmptyIff(m: map<string, Value>, prefix: string)
    ensures ConditionOf(m, prefix).text == "" <==> CondNames(m) == []
  {
    var c := Clauses(m, CondNames(m), prefix);
    if |c| > 0 {
      JoinStartsWithFirst(c, " AND ");
    }
  }

  /** Distinct names give one bind per name, holding its value, and no other bind. */
  lemma BindsShape(m: map<string, Value>, names: seq<string>, prefix: string, role: string)
    requires IsRole(role) && Distinct(names)
    requires forall k :: k in names ==> k in m
    ensures var b := Binds(m, names, prefix, role);
            && |b| == |names|
            && (forall n :: n in names ==> BindKey(prefix, role, n) in b && b[BindKey(prefix, role, n)] == m[n])
            && (forall bk :: bk in b ==> exists n :: n in names && bk == BindKey(prefix, role, n))
  {
    BindsSpec(m, names, prefix, role);
    BindsCount(m, names, prefix, role);
  }

  /** Every clause names its field and a placeholder whose bind key is in the
      bind map, bound to the field's value; the bind map holds nothing else. */
  lemma ConditionPlaceholdersBound(m: map<string, Value>, prefix: string)
    ensures var names, f := CondNames(m), ConditionOf(m, prefix);
            var clauses := Clauses(m, names, prefix);
            && f.text == Join(clauses, " AND ")
            && |f.binds| == |names|
            && (forall j :: 0 <= j < |names| ==>
                 var key := BindKey(prefix, CondRole, names[j]);
                 && clauses[j] == Clause(names[j], m[names[j]], key)
                 && key in f.binds && f.binds[key] == m[names[j]])
            && (forall bk :: bk in f.binds ==> exists n :: n in names && bk == BindKey(prefix, CondRole, n))
  {
    var names := CondNames(m);
    BindsSpec(m, names, prefix, CondRole);
    AscendingIsDistinct(names);
    BindsCount(m, names, prefix, CondRole);
    forall j | 0 <= j < |names|
      ensures names[j] in names
    {
    }
  }

  lemma {:induction false} BindsAgree(m1: map<string, Value>, m2: map<string, Value>, names: seq<string>, prefix: string, role: string)
    requires forall k :: k in names ==> k in m1 && k in m2 && m1[k] == m2[k]
    ensures Binds(m1, names, prefix, role) == Binds(m2, names, prefix, role)
  {
    if |names| > 0 {
      BindsAgree(m1, m2, names[..|names| - 1], prefix, role);
    }
  }

  /** Dropping a name whose value does not constrain leaves the constraining names as they were. */
  lemma CondNamesWithout(m: map<string, Value>, k: string)
    requires k in m && !Used(m[k])
    ensures CondNames(m) == CondNames(m - {k})
  {
    var a, b := CondNames(m), CondNames(m - {k});
    forall x
      ensures x in a <==> x in b
    {
      if x != k {
        assert x in m <==> x in m - {k};
      }
    }
    AscendingUnique(a, b);
  }

  lemma ClausesAgree(m1: map<string, Value>, m2: map<string, Value>, names: seq<string>, prefix: string)
    requires forall k :: k in names ==> k in m1 && k in m2 && m1[k] == m2[k]
    ensures Clauses(m1, names, prefix) == Clauses(m2, names, prefix)
  {
  }

  /** An empty slice contributes neither a clause nor a bind: the fragment is
      as if the key were absent from the condition map. */
  lemma EmptyListLikeAbsent(m: map<string, Value>, k: string, prefix: string)
    requires k in m && m[k] == List([])
    ensures ConditionOf(m, prefix) == ConditionOf(m - {k}, prefix)
  {
    var names := CondNames(m);
    CondNamesWithout(m, k);
    assert forall x :: x in names ==> x in m && x in (m - {k}) && m[x] == (m - {k})[x];
    BindsAgree(m, m - {k}, names, prefix, CondRole);
    ClausesAgree(m, m - {k}, names, prefix);
  }

  /** On the descriptor: a pointer to an empty slice builds the same condition as
      a nil pointer, provided no other present field carries the same wire name. */
  lemma EmptyListFieldLikeNil(fs: seq<Field>, i: nat, prefix: string)
    requires i < |fs| && WireName(fs[i], Tag) != "" && fs[i].val == Ptr(Some(List([])))
    requires forall j :: 0 <= j < |fs| && j != i && Present(fs[j], Tag) ==> WireName(fs[j], Tag) != WireName(fs[i], Tag)
    ensures ConditionSpec(Record(fs[i := Field(fs[i].tags, Ptr(None))]), prefix) == ConditionSpec(Record(fs), prefix)
  {
    var k := WireName(fs[i], Tag);
    FieldMapUnset(fs, Tag, i);
    FieldMapLastWins(fs, Tag, i);
    EmptyListLikeAbsent(FieldMap(fs, Tag), k, prefix);
  }

  /** A field tagged `db:"id"`. */
  function IdField(v: FieldVal): Field
  {
    Field(map[Tag := "id"], v)
  }

  lemma SharedNameFieldMaps()
    ensures FieldMap([IdField(Ptr(Some(Scalar(Int(5))))), IdField(Ptr(Some(List([]))))], Tag) == map["id" := List([])]
    ensures FieldMap([IdField(Ptr(Some(Scalar(Int(5))))), IdField(Ptr(None))], Tag) == map["id" := Scalar(Int(5))]
  {
    var id, ids, nil := IdField(Ptr(Some(Scalar(Int(5))))), IdField(Ptr(Some(List([])))), IdField(Ptr(None));
    assert [id, ids][..1] == [id] && [id][..0] == [];
    assert [id, nil][..1] == [id];
    assert WireName(id, Tag) == "id" && WireName(ids, Tag) == "id" && WireName(nil, Tag) == "id";
    assert FieldMap([id][..0], Tag) == map[];
  }

  lemma SingletonKeys()
    ensures SortedSeq({"id"}) == ["id"]
  {
    var s := SortedSeq({"id"});
    assert |s| == 1 && s[0] in s;
  }

  lemma SharedNameEmptyFragment()
    ensures ConditionOf(map["id" := List([])], "") == Fragment("", map[])
  {
    var m := map["id" := List([])];
    SingletonKeys();
    assert UsedKeys(m, ["id"]) == [];
  }

  lemma SharedNameScalarFragment()
    ensures ConditionOf(map["id" := Scalar(Int(5))], "") == Fragment("id=:cond_id", map["cond_id" := Scalar(Int(5))])
  {
    var m := map["id" := Scalar(Int(5))];
    SingletonKeys();
    assert ["id"][..0] == [];
    assert UsedKeys(m, ["id"]) == ["id"];
    assert BindKey("", CondRole, "id") == "cond_id";
    assert Assignment("id", "cond_id") == "id=:cond_id";
    assert Clauses(m, ["id"], "") == ["id=:cond_id"];
  }

  lemma SharedNameFragments()
    ensures ConditionOf(map["id" := List([])], "") == Fragment("", map[])
    ensures ConditionOf(map["id" := Scalar(Int(5))], "") == Fragment("id=:cond_id", map["cond_id" := Scalar(Int(5))])
  {
    SharedNameEmptyFragment();
    SharedNameScalarFragment();
  }

  /** With two fields sharing a wire name, a later pointer to an empty slice
      hides an earlier scalar: the condition loses that constraint, which a nil
      pointer in its place would keep. */
  lemma SharedNameEmptyListHidesScalar()
    ensures var id, ids, nil := IdField(Ptr(Some(Scalar(Int(5))))), IdField(Ptr(Some(List([])))), IdField(Ptr(None));
            && ConditionSpec(Record([id, ids]), "") == Built("", map[], None)
            && ConditionSpec(Record([id, nil]), "") == Built("id=:cond_id", map["cond_id" := Scalar(Int(5))], None)
  {
    SharedNameFieldMaps();
    SharedNameFragments();
  }
}
