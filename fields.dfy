/**
 Tagged-field extraction (`StructToMap`) and sorted key lists (`SortMapKeys`).

 Go reflection over a struct is replaced by an explicit descriptor: a record is
 the sequence of its fields in declaration order, each with its struct tag (a
 map from naming scheme to wire name) and its value, which is either a pointer
 (nil or set) or a plain value.
 */
module Fields {
  import opened Wrappers
  import opened Strings

  /** A scalar value, opaque to the builders. */
  datatype Atom = Str(s: string) | Int(i: int) | Bool(b: bool)

  /** What a field holds once dereferenced: a scalar or a slice/array of scalars. */
  datatype Value = Scalar(atom: Atom) | List(items: seq<Atom>)

  /** A pointer field (nil is `Ptr(None)`) or a non-pointer field. */
  datatype FieldVal = Ptr(target: Option<Value>) | Direct(value: Value)

  datatype Field = Field(tags: map<string, string>, val: FieldVal)

  /** The argument of `StructToMap`: a struct, or anything else. */
  datatype Input = Record(fields: seq<Field>) | NonRecord

  datatype MapError = TagRequired | NotStruct

  /** Go's `StructTag.Get`: the wire name for a scheme, "" when there is none. */
  function WireName(f: Field, tag: string): (r: string)
    ensures tag !in f.tags ==> r == ""
    ensures r != "" ==> tag in f.tags && f.tags[tag] == r
  {
    if tag in f.tags then f.tags[tag] else ""
  }

  predicate IsNil(f: Field)
  {
    f.val.Ptr? && f.val.target.None?
  }

  /** A field that `StructToMap` records: it has a wire name and is not a nil pointer. */
  predicate Present(f: Field, tag: string)
  {
    WireName(f, tag) != "" && !IsNil(f)
  }

  /** The recorded value: a pointer is dereferenced one level. */
  function Deref(f: Field): Value
    requires !IsNil(f)
  {
    match f.val
    case Ptr(t) => t.value
    case Direct(v) => v
  }

  /** The map that the extraction loop has built after the fields `fs`. */
  function FieldMap(fs: seq<Field>, tag: string): map<string, Value>
  {
    if |fs| == 0 then map[]
    else
      var m := FieldMap(fs[..|fs| - 1], tag);
      var f := fs[|fs| - 1];
      if Present(f, tag) then m[WireName(f, tag) := Deref(f)] else m
  }

  /** A wire name is a key exactly when some present field carries it: fields
      with no tag and nil pointers never appear. */
  lemma {:induction false} FieldMapKeys(fs: seq<Field>, tag: string, k: string)
    ensures k in FieldMap(fs, tag) <==>
            exists i :: 0 <= i < |fs| && Present(fs[i], tag) && WireName(fs[i], tag) == k
  {
    if |fs| > 0 {
      var init := fs[..|fs| - 1];
      FieldMapKeys(init, tag, k);
      if k in FieldMap(init, tag) {
        var i :| 0 <= i < |init| && Present(init[i], tag) && WireName(init[i], tag) == k;
        assert fs[i] == init[i];
      }
      if exists i :: 0 <= i < |fs| && Present(fs[i], tag) && WireName(fs[i], tag) == k {
        var i :| 0 <= i < |fs| && Present(fs[i], tag) && WireName(fs[i], tag) == k;
        if i < |fs| - 1 {
          assert init[i] == fs[i];
        }
      }
    }
  }

  /** When several present fields share a wire name, the last one in
      declaration order gives the value; a set pointer is dereferenced, whatever
      it points at. */
  lemma {:induction false} FieldMapLastWins(fs: seq<Field>, tag: string, i: nat)
    requires i < |fs| && Present(fs[i], tag)
    requires forall j :: i < j < |fs| && Present(fs[j], tag) ==> WireName(fs[j], tag) != WireName(fs[i], tag)
    ensures WireName(fs[i], tag) in FieldMap(fs, tag)
    ensures FieldMap(fs, tag)[WireName(fs[i], tag)] == Deref(fs[i])
  {
    if i < |fs| - 1 {
      var init := fs[..|fs| - 1];
      assert init[i] == fs[i];
      FieldMapLastWins(init, tag, i);
    }
  }

  /** Unsetting the only present field with a given wire name removes that name. */
  lemma {:induction false} FieldMapUnset(fs: seq<Field>, tag: string, i: nat)
    requires i < |fs| && Present(fs[i], tag)
    requires forall j :: 0 <= j < |fs| && j != i && Present(fs[j], tag) ==> WireName(fs[j], tag) != WireName(fs[i], tag)
    ensures FieldMap(fs[i := Field(fs[i].tags, Ptr(None))], tag) == FieldMap(fs, tag) - {WireName(fs[i], tag)}
  {
    var k := WireName(fs[i], tag);
    var fs' := fs[i := Field(fs[i].tags, Ptr(None))];
    var init, init' := fs[..|fs| - 1], fs'[..|fs| - 1];
    if i == |fs| - 1 {
      assert init' == init;
      FieldMapKeys(init, tag, k);
      assert k !in FieldMap(init, tag);
    } else {
      assert init' == init[i := Field(fs[i].tags, Ptr(None))];
      FieldMapUnset(init, tag, i);
      assert fs'[|fs| - 1] == fs[|fs| - 1];
    }
  }

  /** The outcome of `StructToMap`. */
  datatype Extraction = Extracted(m: map<string, Value>) | Failed(e: MapError)

  /** `StructToMap` as a function: the tag is checked before the kind of the input. */
  function Extract(input: Input, tag: string): (r: Extraction)
    ensures tag == "" ==> r == Failed(TagRequired)
    ensures tag != "" && input.NonRecord? ==> r == Failed(NotStruct)
    ensures tag != "" && input.Record? ==> r == Extracted(FieldMap(input.fields, tag))
  {
    if tag == "" then Failed(TagRequired)
    else match input
      case NonRecord => Failed(NotStruct)
      case Record(fs) => Extracted(FieldMap(fs, tag))
  }

  /** Builds the wire-name map field by field, as `StructToMap` does. */
  method StructToMap(payload: Input, tag: string) returns (result: map<string, Value>, err: Option<MapError>)
    ensures tag == "" ==> err == Some(TagRequired) && result == map[]
    ensures tag != "" && payload.NonRecord? ==> err == Some(NotStruct) && result == map[]
    ensures tag != "" && payload.Record? ==> err == None && result == FieldMap(payload.fields, tag)
  {
    result := map[];
    if tag == "" {
      return result, Some(TagRequired);
    }
    if payload.NonRecord? {
      return result, Some(NotStruct);
    }
    var fs := payload.fields;
    for i := 0 to |fs|
      invariant result == FieldMap(fs[..i], tag)
    {
      assert fs[..i + 1][..i] == fs[..i];
      var valueField := fs[i].val;
      var fieldName := WireName(fs[i], tag);
      if fieldName == "" {
        continue;
      }
      if valueField.Ptr? {
        if valueField.target.None? {
          continue;
        }
        valueField := Direct(valueField.target.value);
      }
      result := result[fieldName := valueField.value];
    }
    assert fs[..|fs|] == fs;
    err := None;
  }

  /** The least element of a non-empty set of strings. */
  lemma {:induction false} MinExists(s: set<string>)
    requires s != {}
    ensures exists x :: x in s && forall y :: y in s ==> Le(x, y)
    decreases |s|
  {
    var z :| z in s;
    LessIrreflexive(z);
    if s != {z} {
      MinExists(s - {z});
      var w :| w in s - {z} && forall y :: y in s - {z} ==> Le(w, y);
      if Le(w, z) {
        assert forall y :: y in s ==> Le(w, y);
      } else {
        LessAsymmetric(z, w);
        forall y | y in s
          ensures Le(z, y)
        {
          if y != z {
            LeTransitive(z, w, y);
          }
        }
      }
    }
  }

  /** The keys of a set in ascending order: the specification of `SortMapKeys`. */
  ghost function SortedSeq(s: set<string>): (r: seq<string>)
    ensures Ascending(r) && |r| == |s|
    ensures forall x :: x in r <==> x in s
    decreases |s|
  {
    if s == {} then []
    else
      MinExists(s);
      var x :| x in s && forall y :: y in s ==> Le(x, y);
      var rest := SortedSeq(s - {x});
      assert forall j :: 0 <= j < |rest| ==> Less(x, rest[j]) by {
        forall j | 0 <= j < |rest|
          ensures Less(x, rest[j])
        {
          assert rest[j] in rest;
          assert rest[j] in s - {x};
          LeDistinctIsLess(x, rest[j]);
        }
      }
      [x] + rest
  }

  /** The state of the insertion loop: `s[..i + 1]` is sorted but for the
      element at `j`, which is below everything after it. */
  ghost predicate Inserting(s: seq<string>, i: nat, j: nat)
  {
    && j <= i < |s|
    && (forall p, q :: 0 <= p < q <= i && p != j && q != j ==> Le(s[p], s[q]))
    && (forall q :: j < q <= i ==> Less(s[j], s[q]))
  }

  /** Swapping the inserted element down keeps the loop state. */
  lemma InsertingSwap(s: seq<string>, i: nat, j: nat)
    requires Inserting(s, i, j) && j > 0 && Less(s[j], s[j - 1])
    ensures Inserting(s[j - 1 := s[j]][j := s[j - 1]], i, j - 1)
  {
    LessAsymmetric(s[j], s[j - 1]);
  }

  /** Once the inserted element is not below its left neighbour, the prefix is sorted. */
  lemma InsertingDone(s: seq<string>, i: nat, j: nat)
    requires Inserting(s, i, j) && (j == 0 || !Less(s[j], s[j - 1]))
    ensures Sorted(s[..i + 1])
  {
    forall p, q | 0 <= p < q <= i
      ensures Le(s[p], s[q])
    {
      if p == j {
        LessAsymmetric(s[p], s[q]);
      } else if q == j {
        if p < j - 1 {
          LeTransitive(s[p], s[j - 1], s[j]);
        }
      }
    }
  }

  /** Moves `a[i]` left past every larger element, extending the sorted prefix by one. */
  method InsertAt(a: array<string>, i: nat)
    requires i < a.Length && Sorted(a[..i])
    modifies a
    ensures Sorted(a[..i + 1])
    ensures a[i + 1..] == old(a[i + 1..])
    ensures multiset(a[..]) == multiset(old(a[..]))
  {
    var j: nat := i;
    assert Inserting(a[..], i, j) by {
      assert forall p :: 0 <= p < i ==> a[..i][p] == a[p];
    }
    while j > 0 && Less(a[j], a[j - 1])
      invariant Inserting(a[..], i, j)
      invariant a[i + 1..] == old(a[i + 1..])
      invariant multiset(a[..]) == multiset(old(a[..]))
    {
      InsertingSwap(a[..], i, j);
      a[j - 1], a[j] := a[j], a[j - 1];
      j := j - 1;
    }
    InsertingDone(a[..], i, j);
    assert a[..i + 1] == a[..][..i + 1];
  }

  /** Go's `sort.Strings`, in place. */
  method SortStrings(a: array<string>)
    modifies a
    ensures Sorted(a[..])
    ensures multiset(a[..]) == multiset(old(a[..]))
  {
    for i := 0 to a.Length
      invariant Sorted(a[..i])
      invariant multiset(a[..]) == multiset(old(a[..]))
    {
      InsertAt(a, i);
    }
    assert a[..a.Length] == a[..];
  }

  lemma DistinctCountsOne<T>(s: seq<T>, x: T)
    requires Distinct(s)
    ensures multiset(s)[x] <= 1
  {
    if |s| > 0 {
      assert s == [s[0]] + s[1..];
      DistinctCountsOne(s[1..], x);
      if x == s[0] {
        assert x !in s[1..];
      }
    }
  }

  lemma RepeatCountsTwo<T>(s: seq<T>, i: nat, j: nat)
    requires i < j < |s| && s[i] == s[j]
    ensures multiset(s)[s[i]] >= 2
  {
    assert s == s[..j] + [s[j]] + s[j + 1..];
    assert s[i] in s[..j];
  }

  /** The keys of a map, each once, in ascending order. */
  method SortMapKeys(m: map<string, Value>) returns (keys: seq<string>)
    ensures Ascending(keys) && |keys| == |m|
    ensures forall k :: k in keys <==> k in m
    ensures keys == SortedSeq(m.Keys)
  {
    var collected: seq<string> := [];
    var rest := m.Keys;
    while rest != {}
      invariant rest <= m.Keys
      invariant forall k :: k in collected <==> k in m && k !in rest
      invariant Distinct(collected)
      decreases rest
    {
      var key :| key in rest;
      collected := collected + [key];
      rest := rest - {key};
    }
    var a := new string[|collected|](i requires 0 <= i < |collected| => collected[i]);
    assert a[..] == collected;
    SortStrings(a);
    keys := a[..];
    assert forall k :: k in keys <==> k in collected by {
      forall k
        ensures k in keys <==> k in collected
      {
        assert k in multiset(keys) <==> k in multiset(collected);
      }
    }
    forall i, j | 0 <= i < j < |keys|
      ensures Less(keys[i], keys[j])
    {
      if keys[i] == keys[j] {
        RepeatCountsTwo(keys, i, j);
        DistinctCountsOne(collected, keys[i]);
        assert false;
      }
      LeDistinctIsLess(keys[i], keys[j]);
    }
    AscendingUnique(keys, SortedSeq(m.Keys));
  }
}
