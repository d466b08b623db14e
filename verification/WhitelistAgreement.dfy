/** The two modes agree: error mode reports exactly what strip mode deletes. */
module WhitelistAgreement {
  import opened Outcomes
  import opened Whitelist

  // ---- reading a value along a path ----

  function Find(fields: seq<Field>, key: string): Option<Value> {
    if fields == [] then None
    else if fields[0].key == key then Some(fields[0].value)
    else Find(fields[1..], key)
  }

  function Get(v: Value, path: Path): Option<Value>
    decreases |path|
  {
    if path == [] then Some(v)
    else
      match (v, path[0])
      case (Object(fields), Key(k)) => var f := Find(fields, k); if f.Some? then Get(f.value, path[1..]) else None
      case (List(items), Index(i)) => if i < |items| then Get(items[i], path[1..]) else None
      case _ => None
  }

  // ---- which paths are errors ----

  /** The path leads to a property that is not whitelisted, through whitelisted properties of registered types. */
  predicate IsError(t: Classes, cls: string, fields: seq<Field>, p: Path)
    decreases |p|, 0
  {
    Keys(t, cls) != {} && p != [] && p[0].Key? &&
    var f := Find(fields, p[0].key);
    f.Some? &&
    if p[0].key !in Keys(t, cls) then |p| == 1 else IsErrorIn(t, NestedType(t, cls, p[0].key), f.value, p[1..])
  }

  predicate IsErrorIn(t: Classes, nested: Option<string>, v: Value, p: Path)
    decreases |p|, 1
  {
    nested.Some? &&
    match v
    case Leaf(_) => false
    case Object(fields) => IsError(t, nested.value, fields, p)
    case List(items) =>
      p != [] && p[0].Index? && p[0].i < |items| && items[p[0].i].Object? &&
      IsError(t, nested.value, items[p[0].i].fields, p[1..])
  }

  /** JavaScript objects have each key once. */
  predicate Distinct(fields: seq<Field>)
    decreases fields
  {
    (forall i, j :: 0 <= i < j < |fields| ==> fields[i].key != fields[j].key) &&
    forall i :: 0 <= i < |fields| ==> DistinctIn(fields[i].value)
  }

  predicate DistinctIn(v: Value)
    decreases v
  {
    match v
    case Leaf(_) => true
    case List(items) => forall i :: 0 <= i < |items| ==> DistinctIn(items[i])
    case Object(fields) => Distinct(fields)
  }

  lemma UnderContains(step: Step, paths: seq<Path>, p: Path)
    ensures p in Under(step, paths) <==> p != [] && p[0] == step && p[1..] in paths
  {
    if p != [] && p[0] == step && p[1..] in paths {
      var i :| 0 <= i < |paths| && paths[i] == p[1..];
      assert Under(step, paths)[i] == [step] + p[1..] == p;
    }
  }

  /** Error mode reports exactly the error paths. */
  lemma {:induction false} ErrorsAreListed(t: Classes, cls: string, fields: seq<Field>, p: Path)
    requires Distinct(fields)
    ensures p in Errors(t, cls, fields) <==> IsError(t, cls, fields, p)
    decreases fields, 1
  {
    if Keys(t, cls) != {} {
      FieldErrorsAreListed(t, cls, fields, p);
    }
  }

  lemma {:induction false} FieldErrorsAreListed(t: Classes, cls: string, fields: seq<Field>, p: Path)
    requires Distinct(fields) && Keys(t, cls) != {}
    ensures p in FieldErrors(t, cls, fields) <==> IsError(t, cls, fields, p)
    decreases fields, 0
  {
    if fields != [] {
      var f := fields[0];
      FieldErrorsAreListed(t, cls, fields[1..], p);
      FoundOnce(fields, f.key);
      if f.key in Keys(t, cls) {
        var below := ValueErrors(t, NestedType(t, cls, f.key), f.value);
        UnderContains(Key(f.key), below, p);
        if p != [] {
          ValueErrorsAreListed(t, NestedType(t, cls, f.key), f.value, p[1..]);
        }
      } else {
        assert p == [Key(f.key)] <==> p != [] && p[0] == Key(f.key) && |p| == 1;
      }
    }
  }

  lemma {:induction false} FoundOnce(fields: seq<Field>, key: string)
    requires fields != [] && fields[0].key == key &&
      forall i, j :: 0 <= i < j < |fields| ==> fields[i].key != fields[j].key
    ensures Find(fields[1..], key).None?
  {
    FindsNothing(fields[1..], key);
  }

  lemma {:induction false} FindsNothing(fields: seq<Field>, key: string)
    requires forall i :: 0 <= i < |fields| ==> fields[i].key != key
    ensures Find(fields, key).None?
  {
    if fields != [] {
      FindsNothing(fields[1..], key);
    }
  }

  lemma {:induction false} ValueErrorsAreListed(t: Classes, nested: Option<string>, v: Value, p: Path)
    requires DistinctIn(v)
    ensures p in ValueErrors(t, nested, v) <==> IsErrorIn(t, nested, v, p)
    decreases v
  {
    if nested.Some? {
      match v
      case Leaf(_) =>
      case Object(fields) => ErrorsAreListed(t, nested.value, fields, p);
      case List(items) => ItemErrorsAreListed(t, nested.value, items, 0, p);
    }
  }

  lemma {:induction false} ItemErrorsAreListed(t: Classes, cls: string, items: seq<Value>, i: nat, p: Path)
    requires i <= |items| && forall k :: 0 <= k < |items| ==> DistinctIn(items[k])
    ensures p in ItemErrors(t, cls, items, i) <==>
      p != [] && p[0].Index? && i <= p[0].i < |items| && items[p[0].i].Object? &&
      IsError(t, cls, items[p[0].i].fields, p[1..])
    decreases items, |items| - i
  {
    if i < |items| {
      ItemErrorsAreListed(t, cls, items, i + 1, p);
      if items[i].Object? {
        UnderContains(Index(i), Errors(t, cls, items[i].fields), p);
        if p != [] {
          ErrorsAreListed(t, cls, items[i].fields, p[1..]);
        }
      }
    }
  }

  // ---- what survives stripping ----

  lemma FindPrepended(f: Field, rest: seq<Field>, key: string)
    ensures Find([f] + rest, key) == if f.key == key then Some(f.value) else Find(rest, key)
  {
    assert ([f] + rest)[1..] == rest;
  }

  lemma {:induction false} FindStripped(t: Classes, cls: string, fields: seq<Field>, key: string)
    ensures Find(StrippedFields(t, cls, fields), key) ==
      if key !in Keys(t, cls) || Find(fields, key).None? then None
      else Some(StrippedValue(t, NestedType(t, cls, key), Find(fields, key).value))
  {
    if fields != [] {
      FindStripped(t, cls, fields[1..], key);
      var f, rest := fields[0], StrippedFields(t, cls, fields[1..]);
      if f.key in Keys(t, cls) {
        FindPrepended(Field(f.key, StrippedValue(t, NestedType(t, cls, f.key), f.value)), rest, key);
      } else {
        assert [] + rest == rest;
      }
    }
  }

  /** Some part of the path, from its start, is an error path. */
  predicate Blocked(t: Classes, cls: string, fields: seq<Field>, p: Path) {
    exists n :: 0 <= n <= |p| && IsError(t, cls, fields, p[..n])
  }

  predicate BlockedIn(t: Classes, nested: Option<string>, v: Value, p: Path) {
    exists n :: 0 <= n <= |p| && IsErrorIn(t, nested, v, p[..n])
  }

  predicate SameLeaf(a: Option<Value>, b: Option<Value>) {
    a.Some? && a.value.Leaf? ==> b == a
  }

  /**
   * A path exists after stripping exactly if it existed before and no error path is part of it; the
   * plain values that remain are unchanged.
   */
  lemma {:induction false} SurvivorsExactly(t: Classes, cls: string, fields: seq<Field>, p: Path)
    ensures Get(Object(Stripped(t, cls, fields)), p).Some? <==>
      Get(Object(fields), p).Some? && !Blocked(t, cls, fields, p)
    ensures !Blocked(t, cls, fields, p) ==> SameLeaf(Get(Object(fields), p), Get(Object(Stripped(t, cls, fields)), p))
    decreases |p|, 0
  {
    if Keys(t, cls) == {} || p == [] || !p[0].Key? {
      NotBlocked(t, cls, fields, p);
    } else {
      var key := p[0].key;
      FindStripped(t, cls, fields, key);
      var f := Find(fields, key);
      if f.None? {
        assert Get(Object(fields), p).None?;
        assert Get(Object(Stripped(t, cls, fields)), p).None?;
      } else if key !in Keys(t, cls) {
        assert IsError(t, cls, fields, p[..1]);
      } else {
        BlockedBelow(t, cls, fields, p);
        SurvivorsIn(t, NestedType(t, cls, key), f.value, p[1..]);
      }
    }
  }

  lemma NotBlocked(t: Classes, cls: string, fields: seq<Field>, p: Path)
    requires Keys(t, cls) == {} || p == [] || !p[0].Key?
    ensures !Blocked(t, cls, fields, p)
  {
  }

  lemma BlockedBelow(t: Classes, cls: string, fields: seq<Field>, p: Path)
    requires Keys(t, cls) != {} && p != [] && p[0].Key? && p[0].key in Keys(t, cls) && Find(fields, p[0].key).Some?
    ensures Blocked(t, cls, fields, p) <==>
      BlockedIn(t, NestedType(t, cls, p[0].key), Find(fields, p[0].key).value, p[1..])
  {
    var nested, v := NestedType(t, cls, p[0].key), Find(fields, p[0].key).value;
    if n :| 0 <= n <= |p| && IsError(t, cls, fields, p[..n]) {
      assert p[..n][1..] == p[1..][..n - 1];
      assert IsErrorIn(t, nested, v, p[1..][..n - 1]);
    }
    if n :| 0 <= n <= |p[1..]| && IsErrorIn(t, nested, v, p[1..][..n]) {
      assert p[..n + 1][1..] == p[1..][..n];
      assert IsError(t, cls, fields, p[..n + 1]);
    }
  }

  lemma {:induction false} SurvivorsIn(t: Classes, nested: Option<string>, v: Value, p: Path)
    ensures Get(StrippedValue(t, nested, v), p).Some? <==> Get(v, p).Some? && !BlockedIn(t, nested, v, p)
    ensures !BlockedIn(t, nested, v, p) ==> SameLeaf(Get(v, p), Get(StrippedValue(t, nested, v), p))
    decreases |p|, 1
  {
    if nested.Some? {
      match v
      case Leaf(_) =>
      case Object(fields) =>
        SurvivorsExactly(t, nested.value, fields, p);
        ObjectBlocked(t, nested, fields, p);
      case List(items) => SurvivorsInList(t, nested.value, items, p);
    }
  }

  lemma ObjectBlocked(t: Classes, nested: Option<string>, fields: seq<Field>, p: Path)
    requires nested.Some?
    ensures BlockedIn(t, nested, Object(fields), p) == Blocked(t, nested.value, fields, p)
  {
    if n :| 0 <= n <= |p| && IsErrorIn(t, nested, Object(fields), p[..n]) {
      assert IsError(t, nested.value, fields, p[..n]);
    }
    if n :| 0 <= n <= |p| && IsError(t, nested.value, fields, p[..n]) {
      assert IsErrorIn(t, nested, Object(fields), p[..n]);
    }
  }

  lemma {:induction false} SurvivorsInList(t: Classes, cls: string, items: seq<Value>, p: Path)
    ensures Get(List(StrippedItems(t, cls, items)), p).Some? <==>
      Get(List(items), p).Some? && !BlockedIn(t, Some(cls), List(items), p)
    ensures !BlockedIn(t, Some(cls), List(items), p) ==>
      SameLeaf(Get(List(items), p), Get(List(StrippedItems(t, cls, items)), p))
    decreases |p|, 0
  {
    if p != [] && p[0].Index? && p[0].i < |items| {
      var item := items[p[0].i];
      ListBlocked(t, cls, items, p);
      if item.Object? {
        SurvivorsExactly(t, cls, item.fields, p[1..]);
      }
    } else {
      assert !BlockedIn(t, Some(cls), List(items), p);
    }
  }

  lemma ListBlocked(t: Classes, cls: string, items: seq<Value>, p: Path)
    requires p != [] && p[0].Index? && p[0].i < |items|
    ensures BlockedIn(t, Some(cls), List(items), p) <==>
      items[p[0].i].Object? && Blocked(t, cls, items[p[0].i].fields, p[1..])
  {
    if n :| 0 <= n <= |p| && IsErrorIn(t, Some(cls), List(items), p[..n]) {
      assert p[..n][1..] == p[1..][..n - 1];
      assert IsError(t, cls, items[p[0].i].fields, p[1..][..n - 1]);
    }
    if items[p[0].i].Object? {
      if n :| 0 <= n <= |p[1..]| && IsError(t, cls, items[p[0].i].fields, p[1..][..n]) {
        assert p[..n + 1][1..] == p[1..][..n];
        assert IsErrorIn(t, Some(cls), List(items), p[..n + 1]);
      }
    }
  }

  // ---- the modes together ----

  /** Deleted by stripping: there before, gone afterwards, while what contained it is still there. */
  predicate Deleted(before: seq<Field>, after: seq<Field>, p: Path) {
    p != [] && Get(Object(before), p).Some? && Get(Object(after), p).None? && Get(Object(after), p[..|p| - 1]).Some?
  }

  lemma {:induction false} ErrorsExist(t: Classes, cls: string, fields: seq<Field>, p: Path)
    requires IsError(t, cls, fields, p)
    ensures Get(Object(fields), p).Some? && p != []
    ensures forall n :: 0 <= n < |p| ==> !IsError(t, cls, fields, p[..n])
    decreases |p|, 0
  {
    var key := p[0].key;
    if key in Keys(t, cls) {
      var v := Find(fields, key).value;
      ErrorsExistIn(t, NestedType(t, cls, key), v, p[1..]);
      forall n | 0 <= n < |p| ensures !IsError(t, cls, fields, p[..n]) {
        if n > 0 {
          assert p[..n][1..] == p[1..][..n - 1];
        }
      }
    }
  }

  lemma {:induction false} ErrorsExistIn(t: Classes, nested: Option<string>, v: Value, p: Path)
    requires IsErrorIn(t, nested, v, p)
    ensures Get(v, p).Some? && p != []
    ensures forall n :: 0 <= n < |p| ==> !IsErrorIn(t, nested, v, p[..n])
    decreases |p|, 1
  {
    match v
    case Object(fields) => ErrorsExist(t, nested.value, fields, p);
    case List(items) =>
      var inner := items[p[0].i].fields;
      ErrorsExist(t, nested.value, inner, p[1..]);
      forall n | 0 <= n < |p| ensures !IsErrorIn(t, nested, v, p[..n]) {
        if n > 0 {
          assert p[..n][1..] == p[1..][..n - 1];
        }
      }
  }

  /** Error mode reports exactly the paths that strip mode deletes. */
  lemma ReportsExactlyWhatStripDeletes(t: Classes, cls: string, fields: seq<Field>, p: Path)
    requires Distinct(fields)
    ensures p in Errors(t, cls, fields) <==> Deleted(fields, Stripped(t, cls, fields), p)
  {
    ErrorsAreListed(t, cls, fields, p);
    SurvivorsExactly(t, cls, fields, p);
    if IsError(t, cls, fields, p) {
      ErrorsExist(t, cls, fields, p);
      assert p[..|p|] == p;
      PrefixExists(Object(fields), p);
      var q := p[..|p| - 1];
      SurvivorsExactly(t, cls, fields, q);
      forall n | 0 <= n <= |q| ensures !IsError(t, cls, fields, q[..n]) {
        assert q[..n] == p[..n];
      }
    }
    if Deleted(fields, Stripped(t, cls, fields), p) {
      var q := p[..|p| - 1];
      SurvivorsExactly(t, cls, fields, q);
      assert forall n :: 0 <= n <= |q| ==> q[..n] == p[..n];
      var n :| 0 <= n <= |p| && IsError(t, cls, fields, p[..n]);
      assert n == |p| && p[..|p|] == p;
    }
  }

  lemma {:induction false} PrefixExists(v: Value, p: Path)
    requires p != [] && Get(v, p).Some?
    ensures Get(v, p[..|p| - 1]).Some?
    decreases |p|
  {
    if |p| > 1 {
      assert p[..|p| - 1][1..] == p[1..][..|p| - 2];
      match (v, p[0])
      case (Object(fields), Key(k)) => PrefixExists(Find(fields, k).value, p[1..]);
      case (List(items), Index(i)) => PrefixExists(items[i], p[1..]);
    }
  }

  /** Nothing is reported exactly if stripping changes nothing. */
  lemma {:induction false} NoErrorsMeansNoChange(t: Classes, cls: string, fields: seq<Field>)
    ensures Errors(t, cls, fields) == [] <==> Stripped(t, cls, fields) == fields
    decreases fields, 1
  {
    if Keys(t, cls) != {} {
      NoFieldErrors(t, cls, fields);
    }
  }

  lemma {:induction false} StripShrinks(t: Classes, cls: string, fields: seq<Field>)
    ensures |StrippedFields(t, cls, fields)| <= |fields|
  {
    if fields != [] {
      StripShrinks(t, cls, fields[1..]);
    }
  }

  lemma {:induction false} NoFieldErrors(t: Classes, cls: string, fields: seq<Field>)
    ensures FieldErrors(t, cls, fields) == [] <==> StrippedFields(t, cls, fields) == fields
    decreases fields, 0
  {
    if fields != [] {
      NoFieldErrors(t, cls, fields[1..]);
      StripShrinks(t, cls, fields[1..]);
      var f, rest := fields[0], StrippedFields(t, cls, fields[1..]);
      if f.key in Keys(t, cls) {
        NoValueErrors(t, NestedType(t, cls, f.key), f.value);
        var g := Field(f.key, StrippedValue(t, NestedType(t, cls, f.key), f.value));
        assert fields == [f] + fields[1..];
        assert ([g] + rest)[1..] == rest;
      }
    }
  }

  lemma {:induction false} NoValueErrors(t: Classes, nested: Option<string>, v: Value)
    ensures ValueErrors(t, nested, v) == [] <==> StrippedValue(t, nested, v) == v
    decreases v
  {
    if nested.Some? {
      match v
      case Leaf(_) =>
      case Object(fields) => NoErrorsMeansNoChange(t, nested.value, fields);
      case List(items) =>
        NoItemErrors(t, nested.value, items, 0);
        assert StrippedItems(t, nested.value, items) == items <==>
          forall k :: 0 <= k < |items| ==> StrippedItem(t, nested.value, items[k]) == items[k];
    }
  }

  lemma {:induction false} NoItemErrors(t: Classes, cls: string, items: seq<Value>, i: nat)
    requires i <= |items|
    ensures ItemErrors(t, cls, items, i) == [] <==>
      forall k :: i <= k < |items| ==> StrippedItem(t, cls, items[k]) == items[k]
    decreases items, |items| - i
  {
    if i < |items| {
      var item, rest := items[i], ItemErrors(t, cls, items, i + 1);
      NoItemErrors(t, cls, items, i + 1);
      if item.Object? {
        NoErrorsMeansNoChange(t, cls, item.fields);
        assert Under(Index(i), Errors(t, cls, item.fields)) == [] <==> Errors(t, cls, item.fields) == [];
      } else {
        assert [] + rest == rest;
      }
      assert ItemErrors(t, cls, items, i) == [] <==> StrippedItem(t, cls, item) == item && rest == [];
    }
  }

  // ---- stripping twice ----

  /** After a strip nothing is reported. */
  lemma {:induction false} StripIsIdempotent(t: Classes, cls: string, fields: seq<Field>)
    ensures Stripped(t, cls, Stripped(t, cls, fields)) == Stripped(t, cls, fields)
    ensures Errors(t, cls, Stripped(t, cls, fields)) == []
    decreases fields, 1
  {
    if Keys(t, cls) != {} {
      StripFieldsTwice(t, cls, fields);
    }
    NoErrorsMeansNoChange(t, cls, Stripped(t, cls, fields));
  }

  lemma {:induction false} StripFieldsTwice(t: Classes, cls: string, fields: seq<Field>)
    ensures StrippedFields(t, cls, StrippedFields(t, cls, fields)) == StrippedFields(t, cls, fields)
    decreases fields, 0
  {
    if fields != [] {
      StripFieldsTwice(t, cls, fields[1..]);
      var f, rest := fields[0], StrippedFields(t, cls, fields[1..]);
      if f.key in Keys(t, cls) {
        StripValueTwice(t, NestedType(t, cls, f.key), f.value);
        var g := Field(f.key, StrippedValue(t, NestedType(t, cls, f.key), f.value));
        assert ([g] + rest)[1..] == rest;
      } else {
        assert [] + rest == rest;
      }
    }
  }

  lemma {:induction false} StripValueTwice(t: Classes, nested: Option<string>, v: Value)
    ensures StrippedValue(t, nested, StrippedValue(t, nested, v)) == StrippedValue(t, nested, v)
    decreases v
  {
    if nested.Some? {
      match v
      case Leaf(_) =>
      case Object(fields) => StripIsIdempotent(t, nested.value, fields);
      case List(items) =>
        forall k | 0 <= k < |items|
          ensures StrippedItem(t, nested.value, StrippedItem(t, nested.value, items[k]))
            == StrippedItem(t, nested.value, items[k])
        {
          if items[k].Object? {
            StripIsIdempotent(t, nested.value, items[k].fields);
          }
        }
        var once := StrippedItems(t, nested.value, items);
        assert StrippedItems(t, nested.value, once) == once;
    }
  }
}
