/** Stripping or reporting properties that no input class declares, at every depth. */
module Whitelist {
  import opened Outcomes
  import U = UnifiedFields

  datatype Value = Leaf(text: string) | List(items: seq<Value>) | Object(fields: seq<Field>)

  datatype Field = Field(key: string, value: Value)

  /** The input classes: inheritance chains (the class itself first), declarations, registered nested types. */
  datatype Classes = Classes(chains: map<string, seq<string>>, levels: map<string, U.Level>,
                             registry: map<(string, string), string>)

  datatype Step = Key(key: string) | Index(i: nat)

  type Path = seq<Step>

  // ---- the class table ----

  function Chain(t: Classes, cls: string): seq<string> {
    if cls in t.chains then t.chains[cls] else [cls]
  }

  function Levels(t: Classes, names: seq<string>): seq<U.Level> {
    if names == [] then []
    else [if names[0] in t.levels then t.levels[names[0]] else U.Level([], [], [])] + Levels(t, names[1..])
  }

  function Keys(t: Classes, cls: string): set<string> {
    U.UnifiedKeys(Levels(t, Chain(t, cls)))
  }

  /** The registered type of a property, from the nearest class of the chain that has one. */
  function Lookup(t: Classes, names: seq<string>, key: string): Option<string> {
    if names == [] then None
    else if (names[0], key) in t.registry then Some(t.registry[(names[0], key)])
    else Lookup(t, names[1..], key)
  }

  function NestedType(t: Classes, cls: string, key: string): Option<string> {
    Lookup(t, Chain(t, cls), key)
  }

  /** The chain of a class: without an entry, the class alone. */
  ghost predicate IsChain(t: Classes, cls: string, chain: seq<string>) {
    if cls in t.chains then chain == t.chains[cls] else chain == [cls]
  }

  /** What the classes declare, one after the other; a class without an entry declares nothing. */
  ghost predicate AreLevels(t: Classes, chain: seq<string>, levels: seq<U.Level>) {
    |levels| == |chain| &&
    forall i :: 0 <= i < |chain| ==>
      if chain[i] in t.levels then levels[i] == t.levels[chain[i]] else levels[i] == U.Level([], [], [])
  }

  lemma {:induction false} LevelsAre(t: Classes, names: seq<string>)
    ensures AreLevels(t, names, Levels(t, names))
  {
    if names != [] {
      LevelsAre(t, names[1..]);
    }
  }

  /** The whitelisted keys of a class are those its chain re-enables or merely declares. */
  lemma KeysExactly(t: Classes, cls: string, chain: seq<string>, levels: seq<U.Level>, key: string)
    requires IsChain(t, cls, chain) && AreLevels(t, chain, levels)
    ensures key in Keys(t, cls) <==> (exists i: nat :: U.Reenabled(levels, key, i)) || U.MerelyDeclared(levels, key)
  {
    LevelsAre(t, chain);
    assert levels == Levels(t, chain);
    U.KeysExactly(levels, key);
  }

  /** Is `chain[i]` the first class with a type for the key, and `nested` that type? */
  ghost predicate FirstWithType(t: Classes, chain: seq<string>, key: string, i: nat, nested: string) {
    i < |chain| && (chain[i], key) in t.registry && t.registry[(chain[i], key)] == nested &&
    forall j :: 0 <= j < i ==> (chain[j], key) !in t.registry
  }

  /** The type of a nested property is the one registered for the nearest class that has one. */
  lemma NestedTypeExactly(t: Classes, cls: string, chain: seq<string>, key: string, nested: string)
    requires IsChain(t, cls, chain)
    ensures NestedType(t, cls, key) == Some(nested) <==> exists i: nat :: FirstWithType(t, chain, key, i, nested)
  {
    LookupExactly(t, chain, key, nested);
  }

  lemma {:induction false} LookupExactly(t: Classes, names: seq<string>, key: string, nested: string)
    ensures Lookup(t, names, key) == Some(nested) <==> exists i: nat :: FirstWithType(t, names, key, i, nested)
  {
    if names != [] {
      var rest := names[1..];
      LookupExactly(t, rest, key, nested);
      if (names[0], key) in t.registry {
        assert t.registry[(names[0], key)] == nested ==> FirstWithType(t, names, key, 0, nested);
      } else {
        if i: nat :| FirstWithType(t, rest, key, i, nested) {
          assert FirstWithType(t, names, key, i + 1, nested);
        }
        if i: nat :| FirstWithType(t, names, key, i, nested) {
          assert FirstWithType(t, rest, key, i - 1, nested);
        }
      }
    }
  }

  method FindNestedType(t: Classes, cls: string, key: string) returns (nested: Option<string>)
    ensures nested == NestedType(t, cls, key)
  {
    nested := None;
    var chain := Chain(t, cls);
    var i := 0;
    while i < |chain|
      invariant i <= |chain| && nested == None && Lookup(t, chain[i..], key) == Lookup(t, chain, key)
    {
      assert chain[i..][1..] == chain[i + 1..];
      if (chain[i], key) in t.registry {
        return Some(t.registry[(chain[i], key)]);
      }
      i := i + 1;
    }
  }

  // ---- strip mode ----

  function Stripped(t: Classes, cls: string, fields: seq<Field>): seq<Field>
    decreases fields, 1
  {
    if Keys(t, cls) == {} then fields else StrippedFields(t, cls, fields)
  }

  function StrippedFields(t: Classes, cls: string, fields: seq<Field>): seq<Field>
    decreases fields, 0
  {
    if fields == [] then []
    else
      (if fields[0].key in Keys(t, cls)
       then [Field(fields[0].key, StrippedValue(t, NestedType(t, cls, fields[0].key), fields[0].value))] else []) +
      StrippedFields(t, cls, fields[1..])
  }

  function StrippedValue(t: Classes, nested: Option<string>, v: Value): Value
    decreases v
  {
    if nested.None? then v
    else
      match v
      case Leaf(_) => v
      case List(items) => List(StrippedItems(t, nested.value, items))
      case Object(fields) => Object(Stripped(t, nested.value, fields))
  }

  function StrippedItem(t: Classes, cls: string, item: Value): Value
    decreases item
  {
    if item.Object? then Object(Stripped(t, cls, item.fields)) else item
  }

  function StrippedItems(t: Classes, cls: string, items: seq<Value>): (r: seq<Value>)
    ensures |r| == |items| && forall i :: 0 <= i < |items| ==> r[i] == StrippedItem(t, cls, items[i])
    decreases items
  {
    if items == [] then [] else [StrippedItem(t, cls, items[0])] + StrippedItems(t, cls, items[1..])
  }

  // ---- error mode ----

  function Under(step: Step, paths: seq<Path>): (r: seq<Path>)
    ensures |r| == |paths| && forall i :: 0 <= i < |paths| ==> r[i] == [step] + paths[i]
  {
    seq(|paths|, i requires 0 <= i < |paths| => [step] + paths[i])
  }

  /** The paths of the properties that are not whitelisted, in the order they are met. */
  function Errors(t: Classes, cls: string, fields: seq<Field>): seq<Path>
    decreases fields, 1
  {
    if Keys(t, cls) == {} then [] else FieldErrors(t, cls, fields)
  }

  function FieldErrors(t: Classes, cls: string, fields: seq<Field>): seq<Path>
    decreases fields, 0
  {
    if fields == [] then []
    else
      (if fields[0].key in Keys(t, cls)
       then Under(Key(fields[0].key), ValueErrors(t, NestedType(t, cls, fields[0].key), fields[0].value))
       else [[Key(fields[0].key)]]) +
      FieldErrors(t, cls, fields[1..])
  }

  function ValueErrors(t: Classes, nested: Option<string>, v: Value): seq<Path>
    decreases v
  {
    if nested.None? then []
    else
      match v
      case Leaf(_) => []
      case List(items) => ItemErrors(t, nested.value, items, 0)
      case Object(fields) => Errors(t, nested.value, fields)
  }

  function ItemErrors(t: Classes, cls: string, items: seq<Value>, i: nat): seq<Path>
    requires i <= |items|
    decreases items, |items| - i
  {
    if i == |items| then []
    else
      (if items[i].Object? then Under(Index(i), Errors(t, cls, items[i].fields)) else []) +
      ItemErrors(t, cls, items, i + 1)
  }

  // ---- the traversal with its textual paths ----

  datatype Mode = Strip | Error

  function Decimal(n: nat): string {
    if n < 10 then [('0' as int + n) as char] else Decimal(n / 10) + [('0' as int + n % 10) as char]
  }

  function Extended(path: string, step: Step): string {
    match step
    case Key(k) => if path == "" then k else path + "." + k
    case Index(i) => path + "[" + Decimal(i) + "]"
  }

  function Rendered(path: string, steps: Path): string
    decreases |steps|
  {
    if steps == [] then path else Rendered(Extended(path, steps[0]), steps[1..])
  }

  function RenderedAll(path: string, paths: seq<Path>): (r: seq<string>)
    ensures |r| == |paths| && forall i :: 0 <= i < |paths| ==> r[i] == Rendered(path, paths[i])
  {
    seq(|paths|, i requires 0 <= i < |paths| => Rendered(path, paths[i]))
  }

  lemma RenderedUnder(path: string, step: Step, paths: seq<Path>)
    ensures RenderedAll(path, Under(step, paths)) == RenderedAll(Extended(path, step), paths)
  {
    forall i | 0 <= i < |paths|
      ensures Rendered(path, Under(step, paths)[i]) == Rendered(Extended(path, step), paths[i])
    {
      assert ([step] + paths[i])[1..] == paths[i];
    }
  }

  lemma RenderedConcat(path: string, a: seq<Path>, b: seq<Path>)
    ensures RenderedAll(path, a + b) == RenderedAll(path, a) + RenderedAll(path, b)
  {
  }

  /** Where the loop over the keys stands after `i` of them. */
  ghost predicate FieldsAt(t: Classes, cls: string, plain: seq<Field>, i: nat, mode: Mode, path: string,
                           out: seq<Field>, errors: seq<Path>, forbidden: seq<string>) {
    i <= |plain| &&
    match mode
    case Strip => forbidden == [] && out + StrippedFields(t, cls, plain[i..]) == StrippedFields(t, cls, plain)
    case Error =>
      out == plain[..i] && errors + FieldErrors(t, cls, plain[i..]) == FieldErrors(t, cls, plain) &&
      forbidden == RenderedAll(path, errors)
  }

  /** A property that is not whitelisted. */
  lemma ForbiddenStep(t: Classes, cls: string, plain: seq<Field>, i: nat, mode: Mode, path: string, out: seq<Field>,
                      errors: seq<Path>, forbidden: seq<string>)
    requires FieldsAt(t, cls, plain, i, mode, path, out, errors, forbidden) && i < |plain| &&
      plain[i].key !in Keys(t, cls)
    ensures mode.Strip? ==> FieldsAt(t, cls, plain, i + 1, mode, path, out, errors, forbidden)
    ensures mode.Error? ==>
      FieldsAt(t, cls, plain, i + 1, mode, path, out + [plain[i]], errors + [[Key(plain[i].key)]],
               forbidden + [Extended(path, Key(plain[i].key))])
  {
    assert plain[i..][1..] == plain[i + 1..];
    if mode.Strip? {
      assert [] + StrippedFields(t, cls, plain[i + 1..]) == StrippedFields(t, cls, plain[i + 1..]);
    } else {
      var one, rest := [[Key(plain[i].key)]], FieldErrors(t, cls, plain[i + 1..]);
      OneError(path, errors, plain[i].key);
      assert FieldErrors(t, cls, plain[i..]) == one + rest;
      Associate(errors, one, rest);
      assert plain[..i + 1] == plain[..i] + [plain[i]];
    }
  }

  /** A whitelisted property, whose value has been dealt with. */
  lemma WhitelistedStep(t: Classes, cls: string, plain: seq<Field>, i: nat, mode: Mode, path: string, out: seq<Field>,
                        errors: seq<Path>, forbidden: seq<string>, value: Value, found: seq<string>)
    requires FieldsAt(t, cls, plain, i, mode, path, out, errors, forbidden) && i < |plain| &&
      plain[i].key in Keys(t, cls)
    requires mode.Strip? ==> value == StrippedValue(t, NestedType(t, cls, plain[i].key), plain[i].value) && found == []
    requires mode.Error? ==>
      var below := ValueErrors(t, NestedType(t, cls, plain[i].key), plain[i].value);
      value == plain[i].value && found == RenderedAll(Extended(path, Key(plain[i].key)), below)
    ensures FieldsAt(t, cls, plain, i + 1, mode, path, out + [Field(plain[i].key, value)],
                     errors + Under(Key(plain[i].key),
                                    ValueErrors(t, NestedType(t, cls, plain[i].key), plain[i].value)),
                     forbidden + found)
  {
    var key := plain[i].key;
    if mode.Strip? {
      Associate(out, [Field(key, value)], StrippedFields(t, cls, plain[i + 1..]));
    } else {
      var below := ValueErrors(t, NestedType(t, cls, key), plain[i].value);
      RenderedUnder(path, Key(key), below);
      RenderedConcat(path, errors, Under(Key(key), below));
      Associate(errors, Under(Key(key), below), FieldErrors(t, cls, plain[i + 1..]));
    }
  }

  lemma Associate<T>(a: seq<T>, b: seq<T>, c: seq<T>)
    ensures (a + b) + c == a + (b + c)
  {
  }

  lemma OneError(path: string, errors: seq<Path>, key: string)
    ensures RenderedAll(path, errors + [[Key(key)]]) == RenderedAll(path, errors) + [Extended(path, Key(key))]
  {
    RenderedConcat(path, errors, [[Key(key)]]);
    assert [Key(key)][1..] == [];
    assert Rendered(path, [Key(key)]) == Rendered(Extended(path, Key(key)), []);
  }

  lemma ItemRendered(t: Classes, cls: string, items: seq<Value>, i: nat, path: string, errors: seq<Path>)
    requires i < |items| && items[i].Object?
    ensures
      var found, below := Errors(t, cls, items[i].fields), Under(Index(i), Errors(t, cls, items[i].fields));
      errors + ItemErrors(t, cls, items, i) == (errors + below) + ItemErrors(t, cls, items, i + 1) &&
      RenderedAll(path, errors + below) == RenderedAll(path, errors) + RenderedAll(Extended(path, Index(i)), found)
  {
    var below := Under(Index(i), Errors(t, cls, items[i].fields));
    RenderedUnder(path, Index(i), Errors(t, cls, items[i].fields));
    RenderedConcat(path, errors, below);
    Associate(errors, below, ItemErrors(t, cls, items, i + 1));
  }

  /** Where the loop over the items stands after `i` of them. */
  ghost predicate ItemsAt(t: Classes, cls: string, items: seq<Value>, i: nat, mode: Mode, path: string,
                          out: seq<Value>, errors: seq<Path>, forbidden: seq<string>) {
    |out| == i <= |items| &&
    match mode
    case Strip => forbidden == [] && forall k :: 0 <= k < i ==> out[k] == StrippedItem(t, cls, items[k])
    case Error =>
      out == items[..i] && errors + ItemErrors(t, cls, items, i) == ItemErrors(t, cls, items, 0) &&
      forbidden == RenderedAll(path, errors)
  }

  lemma ObjectItem(t: Classes, cls: string, items: seq<Value>, i: nat, mode: Mode, path: string, out: seq<Value>,
                   errors: seq<Path>, forbidden: seq<string>, fields: seq<Field>, found: seq<string>)
    requires ItemsAt(t, cls, items, i, mode, path, out, errors, forbidden) && i < |items| && items[i].Object?
    requires mode.Strip? ==> fields == Stripped(t, cls, items[i].fields) && found == []
    requires mode.Error? ==>
      fields == items[i].fields && found == RenderedAll(Extended(path, Index(i)), Errors(t, cls, items[i].fields))
    ensures ItemsAt(t, cls, items, i + 1, mode, path, out + [Object(fields)],
                    errors + Under(Index(i), Errors(t, cls, items[i].fields)), forbidden + found)
  {
    if mode.Error? {
      ItemRendered(t, cls, items, i, path, errors);
    }
  }

  lemma OtherItem(t: Classes, cls: string, items: seq<Value>, i: nat, mode: Mode, path: string, out: seq<Value>,
                  errors: seq<Path>, forbidden: seq<string>)
    requires ItemsAt(t, cls, items, i, mode, path, out, errors, forbidden) && i < |items| && !items[i].Object?
    ensures ItemsAt(t, cls, items, i + 1, mode, path, out + [items[i]], errors, forbidden)
  {
    var rest := ItemErrors(t, cls, items, i + 1);
    assert [] + rest == rest;
  }

  /** `processNonWhitelistedFields`: deletes the properties, or collects their paths. */
  method ProcessNonWhitelistedFields(t: Classes, plain: seq<Field>, cls: string, mode: Mode, path: string)
    returns (plain': seq<Field>, forbidden: seq<string>)
    ensures mode.Strip? ==> plain' == Stripped(t, cls, plain) && forbidden == []
    ensures mode.Error? ==> plain' == plain && forbidden == RenderedAll(path, Errors(t, cls, plain))
    decreases plain
  {
    var whitelisted := Keys(t, cls);
    if whitelisted == {} {
      return plain, [];
    }
    plain', forbidden := [], [];
    ghost var errors: seq<Path> := [];
    for i := 0 to |plain|
      invariant FieldsAt(t, cls, plain, i, mode, path, plain', errors, forbidden)
    {
      var key := plain[i].key;
      if key !in whitelisted {
        ForbiddenStep(t, cls, plain, i, mode, path, plain', errors, forbidden);
        if mode.Error? {
          forbidden := forbidden + [Extended(path, Key(key))];
          plain', errors := plain' + [plain[i]], errors + [[Key(key)]];
        }
      } else {
        var nested := FindNestedType(t, cls, key);
        var value, found := ProcessValue(t, plain[i].value, nested, mode, Extended(path, Key(key)));
        WhitelistedStep(t, cls, plain, i, mode, path, plain', errors, forbidden, value, found);
        plain', forbidden := plain' + [Field(key, value)], forbidden + found;
        errors := errors + Under(Key(key), ValueErrors(t, nested, plain[i].value));
      }
    }
  }

  method ProcessValue(t: Classes, v: Value, nested: Option<string>, mode: Mode, path: string)
    returns (v': Value, forbidden: seq<string>)
    ensures mode.Strip? ==> v' == StrippedValue(t, nested, v) && forbidden == []
    ensures mode.Error? ==> v' == v && forbidden == RenderedAll(path, ValueErrors(t, nested, v))
    decreases v
  {
    v', forbidden := v, [];
    if nested.Some? {
      match v
      case Leaf(_) =>
      case Object(fields) =>
        var fields', found := ProcessNonWhitelistedFields(t, fields, nested.value, mode, path);
        v', forbidden := Object(fields'), found;
      case List(items) =>
        var items', found := ProcessItems(t, items, nested.value, mode, path);
        v', forbidden := List(items'), found;
    }
  }

  method ProcessItems(t: Classes, items: seq<Value>, cls: string, mode: Mode, path: string)
    returns (items': seq<Value>, forbidden: seq<string>)
    ensures mode.Strip? ==> items' == StrippedItems(t, cls, items) && forbidden == []
    ensures mode.Error? ==> items' == items && forbidden == RenderedAll(path, ItemErrors(t, cls, items, 0))
    decreases items
  {
    items', forbidden := [], [];
    ghost var errors: seq<Path> := [];
    assert [] + ItemErrors(t, cls, items, 0) == ItemErrors(t, cls, items, 0);
    for i := 0 to |items|
      invariant ItemsAt(t, cls, items, i, mode, path, items', errors, forbidden)
    {
      if items[i].Object? {
        var fields', found := ProcessNonWhitelistedFields(t, items[i].fields, cls, mode, Extended(path, Index(i)));
        ObjectItem(t, cls, items, i, mode, path, items', errors, forbidden, fields', found);
        items', forbidden := items' + [Object(fields')], forbidden + found;
        errors := errors + Under(Index(i), Errors(t, cls, items[i].fields));
      } else {
        OtherItem(t, cls, items, i, mode, path, items', errors, forbidden);
        items' := items' + [items[i]];
      }
    }
    assert errors + [] == errors;
  }
}
