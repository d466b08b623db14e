/** The filter input of the API and the database query `generateFilterQuery` makes of it. */
module FilterQuery {
  import opened Outcomes
  import opened Mongo
  import opened Strings

  datatype Comparison = EQ | GT | GTE | IN | LT | LTE | NE | NIN | REGEX

  datatype Logical = AND | NOR | OR

  /** `convert`: one of `convertToObjectId` and `isReference` is set. */
  datatype Single = Single(field: string, op: Option<Comparison>, value: Value, options: string, negated: bool,
                           convert: bool)

  datatype Combined = Combined(op: Option<Logical>, filters: seq<Input>)

  datatype Input = Input(combined: Option<Combined>, single: Option<Single>)

  /**
   * `otherId`: the ObjectId made of values that are neither strings nor ObjectIds, if any. `otherText`:
   * the text of numbers and objects. `compiles`: the texts a regular expression can be made of.
   */
  datatype Config = Config(auto: bool, otherId: Value -> Option<string>, otherText: Value -> string,
                           compiles: string -> bool)

  // ---- ids ----

  predicate IsHex(c: char) {
    '0' <= c <= '9' || 'a' <= c <= 'f' || 'A' <= c <= 'F'
  }

  predicate IsStringId(s: string) {
    |s| == 24 && forall i :: 0 <= i < |s| ==> IsHex(s[i])
  }

  predicate AllStringIds(items: seq<Value>) {
    forall i :: 0 <= i < |items| ==> items[i].Str? && IsStringId(items[i].s)
  }

  /** `checkStringIds`: the empty list passes. */
  predicate CheckStringIds(v: Value) {
    match v
    case Str(s) => IsStringId(s)
    case Arr(items) => AllStringIds(items)
    case _ => false
  }

  /** `new ObjectId(...)`: an exception for a string that is no id; ids are kept in lower case. */
  function ToId(c: Config, v: Value): Result<Value> {
    match v
    case Str(s) => if IsStringId(s) then Ok(Id(Fold(s))) else Err
    case Id(_) => Ok(v)
    case _ => var other := c.otherId(v); if other.Some? then Ok(Id(other.value)) else Err
  }

  function ToIds(c: Config, items: seq<Value>): (r: Result<seq<Value>>)
    ensures r.Ok? ==> |r.value| == |items| && forall i :: 0 <= i < |items| ==> ToId(c, items[i]) == Ok(r.value[i])
  {
    if items == [] then Ok([])
    else
      var first :- ToId(c, items[0]);
      var others :- ToIds(c, items[1..]);
      Ok([first] + others)
  }

  function GetObjectIds(c: Config, v: Value): Result<Value> {
    if v.Arr? then
      var ids :- ToIds(c, v.items);
      Ok(Arr(ids))
    else ToId(c, v)
  }

  lemma {:induction false} StringIdsConvert(c: Config, items: seq<Value>)
    requires AllStringIds(items)
    ensures ToIds(c, items).Ok?
  {
    if items != [] {
      StringIdsConvert(c, items[1..]);
    }
  }

  /** Digits and lower-case letters `h` that `s` spells in any case. */
  ghost predicate Spells(s: string, h: string) {
    |s| == 24 && |h| == 24 &&
    forall i :: 0 <= i < 24 ==>
      ('0' <= h[i] <= '9' && s[i] == h[i]) ||
      ('a' <= h[i] <= 'f' && (s[i] == h[i] || s[i] == h[i] - 'a' + 'A'))
  }

  /** Is `h` the id that the value stands for? */
  ghost predicate StandsFor(c: Config, v: Value, h: string) {
    match v
    case Str(s) => Spells(s, h)
    case Id(hex) => hex == h
    case _ => c.otherId(v) == Some(h)
  }

  ghost predicate ListStandsFor(c: Config, items: seq<Value>, ids: seq<Value>) {
    |ids| == |items| &&
    forall i :: 0 <= i < |items| ==> ids[i].Id? && StandsFor(c, items[i], ids[i].hex)
  }

  lemma SpelledExactly(s: string)
    ensures IsStringId(s) <==> Spells(s, Fold(s))
    ensures forall h :: Spells(s, h) ==> h == Fold(s)
  {
    if IsStringId(s) {
      forall i | 0 <= i < 24 ensures IsHex(s[i]) {
      }
    }
  }

  /**
   * Texts of 24 hexadecimal digits, ids, and what else stands for an id are converted to it, and
   * lists item by item.
   */
  lemma ConversionExactly(c: Config, v: Value)
    ensures !v.Arr? ==> (GetObjectIds(c, v).Ok? <==> exists h :: StandsFor(c, v, h))
    ensures !v.Arr? ==> forall h :: GetObjectIds(c, v) == Ok(Id(h)) <==> StandsFor(c, v, h)
    ensures v.Arr? ==> forall r :: GetObjectIds(c, v) == Ok(r) <==> r.Arr? && ListStandsFor(c, v.items, r.items)
    ensures v.Str? ==> (CheckStringIds(v) <==> exists h :: Spells(v.s, h))
    ensures v.Arr? ==> (CheckStringIds(v) <==> forall x :: x in v.items ==> x.Str? && exists h :: Spells(x.s, h))
    ensures !v.Str? && !v.Arr? ==> !CheckStringIds(v)
  {
    if v.Str? {
      SpelledExactly(v.s);
      assert IsStringId(v.s) ==> StandsFor(c, v, Fold(v.s));
    } else if v.Arr? {
      forall r: Value | r.Arr? ensures ToIds(c, v.items) == Ok(r.items) <==> ListStandsFor(c, v.items, r.items) {
        ListExactly(c, v.items, r.items);
      }
      forall x | x in v.items && x.Str? ensures IsStringId(x.s) <==> exists h :: Spells(x.s, h) {
        SpelledExactly(x.s);
      }
    } else if ToId(c, v).Ok? {
      assert StandsFor(c, v, ToId(c, v).value.hex);
    }
  }

  lemma {:induction false} ListExactly(c: Config, items: seq<Value>, ids: seq<Value>)
    ensures ToIds(c, items) == Ok(ids) <==> ListStandsFor(c, items, ids)
  {
    if items != [] {
      if items[0].Str? {
        SpelledExactly(items[0].s);
      }
      if ids != [] {
        ListExactly(c, items[1..], ids[1..]);
        assert ids == [ids[0]] + ids[1..];
        assert ListStandsFor(c, items, ids) <==>
          ids[0].Id? && StandsFor(c, items[0], ids[0].hex) && ListStandsFor(c, items[1..], ids[1..]) by {
          if ids[0].Id? && StandsFor(c, items[0], ids[0].hex) && ListStandsFor(c, items[1..], ids[1..]) {
            forall i | 0 <= i < |items| ensures ids[i].Id? && StandsFor(c, items[i], ids[i].hex) {
              assert i > 0 ==> ids[i] == ids[1..][i - 1] && items[i] == items[1..][i - 1];
            }
          }
        }
      }
    }
  }

  // ---- the translation ----

  /** The text a regular expression is made of: the text of the value, of a list its items with commas. */
  function PatternOf(c: Config, v: Value): string
    decreases v
  {
    match v
    case Str(s) => s
    case Id(h) => h
    case Null => "null"
    case Bool(b) => if b then "true" else "false"
    case Arr(items) => Joined(c, items)
    case _ => c.otherText(v)
  }

  function Joined(c: Config, items: seq<Value>): string
    decreases items
  {
    if items == [] then ""
    else
      var first := if items[0].Null? then "" else PatternOf(c, items[0]);
      if |items| == 1 then first else first + [','] + Joined(c, items[1..])
  }

  function Condition(c: Config, op: Comparison, v: Value, options: string, negated: bool): Cond {
    match op
    case EQ => if negated then Ne(v) else Eq(v)
    case GT => if negated then Not(Gt(v)) else Gt(v)
    case GTE => if negated then Not(Gte(v)) else Gte(v)
    case IN => if negated then Nin(v) else In(v)
    case LT => if negated then Not(Lt(v)) else Lt(v)
    case LTE => if negated then Not(Lte(v)) else Lte(v)
    case NE => if negated then Eq(v) else Ne(v)
    case NIN => if negated then In(v) else Nin(v)
    case REGEX => if negated then Not(Regex(PatternOf(c, v), options)) else Regex(PatternOf(c, v), options)
  }

  /** The condition for one value; an unknown operator adds none, a text that does not compile is an exception. */
  function Translate(c: Config, field: string, s: Single, v: Value): Result<Filter> {
    if s.op.None? then Ok(EVERYTHING)
    else if s.op == Some(REGEX) && !c.compiles(PatternOf(c, v)) then Err
    else Ok(Field(field, Condition(c, s.op.value, v, s.options, s.negated)))
  }

  function GenerateSingle(c: Config, s: Single): Result<Filter> {
    if s.convert then
      var ids :- GetObjectIds(c, s.value);
      Translate(c, s.field, s, ids)
    else if c.auto && CheckStringIds(s.value) then
      var ids :- GetObjectIds(c, s.value);
      if s.field == "id" then Translate(c, "_id", s, ids)
      else
        var asString :- Translate(c, s.field, s, s.value);
        var asId :- Translate(c, s.field, s, ids);
        Ok(One("$or", Sub([asString, asId])))
    else Translate(c, s.field, s, s.value)
  }

  function Key(op: Logical): string {
    match op
    case AND => "$and"
    case NOR => "$nor"
    case OR => "$or"
  }

  function GenerateFilterQuery(c: Config, f: Input): Result<Filter>
    decreases f
  {
    if f.combined.Some? && f.combined.value.op.Some? then
      var fs :- GenerateAll(c, f.combined.value.filters);
      Ok(One(Key(f.combined.value.op.value), Sub(fs)))
    else if f.single.Some? then GenerateSingle(c, f.single.value)
    else Ok(EVERYTHING)
  }

  function GenerateAll(c: Config, fs: seq<Input>): (r: Result<seq<Filter>>)
    ensures r.Ok? ==> |r.value| == |fs|
    decreases fs
  {
    if fs == [] then Ok([])
    else
      var first :- GenerateFilterQuery(c, fs[0]);
      var others :- GenerateAll(c, fs[1..]);
      Ok([first] + others)
  }

  // ---- what a filter input means ----

  /** The nine comparators on what is stored under a path. */
  ghost predicate Compares(c: Config, op: Comparison, v: Value, options: string, found: set<Value>) {
    match op
    case EQ => Equals(v, found)
    case NE => !Equals(v, found)
    case GT => exists x :: x in Leaves(found) && Less(v, x)
    case GTE => exists x :: x in Leaves(found) && (Less(v, x) || v == x)
    case LT => exists x :: x in Leaves(found) && Less(x, v)
    case LTE => exists x :: x in Leaves(found) && (Less(x, v) || v == x)
    case IN => v.Arr? && exists x :: x in v.items && Equals(x, found)
    case NIN => !(v.Arr? && exists x :: x in v.items && Equals(x, found))
    case REGEX =>
      var text := if v.Str? then v.s else PatternOf(c, v);
      exists x :: x in Leaves(found) && x.Str? && RegexMatches(text, options, x.s)
  }

  ghost predicate FieldMeans(c: Config, field: string, s: Single, v: Value, doc: Value) {
    s.op.Some? ==> Compares(c, s.op.value, v, s.options, At(doc, Segments(field))) != s.negated
  }

  /** Automatic id filtering tries both ways an id can be stored. */
  ghost predicate SingleMeans(c: Config, s: Single, doc: Value)
    requires GenerateSingle(c, s).Ok?
  {
    if s.convert then FieldMeans(c, s.field, s, GetObjectIds(c, s.value).value, doc)
    else if c.auto && CheckStringIds(s.value) then
      if s.field == "id" then FieldMeans(c, "_id", s, GetObjectIds(c, s.value).value, doc)
      else FieldMeans(c, s.field, s, s.value, doc) || FieldMeans(c, s.field, s, GetObjectIds(c, s.value).value, doc)
    else FieldMeans(c, s.field, s, s.value, doc)
  }

  ghost predicate InputMeans(c: Config, f: Input, doc: Value)
    requires GenerateFilterQuery(c, f).Ok?
    decreases f
  {
    if f.combined.Some? && f.combined.value.op.Some? then
      match f.combined.value.op.value
      case AND => AllMean(c, f.combined.value.filters, doc)
      case NOR => !AnyMeans(c, f.combined.value.filters, doc)
      case OR => AnyMeans(c, f.combined.value.filters, doc)
    else if f.single.Some? then SingleMeans(c, f.single.value, doc)
    else true
  }

  ghost predicate AllMean(c: Config, fs: seq<Input>, doc: Value)
    requires GenerateAll(c, fs).Ok?
    decreases fs
  {
    fs != [] ==> InputMeans(c, fs[0], doc) && AllMean(c, fs[1..], doc)
  }

  ghost predicate AnyMeans(c: Config, fs: seq<Input>, doc: Value)
    requires GenerateAll(c, fs).Ok?
    decreases fs
  {
    fs != [] && (InputMeans(c, fs[0], doc) || AnyMeans(c, fs[1..], doc))
  }

  // ---- the query means what the input means ----

  lemma TranslateMeans(c: Config, field: string, s: Single, v: Value, doc: Value)
    requires Translate(c, field, s, v).Ok?
    ensures Holds(Translate(c, field, s, v).value, doc) == FieldMeans(c, field, s, v, doc)
  {
    if s.op.Some? {
      HoldsOne(field, Cond(Condition(c, s.op.value, v, s.options, s.negated)), doc);
      ConditionMeans(c, s.op.value, v, s.options, s.negated, At(doc, Segments(field)));
    }
  }

  /** `not` is the complement, for each of the nine comparators. */
  lemma ConditionMeans(c: Config, op: Comparison, v: Value, options: string, negated: bool, found: set<Value>)
    ensures Matches(Condition(c, op, v, options, negated), found) == (Compares(c, op, v, options, found) != negated)
  {
    match op
    case EQ =>
    case GT => if negated { assert !Matches(Gt(v), found) == Matches(Not(Gt(v)), found); }
    case GTE => if negated { assert !Matches(Gte(v), found) == Matches(Not(Gte(v)), found); }
    case IN =>
    case LT => if negated { assert !Matches(Lt(v), found) == Matches(Not(Lt(v)), found); }
    case LTE => if negated { assert !Matches(Lte(v), found) == Matches(Not(Lte(v)), found); }
    case NE =>
    case NIN =>
    case REGEX =>
      var r := Regex(PatternOf(c, v), options);
      if negated { assert !Matches(r, found) == Matches(Not(r), found); }
  }

  lemma OrMeans(a: Filter, b: Filter, doc: Value)
    ensures Holds(One("$or", Sub([a, b])), doc) == (Holds(a, doc) || Holds(b, doc))
  {
    HoldsOne("$or", Sub([a, b]), doc);
    assert a in [a, b] && b in [a, b];
  }

  lemma GenerateSingleMeans(c: Config, s: Single, doc: Value)
    requires GenerateSingle(c, s).Ok?
    ensures Holds(GenerateSingle(c, s).value, doc) == SingleMeans(c, s, doc)
  {
    var ids := GetObjectIds(c, s.value);
    if s.convert {
      TranslateMeans(c, s.field, s, ids.value, doc);
    } else if c.auto && CheckStringIds(s.value) {
      if s.field == "id" {
        TranslateMeans(c, "_id", s, ids.value, doc);
      } else {
        TranslateMeans(c, s.field, s, s.value, doc);
        TranslateMeans(c, s.field, s, ids.value, doc);
        OrMeans(Translate(c, s.field, s, s.value).value, Translate(c, s.field, s, ids.value).value, doc);
      }
    } else {
      TranslateMeans(c, s.field, s, s.value, doc);
    }
  }

  /** For every filter input that is not refused, the query holds of a document exactly when the input does. */
  lemma {:induction false} GenerateMeans(c: Config, f: Input, doc: Value)
    requires GenerateFilterQuery(c, f).Ok?
    ensures Holds(GenerateFilterQuery(c, f).value, doc) == InputMeans(c, f, doc)
    decreases f
  {
    if f.combined.Some? && f.combined.value.op.Some? {
      var fs := GenerateAll(c, f.combined.value.filters).value;
      GenerateAllMeans(c, f.combined.value.filters, doc);
      HoldsOne(Key(f.combined.value.op.value), Sub(fs), doc);
    } else if f.single.Some? {
      GenerateSingleMeans(c, f.single.value, doc);
    }
  }

  lemma {:induction false} GenerateAllMeans(c: Config, fs: seq<Input>, doc: Value)
    requires GenerateAll(c, fs).Ok?
    ensures
      var qs := GenerateAll(c, fs).value;
      AllMean(c, fs, doc) == (forall q :: q in qs ==> Holds(q, doc)) &&
      AnyMeans(c, fs, doc) == (exists q :: q in qs && Holds(q, doc))
    decreases fs
  {
    if fs != [] {
      GenerateMeans(c, fs[0], doc);
      GenerateAllMeans(c, fs[1..], doc);
      var qs := GenerateAll(c, fs).value;
      assert qs == [qs[0]] + qs[1..];
    }
  }

  // ---- exceptions ----

  /** The values a single filter compares with. */
  function Forms(c: Config, s: Single): seq<Value> {
    var ids := GetObjectIds(c, s.value);
    if s.convert then if ids.Ok? then [ids.value] else []
    else if c.auto && CheckStringIds(s.value) && ids.Ok? then
      if s.field == "id" then [ids.value] else [s.value, ids.value]
    else [s.value]
  }

  /** A value to be converted is no id, or a value is no regular expression. */
  predicate Throws(c: Config, s: Single) {
    (s.convert && GetObjectIds(c, s.value).Err?) ||
    (s.op == Some(REGEX) && exists v :: v in Forms(c, s) && !c.compiles(PatternOf(c, v)))
  }

  predicate ThrowsAnywhere(c: Config, f: Input)
    decreases f
  {
    if f.combined.Some? && f.combined.value.op.Some? then
      var fs := f.combined.value.filters;
      exists i :: 0 <= i < |fs| && ThrowsAnywhere(c, fs[i])
    else f.single.Some? && Throws(c, f.single.value)
  }

  lemma SingleFails(c: Config, s: Single)
    ensures GenerateSingle(c, s).Err? <==> Throws(c, s)
  {
    if s.value.Arr? && CheckStringIds(s.value) {
      StringIdsConvert(c, s.value.items);
    }
    var forms := Forms(c, s);
    assert forms != [] ==> forms[0] in forms;
    assert |forms| == 2 ==> forms[1] in forms;
  }

  /** The translation throws exactly where a part of it that counts does. */
  lemma {:induction false} GenerateFails(c: Config, f: Input)
    ensures GenerateFilterQuery(c, f).Err? <==> ThrowsAnywhere(c, f)
    decreases f
  {
    if f.combined.Some? && f.combined.value.op.Some? {
      GenerateAllFails(c, f.combined.value.filters);
    } else if f.single.Some? {
      SingleFails(c, f.single.value);
    }
  }

  lemma {:induction false} GenerateAllFails(c: Config, fs: seq<Input>)
    ensures GenerateAll(c, fs).Err? <==> exists i :: 0 <= i < |fs| && ThrowsAnywhere(c, fs[i])
    decreases fs
  {
    if fs != [] {
      GenerateFails(c, fs[0]);
      GenerateAllFails(c, fs[1..]);
      if GenerateAll(c, fs[1..]).Err? {
        var i :| 0 <= i < |fs[1..]| && ThrowsAnywhere(c, fs[1..][i]);
        assert ThrowsAnywhere(c, fs[i + 1]);
      }
      if i :| 0 <= i < |fs| && ThrowsAnywhere(c, fs[i]) {
        assert i > 0 ==> ThrowsAnywhere(c, fs[1..][i - 1]);
      }
    }
  }
}
