/** Automatic id filtering: what it finds, and where negation stops being the complement. */
module FilterIds {
  import opened Outcomes
  import opened Mongo
  import opened Strings
  import opened FilterQuery

  /** The field holds the given id as a string or as an ObjectId. */
  predicate Denotes(leaf: Value, given: string) {
    leaf == Str(given) || leaf == Value.Id(Fold(given))
  }

  /** Is the value looked up in both forms? */
  predicate InBothForms(c: Config, s: Single) {
    c.auto && !s.convert && CheckStringIds(s.value) && s.field != "id"
  }

  lemma ConvertedIds(c: Config, v: Value)
    requires CheckStringIds(v)
    ensures GetObjectIds(c, v).Ok?
    ensures
      var ids := GetObjectIds(c, v).value;
      match v
      case Str(s) => ids == Value.Id(Fold(s))
      case Arr(items) => ids.Arr? && |ids.items| == |items| &&
        forall i :: 0 <= i < |items| ==> ids.items[i] == Value.Id(Fold(items[i].s))
      case _ => false
  {
    if v.Arr? {
      StringIdsConvert(c, v.items);
      var ids := ToIds(c, v.items).value;
      forall i | 0 <= i < |v.items| ensures ids[i] == Value.Id(Fold(v.items[i].s)) {
        assert ToId(c, v.items[i]) == Ok(ids[i]);
      }
    }
  }

  /** An equality on an id finds exactly the documents that hold the id in either form. */
  lemma EqFindsEitherForm(c: Config, s: Single, doc: Value)
    requires InBothForms(c, s) && s.op == Some(EQ) && !s.negated && s.value.Str?
    ensures GenerateSingle(c, s).Ok?
    ensures Holds(GenerateSingle(c, s).value, doc) <==>
      exists leaf :: leaf in Leaves(At(doc, Segments(s.field))) && Denotes(leaf, s.value.s)
  {
    ConvertedIds(c, s.value);
    GenerateSingleMeans(c, s, doc);
    var found := Leaves(At(doc, Segments(s.field)));
    assert Denotes(s.value, s.value.s) && Denotes(Value.Id(Fold(s.value.s)), s.value.s);
  }

  ghost predicate AnyEquals(items: seq<Value>, found: set<Value>) {
    exists x :: x in items && Equals(x, found)
  }

  /** One of the ids is held in either form. */
  ghost predicate HoldsOneOf(items: seq<Value>, found: set<Value>) {
    exists i, leaf :: 0 <= i < |items| && items[i].Str? && leaf in Leaves(found) && Denotes(leaf, items[i].s)
  }

  /** A list of ids finds exactly the documents that hold one of them in either form. */
  lemma InFindsEitherForm(c: Config, s: Single, doc: Value)
    requires InBothForms(c, s) && s.op == Some(IN) && !s.negated && s.value.Arr?
    ensures GenerateSingle(c, s).Ok?
    ensures Holds(GenerateSingle(c, s).value, doc) <==> HoldsOneOf(s.value.items, At(doc, Segments(s.field)))
  {
    ConvertedIds(c, s.value);
    GenerateSingleMeans(c, s, doc);
    var ids, found := GetObjectIds(c, s.value).value, At(doc, Segments(s.field));
    assert SingleMeans(c, s, doc) <==> AnyEquals(s.value.items, found) || AnyEquals(ids.items, found);
    ListFindsEitherForm(s.value.items, ids.items, found);
  }

  lemma ListFindsEitherForm(items: seq<Value>, ids: seq<Value>, found: set<Value>)
    requires AllStringIds(items) && |ids| == |items| &&
      forall i :: 0 <= i < |items| ==> ids[i] == Value.Id(Fold(items[i].s))
    ensures
      (AnyEquals(items, found) || AnyEquals(ids, found)) <==> HoldsOneOf(items, found)
  {
    if x :| x in items && Equals(x, found) {
      var i :| 0 <= i < |items| && items[i] == x;
      assert x in Leaves(found) && Denotes(x, items[i].s);
    }
    if x :| x in ids && Equals(x, found) {
      var i :| 0 <= i < |ids| && ids[i] == x;
      assert x in Leaves(found) && Denotes(x, items[i].s);
    }
    if i, leaf :| 0 <= i < |items| && items[i].Str? && leaf in Leaves(found) && Denotes(leaf, items[i].s) {
      assert leaf == items[i] || leaf == ids[i];
      assert Equals(leaf, found);
    }
  }

  /** A field called `id` is looked up as the document's ObjectId only. */
  lemma IdFieldIsDocumentId(c: Config, s: Single, doc: Value)
    requires c.auto && !s.convert && s.field == "id" && s.value.Str? && IsStringId(s.value.s) && s.op == Some(EQ) &&
      !s.negated
    ensures GenerateSingle(c, s).Ok?
    ensures Holds(GenerateSingle(c, s).value, doc) <==> Value.Id(Fold(s.value.s)) in Leaves(At(doc, Segments("_id")))
  {
    ConvertedIds(c, s.value);
    GenerateSingleMeans(c, s, doc);
  }

  // ---- negation ----

  function Negated(s: Single): Single {
    s.(negated := !s.negated)
  }

  /** Wherever only one form is looked up, `not` is the complement. */
  lemma NotIsComplement(c: Config, s: Single, doc: Value)
    requires GenerateSingle(c, s).Ok? && !InBothForms(c, s) && s.op.Some?
    ensures GenerateSingle(c, Negated(s)).Ok?
    ensures Holds(GenerateSingle(c, Negated(s)).value, doc) == !Holds(GenerateSingle(c, s).value, doc)
  {
    GenerateSingleMeans(c, s, doc);
    GenerateSingleMeans(c, Negated(s), doc);
  }

  /** A document with exactly one value under a path. */
  function DocAt(segs: seq<string>, leaf: Value): Value {
    if segs == [] then leaf else Value.Doc(map[segs[0] := DocAt(segs[1..], leaf)])
  }

  lemma {:induction false} AtDocAt(segs: seq<string>, leaf: Value)
    ensures At(DocAt(segs, leaf), segs) == {leaf}
  {
    if segs != [] {
      AtDocAt(segs[1..], leaf);
    }
  }

  // ---- the text of ids ----

  predicate IsLiteralText(p: string) {
    forall i :: 0 <= i < |p| ==> !IsMeta(p[i])
  }

  lemma {:induction false} LiteralReads(p: string)
    requires IsLiteralText(p)
    ensures ReadBody(p) == Pattern(false, p, false) && ReadPattern(p) == Pattern(false, p, false)
  {
    if p != "" {
      assert !IsMeta(p[0]);
      LiteralReads(p[1..]);
    }
  }

  lemma FoldConcat(a: string, b: string)
    ensures Fold(a + b) == Fold(a) + Fold(b)
  {
  }

  /** As a pattern a list of ids, like a single one, is its literal text; as ObjectIds the same in lower case. */
  lemma {:induction false} JoinedIds(c: Config, items: seq<Value>, ids: seq<Value>)
    requires AllStringIds(items) && |ids| == |items| &&
      forall i :: 0 <= i < |items| ==> ids[i] == Value.Id(Fold(items[i].s))
    ensures Joined(c, ids) == Fold(Joined(c, items)) && IsLiteralText(Joined(c, items)) &&
      (items != [] ==> Joined(c, items) != "")
  {
    if |items| > 1 {
      JoinedIds(c, items[1..], ids[1..]);
      FoldConcat(items[0].s + [','], Joined(c, items[1..]));
      FoldConcat(items[0].s, [',']);
      assert Fold([',']) == [','];
    }
  }

  lemma PatternsOfIds(c: Config, v: Value)
    requires CheckStringIds(v)
    ensures GetObjectIds(c, v).Ok? && PatternOf(c, GetObjectIds(c, v).value) == Fold(PatternOf(c, v)) &&
      IsLiteralText(PatternOf(c, v))
  {
    ConvertedIds(c, v);
    if v.Arr? {
      JoinedIds(c, v.items, GetObjectIds(c, v).value.items);
    }
  }

  /** Whether a literal matches, with upper and lower case told apart or not. */
  lemma LiteralMatches(p: string, options: string, text: string)
    requires IsLiteralText(p)
    ensures 'i' !in options ==> (RegexMatches(p, options, text) <==> exists i :: OccursAt(p, text, i))
    ensures 'i' in options ==> (RegexMatches(p, options, text) <==> exists i :: OccursAt(Fold(p), Fold(text), i))
  {
    LiteralReads(p);
  }

  lemma FoldTwice(p: string)
    ensures Fold(Fold(p)) == Fold(p) && (IsLiteralText(p) ==> IsLiteralText(Fold(p)))
  {
  }

  /** With `i`, or for text in lower case already, both forms of an id are the same pattern. */
  lemma SamePattern(p: string, options: string, text: string)
    requires IsLiteralText(p) && ('i' in options || Fold(p) == p)
    ensures RegexMatches(Fold(p), options, text) == RegexMatches(p, options, text)
  {
    FoldTwice(p);
    LiteralMatches(p, options, text);
    LiteralMatches(Fold(p), options, text);
  }

  lemma OccursWhole(a: string, b: string)
    requires |a| == |b|
    ensures (exists i :: OccursAt(a, b, i)) <==> a == b
  {
    assert b[0..|b|] == b;
    assert OccursAt(b, b, 0);
  }

  /** Otherwise the text itself matches one and not the other. */
  lemma OtherPattern(p: string, options: string)
    requires IsLiteralText(p) && 'i' !in options && Fold(p) != p
    ensures RegexMatches(p, options, p) && !RegexMatches(Fold(p), options, p)
  {
    FoldTwice(p);
    LiteralMatches(p, options, p);
    LiteralMatches(Fold(p), options, p);
    OccursWhole(p, p);
    OccursWhole(Fold(p), p);
  }

  // ---- where negation is the complement ----

  /** Can the two forms of the value differ on a document? */
  predicate TellsFormsApart(c: Config, s: Single) {
    match s.op
    case None => false
    case Some(GT) => s.value.Str?
    case Some(LT) => s.value.Str?
    case Some(IN) => s.value.Arr? && s.value != Arr([])
    case Some(NIN) => s.value.Arr? && s.value != Arr([])
    case Some(REGEX) => 'i' !in s.options && Fold(PatternOf(c, s.value)) != PatternOf(c, s.value)
    case Some(_) => s.value != Arr([])
  }

  ghost predicate Complementary(c: Config, s: Single, doc: Value)
    requires GenerateSingle(c, s).Ok? && GenerateSingle(c, Negated(s)).Ok?
  {
    Holds(GenerateSingle(c, Negated(s)).value, doc) == !Holds(GenerateSingle(c, s).value, doc)
  }

  /**
   * `not` is the complement exactly unless the value is looked up in both forms and the comparison
   * can tell them apart: then a document that holds an id in one form only is found with and without
   * `not`, or neither way.
   */
  lemma ComplementExactly(c: Config, s: Single)
    requires s.op.Some? && GenerateSingle(c, s).Ok?
    ensures GenerateSingle(c, Negated(s)).Ok?
    ensures (forall doc :: Complementary(c, s, doc)) <==> !(InBothForms(c, s) && TellsFormsApart(c, s))
  {
    if InBothForms(c, s) {
      ConvertedIds(c, s.value);
      if TellsFormsApart(c, s) {
        FormsDiffer(c, s);
      } else {
        forall doc ensures Complementary(c, s, doc) {
          GenerateSingleMeans(c, s, doc);
          GenerateSingleMeans(c, Negated(s), doc);
          FormsAgree(c, s, At(doc, Segments(s.field)));
        }
      }
    } else {
      forall doc ensures Complementary(c, s, doc) {
        NotIsComplement(c, s, doc);
      }
    }
  }

  lemma FormsAgree(c: Config, s: Single, found: set<Value>)
    requires InBothForms(c, s) && s.op.Some? && !TellsFormsApart(c, s) && GetObjectIds(c, s.value).Ok?
    ensures Compares(c, s.op.value, s.value, s.options, found)
      == Compares(c, s.op.value, GetObjectIds(c, s.value).value, s.options, found)
  {
    ConvertedIds(c, s.value);
    var v, w := s.value, GetObjectIds(c, s.value).value;
    match s.op.value
    case REGEX => PatternsAgree(c, s, found);
    case GT => assert v.Arr? && w.Arr?;
    case LT => assert v.Arr? && w.Arr?;
    case IN => assert w == v || (!v.Arr? && !w.Arr?);
    case NIN => assert w == v || (!v.Arr? && !w.Arr?);
    case _ => assert w == v;
  }

  lemma PatternsAgree(c: Config, s: Single, found: set<Value>)
    requires InBothForms(c, s) && s.op == Some(REGEX) && !TellsFormsApart(c, s) && GetObjectIds(c, s.value).Ok?
    ensures Compares(c, REGEX, s.value, s.options, found)
      == Compares(c, REGEX, GetObjectIds(c, s.value).value, s.options, found)
  {
    PatternsOfIds(c, s.value);
    var p := PatternOf(c, s.value);
    forall x | x in Leaves(found) && x.Str?
      ensures RegexMatches(Fold(p), s.options, x.s) == RegexMatches(p, s.options, x.s)
    {
      SamePattern(p, s.options, x.s);
    }
  }

  /** A value that only one form finds. */
  function Witness(c: Config, s: Single): Value
    requires InBothForms(c, s) && TellsFormsApart(c, s)
  {
    match s.op.value
    case GT => Str(s.value.s + ['x'])
    case LT => Str("")
    case IN => s.value.items[0]
    case NIN => s.value.items[0]
    case REGEX => Str(PatternOf(c, s.value))
    case _ => s.value
  }

  lemma FormsDiffer(c: Config, s: Single)
    requires InBothForms(c, s) && TellsFormsApart(c, s) && GenerateSingle(c, s).Ok? && GenerateSingle(c, Negated(s)).Ok?
    ensures exists doc :: !Complementary(c, s, doc)
  {
    var segs := Segments(s.field);
    var doc := DocAt(segs, Witness(c, s));
    AtDocAt(segs, Witness(c, s));
    FoundInOneForm(c, s);
    GenerateSingleMeans(c, s, doc);
    GenerateSingleMeans(c, Negated(s), doc);
    assert !Complementary(c, s, doc);
  }

  lemma {:induction false} LongerIsGreater(s: string, c: char)
    ensures StringLess(s, s + [c])
  {
    if s != "" {
      assert (s + [c])[1..] == s[1..] + [c];
      LongerIsGreater(s[1..], c);
    }
  }

  lemma FoundInOneForm(c: Config, s: Single)
    requires InBothForms(c, s) && TellsFormsApart(c, s) && GetObjectIds(c, s.value).Ok?
    ensures Compares(c, s.op.value, s.value, s.options, {Witness(c, s)}) !=
      Compares(c, s.op.value, GetObjectIds(c, s.value).value, s.options, {Witness(c, s)})
  {
    ConvertedIds(c, s.value);
    var leaf, ids := Witness(c, s), GetObjectIds(c, s.value).value;
    assert leaf in Leaves({leaf});
    if leaf.Arr? {
      assert ids.items[0] != leaf.items[0];
      forall x | x in Leaves({leaf}) ensures x != ids && !Less(ids, x) && !Less(x, ids) {
        assert x == leaf || x in leaf.items;
      }
    } else {
      assert Leaves({leaf}) == {leaf};
      match s.op.value
      case GT => LongerIsGreater(s.value.s, 'x');
      case REGEX =>
        PatternsOfIds(c, s.value);
        OtherPattern(PatternOf(c, s.value), s.options);
      case IN => assert leaf in s.value.items && Equals(leaf, {leaf});
      case NIN => assert leaf in s.value.items && Equals(leaf, {leaf});
      case _ =>
    }
  }
}
