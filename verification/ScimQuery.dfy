/** SCIM trees as MongoDB queries: the translation, what it means, and the shape of its output. */
module ScimQuery {
  import opened Outcomes
  import opened Mongo
  import opened Strings
  import opened Scim
  import ScimPrinter
  import ScimRoundTrip

  // ---- the translation ----

  function EscapeChar(c: char): string {
    if IsMeta(c) then ['\\', c] else [c]
  }

  /** The characters with a meaning in regular expressions are those that are escaped. */
  lemma EscapesExactly(c: char)
    ensures EscapeChar(c) == (if c in ".*+?^${}()|[]\\" then ['\\', c] else [c])
  {
  }

  function EscapeRegex(s: string): string {
    if s == "" then "" else EscapeChar(s[0]) + EscapeRegex(s[1..])
  }

  function Size(n: Node): nat {
    match n
    case Logical(l, _, r) => 1 + Size(l) + Size(r)
    case ArrayFilter(_, expr) => 1 + Size(expr)
    case Condition(_, _, _) => 1
  }

  /** The operands of a maximal chain of one operator, left to right. */
  function Flatten(n: Node, op: Logic): (r: seq<Node>)
    ensures |r| >= 1
    ensures forall c :: c in r ==> Size(c) <= Size(n) && !(c.Logical? && c.op == op)
    ensures n.Logical? && n.op == op ==> |r| >= 2 && forall c :: c in r ==> Size(c) < Size(n)
  {
    if n.Logical? && n.op == op then Flatten(n.left, op) + Flatten(n.right, op) else [n]
  }

  function LogicKey(op: Logic): string {
    if op == And then "$and" else "$or"
  }

  /** The text operators escape their value, which throws unless it is a string. */
  function TextQuery(attr: string, value: Value, before: string, after: string): Result<Filter> {
    if value.Str? then Ok(Field(attr, Regex(before + EscapeRegex(value.s) + after, "i"))) else Err
  }

  function Transform(n: Node): Result<Filter>
    decreases Size(n), 1
  {
    match n
    case Logical(_, op, _) =>
      var fs :- TransformAll(Flatten(n, op), Size(n));
      Ok(One(LogicKey(op), Sub(fs)))
    case ArrayFilter(path, expr) =>
      var f :- Transform(expr);
      Ok(Field(path, ElemMatch(f)))
    case Condition(attr, comparator, value) =>
      match comparator
      case ArrayHas => Ok(Field(attr, Eq(value)))
      case Contains => TextQuery(attr, value, "", "")
      case Equal => Ok(Field(attr, Eq(value)))
      case EndsWith => TextQuery(attr, value, "", "$")
      case AtLeast => Ok(Field(attr, Gte(value)))
      case Above => Ok(Field(attr, Gt(value)))
      case AtMost => Ok(Field(attr, Lte(value)))
      case Below => Ok(Field(attr, Lt(value)))
      case Present => Ok(Field(attr, Exists))
      case StartsWith => TextQuery(attr, value, "^", "")
  }

  function TransformAll(ns: seq<Node>, bound: nat): (r: Result<seq<Filter>>)
    requires forall n :: n in ns ==> Size(n) < bound
    ensures r.Ok? ==> |r.value| == |ns| && forall i :: 0 <= i < |ns| ==> Transform(ns[i]) == Ok(r.value[i])
    ensures r.Err? ==> exists i :: 0 <= i < |ns| && Transform(ns[i]).Err?
    decreases bound, 0, |ns|
  {
    if ns == [] then Ok([])
    else
      var f :- Transform(ns[0]);
      var fs :- TransformAll(ns[1..], bound);
      Ok([f] + fs)
  }

  /** The whole helper; an empty filter text selects everything. */
  method ScimToMongo(scim: string) returns (r: Result<Filter>)
    ensures r == if scim == "" then Ok(EVERYTHING) else
      match ParseTokens(TokensOf(scim)) case Ok(ast) => Transform(ast) case Err => Err
  {
    if scim == "" {
      return Ok(EVERYTHING);
    }
    var ast := Parse(scim);
    r := match ast case Ok(n) => Transform(n) case Err => Err;
  }

  // ---- what a SCIM tree means ----

  ghost predicate TextMatches(found: set<Value>, value: Value, at: (string, string, int) -> bool) {
    value.Str? &&
    exists x, i: int :: x in Leaves(found) && x.Str? && OccursAt(Fold(value.s), Fold(x.s), i) && at(value.s, x.s, i)
  }

  ghost predicate ConditionHolds(comparator: Comparator, value: Value, found: set<Value>) {
    match comparator
    case ArrayHas => Equals(value, found)
    case Equal => Equals(value, found)
    case Contains => TextMatches(found, value, (v, x, i) => true)
    case StartsWith => TextMatches(found, value, (v, x, i) => i == 0)
    case EndsWith => TextMatches(found, value, (v, x, i) => i + |v| == |x|)
    case AtLeast => exists x :: x in Leaves(found) && (x == value || Less(value, x))
    case Above => exists x :: x in Leaves(found) && Less(value, x)
    case AtMost => exists x :: x in Leaves(found) && (x == value || Less(x, value))
    case Below => exists x :: x in Leaves(found) && Less(x, value)
    case Present => found != {}
  }

  /** The value of a SCIM tree on a document, by recursion over the tree alone. */
  ghost predicate ScimHolds(n: Node, doc: Value) {
    match n
    case Logical(l, And, r) => ScimHolds(l, doc) && ScimHolds(r, doc)
    case Logical(l, Or, r) => ScimHolds(l, doc) || ScimHolds(r, doc)
    case ArrayFilter(path, expr) =>
      exists a :: a in At(doc, Segments(path)) && a.Arr? && exists e :: e in a.items && e.Doc? && ScimHolds(expr, e)
    case Condition(attr, comparator, value) => ConditionHolds(comparator, value, At(doc, Segments(attr)))
  }

  // ---- escaped text is a literal ----

  lemma EscapedCharReads(c: char, rest: string)
    ensures ReadBody(EscapeChar(c) + rest) == Prepend(c, ReadBody(rest))
  {
    var p := EscapeChar(c) + rest;
    if IsMeta(c) {
      assert p[0] == '\\' && p[1] == c && p[2..] == rest;
    } else {
      assert p[0] == c && p[1..] == rest;
    }
  }

  /** `p` reads as the literal `s` in front of whatever `rest` reads as. */
  predicate ReadsAs(p: string, s: string, rest: string) {
    ReadBody(rest).Pattern? && ReadBody(p) == ReadBody(rest).(literal := s + ReadBody(rest).literal)
  }

  lemma ReadsAsStep(c: char, tail: string, s: string, rest: string)
    requires ReadsAs(tail, s, rest)
    ensures ReadsAs(EscapeChar(c) + tail, [c] + s, rest)
  {
    EscapedCharReads(c, tail);
    ScimPrinter.Assoc([c], s, ReadBody(rest).literal);
  }

  /** Escaped text, read as a pattern in front of `rest`, is the literal text. */
  lemma {:induction false} EscapedReads(s: string, rest: string)
    requires ReadBody(rest).Pattern?
    ensures ReadsAs(EscapeRegex(s) + rest, s, rest)
  {
    if s == "" {
      assert EscapeRegex(s) + rest == rest;
      assert "" + ReadBody(rest).literal == ReadBody(rest).literal;
    } else {
      EscapedReads(s[1..], rest);
      ReadsAsStep(s[0], EscapeRegex(s[1..]) + rest, s[1..], rest);
      ScimPrinter.Assoc(EscapeChar(s[0]), EscapeRegex(s[1..]), rest);
      assert [s[0]] + s[1..] == s;
    }
  }

  /** `^` and `$` around escaped text are the only anchors, and the literal is the original text. */
  lemma EscapeIsLiteral(s: string)
    ensures ReadPattern(EscapeRegex(s)) == Pattern(false, s, false)
    ensures ReadPattern("^" + EscapeRegex(s)) == Pattern(true, s, false)
    ensures ReadPattern(EscapeRegex(s) + "$") == Pattern(false, s, true)
  {
    EscapedReads(s, "");
    EscapedReads(s, "$");
    assert EscapeRegex(s) + "" == EscapeRegex(s);
    assert ("^" + EscapeRegex(s))[1..] == EscapeRegex(s);
    assert s != "" ==> EscapeRegex(s)[0] != '^';
  }

  lemma TextPattern(s: string, before: string, after: string)
    requires (before, after) in {("", ""), ("^", ""), ("", "$")}
    ensures ReadPattern(before + EscapeRegex(s) + after) == Pattern(before == "^", s, after == "$")
  {
    var e := EscapeRegex(s);
    EscapeIsLiteral(s);
    assert "" + e + "" == e && "" + e + "$" == e + "$" && "^" + e + "" == "^" + e;
  }

  lemma TextQueryMeans(attr: string, value: Value, before: string, after: string, doc: Value)
    requires (before, after) in {("", ""), ("^", ""), ("", "$")}
    requires value.Str?
    ensures Holds(TextQuery(attr, value, before, after).value, doc) ==
      TextMatches(At(doc, Segments(attr)), value,
                  (v, x, i) => (before == "^" ==> i == 0) && (after == "$" ==> i + |v| == |x|))
  {
    var pattern := before + EscapeRegex(value.s) + after;
    TextPattern(value.s, before, after);
    HoldsOne(attr, Cond(Regex(pattern, "i")), doc);
    FoldedMatches(pattern, At(doc, Segments(attr)));
  }

  lemma FoldedMatches(pattern: string, found: set<Value>)
    requires ReadPattern(pattern).Pattern?
    ensures
      var p := ReadPattern(pattern);
      Matches(Regex(pattern, "i"), found) <==>
      exists x :: x in Leaves(found) && x.Str? && MatchesPattern(p.(literal := Fold(p.literal)), Fold(x.s))
  {
    assert 'i' in "i";
  }

  // ---- meaning is preserved ----

  /** Flattening a chain keeps its meaning: all, or some, of the operands hold. */
  lemma {:induction false} FlattenMeans(n: Node, op: Logic, doc: Value)
    ensures op == And ==> (ScimHolds(n, doc) <==> forall c :: c in Flatten(n, op) ==> ScimHolds(c, doc))
    ensures op == Or ==> (ScimHolds(n, doc) <==> exists c :: c in Flatten(n, op) && ScimHolds(c, doc))
  {
    if n.Logical? && n.op == op {
      FlattenMeans(n.left, op, doc);
      FlattenMeans(n.right, op, doc);
    } else {
      assert Flatten(n, op) == [n];
    }
  }

  /** The query holds of exactly the documents the SCIM tree holds of. */
  lemma {:induction false} TransformMeans(n: Node, doc: Value)
    requires Transform(n).Ok?
    ensures Holds(Transform(n).value, doc) == ScimHolds(n, doc)
    decreases Size(n)
  {
    match n
    case Logical(_, op, _) =>
      var kids := Flatten(n, op);
      var fs := TransformAll(kids, Size(n)).value;
      forall i | 0 <= i < |kids|
        ensures Holds(fs[i], doc) == ScimHolds(kids[i], doc)
      {
        TransformMeans(kids[i], doc);
      }
      ChainMeans(n, kids, fs, doc);
    case ArrayFilter(path, expr) =>
      HoldsOne(path, Cond(ElemMatch(Transform(expr).value)), doc);
      forall e: Value
        ensures Holds(Transform(expr).value, e) == ScimHolds(expr, e)
      {
        TransformMeans(expr, e);
      }
    case Condition(attr, comparator, value) =>
      ConditionMeans(attr, comparator, value, doc);
  }

  /** A chain of translated operands means what the chain of operands means. */
  lemma ChainMeans(n: Node, kids: seq<Node>, fs: seq<Filter>, doc: Value)
    requires n.Logical? && kids == Flatten(n, n.op) && |kids| == |fs|
    requires forall i :: 0 <= i < |kids| ==> Holds(fs[i], doc) == ScimHolds(kids[i], doc)
    ensures Holds(One(LogicKey(n.op), Sub(fs)), doc) == ScimHolds(n, doc)
  {
    FlattenMeans(n, n.op, doc);
    HoldsOne(LogicKey(n.op), Sub(fs), doc);
    SameTruth(kids, fs, doc);
  }

  lemma SameTruth(kids: seq<Node>, fs: seq<Filter>, doc: Value)
    requires |kids| == |fs| && forall i :: 0 <= i < |kids| ==> Holds(fs[i], doc) == ScimHolds(kids[i], doc)
    ensures (forall f :: f in fs ==> Holds(f, doc)) <==> (forall c :: c in kids ==> ScimHolds(c, doc))
    ensures (exists f :: f in fs && Holds(f, doc)) <==> (exists c :: c in kids && ScimHolds(c, doc))
  {
    forall i | 0 <= i < |kids|
      ensures fs[i] in fs && kids[i] in kids
    {
    }
  }

  lemma ConditionMeans(attr: string, comparator: Comparator, value: Value, doc: Value)
    requires Transform(Condition(attr, comparator, value)).Ok?
    ensures Holds(Transform(Condition(attr, comparator, value)).value, doc) ==
      ConditionHolds(comparator, value, At(doc, Segments(attr)))
  {
    var f := Transform(Condition(attr, comparator, value)).value;
    match comparator {
      case Contains =>
        TextQueryMeans(attr, value, "", "", doc);
      case StartsWith =>
        TextQueryMeans(attr, value, "^", "", doc);
      case EndsWith =>
        TextQueryMeans(attr, value, "", "$", doc);
      case _ =>
        assert f == Field(attr, f.entries[attr].c);
        HoldsOne(attr, f.entries[attr], doc);
    }
  }

  // ---- when the translation fails ----

  /** `co`, `sw` and `ew` compare with text. */
  predicate TextOperands(n: Node) {
    match n
    case Logical(l, _, r) => TextOperands(l) && TextOperands(r)
    case ArrayFilter(_, expr) => TextOperands(expr)
    case Condition(_, c, v) => c == Contains || c == StartsWith || c == EndsWith ==> v.Str?
  }

  lemma {:induction false} FlattenText(n: Node, op: Logic)
    ensures TextOperands(n) <==> forall c :: c in Flatten(n, op) ==> TextOperands(c)
  {
    if n.Logical? && n.op == op {
      FlattenText(n.left, op);
      FlattenText(n.right, op);
    } else {
      assert Flatten(n, op) == [n];
    }
  }

  /** The translation throws exactly when a text operator has a number or a boolean. */
  lemma {:induction false} TransformFails(n: Node)
    ensures Transform(n).Ok? <==> TextOperands(n)
    decreases Size(n)
  {
    match n
    case Logical(_, op, _) =>
      var kids := Flatten(n, op);
      FlattenText(n, op);
      forall c | c in kids
        ensures Transform(c).Ok? <==> TextOperands(c)
      {
        TransformFails(c);
      }
      if TextOperands(n) {
        assert forall c :: c in kids ==> TextOperands(c);
        assert forall i :: 0 <= i < |kids| ==> kids[i] in kids && Transform(kids[i]).Ok?;
        assert TransformAll(kids, Size(n)).Ok?;
      } else {
        var c :| c in kids && !TextOperands(c);
        var i :| 0 <= i < |kids| && kids[i] == c;
        assert Transform(kids[i]).Err?;
      }
    case ArrayFilter(_, expr) =>
      TransformFails(expr);
    case Condition(_, _, _) =>
  }

  // ---- normal form ----

  /** Chains have at least two operands, and no operand is a chain of the same operator. */
  ghost predicate Normal(f: Filter)
    decreases f
  {
    forall k :: k in f.entries ==> NormalEntry(k, f.entries[k])
  }

  ghost predicate NormalEntry(k: string, e: Entry)
    decreases e
  {
    match e
    case Sub(fs) => |fs| >= 2 && forall f :: f in fs ==> Normal(f) && !IsChain(f, k)
    case Cond(ElemMatch(f)) => Normal(f)
    case Cond(_) => true
  }

  predicate IsChain(f: Filter, k: string) {
    k in f.entries && f.entries[k].Sub?
  }

  lemma {:induction false} TransformNormal(n: Node)
    requires Transform(n).Ok?
    ensures Normal(Transform(n).value)
    ensures forall k :: IsChain(Transform(n).value, k) ==> n.Logical? && k == LogicKey(n.op)
    decreases Size(n)
  {
    match n
    case Logical(_, op, _) =>
      var kids := Flatten(n, op);
      var fs := TransformAll(kids, Size(n)).value;
      forall f | f in fs
        ensures Normal(f) && !IsChain(f, LogicKey(op))
      {
        var i :| 0 <= i < |fs| && fs[i] == f;
        TransformNormal(kids[i]);
      }
    case ArrayFilter(_, expr) =>
      TransformNormal(expr);
    case Condition(_, _, _) =>
  }

  // ---- end to end ----

  /** Text printed from a tree, read and translated, selects exactly the documents the tree holds of. */
  lemma PrintedTextMeans(n: Node, doc: Value)
    requires ScimPrinter.Printable(n) && TextOperands(n)
    ensures var ast := ParseTokens(TokensOf(ScimPrinter.Print(n)));
      ast.Ok? && Transform(ast.value).Ok? && Normal(Transform(ast.value).value) &&
      Holds(Transform(ast.value).value, doc) == ScimHolds(n, doc)
  {
    ScimRoundTrip.RoundTrip(n);
    TransformFails(n);
    TransformNormal(n);
    TransformMeans(n, doc);
  }
}
