/**
 * How the trees of the SCIM filter reader relate to section 3.4.2.2 of RFC 7644, where `and` binds
 * more tightly than `or`.
 */
module ScimPrecedence {
  import opened Outcomes
  import opened Mongo
  import opened Scim
  import opened ScimQuery

  /** A filter as it is written: operands in a row, with the groups that brackets make. */
  datatype Expr = One(term: Term) | More(before: Expr, op: Logic, term: Term)

  datatype Term = Group(expr: Expr) | InArray(path: string, expr: Expr) | Simple(node: Node)

  // ---- the reader's tree ----

  function LeftTree(e: Expr): Node {
    match e
    case One(t) => LeftTerm(t)
    case More(before, op, t) => Logical(LeftTree(before), op, LeftTerm(t))
  }

  function LeftTerm(t: Term): Node {
    match t
    case Group(e) => LeftTree(e)
    case InArray(path, e) => ArrayFilter(path, LeftTree(e))
    case Simple(n) => n
  }

  // ---- the standard's tree ----

  /** The alternatives so far, and the run of `and` at the end. */
  datatype Parts = Parts(alternatives: Option<Node>, run: Node) {
    function Tree(): Node {
      if alternatives.Some? then Logical(alternatives.value, Or, run) else run
    }
  }

  function StandardParts(e: Expr): Parts
    decreases e, 0
  {
    match e
    case One(t) => Parts(None, StandardTerm(t))
    case More(before, And, t) =>
      var p := StandardParts(before);
      p.(run := Logical(p.run, And, StandardTerm(t)))
    case More(before, Or, t) => Parts(Some(StandardParts(before).Tree()), StandardTerm(t))
  }

  function StandardTree(e: Expr): Node
    decreases e, 1
  {
    StandardParts(e).Tree()
  }

  function StandardTerm(t: Term): Node
    decreases t, 0
  {
    match t
    case Group(e) => StandardTree(e)
    case InArray(path, e) => ArrayFilter(path, StandardTree(e))
    case Simple(n) => n
  }

  // ---- reading what is written ----

  function ReadTerm(ts: seq<string>, pos: nat): (r: Result<(Term, nat)>)
    requires pos <= |ts|
    ensures r.Ok? ==> pos < r.value.1 <= |ts|
    decreases |ts| - pos, 0
  {
    if TokenIs(ts, pos, "(") then
      var (e, next) :- ReadExpr(ts, pos + 1);
      if TokenIs(ts, next, ")") then Ok((Group(e), next + 1)) else Err
    else if TokenIs(ts, pos + 1, "[") then
      var (e, next) :- ReadExpr(ts, pos + 2);
      if TokenIs(ts, next, "]") then Ok((InArray(ts[pos], e), next + 1)) else Err
    else
      var (n, next) :- ParseCondition(ts, pos);
      Ok((Simple(n), next))
  }

  function ReadExpr(ts: seq<string>, pos: nat): (r: Result<(Expr, nat)>)
    requires pos <= |ts|
    ensures r.Ok? ==> pos < r.value.1 <= |ts|
    decreases |ts| - pos, 1
  {
    var (t, next) :- ReadTerm(ts, pos);
    ReadMore(ts, One(t), next)
  }

  function ReadMore(ts: seq<string>, e: Expr, pos: nat): (r: Result<(Expr, nat)>)
    requires pos <= |ts|
    ensures r.Ok? ==> pos <= r.value.1 <= |ts|
    decreases |ts| - pos, 1
  {
    if pos < |ts| && LogicOf(ts[pos]).Some? then
      var (t, next) :- ReadTerm(ts, pos + 1);
      ReadMore(ts, More(e, LogicOf(ts[pos]).value, t), next)
    else Ok((e, pos))
  }

  function LeftRead(r: Result<(Expr, nat)>): Result<(Node, nat)> {
    match r
    case Ok(p) => Ok((LeftTree(p.0), p.1))
    case Err => Err
  }

  lemma {:induction false} TermIsLeft(ts: seq<string>, pos: nat)
    requires pos <= |ts|
    ensures ParseTerm(ts, pos) ==
      match ReadTerm(ts, pos)
      case Ok(p) => Ok((LeftTerm(p.0), p.1))
      case Err => Err
    decreases |ts| - pos, 0
  {
    if TokenIs(ts, pos, "(") {
      ExprIsLeft(ts, pos + 1);
    } else if TokenIs(ts, pos + 1, "[") {
      ExprIsLeft(ts, pos + 2);
    }
  }

  lemma {:induction false} ExprIsLeft(ts: seq<string>, pos: nat)
    requires pos <= |ts|
    ensures ParseExpression(ts, pos) == LeftRead(ReadExpr(ts, pos))
    decreases |ts| - pos, 1
  {
    TermIsLeft(ts, pos);
    var first := ReadTerm(ts, pos);
    if first.Ok? {
      MoreIsLeft(ts, One(first.value.0), first.value.1);
    }
  }

  lemma {:induction false} MoreIsLeft(ts: seq<string>, e: Expr, pos: nat)
    requires pos <= |ts|
    ensures ParseRest(ts, LeftTree(e), pos) == LeftRead(ReadMore(ts, e, pos))
    decreases |ts| - pos, 1
  {
    if pos < |ts| && LogicOf(ts[pos]).Some? {
      TermIsLeft(ts, pos + 1);
      var next := ReadTerm(ts, pos + 1);
      if next.Ok? {
        MoreIsLeft(ts, More(e, LogicOf(ts[pos]).value, next.value.0), next.value.1);
      }
    }
  }

  // ---- when the two agree ----

  predicate HasOr(e: Expr) {
    e.More? && (e.op == Or || HasOr(e.before))
  }

  /** In no group, however deep, does an `and` follow an `or`. */
  predicate Unmixed(e: Expr) {
    match e
    case One(t) => UnmixedTerm(t)
    case More(before, op, t) => Unmixed(before) && UnmixedTerm(t) && (op == And ==> !HasOr(before))
  }

  predicate UnmixedTerm(t: Term) {
    t.Simple? || Unmixed(t.expr)
  }

  lemma {:induction false} AlternativesNeedOr(e: Expr)
    ensures StandardParts(e).alternatives.Some? <==> HasOr(e)
  {
    if e.More? && e.op == And {
      AlternativesNeedOr(e.before);
    }
  }

  lemma {:induction false} SameTreeExactly(e: Expr)
    ensures LeftTree(e) == StandardTree(e) <==> Unmixed(e)
    decreases e
  {
    match e
    case One(t) => SameTermExactly(t);
    case More(before, op, t) =>
      SameTreeExactly(before);
      SameTermExactly(t);
      AlternativesNeedOr(before);
  }

  lemma {:induction false} SameTermExactly(t: Term)
    ensures LeftTerm(t) == StandardTerm(t) <==> UnmixedTerm(t)
    decreases t
  {
    if !t.Simple? {
      SameTreeExactly(t.expr);
    }
  }

  /** A text is read as the standard says exactly if no group has an `and` after an `or`. */
  lemma ReadAsStandardExactly(text: string)
    requires ReadExpr(TokensOf(text), 0).Ok?
    ensures
      var e := ReadExpr(TokensOf(text), 0).value.0;
      ParseTokens(TokensOf(text)) == Ok(StandardTree(e)) <==> Unmixed(e)
  {
    ExprIsLeft(TokensOf(text), 0);
    SameTreeExactly(ReadExpr(TokensOf(text), 0).value.0);
  }

  // ---- what a difference means ----

  /** Every document that the reader's tree selects is selected by the standard's, too. */
  lemma {:induction false} LeftSelectsFewer(e: Expr, doc: Value)
    requires ScimHolds(LeftTree(e), doc)
    ensures ScimHolds(StandardTree(e), doc)
    decreases e
  {
    match e
    case One(t) => TermSelectsFewer(t, doc);
    case More(before, And, t) =>
      LeftSelectsFewer(before, doc);
      TermSelectsFewer(t, doc);
      var p := StandardParts(before);
      assert StandardParts(e) == p.(run := Logical(p.run, And, StandardTerm(t)));
      assert ScimHolds(p.run, doc) ==> ScimHolds(Logical(p.run, And, StandardTerm(t)), doc);
      assert StandardTree(e) == StandardParts(e).Tree() && StandardTree(before) == p.Tree();
    case More(before, Or, t) =>
      assert StandardParts(e) == Parts(Some(StandardTree(before)), StandardTerm(t));
      assert StandardTree(e) == Logical(StandardTree(before), Or, StandardTerm(t));
      if ScimHolds(LeftTree(before), doc) {
        LeftSelectsFewer(before, doc);
      } else {
        TermSelectsFewer(t, doc);
      }
  }

  lemma {:induction false} TermSelectsFewer(t: Term, doc: Value)
    requires ScimHolds(LeftTerm(t), doc)
    ensures ScimHolds(StandardTerm(t), doc)
    decreases t
  {
    match t
    case Simple(_) =>
    case Group(e) => LeftSelectsFewer(e, doc);
    case InArray(path, e) =>
      var a :| a in At(doc, Segments(path)) && a.Arr? &&
        exists x :: x in a.items && x.Doc? && ScimHolds(LeftTree(e), x);
      var x :| x in a.items && x.Doc? && ScimHolds(LeftTree(e), x);
      LeftSelectsFewer(e, x);
  }

  /** In `a or b and c` the missing documents are those of which `a` holds and `c` does not. */
  lemma MissingExactly(a: Node, b: Node, c: Node, doc: Value)
    ensures
      var e := More(More(One(Simple(a)), Or, Simple(b)), And, Simple(c));
      ScimHolds(StandardTree(e), doc) && !ScimHolds(LeftTree(e), doc) <==> ScimHolds(a, doc) && !ScimHolds(c, doc)
  {
    var one := One(Simple(a));
    var two := More(one, Or, Simple(b));
    var e := More(two, And, Simple(c));
    assert LeftTerm(Simple(a)) == a && LeftTerm(Simple(b)) == b && LeftTerm(Simple(c)) == c;
    assert LeftTree(one) == LeftTerm(Simple(a));
    assert LeftTree(two) == Logical(a, Or, b);
    assert LeftTree(e) == Logical(LeftTree(two), And, c);
    assert StandardParts(one) == Parts(None, a);
    assert StandardParts(two) == Parts(Some(a), b);
    assert StandardParts(e) == Parts(Some(a), Logical(b, And, c));
    assert StandardTree(e) == Logical(a, Or, Logical(b, And, c));
    assert ScimHolds(Logical(b, And, c), doc) == (ScimHolds(b, doc) && ScimHolds(c, doc));
    assert ScimHolds(Logical(a, Or, b), doc) == (ScimHolds(a, doc) || ScimHolds(b, doc));
  }
}
