/** The map of requested fields that is built from a GraphQL selection. */
module GraphQlFields {
  import opened Outcomes

  /** The `if` argument: a variable, a literal with its truth value, or a null, list or object literal. */
  datatype Argument = Variable(name: string) | Literal(truthy: bool) | NoValue

  datatype Directive = Directive(name: string, arg: Option<Argument>)

  datatype Selection =
    | Field(directives: seq<Directive>, name: string, selections: seq<Selection>)
    | Inline(directives: seq<Directive>, selections: seq<Selection>)
    | Spread(directives: seq<Directive>, fragment: string)

  /** What the resolver knows besides the selection: fragments, and which variables are truthy. */
  datatype Info = Info(fragments: map<string, seq<Selection>>, variables: map<string, bool>)

  /** Nested maps of field names. */
  datatype Fields = Fields(children: map<string, Fields>)

  const NOTHING := Fields(map[])

  // ---- directives ----

  /** `getDirectiveValue`: an absent argument or variable counts as false. */
  predicate DirectiveValue(info: Info, d: Directive) {
    match d.arg
    case None => false
    case Some(Variable(v)) => v in info.variables && info.variables[v]
    case Some(Literal(truthy)) => truthy
    case Some(NoValue) => false
  }

  /** A literal that is truthy, or a variable that is. */
  ghost predicate ArgumentIsTrue(info: Info, d: Directive) {
    d.arg == Some(Literal(true)) ||
    exists v :: d.arg == Some(Variable(v)) && v in info.variables && info.variables[v]
  }

  lemma ValueIsArgument(info: Info, d: Directive)
    ensures DirectiveValue(info, d) <==> ArgumentIsTrue(info, d)
  {
  }

  /** Whether to include and whether to skip. */
  datatype Verdict = Verdict(shouldInclude: bool, shouldSkip: bool)

  function DirectiveResults(info: Info, ds: seq<Directive>): Verdict {
    if ds == [] then Verdict(true, false)
    else
      var before := DirectiveResults(info, ds[..|ds| - 1]);
      var last := ds[|ds| - 1];
      if last.name == "include" then before.(shouldInclude := DirectiveValue(info, last))
      else if last.name == "skip" then before.(shouldSkip := DirectiveValue(info, last))
      else before
  }

  predicate Included(info: Info, ds: seq<Directive>) {
    var verdict := DirectiveResults(info, ds);
    !verdict.shouldSkip && verdict.shouldInclude
  }

  /** Each directive at most once, as the language demands of `@skip` and `@include`. */
  predicate UniqueNames(ds: seq<Directive>) {
    forall i, j :: 0 <= i < j < |ds| ==> ds[i].name != ds[j].name
  }

  /** Sections 3.13.1 and 3.13.2: no `@skip` that is true, no `@include` that is false. */
  ghost predicate Wanted(info: Info, ds: seq<Directive>) {
    forall i :: 0 <= i < |ds| ==>
      (ds[i].name == "skip" ==> !ArgumentIsTrue(info, ds[i])) &&
      (ds[i].name == "include" ==> ArgumentIsTrue(info, ds[i]))
  }

  ghost predicate LastIs(info: Info, ds: seq<Directive>, name: string, i: int, value: bool) {
    0 <= i < |ds| && ds[i].name == name && ArgumentIsTrue(info, ds[i]) == value &&
    forall j :: i < j < |ds| ==> ds[j].name != name
  }

  /** Of several `@skip` or several `@include` the last one decides. */
  lemma {:induction false} LastDirectiveDecides(info: Info, ds: seq<Directive>)
    ensures var verdict := DirectiveResults(info, ds);
      (verdict.shouldSkip <==> exists i :: LastIs(info, ds, "skip", i, true)) &&
      (!verdict.shouldInclude <==> exists i :: LastIs(info, ds, "include", i, false))
  {
    if ds != [] {
      var front := ds[..|ds| - 1];
      LastDirectiveDecides(info, front);
      ValueIsArgument(info, ds[|ds| - 1]);
      ExtendLast(info, front, ds[|ds| - 1], "skip", true);
      ExtendLast(info, front, ds[|ds| - 1], "include", false);
      assert front + [ds[|ds| - 1]] == ds;
    }
  }

  lemma ExtendLast(info: Info, front: seq<Directive>, d: Directive, name: string, value: bool)
    ensures (exists i :: LastIs(info, front + [d], name, i, value)) <==>
      if d.name == name then ArgumentIsTrue(info, d) == value else exists i :: LastIs(info, front, name, i, value)
  {
    var all := front + [d];
    if i :| LastIs(info, all, name, i, value) {
      if i < |front| {
        assert all[|front|].name != name;
        assert LastIs(info, front, name, i, value) by {
          assert forall j :: i < j < |front| ==> all[j] == front[j];
        }
      }
    }
    if d.name == name && ArgumentIsTrue(info, d) == value {
      assert LastIs(info, all, name, |front|, value);
    }
    if d.name != name {
      if i :| LastIs(info, front, name, i, value) {
        assert LastIs(info, all, name, i, value);
      }
    }
  }

  /** On valid documents, a selection is taken exactly when the directives say so. */
  lemma DirectivesMean(info: Info, ds: seq<Directive>)
    requires UniqueNames(ds)
    ensures Included(info, ds) == Wanted(info, ds)
  {
    LastDirectiveDecides(info, ds);
    if !Wanted(info, ds) {
      var i :| 0 <= i < |ds| &&
        ((ds[i].name == "skip" && ArgumentIsTrue(info, ds[i])) ||
         (ds[i].name == "include" && !ArgumentIsTrue(info, ds[i])));
      assert LastIs(info, ds, ds[i].name, i, ArgumentIsTrue(info, ds[i]));
    }
  }

  // ---- fragments without cycles (section 5.5.2.2) ----

  /** Every fragment the selections spread, at any depth, ranks below `bound`. */
  ghost predicate Below(info: Info, rank: map<string, nat>, bound: nat, sels: seq<Selection>)
    decreases sels
  {
    forall i :: 0 <= i < |sels| ==> SelectionBelow(info, rank, bound, sels[i])
  }

  ghost predicate SelectionBelow(info: Info, rank: map<string, nat>, bound: nat, s: Selection)
    decreases s
  {
    match s
    case Field(_, _, sels) => Below(info, rank, bound, sels)
    case Inline(_, sels) => Below(info, rank, bound, sels)
    case Spread(_, f) => f in info.fragments ==> f in rank && rank[f] < bound
  }

  ghost predicate Ranked(info: Info, rank: map<string, nat>) {
    forall f :: f in info.fragments ==> f in rank && Below(info, rank, rank[f], info.fragments[f])
  }

  // ---- the flattening ----

  function Child(t: Fields, name: string): Fields {
    if name in t.children then t.children[name] else NOTHING
  }

  /** What `flattenAST` makes of the accumulator `acc`. */
  function Flattened(info: Info, rank: map<string, nat>, bound: nat, excluded: seq<string>, sels: seq<Selection>,
                     acc: Fields): Fields
    requires Ranked(info, rank) && Below(info, rank, bound, sels)
    decreases bound, sels
  {
    if sels == [] then acc
    else Flattened(info, rank, bound, excluded, sels[1..], FlattenedOne(info, rank, bound, excluded, sels[0], acc))
  }

  function FlattenedOne(info: Info, rank: map<string, nat>, bound: nat, excluded: seq<string>, s: Selection,
                        acc: Fields): Fields
    requires Ranked(info, rank) && SelectionBelow(info, rank, bound, s)
    decreases bound, s
  {
    if !Included(info, s.directives) then acc
    else
      match s
      case Field(_, name, sels) =>
        if name in excluded then acc
        else Fields(acc.children[name := Flattened(info, rank, bound, [], sels, Child(acc, name))])
      case Inline(_, sels) => Flattened(info, rank, bound, [], sels, acc)
      case Spread(_, f) => if f in info.fragments then Flattened(info, rank, rank[f], [], info.fragments[f], acc)
        else acc
  }

  method FlattenAst(info: Info, ghost rank: map<string, nat>, ghost bound: nat, excluded: seq<string>,
                    sels: seq<Selection>, obj: Fields)
    returns (flattened: Fields)
    requires Ranked(info, rank) && Below(info, rank, bound, sels)
    ensures flattened == Flattened(info, rank, bound, excluded, sels, obj)
    decreases bound, sels
  {
    flattened := obj;
    for i := 0 to |sels|
      invariant Flattened(info, rank, bound, excluded, sels[i..], flattened)
        == Flattened(info, rank, bound, excluded, sels, obj)
    {
      var a := sels[i];
      assert sels[i..][0] == a && sels[i..][1..] == sels[i + 1..];
      if a.directives != [] {
        var verdict := DirectiveResults(info, a.directives);
        if verdict.shouldSkip || !verdict.shouldInclude {
          continue;
        }
      }
      match a
      case Field(_, name, nested) =>
        if name in excluded {
          continue;
        }
        var before := if name in flattened.children then flattened.children[name] else NOTHING;
        var child := FlattenAst(info, rank, bound, [], nested, before);
        flattened := Fields(flattened.children[name := child]);
      case Inline(_, nested) =>
        flattened := FlattenAst(info, rank, bound, [], nested, flattened);
      case Spread(_, f) =>
        if f in info.fragments {
          flattened := FlattenAst(info, rank, rank[f], [], info.fragments[f], flattened);
        }
    }
  }

  // ---- the fields that were asked for ----

  /**
   * A path of field names is selected: through included selections, with fragments replaced
   * by what they contain. Exclusion only looks at fields directly in `sels`.
   */
  ghost predicate Selects(info: Info, rank: map<string, nat>, bound: nat, excluded: seq<string>, sels: seq<Selection>,
                          path: seq<string>)
    requires Ranked(info, rank) && Below(info, rank, bound, sels) && path != []
    decreases bound, sels
  {
    exists i :: 0 <= i < |sels| && SelectsBy(info, rank, bound, excluded, sels[i], path)
  }

  ghost predicate SelectsBy(info: Info, rank: map<string, nat>, bound: nat, excluded: seq<string>, s: Selection,
                            path: seq<string>)
    requires Ranked(info, rank) && SelectionBelow(info, rank, bound, s) && path != []
    decreases bound, s
  {
    Included(info, s.directives) &&
    match s
    case Field(_, name, sels) =>
      name == path[0] && name !in excluded && (|path| == 1 || Selects(info, rank, bound, [], sels, path[1..]))
    case Inline(_, sels) => Selects(info, rank, bound, [], sels, path)
    case Spread(_, f) => f in info.fragments && Selects(info, rank, rank[f], [], info.fragments[f], path)
  }

  predicate Has(t: Fields, path: seq<string>) {
    path == [] || (path[0] in t.children && Has(t.children[path[0]], path[1..]))
  }

  /** The flattened map has exactly the paths it had before and those that are selected. */
  lemma {:induction false} FlattenedHasExactly(info: Info, rank: map<string, nat>, bound: nat, excluded: seq<string>,
                                               sels: seq<Selection>, acc: Fields, path: seq<string>)
    requires Ranked(info, rank) && Below(info, rank, bound, sels) && path != []
    ensures Has(Flattened(info, rank, bound, excluded, sels, acc), path) <==>
      Has(acc, path) || Selects(info, rank, bound, excluded, sels, path)
    decreases bound, sels
  {
    if sels != [] {
      FlattenedOneHasExactly(info, rank, bound, excluded, sels[0], acc, path);
      FlattenedHasExactly(info, rank, bound, excluded, sels[1..],
                          FlattenedOne(info, rank, bound, excluded, sels[0], acc), path);
    }
  }

  lemma {:induction false} FlattenedOneHasExactly(info: Info, rank: map<string, nat>, bound: nat, excluded: seq<string>,
                                                  s: Selection, acc: Fields, path: seq<string>)
    requires Ranked(info, rank) && SelectionBelow(info, rank, bound, s) && path != []
    ensures Has(FlattenedOne(info, rank, bound, excluded, s, acc), path) <==>
      Has(acc, path) || SelectsBy(info, rank, bound, excluded, s, path)
    decreases bound, s
  {
    if Included(info, s.directives) {
      match s
      case Field(_, name, sels) =>
        if name !in excluded && path[0] == name && |path| > 1 {
          FlattenedHasExactly(info, rank, bound, [], sels, Child(acc, name), path[1..]);
        }
      case Inline(_, sels) => FlattenedHasExactly(info, rank, bound, [], sels, acc, path);
      case Spread(_, f) =>
        if f in info.fragments {
          FlattenedHasExactly(info, rank, rank[f], [], info.fragments[f], acc, path);
        }
    }
  }

  // ---- order and repetition ----

  ghost predicate SamePaths(a: Fields, b: Fields) {
    forall path :: Has(a, path) == Has(b, path)
  }

  /** Nested maps with the same paths are the same. */
  lemma {:induction false} SamePathsSameFields(a: Fields, b: Fields)
    requires SamePaths(a, b)
    ensures a == b
    decreases a
  {
    forall name ensures name in a.children <==> name in b.children {
      assert Has(a, [name]) == (name in a.children) && Has(b, [name]) == (name in b.children) by {
        assert [name][1..] == [];
      }
    }
    forall name | name in a.children ensures a.children[name] == b.children[name] {
      forall path ensures Has(a.children[name], path) == Has(b.children[name], path) {
        assert ([name] + path)[1..] == path;
        assert Has(a, [name] + path) == Has(b, [name] + path);
      }
      SamePathsSameFields(a.children[name], b.children[name]);
    }
  }

  /** Neither the order of the selections nor repeating them makes a difference. */
  lemma OrderAndRepetitionDoNotMatter(info: Info, rank: map<string, nat>, bound: nat, excluded: seq<string>,
                                      a: seq<Selection>, b: seq<Selection>, acc: Fields)
    requires Ranked(info, rank) && Below(info, rank, bound, a) && Below(info, rank, bound, b)
    requires forall s :: s in a <==> s in b
    ensures Flattened(info, rank, bound, excluded, a, acc) == Flattened(info, rank, bound, excluded, b, acc)
  {
    var x, y := Flattened(info, rank, bound, excluded, a, acc), Flattened(info, rank, bound, excluded, b, acc);
    forall path ensures Has(x, path) == Has(y, path) {
      if path != [] {
        FlattenedHasExactly(info, rank, bound, excluded, a, acc, path);
        FlattenedHasExactly(info, rank, bound, excluded, b, acc, path);
        SameSelections(info, rank, bound, excluded, a, b, path);
        SameSelections(info, rank, bound, excluded, b, a, path);
      }
    }
    SamePathsSameFields(x, y);
  }

  lemma SameSelections(info: Info, rank: map<string, nat>, bound: nat, excluded: seq<string>, a: seq<Selection>,
                       b: seq<Selection>, path: seq<string>)
    requires Ranked(info, rank) && Below(info, rank, bound, a) && Below(info, rank, bound, b) && path != []
    requires forall s :: s in a ==> s in b
    ensures Selects(info, rank, bound, excluded, a, path) ==> Selects(info, rank, bound, excluded, b, path)
  {
    if i :| 0 <= i < |a| && SelectsBy(info, rank, bound, excluded, a[i], path) {
      assert a[i] in b;
      var j :| 0 <= j < |b| && b[j] == a[i];
      assert SelectsBy(info, rank, bound, excluded, b[j], path);
    }
  }

  /** Which fragment ranking shows the absence of cycles does not matter either. */
  lemma {:induction false} RankDoesNotMatter(info: Info, rank: map<string, nat>, rank': map<string, nat>, bound: nat,
                                             bound': nat, excluded: seq<string>, sels: seq<Selection>, acc: Fields)
    requires Ranked(info, rank) && Below(info, rank, bound, sels) && Ranked(info, rank') &&
      Below(info, rank', bound', sels)
    ensures Flattened(info, rank, bound, excluded, sels, acc) == Flattened(info, rank', bound', excluded, sels, acc)
    decreases bound, sels
  {
    if sels != [] {
      RankDoesNotMatterForOne(info, rank, rank', bound, bound', excluded, sels[0], acc);
      RankDoesNotMatter(info, rank, rank', bound, bound', excluded, sels[1..],
                        FlattenedOne(info, rank, bound, excluded, sels[0], acc));
    }
  }

  lemma {:induction false} RankDoesNotMatterForOne(info: Info, rank: map<string, nat>, rank': map<string, nat>,
      bound: nat, bound': nat, excluded: seq<string>, s: Selection, acc: Fields)
    requires Ranked(info, rank) && SelectionBelow(info, rank, bound, s) && Ranked(info, rank') &&
      SelectionBelow(info, rank', bound', s)
    ensures FlattenedOne(info, rank, bound, excluded, s, acc) == FlattenedOne(info, rank', bound', excluded, s, acc)
    decreases bound, s
  {
    match s
    case Field(_, name, sels) => RankDoesNotMatter(info, rank, rank', bound, bound', [], sels, Child(acc, name));
    case Inline(_, sels) => RankDoesNotMatter(info, rank, rank', bound, bound', [], sels, acc);
    case Spread(_, f) =>
      if f in info.fragments {
        RankDoesNotMatter(info, rank, rank', rank[f], rank'[f], [], info.fragments[f], acc);
      }
  }

  // ---- several field nodes ----

  function GetFields(info: Info, rank: map<string, nat>, bound: nat, excluded: seq<string>, nodes: seq<seq<Selection>>,
                     obj: Fields): Fields
    requires Ranked(info, rank) && forall i :: 0 <= i < |nodes| ==> Below(info, rank, bound, nodes[i])
    decreases |nodes|
  {
    if nodes == [] then obj
    else GetFields(info, rank, bound, excluded, nodes[1..], Flattened(info, rank, bound, excluded, nodes[0], obj))
  }

  /** All field nodes of a resolver together: every path that one of them selects. */
  lemma {:induction false} GetFieldsHasExactly(info: Info, rank: map<string, nat>, bound: nat, excluded: seq<string>,
                                               nodes: seq<seq<Selection>>, obj: Fields, path: seq<string>)
    requires Ranked(info, rank) && (forall i :: 0 <= i < |nodes| ==> Below(info, rank, bound, nodes[i])) && path != []
    ensures Has(GetFields(info, rank, bound, excluded, nodes, obj), path) <==>
      Has(obj, path) || exists i :: 0 <= i < |nodes| && Selects(info, rank, bound, excluded, nodes[i], path)
    decreases |nodes|
  {
    if nodes != [] {
      FlattenedHasExactly(info, rank, bound, excluded, nodes[0], obj, path);
      GetFieldsHasExactly(info, rank, bound, excluded, nodes[1..],
                          Flattened(info, rank, bound, excluded, nodes[0], obj), path);
      if i :| 0 <= i < |nodes[1..]| && Selects(info, rank, bound, excluded, nodes[1..][i], path) {
        assert Selects(info, rank, bound, excluded, nodes[i + 1], path);
      }
      if i :| 0 <= i < |nodes| && Selects(info, rank, bound, excluded, nodes[i], path) {
        assert i > 0 ==> Selects(info, rank, bound, excluded, nodes[1..][i - 1], path);
      }
    }
  }
}
