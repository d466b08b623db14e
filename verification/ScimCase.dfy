/** Letter case in SCIM filters: the case of the operator words does not matter, that of all other tokens does. */
module ScimCase {
  import opened Outcomes
  import opened Mongo
  import opened Strings
  import opened Scim

  const WORDS := ["and", "or", "aco", "co", "eq", "ew", "ge", "gt", "le", "lt", "pr", "sw"]

  /** The lower-case word `w`, with any of its letters in upper case. */
  ghost predicate IsCaseOf(t: string, w: string) {
    |t| == |w| && forall i :: 0 <= i < |t| ==> t[i] == w[i] || ('a' <= w[i] <= 'z' && t[i] == w[i] - 'a' + 'A')
  }

  ghost predicate SameWord(t: string, u: string) {
    exists k :: 0 <= k < |WORDS| && IsCaseOf(t, WORDS[k]) && IsCaseOf(u, WORDS[k])
  }

  /** Equal, or one operator word in two spellings. */
  ghost predicate Alike(t: string, u: string) {
    t == u || SameWord(t, u)
  }

  ghost predicate AlikeTokens(ts: seq<string>, us: seq<string>) {
    |ts| == |us| && forall i :: 0 <= i < |ts| ==> Alike(ts[i], us[i])
  }

  ghost predicate AlikeValues(v: Value, w: Value) {
    v == w || (v.Str? && w.Str? && SameWord(v.s, w.s))
  }

  /** The same tree, apart from attributes, paths and texts that are themselves operator words. */
  ghost predicate AlikeTrees(a: Node, b: Node) {
    match a
    case Logical(l, op, r) => b.Logical? && b.op == op && AlikeTrees(l, b.left) && AlikeTrees(r, b.right)
    case ArrayFilter(path, expr) => b.ArrayFilter? && Alike(path, b.path) && AlikeTrees(expr, b.expr)
    case Condition(attr, c, v) =>
      b.Condition? && b.comparator == c && Alike(attr, b.attr) && AlikeValues(v, b.value)
  }

  ghost predicate AlikeResults(r: Result<(Node, nat)>, s: Result<(Node, nat)>) {
    r.Ok? == s.Ok? && (r.Ok? ==> r.value.1 == s.value.1 && AlikeTrees(r.value.0, s.value.0))
  }

  ghost predicate IsOperatorWord(t: string) {
    exists k :: 0 <= k < |WORDS| && IsCaseOf(t, WORDS[k])
  }

  ghost predicate NamesNoWord(n: Node) {
    match n
    case Logical(l, _, r) => NamesNoWord(l) && NamesNoWord(r)
    case ArrayFilter(path, expr) => !IsOperatorWord(path) && NamesNoWord(expr)
    case Condition(attr, _, v) => !IsOperatorWord(attr) && (v.Str? ==> !IsOperatorWord(v.s))
  }

  // ---- words ----

  lemma CaseIsFold(t: string, w: string)
    requires forall i :: 0 <= i < |w| ==> 'a' <= w[i] <= 'z'
    ensures IsCaseOf(t, w) <==> Fold(t) == w
  {
    if IsCaseOf(t, w) {
      assert forall i :: 0 <= i < |t| ==> FoldChar(t[i]) == w[i];
    } else if |t| == |w| {
      var i :| 0 <= i < |t| && t[i] != w[i] && t[i] != w[i] - 'a' + 'A';
      assert FoldChar(t[i]) != w[i];
    }
  }

  lemma WordLetters(k: nat)
    requires k < |WORDS|
    ensures 0 < |WORDS[k]| < 4 && forall i :: 0 <= i < |WORDS[k]| ==> 'a' <= WORDS[k][i] <= 'z'
  {
    assert WORDS[0] == "and" && WORDS[1] == "or" && WORDS[2] == "aco" && WORDS[3] == "co";
    assert WORDS[4] == "eq" && WORDS[5] == "ew" && WORDS[6] == "ge" && WORDS[7] == "gt";
    assert WORDS[8] == "le" && WORDS[9] == "lt" && WORDS[10] == "pr" && WORDS[11] == "sw";
  }

  /** Each comparator has one word, in any case, and each connective has one. */
  lemma WordsExactly(t: string)
    ensures LogicOf(t) == Some(And) <==> IsCaseOf(t, "and")
    ensures LogicOf(t) == Some(Or) <==> IsCaseOf(t, "or")
    ensures ComparatorOf(t) == Some(ArrayHas) <==> IsCaseOf(t, "aco")
    ensures ComparatorOf(t) == Some(Contains) <==> IsCaseOf(t, "co")
    ensures ComparatorOf(t) == Some(Equal) <==> IsCaseOf(t, "eq")
    ensures ComparatorOf(t) == Some(EndsWith) <==> IsCaseOf(t, "ew")
    ensures ComparatorOf(t) == Some(AtLeast) <==> IsCaseOf(t, "ge")
    ensures ComparatorOf(t) == Some(Above) <==> IsCaseOf(t, "gt")
    ensures ComparatorOf(t) == Some(AtMost) <==> IsCaseOf(t, "le")
    ensures ComparatorOf(t) == Some(Below) <==> IsCaseOf(t, "lt")
    ensures ComparatorOf(t) == Some(Scim.Present) <==> IsCaseOf(t, "pr")
    ensures ComparatorOf(t) == Some(StartsWith) <==> IsCaseOf(t, "sw")
  {
    forall k | 0 <= k < |WORDS| ensures IsCaseOf(t, WORDS[k]) <==> Fold(t) == WORDS[k] {
      WordLetters(k);
      CaseIsFold(t, WORDS[k]);
    }
    assert WORDS[0] == "and" && WORDS[1] == "or" && WORDS[2] == "aco" && WORDS[3] == "co";
    assert WORDS[4] == "eq" && WORDS[5] == "ew" && WORDS[6] == "ge" && WORDS[7] == "gt";
    assert WORDS[8] == "le" && WORDS[9] == "lt" && WORDS[10] == "pr" && WORDS[11] == "sw";
  }

  lemma SameFold(t: string, u: string) returns (k: nat)
    requires SameWord(t, u)
    ensures k < |WORDS| && Fold(t) == WORDS[k] && Fold(u) == WORDS[k]
    ensures t != "" && u != ""
  {
    k :| 0 <= k < |WORDS| && IsCaseOf(t, WORDS[k]) && IsCaseOf(u, WORDS[k]);
    WordLetters(k);
    CaseIsFold(t, WORDS[k]);
    CaseIsFold(u, WORDS[k]);
  }

  lemma AlikeWords(t: string, u: string)
    requires Alike(t, u)
    ensures LogicOf(t) == LogicOf(u) && ComparatorOf(t) == ComparatorOf(u) && (t == "" <==> u == "")
  {
    if t != u {
      var _ := SameFold(t, u);
    }
  }

  lemma WordIsText(t: string, k: nat)
    requires k < |WORDS| && Fold(t) == WORDS[k]
    ensures t !in ["(", ")", "[", "]"] && ValueOf(t) == Str(t)
  {
    WordLetters(k);
    assert 'a' <= FoldChar(t[0]) <= 'z';
    assert Head(t) == "" || Head(t)[0] == t[0] by {
      HeadStart(t);
    }
    assert Decimal(t) == None;
  }

  /** The words for truth values are read in any case as well, and nothing else is read as one. */
  lemma TruthExactly(t: string)
    ensures ValueOf(t) == Bool(true) <==> IsCaseOf(t, "true")
    ensures ValueOf(t) == Bool(false) <==> IsCaseOf(t, "false")
  {
    CaseIsFold(t, "true");
    CaseIsFold(t, "false");
    if IsCaseOf(t, "true") || IsCaseOf(t, "false") {
      assert t[0] == 't' || t[0] == 'T' || t[0] == 'f' || t[0] == 'F';
      HeadStart(t);
      assert Decimal(t) == None;
    }
  }

  lemma HeadStart(t: string)
    requires t != ""
    ensures Head(t) == "" || Head(t)[0] == t[0]
  {
  }

  lemma AlikeBrackets(t: string, u: string, bracket: string)
    requires Alike(t, u) && bracket in ["(", ")", "[", "]"]
    ensures t == bracket <==> u == bracket
  {
    if t != u {
      var k := SameFold(t, u);
      WordIsText(t, k);
      WordIsText(u, k);
    }
  }

  lemma AlikeAt(ts: seq<string>, us: seq<string>, pos: nat)
    requires AlikeTokens(ts, us)
    ensures TokenIs(ts, pos, "(") == TokenIs(us, pos, "(") && TokenIs(ts, pos, ")") == TokenIs(us, pos, ")")
    ensures TokenIs(ts, pos, "[") == TokenIs(us, pos, "[") && TokenIs(ts, pos, "]") == TokenIs(us, pos, "]")
  {
    if pos < |ts| {
      AlikeBrackets(ts[pos], us[pos], "(");
      AlikeBrackets(ts[pos], us[pos], ")");
      AlikeBrackets(ts[pos], us[pos], "[");
      AlikeBrackets(ts[pos], us[pos], "]");
    }
  }

  // ---- trees ----

  lemma ConditionsAlike(ts: seq<string>, us: seq<string>, pos: nat)
    requires AlikeTokens(ts, us)
    ensures AlikeResults(ParseCondition(ts, pos), ParseCondition(us, pos))
  {
    if pos + 1 < |ts| {
      AlikeWords(ts[pos], us[pos]);
      AlikeWords(ts[pos + 1], us[pos + 1]);
      if pos + 2 < |ts| && ts[pos + 2] != us[pos + 2] {
        var k := SameFold(ts[pos + 2], us[pos + 2]);
        WordIsText(ts[pos + 2], k);
        WordIsText(us[pos + 2], k);
      }
    }
  }

  lemma {:induction false} TermsAlike(ts: seq<string>, us: seq<string>, pos: nat)
    requires AlikeTokens(ts, us) && pos <= |ts|
    ensures AlikeResults(ParseTerm(ts, pos), ParseTerm(us, pos))
    decreases |ts| - pos, 0
  {
    AlikeAt(ts, us, pos);
    AlikeAt(ts, us, pos + 1);
    if TokenIs(ts, pos, "(") {
      ExpressionsAlike(ts, us, pos + 1);
      if ParseExpression(ts, pos + 1).Ok? {
        AlikeAt(ts, us, ParseExpression(ts, pos + 1).value.1);
      }
    } else if TokenIs(ts, pos + 1, "[") {
      ExpressionsAlike(ts, us, pos + 2);
      if ParseExpression(ts, pos + 2).Ok? {
        AlikeAt(ts, us, ParseExpression(ts, pos + 2).value.1);
      }
    } else {
      ConditionsAlike(ts, us, pos);
    }
  }

  lemma {:induction false} ExpressionsAlike(ts: seq<string>, us: seq<string>, pos: nat)
    requires AlikeTokens(ts, us) && pos <= |ts|
    ensures AlikeResults(ParseExpression(ts, pos), ParseExpression(us, pos))
    decreases |ts| - pos, 1
  {
    TermsAlike(ts, us, pos);
    if ParseTerm(ts, pos).Ok? {
      RestsAlike(ts, us, ParseTerm(ts, pos).value.0, ParseTerm(us, pos).value.0, ParseTerm(ts, pos).value.1);
    }
  }

  lemma {:induction false} RestsAlike(ts: seq<string>, us: seq<string>, a: Node, b: Node, pos: nat)
    requires AlikeTokens(ts, us) && pos <= |ts| && AlikeTrees(a, b)
    ensures AlikeResults(ParseRest(ts, a, pos), ParseRest(us, b, pos))
    decreases |ts| - pos, 1
  {
    if pos < |ts| {
      AlikeWords(ts[pos], us[pos]);
      if LogicOf(ts[pos]).Some? {
        TermsAlike(ts, us, pos + 1);
        if ParseTerm(ts, pos + 1).Ok? {
          var op, right, other := LogicOf(ts[pos]).value, ParseTerm(ts, pos + 1).value, ParseTerm(us, pos + 1).value;
          RestsAlike(ts, us, Logical(a, op, right.0), Logical(b, op, other.0), right.1);
        }
      }
    }
  }

  lemma {:induction false} WithoutWordsEqual(a: Node, b: Node)
    requires AlikeTrees(a, b) && NamesNoWord(a)
    ensures a == b
  {
    match a
    case Logical(l, _, r) =>
      WithoutWordsEqual(l, b.left);
      WithoutWordsEqual(r, b.right);
    case ArrayFilter(_, expr) => WithoutWordsEqual(expr, b.expr);
    case Condition(_, _, _) =>
  }

  /**
   * Token lists that differ in the case of operator words only have trees that differ in names and texts
   * which are such words, so the same tree if it has none; and one is an error exactly if the other is.
   */
  lemma CaseOfWordsDoesNotMatter(ts: seq<string>, us: seq<string>)
    requires AlikeTokens(ts, us)
    ensures ParseTokens(ts).Ok? <==> ParseTokens(us).Ok?
    ensures ParseTokens(ts).Ok? ==> AlikeTrees(ParseTokens(ts).value, ParseTokens(us).value)
    ensures ParseTokens(ts).Ok? && NamesNoWord(ParseTokens(ts).value) ==> ParseTokens(us) == ParseTokens(ts)
  {
    ExpressionsAlike(ts, us, 0);
    if ParseTokens(ts).Ok? && NamesNoWord(ParseTokens(ts).value) {
      WithoutWordsEqual(ParseTokens(ts).value, ParseTokens(us).value);
    }
  }
}
