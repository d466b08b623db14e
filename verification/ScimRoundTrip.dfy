/** Printing a SCIM tree and reading the text back: the tokens are the words, and they parse to the tree. */
module ScimRoundTrip {
  import opened Outcomes
  import opened Mongo
  import opened Strings
  import opened Scim
  import opened ScimPrinter

  // ---- whitespace between tokens does not matter ----

  /** A token of the printed text: it survives whitespace normalisation unchanged. */
  predicate Solid(t: string) {
    t != "" && !IsSpace(t[0]) && Stable(t)
  }

  /** Every blank in `t` is single and followed by something. */
  predicate Stable(t: string) {
    t == "" ||
    ((IsSpace(t[0]) ==> t[0] == ' ' && |t| > 1 && !IsSpace(t[1])) && Stable(t[1..]))
  }

  function AtMostOne(gaps: seq<nat>): (r: seq<nat>)
    ensures |r| == |gaps| && forall i :: 0 <= i < |gaps| ==> r[i] == if gaps[i] == 0 then 0 else 1
  {
    seq(|gaps|, i requires 0 <= i < |gaps| => if gaps[i] == 0 then 0 else 1)
  }

  lemma {:induction false} CollapseGap(n: nat, rest: string)
    requires rest != "" ==> !IsSpace(rest[0])
    ensures Collapse(Gap(n) + rest) == Gap(if n == 0 then 0 else 1) + Collapse(rest)
  {
    var s := Gap(n) + rest;
    if n == 0 {
      assert s == rest;
    } else {
      assert s[1..] == Gap(n - 1) + rest;
      assert Gap(1) == " " + Gap(0) == " ";
      CollapseGap(n - 1, rest);
      if n == 1 {
        assert s[1..] == rest;
      }
    }
  }

  lemma {:induction false} CollapseToken(t: string, rest: string)
    requires Stable(t)
    ensures Collapse(t + rest) == t + Collapse(rest)
  {
    var s := t + rest;
    if t == "" {
      assert s == rest;
    } else {
      assert s[1..] == t[1..] + rest;
      CollapseToken(t[1..], rest);
    }
  }

  lemma {:induction false} CollapseLayout(ts: seq<string>, gaps: seq<nat>)
    requires Apart(ts, gaps) && forall i :: 0 <= i < |ts| ==> Solid(ts[i])
    ensures Collapse(Layout(ts, gaps)) == Layout(ts, AtMostOne(gaps))
  {
    if ts == [] {
      CollapseGap(gaps[0], "");
      assert Gap(gaps[0]) + "" == Gap(gaps[0]);
    } else {
      var tail := Layout(ts[1..], gaps[1..]);
      CollapseGap(gaps[0], ts[0] + tail);
      CollapseToken(ts[0], tail);
      CollapseLayout(ts[1..], gaps[1..]);
      assert AtMostOne(gaps)[1..] == AtMostOne(gaps[1..]);
    }
  }

  lemma {:induction false} TrimStartGap(n: nat, rest: string)
    requires rest != "" && !IsSpace(rest[0])
    ensures TrimStart(Gap(n) + rest) == rest
  {
    if n == 0 {
      assert Gap(n) + rest == rest;
    } else {
      assert (Gap(n) + rest)[1..] == Gap(n - 1) + rest;
      TrimStartGap(n - 1, rest);
    }
  }

  lemma {:induction false} StableEnd(t: string)
    requires Stable(t) && t != ""
    ensures !IsSpace(t[|t| - 1])
  {
    if |t| > 1 {
      StableEnd(t[1..]);
    }
  }

  lemma GapSnoc(n: nat)
    requires n > 0
    ensures Gap(n) == Gap(n - 1) + " "
  {
    GapPlus(n - 1, 1);
    assert Gap(1) == " " + Gap(0) == " ";
  }

  lemma TrimEndBlank(s: string)
    ensures TrimEnd(s + " ") == TrimEnd(s)
  {
    var t := s + " ";
    assert t[|t| - 1] == ' ' && t[..|t| - 1] == s;
  }

  lemma {:induction false} TrimEndGap(body: string, n: nat)
    requires body != "" && !IsSpace(body[|body| - 1])
    ensures TrimEnd(body + Gap(n)) == body
  {
    if n == 0 {
      assert body + "" == body;
    } else {
      var s := body + Gap(n - 1);
      assert body + Gap(n) == s + " " by {
        GapSnoc(n);
      }
      assert TrimEnd(s + " ") == TrimEnd(s) by {
        TrimEndBlank(s);
      }
      TrimEndGap(body, n - 1);
    }
  }

  /** A layout ends with its last token and the last gap. */
  lemma {:induction false} LayoutEnd(ts: seq<string>, gaps: seq<nat>)
    requires |gaps| == |ts| + 1 && ts != [] && forall i :: 0 <= i < |ts| ==> Solid(ts[i])
    ensures var body := Layout(ts, gaps[|ts| := 0]);
      Layout(ts, gaps) == body + Gap(gaps[|ts|]) && body != "" && !IsSpace(body[|body| - 1])
  {
    var zero := gaps[|ts| := 0];
    StableEnd(ts[0]);
    if |ts| == 1 {
      assert ts[1..] == [] && Layout([], gaps[1..]) == Gap(gaps[1]) && Layout([], zero[1..]) == "";
    } else {
      LayoutEnd(ts[1..], gaps[1..]);
      assert zero[1..] == gaps[1..][|ts[1..]| := 0];
    }
  }

  lemma TrimLayout(ts: seq<string>, gaps: seq<nat>) returns (g: seq<nat>)
    requires Apart(ts, gaps) && ts != [] && forall i :: 0 <= i < |ts| ==> Solid(ts[i])
    ensures Apart(ts, g) && Trim(Layout(ts, gaps)) == Layout(ts, g)
  {
    var first := gaps[0 := 0];
    assert first[1..] == gaps[1..];
    TrimStartGap(gaps[0], ts[0] + Layout(ts[1..], gaps[1..]));
    assert Layout(ts, first) == ts[0] + Layout(ts[1..], gaps[1..]);
    g := first[|ts| := 0];
    LayoutEnd(ts, first);
    TrimEndGap(Layout(ts, g), first[|ts|]);
  }

  // ---- the token pattern finds exactly the tokens ----

  predicate IsQuoted(t: string) {
    |t| >= 2 && t[0] == '"' && t[|t| - 1] == '"' && IsPlain(t[1..|t| - 1])
  }

  ghost predicate IsToken(t: string) {
    (|t| == 1 && IsBracket(t[0])) || IsIdent(t) || IsQuoted(t)
  }

  lemma {:induction false} IdentRunIs(t: string, rest: string)
    requires forall i :: 0 <= i < |t| ==> IsIdentChar(t[i])
    requires rest != "" ==> !IsIdentChar(rest[0])
    ensures IdentRun(t + rest) == |t|
  {
    if t == "" {
      assert t + rest == rest;
    } else {
      assert (t + rest)[1..] == t[1..] + rest;
      IdentRunIs(t[1..], rest);
    }
  }

  lemma {:induction false} QuotedRunIs(s: string, rest: string)
    requires IsPlain(s)
    ensures QuotedRun(s + "\"" + rest) == Some(|s| + 1)
  {
    var q := s + "\"" + rest;
    if s != "" {
      assert q[1..] == s[1..] + "\"" + rest;
      QuotedRunIs(s[1..], rest);
    }
  }

  lemma LexToken(t: string, rest: string)
    requires IsToken(t)
    requires rest != "" ==> rest[0] == ' '
    ensures Lex(t + rest) == [t] + Lex(rest)
  {
    var s := t + rest;
    assert s[..|t|] == t && s[|t|..] == rest;
    if IsIdent(t) {
      IdentRunIs(t, rest);
    } else if IsQuoted(t) {
      var inner := t[1..|t| - 1];
      assert s[1..] == inner + "\"" + rest;
      QuotedRunIs(inner, rest);
    }
  }

  lemma {:induction false} LexGap(n: nat, rest: string)
    ensures Lex(Gap(n) + rest) == Lex(rest)
  {
    var s := Gap(n) + rest;
    if n == 0 {
      assert s == rest;
    } else {
      assert s[0] == ' ' && s[1..] == Gap(n - 1) + rest;
      LexGap(n - 1, rest);
    }
  }

  lemma {:induction false} LexLayout(ts: seq<string>, gaps: seq<nat>)
    requires Apart(ts, gaps) && forall i :: 0 <= i < |ts| ==> IsToken(ts[i])
    ensures Lex(Layout(ts, gaps)) == ts
  {
    if ts == [] {
      LexGap(gaps[0], "");
      assert Gap(gaps[0]) + "" == Gap(gaps[0]);
    } else {
      var tail := Layout(ts[1..], gaps[1..]);
      LexGap(gaps[0], ts[0] + tail);
      assert tail != "" ==> tail[0] == ' ';
      LexToken(ts[0], tail);
      LexLayout(ts[1..], gaps[1..]);
    }
  }

  lemma {:induction false} IdentStable(t: string)
    requires forall i :: 0 <= i < |t| ==> IsIdentChar(t[i])
    ensures Stable(t)
  {
    if t != "" {
      IdentStable(t[1..]);
    }
  }

  lemma {:induction false} PlainStable(s: string)
    requires IsPlain(s)
    ensures Stable(s + "\"")
  {
    var q := s + "\"";
    if s == "" {
      assert q[1..] == "";
    } else {
      assert q[1..] == s[1..] + "\"";
      PlainStable(s[1..]);
    }
  }

  lemma TokenSolid(t: string)
    requires IsToken(t)
    ensures Solid(t)
  {
    if IsIdent(t) {
      IdentStable(t);
    } else if IsQuoted(t) {
      PlainStable(t[1..|t| - 1]);
      assert t[1..] == t[1..|t| - 1] + "\"";
    } else {
      assert t[1..] == "";
    }
  }

  // ---- the printed text has exactly its words as tokens ----

  ghost predicate AreTokens(ts: seq<string>) {
    forall i :: 0 <= i < |ts| ==> IsToken(ts[i])
  }

  lemma ValueIsToken(v: Value)
    requires PrintableValue(v)
    ensures IsToken(PrintValue(v))
  {
    ValueReads(v);
    var t := PrintValue(v);
    if !IsIdent(t) {
      assert t[1..|t| - 1] == v.s;
    }
  }

  lemma {:induction false} WordsAreTokens(n: Node)
    requires Printable(n)
    ensures AreTokens(Words(n)) && AreTokens(OperandWords(n))
    decreases n
  {
    match n
    case Logical(l, op, r) =>
      WordsAreTokens(l);
      WordsAreTokens(r);
      assert IsIdent(LogicWord(op));
    case ArrayFilter(path, expr) =>
      WordsAreTokens(expr);
    case Condition(attr, op, value) =>
      assert IsIdent(ComparatorWord(op));
      if op != Present {
        ValueIsToken(value);
      }
  }

  /** Tokenizing the printed text gives the words of the tree. */
  lemma PrintedTokens(n: Node)
    requires Printable(n)
    ensures TokensOf(Print(n)) == Words(n)
  {
    var ts := Words(n);
    LaysNode(n);
    WordsAreTokens(n);
    forall i | 0 <= i < |ts|
      ensures Solid(ts[i])
    {
      TokenSolid(ts[i]);
    }
    var gaps :| LaysWith(Print(n), ts, gaps, false, false);
    CollapseLayout(ts, gaps);
    var g := TrimLayout(ts, AtMostOne(gaps));
    LexLayout(ts, g);
  }

  // ---- the words parse to the tree ----

  /** `ts` holds `w` at position `pos`. */
  predicate WordsAt(ts: seq<string>, pos: nat, w: seq<string>) {
    pos + |w| <= |ts| && ts[pos..pos + |w|] == w
  }

  lemma SplitAt(ts: seq<string>, pos: nat, a: seq<string>, b: seq<string>)
    requires WordsAt(ts, pos, a + b)
    ensures WordsAt(ts, pos, a) && WordsAt(ts, pos + |a|, b)
  {
    assert ts[pos..pos + |a|] == (a + b)[..|a|];
    assert ts[pos + |a|..pos + |a| + |b|] == (a + b)[|a|..];
  }

  lemma WordsRead(op: Logic, c: Comparator)
    ensures LogicOf(LogicWord(op)) == Some(op)
    ensures ComparatorOf(ComparatorWord(c)) == Some(c)
    ensures ComparatorWord(c) != "["
  {
    FoldLower(LogicWord(op));
    FoldLower(ComparatorWord(c));
  }

  lemma FoldLower(s: string)
    requires forall i :: 0 <= i < |s| ==> 'a' <= s[i] <= 'z'
    ensures Fold(s) == s
  {
  }

  // ---- the parser on words ----

  /** The words of `n` stand at `pos` and end at `next`. */
  ghost predicate Stands(n: Node, ts: seq<string>, pos: nat, next: nat) {
    Printable(n) && WordsAt(ts, pos, Words(n)) && next == pos + |Words(n)|
  }

  /** So do the words of `n` as an operand. */
  ghost predicate OperandStands(n: Node, ts: seq<string>, pos: nat, next: nat) {
    Printable(n) && WordsAt(ts, pos, OperandWords(n)) && next == pos + |OperandWords(n)|
  }

  ghost predicate OpStands(op: Logic, ts: seq<string>, p: nat) {
    WordsAt(ts, p, [LogicWord(op)])
  }

  /** From `pos` on the parser gets into its loop at `next`, with `n` on the left. */
  ghost predicate Reads(ts: seq<string>, pos: nat, n: Node, next: nat) {
    pos <= |ts| && next <= |ts| && ParseExpression(ts, pos) == ParseRest(ts, n, next)
  }

  ghost predicate ReadsTerm(ts: seq<string>, pos: nat, n: Node, next: nat) {
    pos <= |ts| && ParseTerm(ts, pos) == Ok((n, next))
  }

  /**
   * Once the words of `n` are read, the parser is in its loop with `n` on the left: a printed chain
   * and the operands after it are one flat chain to the parser.
   */
  lemma {:induction false} ParseWords(n: Node, ts: seq<string>, pos: nat, next: nat)
    requires Stands(n, ts, pos, next)
    ensures Reads(ts, pos, n, next)
    decreases n, 2
  {
    match n
    case Logical(l, op, r) =>
      var p := pos + |Words(l)|;
      LogicalSplits(l, op, r, ts, pos, next);
      ParseLogicalWords(l, op, r, ts, pos, p, next);
    case _ =>
      ParseTermWords(n, ts, pos, next);
  }

  lemma {:induction false} ParseTermWords(n: Node, ts: seq<string>, pos: nat, next: nat)
    requires Stands(n, ts, pos, next) && !n.Logical?
    ensures ReadsTerm(ts, pos, n, next)
    decreases n, 1
  {
    match n
    case ArrayFilter(path, expr) => ParseArrayFilterWords(path, expr, ts, pos);
    case Condition(_, _, _) => ParseConditionWords(n, ts, pos);
  }

  lemma {:induction false} ParseLogicalWords(l: Node, op: Logic, r: Node, ts: seq<string>, pos: nat, p: nat, next: nat)
    requires Stands(l, ts, pos, p) && OpStands(op, ts, p) && OperandStands(r, ts, p + 1, next)
    ensures Reads(ts, pos, Logical(l, op, r), next)
    decreases Logical(l, op, r), 0
  {
    ParseWords(l, ts, pos, p);
    ParseOperand(r, ts, p + 1, next);
    ParseChainStep(ts, pos, l, p, op, r, next);
  }

  lemma LogicalSplits(l: Node, op: Logic, r: Node, ts: seq<string>, pos: nat, next: nat)
    requires Stands(Logical(l, op, r), ts, pos, next)
    ensures
      var p := pos + |Words(l)|;
      Stands(l, ts, pos, p) && OpStands(op, ts, p) && OperandStands(r, ts, p + 1, next)
  {
    LogicalWords(l, op, r);
    WordBetween(l, LogicWord(op), r, ts, pos, next, Words(Logical(l, op, r)));
  }

  lemma WordBetween(l: Node, word: string, r: Node, ts: seq<string>, pos: nat, next: nat, all: seq<string>)
    requires Printable(l) && Printable(r) && all == (Words(l) + [word]) + OperandWords(r)
    requires WordsAt(ts, pos, all) && next == pos + |all|
    ensures
      var p := pos + |Words(l)|;
      Stands(l, ts, pos, p) && WordsAt(ts, p, [word]) && OperandStands(r, ts, p + 1, next)
  {
    SplitInThree(ts, pos, all, Words(l), [word], OperandWords(r));
  }

  lemma LogicalWords(l: Node, op: Logic, r: Node)
    requires Printable(l) && Printable(r)
    ensures Words(Logical(l, op, r)) == (Words(l) + [LogicWord(op)]) + OperandWords(r)
  {
  }

  lemma SplitInThree(ts: seq<string>, pos: nat, all: seq<string>, a: seq<string>, b: seq<string>, c: seq<string>)
    requires WordsAt(ts, pos, all) && all == (a + b) + c
    ensures WordsAt(ts, pos, a) && WordsAt(ts, pos + |a|, b) && WordsAt(ts, pos + |a| + |b|, c)
    ensures |all| == |a| + |b| + |c|
  {
    SplitAt(ts, pos, a + b, c);
    SplitAt(ts, pos, a, b);
  }

  lemma ParseChainStep(ts: seq<string>, pos: nat, l: Node, p: nat, op: Logic, r: Node, next: nat)
    requires Reads(ts, pos, l, p) && OpStands(op, ts, p)
    requires ReadsTerm(ts, p + 1, r, next)
    ensures Reads(ts, pos, Logical(l, op, r), next)
  {
    WordsRead(op, Present);
    assert ts[p] == ts[p..p + 1][0] == LogicWord(op);
    var rest := ParseRest(ts, l, p);
    assert rest == ParseRest(ts, Logical(l, op, r), next);
  }

  lemma {:induction false} ParseArrayFilterWords(path: string, expr: Node, ts: seq<string>, pos: nat)
    requires IsIdent(path) && Printable(expr) && WordsAt(ts, pos, Words(ArrayFilter(path, expr)))
    ensures ReadsTerm(ts, pos, ArrayFilter(path, expr), pos + |Words(ArrayFilter(path, expr))|)
    decreases ArrayFilter(path, expr), 0
  {
    var next := pos + 2 + |Words(expr)|;
    ArraySplits(path, expr, ts, pos);
    ParseWords(expr, ts, pos + 2, next);
    ParseArrayWords(path, expr, ts, pos, next);
  }

  lemma ArraySplits(path: string, expr: Node, ts: seq<string>, pos: nat)
    requires IsIdent(path) && Printable(expr) && WordsAt(ts, pos, Words(ArrayFilter(path, expr)))
    ensures
      var next := pos + 2 + |Words(expr)|;
      next < |ts| && ts[pos] == path && ts[pos + 1] == "[" && WordsAt(ts, pos + 2, Words(expr)) && ts[next] == "]" &&
      pos + |Words(ArrayFilter(path, expr))| == next + 1
  {
    var first, we := [path] + ["["], Words(expr);
    assert Words(ArrayFilter(path, expr)) == (first + we) + ["]"];
    SplitAt(ts, pos, first + we, ["]"]);
    SplitAt(ts, pos, first, we);
    assert ts[pos] == ts[pos..pos + 2][0] && ts[pos + 1] == ts[pos..pos + 2][1];
    var next := pos + 2 + |we|;
    assert ts[next] == ts[next..next + 1][0];
  }

  lemma ParseArrayWords(path: string, expr: Node, ts: seq<string>, pos: nat, next: nat)
    requires IsIdent(path) && pos + 2 <= |ts| && ts[pos] == path && ts[pos + 1] == "["
    requires TokenIs(ts, next, "]") && Reads(ts, pos + 2, expr, next)
    ensures ReadsTerm(ts, pos, ArrayFilter(path, expr), next + 1)
  {
    assert LogicOf("]").None?;
    assert IsIdentChar(path[0]);
  }

  lemma ParseConditionWords(n: Node, ts: seq<string>, pos: nat)
    requires n.Condition? && Printable(n) && WordsAt(ts, pos, Words(n))
    ensures ParseTerm(ts, pos) == Ok((n, pos + |Words(n)|))
  {
    var w := Words(n);
    WordsRead(And, n.comparator);
    assert ts[pos] == ts[pos..pos + |w|][0] == n.attr;
    assert ts[pos + 1] == ts[pos..pos + |w|][1] == ComparatorWord(n.comparator);
    if n.comparator != Present {
      assert ts[pos + 2] == ts[pos..pos + |w|][2] == PrintValue(n.value);
      ValueReads(n.value);
    }
    assert IsIdentChar(n.attr[0]);
  }

  lemma {:induction false} ParseOperand(n: Node, ts: seq<string>, pos: nat, next: nat)
    requires OperandStands(n, ts, pos, next)
    ensures ReadsTerm(ts, pos, n, next)
    decreases n, 3
  {
    if n.Logical? {
      GroupSplits(n, ts, pos, next);
      ParseWords(n, ts, pos + 1, next - 1);
      ParseGroup(n, ts, pos, next - 1);
    } else {
      ParseTermWords(n, ts, pos, next);
    }
  }

  lemma GroupSplits(n: Node, ts: seq<string>, pos: nat, next: nat)
    requires n.Logical? && OperandStands(n, ts, pos, next)
    ensures next > 0 && TokenIs(ts, pos, "(") && Stands(n, ts, pos + 1, next - 1) && TokenIs(ts, next - 1, ")")
  {
    SplitInThree(ts, pos, OperandWords(n), ["("], Words(n), [")"]);
    assert ts[pos] == ts[pos..pos + 1][0] && ts[next - 1] == ts[next - 1..next][0];
  }

  lemma ParseGroup(n: Node, ts: seq<string>, pos: nat, next: nat)
    requires TokenIs(ts, pos, "(") && TokenIs(ts, next, ")") && Reads(ts, pos + 1, n, next)
    ensures ReadsTerm(ts, pos, n, next + 1)
  {
    assert LogicOf(")").None?;
  }

  lemma ParseAll(n: Node)
    requires Printable(n)
    ensures ParseExpression(Words(n), 0) == Ok((n, |Words(n)|))
  {
    var ts := Words(n);
    assert ts[0..|ts|] == ts;
    ParseWords(n, ts, 0, |ts|);
    ParseEnd(ts, n);
  }

  lemma ParseEnd(ts: seq<string>, n: Node)
    ensures ParseRest(ts, n, |ts|) == Ok((n, |ts|))
  {
  }

  /** The round trip: the printed text parses to the tree, and no token is left over. */
  lemma RoundTrip(n: Node)
    requires Printable(n)
    ensures var ts := TokensOf(Print(n)); ParseExpression(ts, 0) == Ok((n, |ts|)) && ParseTokens(ts) == Ok(n)
  {
    PrintedTokens(n);
    ParseAll(n);
  }

  /** Hence printing is injective: two trees with the same text are the same tree. */
  lemma PrintInjective(a: Node, b: Node)
    requires Printable(a) && Printable(b) && Print(a) == Print(b)
    ensures a == b
  {
    RoundTrip(a);
    RoundTrip(b);
  }
}
