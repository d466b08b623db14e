/**
 * The SCIM filter reader: text to tokens, tokens to a syntax tree.
 *
 * `and` and `or` have equal precedence and associate to the left, unlike section 3.4.2.2
 * of RFC 7644; parentheses group.
 */
module Scim {
  import opened Outcomes
  import opened Mongo
  import opened Strings

  datatype Logic = And | Or

  datatype Comparator =
    | ArrayHas
    | Contains
    | Equal
    | EndsWith
    | AtLeast
    | Above
    | AtMost
    | Below
    | Present
    | StartsWith

  datatype Node =
    | Logical(left: Node, op: Logic, right: Node)
    | ArrayFilter(path: string, expr: Node)
    | Condition(attr: string, comparator: Comparator, value: Value)

  // ---- tokenizer ----

  predicate IsBracket(c: char) {
    c == '(' || c == ')' || c == '[' || c == ']'
  }

  predicate IsIdentChar(c: char) {
    'a' <= c <= 'z' || 'A' <= c <= 'Z' || '0' <= c <= '9' || c == '_' || c == '.'
  }

  /** A quote that no backslash escapes opens or closes a quoted string. */
  predicate Toggles(c: char, escaped: bool) {
    c == '"' && !escaped
  }

  /** What one character contributes: brackets outside quotes are spaced out. */
  function Piece(c: char, inside: bool): string {
    if !inside && IsBracket(c) then [' ', c, ' '] else [c]
  }

  function SpaceOut(s: string, escaped: bool, inside: bool): string {
    if s == "" then ""
    else Piece(s[0], inside) + SpaceOut(s[1..], s[0] == '\\', inside != Toggles(s[0], escaped))
  }

  /** Every run of whitespace becomes one blank. */
  function Collapse(s: string): string {
    if s == "" then ""
    else if IsSpace(s[0]) then
      if |s| > 1 && IsSpace(s[1]) then Collapse(s[1..]) else " " + Collapse(s[1..])
    else [s[0]] + Collapse(s[1..])
  }

  function IdentRun(s: string): (n: nat)
    ensures n <= |s|
  {
    if s != "" && IsIdentChar(s[0]) then 1 + IdentRun(s[1..]) else 0
  }

  /** Length of a quoted string's body up to and including the closing quote, if it closes. */
  function QuotedRun(s: string): (r: Option<nat>)
    ensures r.Some? ==> 0 < r.value <= |s|
  {
    if s == "" then None
    else if s[0] == '"' then Some(1)
    else if s[0] == '\\' then
      if |s| == 1 then None
      else match QuotedRun(s[2..]) case Some(n) => Some(n + 2) case None => None
    else match QuotedRun(s[1..]) case Some(n) => Some(n + 1) case None => None
  }

  /** All matches of the token pattern, left to right; characters that start no token are skipped. */
  function Lex(s: string): seq<string>
    decreases |s|
  {
    if s == "" then []
    else if IsBracket(s[0]) then [s[..1]] + Lex(s[1..])
    else if IsIdentChar(s[0]) then
      var n := IdentRun(s);
      [s[..n]] + Lex(s[n..])
    else if s[0] == '"' && QuotedRun(s[1..]).Some? then
      var n := QuotedRun(s[1..]).value + 1;
      [s[..n]] + Lex(s[n..])
    else Lex(s[1..])
  }

  function TokensOf(input: string): seq<string> {
    Lex(Trim(Collapse(SpaceOut(input, false, false))))
  }

  lemma SpaceOutStep(done: string, s: string, escaped: bool, inside: bool)
    requires s != ""
    ensures done + SpaceOut(s, escaped, inside) ==
      (done + Piece(s[0], inside)) + SpaceOut(s[1..], s[0] == '\\', inside != Toggles(s[0], escaped))
  {
  }

  method Tokenize(input: string) returns (tokens: seq<string>)
    ensures tokens == TokensOf(input)
  {
    var result := "";
    var insideQuotes := false;
    for i := 0 to |input|
      invariant SpaceOut(input, false, false) ==
        result + SpaceOut(input[i..], i > 0 && input[i - 1] == '\\', insideQuotes)
    {
      var c := input[i];
      SpaceOutStep(result, input[i..], i > 0 && input[i - 1] == '\\', insideQuotes);
      assert input[i..][1..] == input[i + 1..];
      if c == '"' && (i == 0 || input[i - 1] != '\\') {
        insideQuotes := !insideQuotes;
        result := result + [c];
      } else if !insideQuotes && IsBracket(c) {
        result := result + [' ', c, ' '];
      } else {
        result := result + [c];
      }
    }
    assert result + "" == result;
    tokens := Lex(Trim(Collapse(result)));
  }

  // ---- parser ----

  function LogicOf(token: string): Option<Logic> {
    if Fold(token) == "and" then Some(And) else if Fold(token) == "or" then Some(Or) else None
  }

  function ComparatorOf(token: string): Option<Comparator> {
    match Fold(token)
    case "aco" => Some(ArrayHas)
    case "co" => Some(Contains)
    case "eq" => Some(Equal)
    case "ew" => Some(EndsWith)
    case "ge" => Some(AtLeast)
    case "gt" => Some(Above)
    case "le" => Some(AtMost)
    case "lt" => Some(Below)
    case "pr" => Some(Present)
    case "sw" => Some(StartsWith)
    case _ => None
  }

  predicate IsDigits(s: string) {
    s != "" && forall i :: 0 <= i < |s| ==> '0' <= s[i] <= '9'
  }

  function DigitsValue(s: string): nat
    requires forall i :: 0 <= i < |s| ==> '0' <= s[i] <= '9'
  {
    if s == "" then 0 else 10 * DigitsValue(s[..|s| - 1]) + (s[|s| - 1] as int - '0' as int)
  }

  function Pow10(k: nat): (r: nat)
    ensures r > 0
  {
    if k == 0 then 1 else 10 * Pow10(k - 1)
  }

  /** `m / 10^k` */
  function Ratio(m: nat, k: nat): real {
    (m as real) / (Pow10(k) as real)
  }

  /** An unsigned decimal, digits with at most one fraction part. */
  function Decimal(s: string): Option<real> {
    var whole := Head(s);
    if |whole| == |s| then
      if IsDigits(s) then Some(Ratio(DigitsValue(s), 0)) else None
    else
      var fraction := s[|whole| + 1..];
      if IsDigits(whole) && IsDigits(fraction) then
        Some(Ratio(DigitsValue(whole + fraction), |fraction|))
      else None
  }

  /** Unquoted values: a number, a boolean, or the text itself. */
  function ParseValue(s: string): Value {
    var negative := s != "" && s[0] == '-';
    match Decimal(if negative then s[1..] else s)
    case Some(n) => Num(if negative then -n else n)
    case None =>
      if Fold(s) == "true" then Bool(true)
      else if Fold(s) == "false" then Bool(false)
      else Str(s)
  }

  /** JavaScript's `slice(1, -1)`. */
  function Unquote(s: string): string {
    if |s| < 2 then "" else s[1..|s| - 1]
  }

  /** The value a token denotes: quoted text is always a string. */
  function ValueOf(token: string): Value {
    if token != "" && token[0] == '"' then Str(Unquote(token)) else ParseValue(token)
  }

  predicate TokenIs(ts: seq<string>, pos: nat, t: string) {
    pos < |ts| && ts[pos] == t
  }

  /** `attr op value`, or `attr pr`; a missing token or an unknown operator is an error. */
  function ParseCondition(ts: seq<string>, pos: nat): (r: Result<(Node, nat)>)
    ensures r.Ok? ==> pos < r.value.1 <= |ts|
  {
    if pos + 1 >= |ts| then Err
    else match ComparatorOf(ts[pos + 1])
      case None => Err
      case Some(Present) => Ok((Condition(ts[pos], Present, Null), pos + 2))
      case Some(op) =>
        if pos + 2 >= |ts| || ts[pos] == "" then Err
        else Ok((Condition(ts[pos], op, ValueOf(ts[pos + 2])), pos + 3))
  }

  function ParseTerm(ts: seq<string>, pos: nat): (r: Result<(Node, nat)>)
    requires pos <= |ts|
    ensures r.Ok? ==> pos < r.value.1 <= |ts|
    decreases |ts| - pos, 0
  {
    if TokenIs(ts, pos, "(") then
      var (expr, next) :- ParseExpression(ts, pos + 1);
      if TokenIs(ts, next, ")") then Ok((expr, next + 1)) else Err
    else if TokenIs(ts, pos + 1, "[") then
      var (expr, next) :- ParseExpression(ts, pos + 2);
      if TokenIs(ts, next, "]") then Ok((ArrayFilter(ts[pos], expr), next + 1)) else Err
    else ParseCondition(ts, pos)
  }

  function ParseExpression(ts: seq<string>, pos: nat): (r: Result<(Node, nat)>)
    requires pos <= |ts|
    ensures r.Ok? ==> pos < r.value.1 <= |ts|
    decreases |ts| - pos, 1
  {
    var (left, next) :- ParseTerm(ts, pos);
    ParseRest(ts, left, next)
  }

  /** Further operands after `left`, folded to the left. */
  function ParseRest(ts: seq<string>, left: Node, pos: nat): (r: Result<(Node, nat)>)
    requires pos <= |ts|
    ensures r.Ok? ==> pos <= r.value.1 <= |ts|
    decreases |ts| - pos, 1
  {
    if pos < |ts| && LogicOf(ts[pos]).Some? then
      var (right, next) :- ParseTerm(ts, pos + 1);
      ParseRest(ts, Logical(left, LogicOf(ts[pos]).value, right), next)
    else Ok((left, pos))
  }

  /** The result of a method with a cursor, as the functions above state it. */
  ghost predicate Agrees(r: Result<Node>, pos: nat, spec: Result<(Node, nat)>) {
    match spec
    case Ok(p) => r == Ok(p.0) && pos == p.1
    case Err => r == Err
  }

  /** The recursive-descent parser over a shared cursor. */
  class Parser {
    const tokens: seq<string>
    var pos: nat

    constructor (tokens: seq<string>)
      ensures this.tokens == tokens && pos == 0
    {
      this.tokens := tokens;
      pos := 0;
    }

    method Expression() returns (r: Result<Node>)
      requires pos <= |tokens|
      modifies this
      ensures Agrees(r, pos, ParseExpression(tokens, old(pos)))
      decreases |tokens| - pos, 1
    {
      var left :- Term();
      while pos < |tokens| && LogicOf(tokens[pos]).Some?
        invariant old(pos) < pos <= |tokens|
        invariant ParseExpression(tokens, old(pos)) == ParseRest(tokens, left, pos)
        decreases |tokens| - pos
      {
        var op := LogicOf(tokens[pos]).value;
        pos := pos + 1;
        var right :- Term();
        left := Logical(left, op, right);
      }
      r := Ok(left);
    }

    method Term() returns (r: Result<Node>)
      requires pos <= |tokens|
      modifies this
      ensures Agrees(r, pos, ParseTerm(tokens, old(pos)))
      decreases |tokens| - pos, 0
    {
      if TokenIs(tokens, pos, "(") {
        pos := pos + 1;
        var expr :- Expression();
        if !TokenIs(tokens, pos, ")") {
          return Err;
        }
        pos := pos + 1;
        return Ok(expr);
      }
      if TokenIs(tokens, pos + 1, "[") {
        var path := tokens[pos];
        pos := pos + 2;
        var expr :- Expression();
        if !TokenIs(tokens, pos, "]") {
          return Err;
        }
        pos := pos + 1;
        return Ok(ArrayFilter(path, expr));
      }
      r := ReadCondition();
    }

    method ReadCondition() returns (r: Result<Node>)
      modifies this
      ensures Agrees(r, pos, ParseCondition(tokens, old(pos)))
    {
      if pos + 1 >= |tokens| {
        return Err;
      }
      var attr, op := tokens[pos], ComparatorOf(tokens[pos + 1]);
      pos := pos + 2;
      if op.None? {
        return Err;
      }
      var value := Null;
      if op.value != Present {
        if pos >= |tokens| || attr == "" {
          return Err;
        }
        value := ValueOf(tokens[pos]);
        pos := pos + 1;
      }
      r := Ok(Condition(attr, op.value, value));
    }
  }

  /** The tree of a token list; tokens after a complete expression are ignored. */
  function ParseTokens(ts: seq<string>): Result<Node> {
    var (node, next) :- ParseExpression(ts, 0);
    Ok(node)
  }

  method Parse(text: string) returns (r: Result<Node>)
    ensures r == ParseTokens(TokensOf(text))
  {
    var tokens := Tokenize(text);
    var parser := new Parser(tokens);
    r := parser.Expression();
  }
}
