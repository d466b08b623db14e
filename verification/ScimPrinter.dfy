/**
 * A printer for SCIM trees, and the round trip: reading printed text gives the tree back.
 *
 * Left-nested chains print flat, right operands that are themselves chains get parentheses.
 */
module ScimPrinter {
  import opened Outcomes
  import opened Mongo
  import opened Strings
  import opened Scim

  // ---- what can be printed ----

  /** Letters, digits, underscores and dots. */
  ghost predicate IsIdent(s: string) {
    s != "" &&
    forall i :: 0 <= i < |s| ==>
      'a' <= s[i] <= 'z' || 'A' <= s[i] <= 'Z' || '0' <= s[i] <= '9' || s[i] == '_' || s[i] == '.'
  }

  /** Text that survives quoting: no quote, no backslash, and blanks only one at a time. */
  predicate IsPlain(s: string) {
    s == "" ||
    (s[0] != '"' && s[0] != '\\' && (IsSpace(s[0]) ==> s[0] == ' ' && (|s| > 1 ==> !IsSpace(s[1]))) &&
     IsPlain(s[1..]))
  }

  /** `r` is the decimal `m / 10^k`. */
  predicate IsDecimalAt(r: real, m: nat, k: nat) {
    r == Ratio(m, k)
  }

  ghost predicate PrintableValue(v: Value) {
    match v
    case Str(s) => IsPlain(s)
    case Bool(_) => true
    case Num(r) => exists m, k :: IsDecimalAt(r, m, k)
    case _ => false
  }

  ghost predicate Printable(n: Node) {
    match n
    case Logical(l, _, r) => Printable(l) && Printable(r)
    case ArrayFilter(path, expr) => IsIdent(path) && Printable(expr)
    case Condition(attr, op, value) =>
      IsIdent(attr) && if op == Present then value == Null else PrintableValue(value)
  }

  // ---- printing ----

  function DigitsOf(n: nat): (s: string)
    ensures IsDigits(s) && DigitsValue(s) == n
  {
    var d := ['0' + (n % 10) as char];
    if n < 10 then
      assert d[..0] == "";
      d
    else
      var s := DigitsOf(n / 10) + d;
      assert s[..|s| - 1] == DigitsOf(n / 10);
      s
  }

  /** Leading zeros do not change the value. */
  lemma {:induction false} LeadingZero(s: string)
    requires IsDigits(s)
    ensures IsDigits("0" + s) && DigitsValue("0" + s) == DigitsValue(s)
  {
    var z := "0" + s;
    if |s| == 1 {
      assert z[..1] == "0" && z[..1][..0] == "" && s[..0] == "";
    } else {
      assert z[..|z| - 1] == "0" + s[..|s| - 1];
      LeadingZero(s[..|s| - 1]);
    }
  }

  function Padded(s: string, width: nat): (r: string)
    requires IsDigits(s)
    ensures IsDigits(r) && DigitsValue(r) == DigitsValue(s) && |r| >= width
    decreases width - |s|
  {
    if |s| >= width then s
    else
      LeadingZero(s);
      Padded("0" + s, width)
  }

  function PrintDecimal(m: nat, k: nat): string {
    var digits := Padded(DigitsOf(m), k + 1);
    if k == 0 then digits else digits[..|digits| - k] + "." + digits[|digits| - k..]
  }

  ghost function PrintValue(v: Value): string
    requires PrintableValue(v)
  {
    match v
    case Str(s) => "\"" + s + "\""
    case Bool(b) => if b then "true" else "false"
    case Num(r) =>
      var m, k :| IsDecimalAt(r, m, k);
      PrintDecimal(m, k)
  }

  function LogicWord(op: Logic): string {
    if op == And then "and" else "or"
  }

  function ComparatorWord(op: Comparator): string {
    match op
    case ArrayHas => "aco"
    case Contains => "co"
    case Equal => "eq"
    case EndsWith => "ew"
    case AtLeast => "ge"
    case Above => "gt"
    case AtMost => "le"
    case Below => "lt"
    case Present => "pr"
    case StartsWith => "sw"
  }

  ghost function Print(n: Node): string
    requires Printable(n)
    decreases n, 0
  {
    match n
    case Logical(l, op, r) => Print(l) + (" " + LogicWord(op) + " ") + PrintOperand(r)
    case ArrayFilter(path, expr) => path + "[" + Print(expr) + "]"
    case Condition(attr, op, value) =>
      if op == Present then attr + " " + "pr"
      else attr + (" " + ComparatorWord(op) + " ") + PrintValue(value)
  }

  ghost function PrintOperand(n: Node): string
    requires Printable(n)
    decreases n, 1
  {
    if n.Logical? then "(" + Print(n) + ")" else Print(n)
  }

  /** The tokens the printed text should consist of. */
  ghost function Words(n: Node): (ts: seq<string>)
    requires Printable(n)
    ensures |ts| > 0
    decreases n, 0
  {
    match n
    case Logical(l, op, r) => Words(l) + [LogicWord(op)] + OperandWords(r)
    case ArrayFilter(path, expr) => [path] + ["["] + Words(expr) + ["]"]
    case Condition(attr, op, value) =>
      if op == Present then [attr] + ["pr"]
      else [attr] + [ComparatorWord(op)] + [PrintValue(value)]
  }

  ghost function OperandWords(n: Node): (ts: seq<string>)
    requires Printable(n)
    ensures |ts| > 0
    decreases n, 1
  {
    if n.Logical? then ["("] + Words(n) + [")"] else Words(n)
  }

  // ---- text laid out as tokens with gaps ----

  function Gap(n: nat): string {
    if n == 0 then "" else " " + Gap(n - 1)
  }

  /** Tokens with `gaps[i]` blanks before token `i` and the last gap after them all. */
  function Layout(ts: seq<string>, gaps: seq<nat>): string
    requires |gaps| == |ts| + 1
  {
    Gap(gaps[0]) + if ts == [] then "" else ts[0] + Layout(ts[1..], gaps[1..])
  }

  /** Neighbouring tokens are at least one blank apart. */
  predicate Apart(ts: seq<string>, gaps: seq<nat>) {
    |gaps| == |ts| + 1 && forall i :: 0 < i < |ts| ==> gaps[i] >= 1
  }

  lemma {:induction false} GapPlus(m: nat, n: nat)
    ensures Gap(m) + Gap(n) == Gap(m + n)
  {
    if m == 0 {
    } else {
      GapPlus(m - 1, n);
      assert Gap(m) + Gap(n) == " " + (Gap(m - 1) + Gap(n));
    }
  }

  function JoinGaps(g1: seq<nat>, g2: seq<nat>): seq<nat>
    requires g1 != [] && g2 != []
  {
    g1[..|g1| - 1] + [g1[|g1| - 1] + g2[0]] + g2[1..]
  }

  lemma {:induction false} LayoutJoin(t1: seq<string>, g1: seq<nat>, t2: seq<string>, g2: seq<nat>)
    requires |g1| == |t1| + 1 && |g2| == |t2| + 1
    ensures Layout(t1, g1) + Layout(t2, g2) == Layout(t1 + t2, JoinGaps(g1, g2))
  {
    var g := JoinGaps(g1, g2);
    if t1 == [] {
      GapPlus(g1[0], g2[0]);
      assert t1 + t2 == t2 && g[1..] == g2[1..];
      if t2 != [] {
        var tail := t2[0] + Layout(t2[1..], g2[1..]);
        assert Gap(g1[0]) + (Gap(g2[0]) + tail) == (Gap(g1[0]) + Gap(g2[0])) + tail;
      }
    } else {
      LayoutJoin(t1[1..], g1[1..], t2, g2);
      assert (t1 + t2)[1..] == t1[1..] + t2;
      assert g[1..] == JoinGaps(g1[1..], g2);
      var rest := t1[0] + Layout(t1[1..], g1[1..]);
      Assoc(Gap(g1[0]), rest, Layout(t2, g2));
      Assoc(t1[0], Layout(t1[1..], g1[1..]), Layout(t2, g2));
    }
  }

  // ---- spacing out, piece by piece ----

  /** The tokenizer's state after `s`: was the last character a backslash, are we inside quotes? */
  function After(s: string, escaped: bool, inside: bool): (bool, bool) {
    if s == "" then (escaped, inside)
    else After(s[1..], s[0] == '\\', inside != Toggles(s[0], escaped))
  }

  lemma Assoc(a: string, b: string, c: string)
    ensures (a + b) + c == a + (b + c)
  {
  }

  lemma {:induction false} SpaceOutConcat(a: string, b: string, escaped: bool, inside: bool)
    ensures SpaceOut(a + b, escaped, inside) ==
      SpaceOut(a, escaped, inside) + SpaceOut(b, After(a, escaped, inside).0, After(a, escaped, inside).1)
    ensures After(a + b, escaped, inside) == After(b, After(a, escaped, inside).0, After(a, escaped, inside).1)
  {
    if a == "" {
      assert a + b == b;
    } else {
      var e, i := a[0] == '\\', inside != Toggles(a[0], escaped);
      assert (a + b)[0] == a[0] && (a + b)[1..] == a[1..] + b;
      SpaceOutConcat(a[1..], b, e, i);
      var end := After(a[1..], e, i);
      Assoc(Piece(a[0], inside), SpaceOut(a[1..], e, i), SpaceOut(b, end.0, end.1));
    }
  }

  /** `text`, spaced out, is the tokens `ts`; `l`/`r` say that it starts/ends with a blank. */
  ghost predicate Lays(text: string, ts: seq<string>, l: bool, r: bool) {
    After(text, false, false) == (false, false) &&
    exists gaps :: LaysWith(text, ts, gaps, l, r)
  }

  ghost predicate LaysWith(text: string, ts: seq<string>, gaps: seq<nat>, l: bool, r: bool) {
    Apart(ts, gaps) && SpaceOut(text, false, false) == Layout(ts, gaps) &&
    (l ==> gaps[0] >= 1) && (r ==> gaps[|ts|] >= 1)
  }

  lemma ApartJoin(t1: seq<string>, g1: seq<nat>, t2: seq<string>, g2: seq<nat>)
    requires Apart(t1, g1) && Apart(t2, g2) && (g1[|t1|] >= 1 || g2[0] >= 1)
    ensures Apart(t1 + t2, JoinGaps(g1, g2))
  {
    var g := JoinGaps(g1, g2);
    forall i | 0 < i < |t1 + t2|
      ensures g[i] >= 1
    {
      if i < |t1| {
        assert g[i] == g1[i];
      } else if i == |t1| {
        assert g[i] == g1[|t1|] + g2[0];
      } else {
        assert g[i] == g2[i - |t1|];
      }
    }
  }

  lemma LaysJoin(a: string, t1: seq<string>, l1: bool, r1: bool, b: string, t2: seq<string>, l2: bool, r2: bool)
    requires Lays(a, t1, l1, r1) && Lays(b, t2, l2, r2)
    requires r1 || l2
    ensures Lays(a + b, t1 + t2, l1, r2)
  {
    var g1 :| LaysWith(a, t1, g1, l1, r1);
    var g2 :| LaysWith(b, t2, g2, l2, r2);
    SpaceOutConcat(a, b, false, false);
    LayoutJoin(t1, g1, t2, g2);
    ApartJoin(t1, g1, t2, g2);
    assert LaysWith(a + b, t1 + t2, JoinGaps(g1, g2), l1, r2);
  }

  lemma LaysWeaken(text: string, ts: seq<string>, l: bool, r: bool)
    requires Lays(text, ts, l, r)
    ensures Lays(text, ts, false, false)
  {
    var gaps :| LaysWith(text, ts, gaps, l, r);
    assert LaysWith(text, ts, gaps, false, false);
  }

  /** Text without quotes, backslashes and brackets is not touched. */
  lemma {:induction false} SpaceOutSimple(s: string)
    requires forall i :: 0 <= i < |s| ==> s[i] != '"' && s[i] != '\\' && !IsBracket(s[i])
    ensures SpaceOut(s, false, false) == s && After(s, false, false) == (false, false)
  {
    if s != "" {
      SpaceOutSimple(s[1..]);
    }
  }

  lemma {:induction false} SpaceOutQuoted(s: string)
    requires IsPlain(s)
    ensures SpaceOut(s + "\"", false, true) == s + "\"" && After(s + "\"", false, true) == (false, false)
  {
    var q := s + "\"";
    if s == "" {
      assert q[1..] == "";
    } else {
      assert q[1..] == s[1..] + "\"";
      SpaceOutQuoted(s[1..]);
    }
  }

  lemma LaysToken(t: string)
    requires SpaceOut(t, false, false) == t && After(t, false, false) == (false, false)
    ensures Lays(t, [t], false, false)
  {
    assert Layout([t][1..], [0, 0][1..]) == "";
    assert Layout([t], [0, 0]) == t;
    assert LaysWith(t, [t], [0, 0], false, false);
  }

  lemma LaysBracket(t: string)
    requires |t| == 1 && IsBracket(t[0])
    ensures Lays(t, [t], true, true)
  {
    assert t[1..] == "";
    assert SpaceOut(t, false, false) == [' ', t[0], ' '];
    assert Gap(1) == " " + Gap(0) == " ";
    assert Layout([t][1..], [1, 1][1..]) == " ";
    assert Layout([t], [1, 1]) == " " + (t + " ") == [' ', t[0], ' '];
    assert LaysWith(t, [t], [1, 1], true, true);
  }

  /** A word between blanks. */
  lemma LaysWord(w: string)
    requires IsIdent(w)
    ensures Lays(" " + w + " ", [w], true, true)
  {
    var s := " " + w + " ";
    SpaceOutSimple(s);
    assert Gap(1) == " " + Gap(0) == " ";
    assert Layout([w][1..], [1, 1][1..]) == " ";
    assert Layout([w], [1, 1]) == " " + (w + " ") == s;
    assert LaysWith(s, [w], [1, 1], true, true);
  }

  lemma LaysBlank()
    ensures Lays(" ", [], true, true)
  {
    SpaceOutSimple(" ");
    assert Gap(1) == " " + Gap(0) == " ";
    assert LaysWith(" ", [], [1], true, true);
  }

  lemma LaysIdent(s: string)
    requires IsIdent(s)
    ensures Lays(s, [s], false, false)
  {
    SpaceOutSimple(s);
    LaysToken(s);
  }

  lemma WholeReads(d: string)
    requires IsDigits(d)
    ensures Decimal(d) == Some(Ratio(DigitsValue(d), 0))
  {
    assert d == d[..|d|];
    HeadLength(d, |d|);
  }

  lemma FractionReads(whole: string, fraction: string)
    requires IsDigits(whole) && IsDigits(fraction)
    ensures Decimal(whole + "." + fraction) ==
      Some(Ratio(DigitsValue(whole + fraction), |fraction|))
  {
    var p := whole + "." + fraction;
    assert p[..|whole|] == whole && p[|whole| + 1..] == fraction;
    HeadLength(p, |whole|);
  }

  lemma PrintDecimalShape(m: nat, k: nat) returns (whole: string, fraction: string)
    ensures IsDigits(whole) && IsDigits(whole + fraction) && DigitsValue(whole + fraction) == m && |fraction| == k
    ensures k == 0 ==> PrintDecimal(m, k) == whole && fraction == ""
    ensures k > 0 ==> IsDigits(fraction) && PrintDecimal(m, k) == whole + "." + fraction
  {
    var d := Padded(DigitsOf(m), k + 1);
    whole, fraction := d[..|d| - k], d[|d| - k..];
    assert whole + fraction == d;
  }

  lemma DecimalIsIdent(whole: string, fraction: string)
    requires IsDigits(whole) && IsDigits(fraction)
    ensures IsIdent(whole) && IsIdent(whole + "." + fraction)
  {
  }

  /** A printed decimal is an identifier token and reads back as the number. */
  lemma DecimalReads(m: nat, k: nat)
    ensures IsIdent(PrintDecimal(m, k)) && '0' <= PrintDecimal(m, k)[0] <= '9'
    ensures Decimal(PrintDecimal(m, k)) == Some(Ratio(m, k))
  {
    var whole, fraction := PrintDecimalShape(m, k);
    if k == 0 {
      assert whole + fraction == whole;
      DecimalIsIdent(whole, whole);
      WholeReads(whole);
    } else {
      DecimalIsIdent(whole, fraction);
      FractionReads(whole, fraction);
    }
  }

  lemma OpeningQuote(s: string)
    ensures SpaceOut("\"" + s, false, false) == "\"" + SpaceOut(s, false, true)
    ensures After("\"" + s, false, false) == After(s, false, true)
  {
    var t := "\"" + s;
    assert t[1..] == s;
    assert Piece('"', false) == ['"'];
  }

  lemma StringReads(s: string)
    requires IsPlain(s)
    ensures ValueOf("\"" + s + "\"") == Str(s)
    ensures Lays("\"" + s + "\"", ["\"" + s + "\""], false, false)
  {
    var t := "\"" + s + "\"";
    assert t[1..] == s + "\"" && t[1..|t| - 1] == s;
    SpaceOutQuoted(s);
    OpeningQuote(s + "\"");
    assert "\"" + (s + "\"") == t;
    LaysToken(t);
  }

  lemma NotDecimal(t: string)
    requires t != "" && !('0' <= t[0] <= '9') && '.' !in t
    ensures Decimal(t).None?
  {
    assert t == t[..|t|];
    HeadLength(t, |t|);
  }

  lemma BoolReads(b: bool)
    ensures ValueOf(if b then "true" else "false") == Bool(b)
  {
    NotDecimal("true");
    NotDecimal("false");
    assert Fold("true") == "true" && Fold("false") == "false";
  }

  lemma NumReads(r: real)
    requires PrintableValue(Num(r))
    ensures ValueOf(PrintValue(Num(r))) == Num(r) && IsIdent(PrintValue(Num(r)))
  {
    var m, k :| IsDecimalAt(r, m, k) && PrintValue(Num(r)) == PrintDecimal(m, k);
    DecimalReads(m, k);
  }

  lemma ValueReads(v: Value)
    requires PrintableValue(v)
    ensures ValueOf(PrintValue(v)) == v
    ensures Lays(PrintValue(v), [PrintValue(v)], false, false)
    ensures IsIdent(PrintValue(v)) || (v.Str? && PrintValue(v) == "\"" + v.s + "\"")
  {
    match v
    case Str(s) => StringReads(s);
    case Bool(b) =>
      BoolReads(b);
      LaysIdent(PrintValue(v));
    case Num(r) =>
      NumReads(r);
      LaysIdent(PrintValue(v));
  }

  lemma {:induction false} LaysNode(n: Node)
    requires Printable(n)
    ensures Lays(Print(n), Words(n), false, false)
    decreases n, 0
  {
    match n
    case Logical(l, op, r) =>
      LaysNode(l);
      LaysWord(LogicWord(op));
      LaysJoin(Print(l), Words(l), false, false, " " + LogicWord(op) + " ", [LogicWord(op)], true, true);
      LaysOperand(r);
      LaysJoin(Print(l) + (" " + LogicWord(op) + " "), Words(l) + [LogicWord(op)], false, true,
               PrintOperand(r), OperandWords(r), false, false);
    case ArrayFilter(path, expr) =>
      LaysIdent(path);
      LaysBracket("[");
      LaysJoin(path, [path], false, false, "[", ["["], true, true);
      LaysNode(expr);
      LaysJoin(path + "[", [path] + ["["], false, true, Print(expr), Words(expr), false, false);
      LaysBracket("]");
      LaysJoin(path + "[" + Print(expr), [path] + ["["] + Words(expr), false, false, "]", ["]"], true, true);
      LaysWeaken(Print(n), Words(n), false, true);
    case Condition(attr, op, value) =>
      LaysIdent(attr);
      if op == Present {
        LaysBlank();
        LaysJoin(attr, [attr], false, false, " ", [], true, true);
        LaysIdent("pr");
        assert [attr] + [] == [attr];
        LaysJoin(attr + " ", [attr], false, true, "pr", ["pr"], false, false);
      } else {
        var w := ComparatorWord(op);
        LaysWord(w);
        LaysJoin(attr, [attr], false, false, " " + w + " ", [w], true, true);
        ValueReads(value);
        LaysJoin(attr + (" " + w + " "), [attr] + [w], false, true,
                 PrintValue(value), [PrintValue(value)], false, false);
      }
  }

  lemma {:induction false} LaysOperand(n: Node)
    requires Printable(n)
    ensures Lays(PrintOperand(n), OperandWords(n), false, false)
    decreases n, 1
  {
    LaysNode(n);
    if n.Logical? {
      LaysBracket("(");
      LaysJoin("(", ["("], true, true, Print(n), Words(n), false, false);
      LaysBracket(")");
      LaysJoin("(" + Print(n), ["("] + Words(n), true, false, ")", [")"], true, true);
      LaysWeaken(PrintOperand(n), OperandWords(n), true, true);
    }
  }
}
