/**
 * The meaning of the MongoDB queries that the helpers and plugins build: BSON values,
 * dotted paths with implicit array traversal, field conditions and logical operators.
 *
 * A filter is a JavaScript object, so it is a map from keys to entries: the keys `$and`,
 * `$or` and `$nor` hold lists of filters, every other key is a dotted path with a condition.
 */
module Mongo {
  import opened Strings

  datatype Value =
    | Null
    | Bool(b: bool)
    | Num(n: real)
    | Str(s: string)
    | Id(hex: string)
    | Arr(items: seq<Value>)
    | Doc(fields: map<string, Value>)

  datatype Cond =
    | Eq(v: Value)
    | Ne(v: Value)
    | Gt(v: Value)
    | Gte(v: Value)
    | Lt(v: Value)
    | Lte(v: Value)
    | In(v: Value)
    | Nin(v: Value)
    | Regex(pattern: string, options: string)
    | Exists
    | ElemMatch(f: Filter)
    | Not(c: Cond)

  datatype Entry = Cond(c: Cond) | Sub(fs: seq<Filter>)

  datatype Filter = Filter(entries: map<string, Entry>)

  const EVERYTHING := Filter(map[])

  // ---- paths ----

  /** The part of `s` before its first dot. */
  function Head(s: string): (r: string)
    ensures |r| <= |s| && s[..|r|] == r
    ensures '.' !in r
    ensures |r| < |s| ==> s[|r|] == '.'
  {
    if s == "" || s[0] == '.' then "" else [s[0]] + Head(s[1..])
  }

  /** A dotted path split at its dots. */
  function Segments(path: string): (r: seq<string>)
    ensures |r| > 0
    decreases |path|
  {
    var h := Head(path);
    if |h| == |path| then [path] else [h] + Segments(path[|h| + 1..])
  }

  /** All values a path denotes inside a value; arrays on the way are traversed. */
  ghost function At(v: Value, segs: seq<string>): set<Value>
    decreases v, |segs|
  {
    if segs == [] then {v}
    else match v
      case Doc(fields) => if segs[0] in fields then At(fields[segs[0]], segs[1..]) else {}
      case Arr(items) => set e, x | e in items && e.Doc? && x in At(e, segs) :: x
      case _ => {}
  }

  /** A condition sees an array both as a whole and element by element. */
  ghost function Leaves(found: set<Value>): set<Value> {
    found + set a, e | a in found && a.Arr? && e in a.items :: e
  }

  // ---- comparison ----

  /** `$lt` compares only values of the same type. */
  predicate Less(a: Value, b: Value) {
    match (a, b)
    case (Num(x), Num(y)) => x < y
    case (Str(x), Str(y)) => StringLess(x, y)
    case (Id(x), Id(y)) => StringLess(x, y)
    case (Bool(x), Bool(y)) => !x && y
    case _ => false
  }

  // ---- regular expressions: literals with optional anchors ----

  predicate IsMeta(c: char) {
    c == '.' || c == '*' || c == '+' || c == '?' || c == '^' || c == '$' || c == '{' || c == '}' ||
    c == '(' || c == ')' || c == '|' || c == '[' || c == ']' || c == '\\'
  }

  datatype Pattern = Pattern(atStart: bool, literal: string, atEnd: bool) | Unsupported

  /** Read the part of a pattern after an optional `^`. */
  function ReadBody(p: string): Pattern {
    if p == "" then Pattern(false, "", false)
    else if p == "$" then Pattern(false, "", true)
    else if p[0] == '\\' then
      if |p| > 1 && IsMeta(p[1]) then Prepend(p[1], ReadBody(p[2..])) else Unsupported
    else if IsMeta(p[0]) then Unsupported
    else Prepend(p[0], ReadBody(p[1..]))
  }

  function Prepend(c: char, p: Pattern): Pattern {
    if p.Unsupported? then Unsupported else p.(literal := [c] + p.literal)
  }

  function ReadPattern(p: string): Pattern {
    if p != "" && p[0] == '^' then
      var body := ReadBody(p[1..]);
      if body.Unsupported? then body else body.(atStart := true)
    else
      ReadBody(p)
  }

  predicate OccursAt(needle: string, s: string, i: int) {
    0 <= i <= |s| - |needle| && s[i..i + |needle|] == needle
  }

  ghost predicate MatchesPattern(p: Pattern, s: string) {
    p.Pattern? &&
    exists i :: OccursAt(p.literal, s, i) && (p.atStart ==> i == 0) && (p.atEnd ==> i + |p.literal| == |s|)
  }

  ghost predicate RegexMatches(pattern: string, options: string, s: string) {
    var p := ReadPattern(pattern);
    if 'i' in options && p.Pattern? then MatchesPattern(p.(literal := Fold(p.literal)), Fold(s))
    else MatchesPattern(p, s)
  }

  // ---- filters ----

  ghost predicate Equals(v: Value, found: set<Value>) {
    v in Leaves(found) || (v == Null && found == {})
  }

  ghost predicate Matches(c: Cond, found: set<Value>)
    decreases c
  {
    match c
    case Eq(v) => Equals(v, found)
    case Ne(v) => !Equals(v, found)
    case Gt(v) => exists x :: x in Leaves(found) && Less(v, x)
    case Gte(v) => exists x :: x in Leaves(found) && (Less(v, x) || v == x)
    case Lt(v) => exists x :: x in Leaves(found) && Less(x, v)
    case Lte(v) => exists x :: x in Leaves(found) && (Less(x, v) || v == x)
    case In(v) => v.Arr? && exists x :: x in v.items && Equals(x, found)
    case Nin(v) => !(v.Arr? && exists x :: x in v.items && Equals(x, found))
    case Regex(p, o) => exists x :: x in Leaves(found) && x.Str? && RegexMatches(p, o, x.s)
    case Exists => found != {}
    case ElemMatch(f) => exists a :: a in found && a.Arr? && exists e :: e in a.items && e.Doc? && Holds(f, e)
    case Not(n) => !Matches(n, found)
  }

  /** One entry of a filter object: a logical operator or a field condition. */
  ghost predicate EntryHolds(key: string, e: Entry, doc: Value)
    decreases e
  {
    match e
    case Cond(c) => Matches(c, At(doc, Segments(key)))
    case Sub(fs) =>
      if key == "$and" then forall f :: f in fs ==> Holds(f, doc)
      else if key == "$or" then exists f :: f in fs && Holds(f, doc)
      else if key == "$nor" then !exists f :: f in fs && Holds(f, doc)
      else false
  }

  /** All entries of a filter object must hold. */
  ghost predicate Holds(f: Filter, doc: Value)
    decreases f
  {
    forall k :: k in f.entries ==> EntryHolds(k, f.entries[k], doc)
  }

  // ---- small filter algebra used by every translation ----

  function One(key: string, e: Entry): Filter {
    Filter(map[key := e])
  }

  function Field(path: string, c: Cond): Filter {
    One(path, Cond(c))
  }

  /** JavaScript `{ ...a, ...b }`: the entries of `b` win. */
  function Spread(a: Filter, b: Filter): Filter {
    Filter(a.entries + b.entries)
  }

  lemma HoldsOne(key: string, e: Entry, doc: Value)
    ensures Holds(One(key, e), doc) == EntryHolds(key, e, doc)
  {
    assert key in One(key, e).entries;
  }

  /** Spreading `b` over `a` means: `b`, and what of `a` survives. */
  lemma HoldsSpread(a: Filter, b: Filter, doc: Value)
    ensures Holds(Spread(a, b), doc) <==> Holds(Filter(a.entries - b.entries.Keys), doc) && Holds(b, doc)
  {
    var s := Spread(a, b);
    var rest := Filter(a.entries - b.entries.Keys);
    assert forall k :: k in s.entries <==> k in rest.entries || k in b.entries;
    assert forall k :: k in b.entries ==> s.entries[k] == b.entries[k];
    assert forall k :: k in rest.entries ==> s.entries[k] == rest.entries[k];
  }

  /** The head ends exactly at the first dot. */
  lemma {:induction false} HeadLength(s: string, n: nat)
    requires n <= |s| && '.' !in s[..n]
    requires n < |s| ==> s[n] == '.'
    ensures Head(s) == s[..n]
  {
    if n > 0 {
      assert s[0] in s[..n];
      assert s[1..][..n - 1] == s[..n][1..];
      HeadLength(s[1..], n - 1);
    }
  }

  /** A dot-free name followed by a dot is the first segment. */
  lemma SegmentsCons(name: string, rest: string)
    requires '.' !in name
    ensures Segments(name + "." + rest) == [name] + Segments(rest)
  {
    var path := name + "." + rest;
    assert path[..|name|] == name;
    HeadLength(path, |name|);
    assert path[|name| + 1..] == rest;
  }

  lemma SegmentsSimple(name: string)
    requires '.' !in name
    ensures Segments(name) == [name]
  {
    assert name[..|name|] == name;
    HeadLength(name, |name|);
  }
}
