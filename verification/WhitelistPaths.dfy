/** What the reported texts say about the paths they stand for. */
module WhitelistPaths {
  import opened Whitelist

  /** A key that has no dot and no opening bracket, and is not empty. */
  predicate IsPlainKey(key: string) {
    key != "" && IsUncut(key)
  }

  predicate IsUncut(s: string) {
    '.' !in s && '[' !in s
  }

  predicate IsPlain(p: Path) {
    forall i :: 0 <= i < |p| ==> IsPlainStep(p[i])
  }

  predicate IsPlainStep(step: Step) {
    step.Key? ==> IsPlainKey(step.key)
  }

  // ---- a text as a sequence of pieces ----

  function Mark(step: Step): char {
    if step.Key? then '.' else '['
  }

  function Body(step: Step): string {
    match step
    case Key(k) => k
    case Index(i) => Decimal(i) + "]"
  }

  function Pieces(p: Path): string {
    if p == [] then "" else [Mark(p[0])] + (Body(p[0]) + Pieces(p[1..]))
  }

  lemma ExtendedByPiece(path: string, step: Step)
    requires path != ""
    ensures Extended(path, step) == path + [Mark(step)] + Body(step)
  {
  }

  lemma Regroup(path: string, mark: string, body: string, rest: string)
    ensures (path + mark + body) + rest == path + (mark + (body + rest))
  {
  }

  lemma {:induction false} RenderedIsPieces(path: string, p: Path)
    requires path != ""
    ensures Rendered(path, p) == path + Pieces(p)
    decreases |p|
  {
    if p == [] {
      assert path + "" == path;
    } else {
      ExtendedByPiece(path, p[0]);
      RenderedIsPieces(Extended(path, p[0]), p[1..]);
      Regroup(path, [Mark(p[0])], Body(p[0]), Pieces(p[1..]));
    }
  }

  // ---- taking it apart ----

  /** Does a piece begin here, or the text end? */
  predicate Begins(s: string) {
    s == "" || s[0] == '.' || s[0] == '['
  }

  lemma PiecesBegin(p: Path)
    ensures Begins(Pieces(p)) && (Pieces(p) == "" <==> p == [])
  {
    if p != [] {
      assert Pieces(p)[0] == Mark(p[0]);
    }
  }

  lemma UncutDoesNotBegin(a: string, x: string)
    requires IsUncut(a) && Begins(x)
    ensures Begins(a + x) <==> a == ""
  {
    if a == "" {
      assert a + x == x;
    } else {
      assert (a + x)[0] == a[0] && a[0] in a;
    }
  }

  /** Texts that are cut where the next piece begins are cut alike. */
  lemma {:induction false} CutAlike(a: string, x: string, b: string, y: string)
    requires a + x == b + y && Begins(x) && Begins(y) && IsUncut(a) && IsUncut(b)
    ensures a == b && x == y
    decreases |a|
  {
    UncutDoesNotBegin(a, x);
    UncutDoesNotBegin(b, y);
    assert a == "" <==> b == "";
    if a == "" {
      assert a + x == x && b + y == y;
    } else {
      assert a[0] == (a + x)[0] == (b + y)[0] == b[0];
      assert a[1..] + x == (a + x)[1..] && b[1..] + y == (b + y)[1..];
      CutAlike(a[1..], x, b[1..], y);
      assert a == [a[0]] + a[1..] && b == [b[0]] + b[1..];
    }
  }

  lemma {:induction false} DecimalDigits(n: nat)
    ensures Decimal(n) != "" && forall c :: c in Decimal(n) ==> '0' <= c <= '9'
  {
    if n >= 10 {
      DecimalDigits(n / 10);
    }
  }

  lemma DecimalSplit(n: nat)
    ensures Decimal(n) == (if n < 10 then "" else Decimal(n / 10)) + [('0' as int + n % 10) as char]
  {
  }

  lemma {:induction false} DecimalTells(m: nat, n: nat)
    requires Decimal(m) == Decimal(n)
    ensures m == n
  {
    var a, b := if m < 10 then "" else Decimal(m / 10), if n < 10 then "" else Decimal(n / 10);
    var c, d := ('0' as int + m % 10) as char, ('0' as int + n % 10) as char;
    DecimalSplit(m);
    DecimalSplit(n);
    DecimalDigits(m / 10);
    DecimalDigits(n / 10);
    assert (a + [c])[|a + [c]| - 1] == c && (b + [d])[|b + [d]| - 1] == d;
    assert (a + [c])[..|a|] == a && (b + [d])[..|b|] == b;
    assert a == b && c == d;
    if m >= 10 && n >= 10 {
      DecimalTells(m / 10, n / 10);
    }
  }

  lemma BodyIsUncut(step: Step)
    requires IsPlainStep(step)
    ensures IsUncut(Body(step))
  {
    if step.Index? {
      DecimalDigits(step.i);
    }
  }

  lemma SameBody(s: Step, t: Step)
    requires Mark(s) == Mark(t) && Body(s) == Body(t)
    ensures s == t
  {
    if s.Index? {
      assert Decimal(s.i) == Body(s)[..|Body(s)| - 1] && Decimal(t.i) == Body(t)[..|Body(t)| - 1];
      DecimalTells(s.i, t.i);
    }
  }

  lemma SameHead<T>(a: T, x: seq<T>, b: T, y: seq<T>)
    requires [a] + x == [b] + y
    ensures a == b && x == y
  {
    assert a == ([a] + x)[0] && b == ([b] + y)[0];
    assert x == ([a] + x)[1..] && y == ([b] + y)[1..];
  }

  lemma {:induction false} PiecesTell(p: Path, q: Path)
    requires IsPlain(p) && IsPlain(q) && Pieces(p) == Pieces(q)
    ensures p == q
    decreases |p|
  {
    PiecesBegin(p);
    PiecesBegin(q);
    if p != [] {
      var s, t, x, y := p[0], q[0], Pieces(p[1..]), Pieces(q[1..]);
      SameHead(Mark(s), Body(s) + x, Mark(t), Body(t) + y);
      PiecesBegin(p[1..]);
      PiecesBegin(q[1..]);
      BodyIsUncut(s);
      BodyIsUncut(t);
      CutAlike(Body(s), x, Body(t), y);
      SameBody(s, t);
      PiecesTell(p[1..], q[1..]);
      assert p == [s] + p[1..] && q == [t] + q[1..];
    }
  }

  /** The reported texts tell the paths apart, provided that keys are not empty and have no dot and no bracket. */
  lemma TextsTellPathsApart(p: Path, q: Path)
    requires p != [] && q != [] && p[0].Key? && q[0].Key? && IsPlain(p) && IsPlain(q)
    requires Rendered("", p) == Rendered("", q)
    ensures p == q
  {
    var s, t, x, y := p[0], q[0], p[1..], q[1..];
    RenderedIsPieces(s.key, x);
    RenderedIsPieces(t.key, y);
    PiecesBegin(x);
    PiecesBegin(y);
    CutAlike(s.key, Pieces(x), t.key, Pieces(y));
    PiecesTell(x, y);
    assert p == [s] + x && q == [t] + y;
  }

  /** A dot in a key reads like a step. */
  lemma DottedKeyReadsAsPath(a: string, b: string)
    requires a != ""
    ensures Rendered("", [Key(a + "." + b)]) == Rendered("", [Key(a), Key(b)])
  {
    assert [Key(a), Key(b)][1..] == [Key(b)] && [Key(b)][1..] == [] && [Key(a + "." + b)][1..] == [];
    assert Rendered("", [Key(a), Key(b)]) == Rendered(a, [Key(b)]) == Rendered(a + "." + b, []);
    assert Rendered("", [Key(a + "." + b)]) == Rendered(a + "." + b, []);
  }
}
