/** The response interceptor's fallback: clear secret fields in the plain part of an object graph. */
module RemoveSecrets {
  import opened JsHeap

  // ---- the code's test ----

  /** A property that makes an object literal pass for a stream, a document or a BSON value. */
  predicate Disguises(key: string, v: Val) {
    (key == "pipe" && v.Function?) || ((key == "$__" || key == "_bsontype") && v != Undefined)
  }

  /** `isPlainLike`. */
  predicate IsPlainLike(c: Cell) {
    c.kind.Plain? && forall i :: 0 <= i < |c.keys| && i < |c.vals| ==> !Disguises(c.keys[i], c.vals[i])
  }

  // ---- what it is to tell apart ----

  /** An object literal without a function `pipe` and without a defined `$__` or `_bsontype`. */
  ghost predicate IsLiteral(c: Cell) {
    c.kind.Plain? &&
    (forall i :: 0 <= i < |c.keys| && i < |c.vals| && c.keys[i] == "pipe" ==> !c.vals[i].Function?) &&
    (forall i :: 0 <= i < |c.keys| && i < |c.vals| && c.keys[i] == "$__" ==> c.vals[i] == Undefined) &&
    (forall i :: 0 <= i < |c.keys| && i < |c.vals| && c.keys[i] == "_bsontype" ==> c.vals[i] == Undefined)
  }

  ghost predicate Open(c: Cell) {
    c.kind.Array? || IsLiteral(c)
  }

  lemma TestIsExact(c: Cell)
    ensures IsPlainLike(c) <==> IsLiteral(c)
  {
  }

  /** The values to be followed: all items of an array, the non-secret properties of a literal. */
  ghost function Followed(c: Cell, secrets: seq<string>): set<Val> {
    if c.kind.Array? then set v | v in c.vals
    else if IsLiteral(c) && |c.keys| == |c.vals| then set i | 0 <= i < |c.keys| && c.keys[i] !in secrets :: c.vals[i]
    else {}
  }

  ghost function PlainEdges(h: Cells, secrets: seq<string>): Graph {
    map r | r in h :: set v | v in Followed(h[r], secrets) && v.At? && v.ref in h &&
                              (h[v.ref].kind.Array? || IsLiteral(h[v.ref])) :: v.ref
  }

  /** Set one property to undefined, if the object has it. */
  function Clear(c: Cell, field: string): Cell
    requires |c.keys| == |c.vals|
  {
    c.(vals := seq(|c.vals|, i requires 0 <= i < |c.vals| => if c.keys[i] == field then Undefined else c.vals[i]))
  }

  /** All secret properties of a literal undefined, everything else as it was. */
  ghost function Cleared(c: Cell, secrets: seq<string>): Cell
    requires |c.keys| == |c.vals|
  {
    if IsLiteral(c) then
      c.(vals := seq(|c.vals|, i requires 0 <= i < |c.vals| => if c.keys[i] in secrets then Undefined else c.vals[i]))
    else c
  }

  /** `after` is `before` with exactly the cells of `s` cleared. */
  ghost predicate ClearedExactly(before: Cells, after: Cells, s: set<Ref>, secrets: seq<string>) {
    after.Keys == before.Keys &&
    forall r :: r in before ==>
      |before[r].keys| == |before[r].vals| &&
      after[r] == if r in s then Cleared(before[r], secrets) else before[r]
  }

  ghost predicate ReachedFrom(h: Cells, secrets: seq<string>, v: Val, r: Ref) {
    v.At? && v.ref in h && (h[v.ref].kind.Array? || IsLiteral(h[v.ref])) && Reaches(PlainEdges(h, secrets), v.ref, r)
  }

  ghost predicate Progress(before: Cells, after: Cells, secrets: seq<string>, v: Val, visited: set<Ref>, seen: set<Ref>,
                           done: set<Ref>) {
    visited <= seen <= before.Keys && done <= seen - visited && ClearedExactly(before, after, done, secrets) &&
    forall r :: r in seen - visited ==> ReachedFrom(before, secrets, v, r)
  }

  ghost predicate Settled(before: Cells, secrets: seq<string>, s: set<Ref>, seen: set<Ref>) {
    forall r :: r in s ==> r in before && PlainEdges(before, secrets)[r] <= seen
  }

  lemma SameEdges(before: Cells, after: Cells, s: set<Ref>, secrets: seq<string>)
    requires ClearedExactly(before, after, s, secrets)
    ensures PlainEdges(after, secrets) == PlainEdges(before, secrets)
  {
    forall r | r in before
      ensures Followed(after[r], secrets) == Followed(before[r], secrets)
    {
    }
    assert forall r :: r in before ==> Open(after[r]) == Open(before[r]);
    var e, e' := PlainEdges(before, secrets), PlainEdges(after, secrets);
    assert forall r :: r in before ==> e[r] == e'[r];
  }

  lemma StaysWellFormed(before: Cells, after: Cells, s: set<Ref>, secrets: seq<string>)
    requires WellFormed(before) && ClearedExactly(before, after, s, secrets)
    ensures WellFormed(after)
  {
    forall r, v | r in after && v in after[r].vals
      ensures ValOk(after, v)
    {
      var i :| 0 <= i < |after[r].vals| && after[r].vals[i] == v;
      assert before[r].vals[i] in before[r].vals && CellOk(before, before[r]);
      assert v == Undefined || v == before[r].vals[i];
    }
  }

  lemma ProgressStep(before: Cells, mid: Cells, after: Cells, secrets: seq<string>, self: Ref, child: Val,
                     visited: set<Ref>, seen: set<Ref>, seen': set<Ref>, done: set<Ref>, done': set<Ref>)
    requires Progress(before, mid, secrets, At(self), visited, seen, done)
    requires Progress(mid, after, secrets, child, seen, seen', done')
    requires self in before && Open(before[self]) && child in Followed(before[self], secrets)
    requires done' == seen' - seen && Settled(mid, secrets, done', seen')
    requires done == seen - visited && Settled(before, secrets, done - {self}, seen)
    ensures Progress(before, after, secrets, At(self), visited, seen', done + done')
    ensures Settled(before, secrets, done + done' - {self}, seen')
  {
    SameEdges(before, mid, done, secrets);
    forall r | r in seen' - seen
      ensures ReachedFrom(before, secrets, At(self), r)
    {
      assert child.ref in PlainEdges(before, secrets)[self];
      ReachesStep(PlainEdges(before, secrets), self, child.ref, r);
    }
  }

  ghost predicate IsSeen(before: Cells, v: Val, seen: set<Ref>) {
    v.At? && v.ref in before && Open(before[v.ref]) ==> v.ref in seen
  }

  /** Entry by entry, `entries` are the values of `c` that a traversal follows. */
  ghost predicate Tracks(c: Cell, entries: seq<Val>, secrets: seq<string>) {
    |entries| == |c.keys| == |c.vals| &&
    (forall j :: 0 <= j < |entries| && (IsLiteral(c) ==> c.keys[j] !in secrets) ==>
      entries[j] == c.vals[j] && entries[j] in c.vals && entries[j] in Followed(c, secrets)) &&
    (forall v :: v in Followed(c, secrets) ==>
      exists j :: 0 <= j < |entries| && (IsLiteral(c) ==> c.keys[j] !in secrets) && entries[j] == v)
  }

  /** After the fields of an entered cell are cleared, its entries are what is to be followed. */
  lemma Started(before: Cells, after: Cells, secrets: seq<string>, self: Ref, visited: set<Ref>)
    requires WellFormed(before) && self in before && Open(before[self]) && visited <= before.Keys && self !in visited
    requires after == if IsLiteral(before[self]) then before[self := Cleared(before[self], secrets)] else before
    ensures Progress(before, after, secrets, At(self), visited, visited + {self}, {self})
    ensures Tracks(before[self], after[self].vals, secrets)
  {
    assert forall r :: r in before ==> CellOk(before, before[r]);
    ReachesSelf(PlainEdges(before, secrets), self);
    var c, entries := before[self], after[self].vals;
    forall v | v in Followed(c, secrets)
      ensures exists j :: 0 <= j < |entries| && (IsLiteral(c) ==> c.keys[j] !in secrets) && entries[j] == v
    {
      if IsLiteral(c) {
        var i :| 0 <= i < |c.keys| && c.keys[i] !in secrets && c.vals[i] == v;
        assert entries[i] == v;
      }
    }
  }

  lemma SelfSettled(before: Cells, secrets: seq<string>, self: Ref, entries: seq<Val>, seen: set<Ref>)
    requires self in before && Tracks(before[self], entries, secrets)
    requires forall j :: 0 <= j < |entries| && (IsLiteral(before[self]) ==> before[self].keys[j] !in secrets) ==>
      IsSeen(before, entries[j], seen)
    ensures Settled(before, secrets, {self}, seen)
  {
  }

  /** Is entry `j` of the cell followed? */
  ghost predicate Follows(c: Cell, secrets: seq<string>, j: nat)
    requires j < |c.keys|
  {
    IsLiteral(c) ==> c.keys[j] !in secrets
  }

  /** Where the loop over the entries of `self` stands: those before `i` are dealt with. */
  ghost predicate Walk(before: Cells, h: Cells, secrets: seq<string>, self: Ref, entries: seq<Val>, visited: set<Ref>,
                       seen: set<Ref>, done: set<Ref>, i: nat) {
    self in before && self in seen && Tracks(before[self], entries, secrets) && i <= |entries| &&
    Progress(before, h, secrets, At(self), visited, seen, done) &&
    done == seen - visited && Settled(before, secrets, done - {self}, seen) &&
    forall j :: 0 <= j < i && Follows(before[self], secrets, j) ==> IsSeen(before, entries[j], seen)
  }

  /** The next entry is a value of the heap, and entered exactly if it was so before. */
  lemma EntryOk(before: Cells, h: Cells, secrets: seq<string>, self: Ref, entries: seq<Val>, visited: set<Ref>,
                seen: set<Ref>, done: set<Ref>, i: nat)
    requires WellFormed(before) && Walk(before, h, secrets, self, entries, visited, seen, done, i) && i < |entries|
    requires Follows(before[self], secrets, i)
    ensures ValOk(h, entries[i])
    ensures entries[i].At? ==> Open(h[entries[i].ref]) == Open(before[entries[i].ref])
  {
    assert CellOk(before, before[self]) && entries[i] in before[self].vals;
  }

  lemma WalkSkip(before: Cells, h: Cells, secrets: seq<string>, self: Ref, entries: seq<Val>, visited: set<Ref>,
                 seen: set<Ref>, done: set<Ref>, i: nat)
    requires Walk(before, h, secrets, self, entries, visited, seen, done, i) && i < |entries|
    requires !Follows(before[self], secrets, i)
    ensures Walk(before, h, secrets, self, entries, visited, seen, done, i + 1)
  {
  }

  lemma WalkStep(before: Cells, mid: Cells, after: Cells, secrets: seq<string>, self: Ref, entries: seq<Val>,
                 visited: set<Ref>, seen: set<Ref>, seen': set<Ref>, done: set<Ref>, done': set<Ref>, i: nat)
    requires Walk(before, mid, secrets, self, entries, visited, seen, done, i) && i < |entries|
    requires Open(before[self]) && Follows(before[self], secrets, i)
    requires Progress(mid, after, secrets, entries[i], seen, seen', done') && done' == seen' - seen
    requires Settled(mid, secrets, done', seen') && IsSeen(before, entries[i], seen')
    ensures Walk(before, after, secrets, self, entries, visited, seen', done + done', i + 1)
  {
    ProgressStep(before, mid, after, secrets, self, entries[i], visited, seen, seen', done, done');
  }

  lemma WalkEnd(before: Cells, h: Cells, secrets: seq<string>, self: Ref, entries: seq<Val>, visited: set<Ref>,
                seen: set<Ref>, done: set<Ref>)
    requires Walk(before, h, secrets, self, entries, visited, seen, done, |entries|)
    ensures Settled(before, secrets, done, seen)
  {
    forall j | 0 <= j < |entries| && (IsLiteral(before[self]) ==> before[self].keys[j] !in secrets)
      ensures IsSeen(before, entries[j], seen)
    {
      assert Follows(before[self], secrets, j);
    }
    SelfSettled(before, secrets, self, entries, seen);
  }

  class Heap {
    var cells: Cells
    const secrets: seq<string>

    constructor (cells: Cells, secrets: seq<string>)
      ensures this.cells == cells && this.secrets == secrets
    {
      this.cells := cells;
      this.secrets := secrets;
    }

    /** The loop over the secret field names. */
    method ClearFields(self: Ref)
      requires self in cells && IsLiteral(cells[self]) && |cells[self].keys| == |cells[self].vals|
      modifies this
      ensures cells == old(cells)[self := Cleared(old(cells)[self], secrets)]
    {
      ghost var c := cells[self];
      assert Cleared(c, []).vals == c.vals;
      assert cells == cells[self := c];
      for k := 0 to |secrets|
        invariant cells.Keys == old(cells).Keys
        invariant cells == old(cells)[self := Cleared(c, secrets[..k])]
      {
        assert secrets[..k + 1] == secrets[..k] + [secrets[k]];
        assert Clear(Cleared(c, secrets[..k]), secrets[k]) == Cleared(c, secrets[..k + 1]);
        cells := cells[self := Clear(cells[self], secrets[k])];
      }
      assert secrets[..|secrets|] == secrets;
      assert cells == old(cells)[self := Cleared(c, secrets)];
    }

    /** The recursive traversal: it clears exactly the cells it newly visits. */
    method Remove(v: Val, visited: set<Ref>) returns (seen: set<Ref>, ghost done: set<Ref>)
      requires WellFormed(cells) && ValOk(cells, v) && visited <= cells.Keys
      modifies this
      ensures Progress(old(cells), cells, secrets, v, visited, seen, done)
      ensures done == seen - visited && Settled(old(cells), secrets, done, seen)
      ensures v.At? && Open(old(cells)[v.ref]) ==> v.ref in seen
      decreases cells.Keys - visited
    {
      ghost var before := cells;
      if !v.At? || v.ref in visited {
        return visited, {};
      }
      var self, isPlain, keys := v.ref, IsPlainLike(cells[v.ref]), cells[v.ref].keys;
      TestIsExact(cells[self]);
      if !cells[self].kind.Array? && !isPlain {
        return visited, {};
      }
      seen, done := visited + {self}, {self};
      if isPlain {
        ClearFields(self);
      }
      var entries := cells[self].vals;
      Started(before, cells, secrets, self, visited);
      for i := 0 to |entries|
        invariant Walk(before, cells, secrets, self, entries, visited, seen, done, i)
      {
        if !isPlain || keys[i] !in secrets {
          ghost var mid, last := cells, seen;
          StaysWellFormed(before, cells, done, secrets);
          EntryOk(before, mid, secrets, self, entries, visited, seen, done, i);
          ghost var childDone;
          seen, childDone := Remove(entries[i], seen);
          WalkStep(before, mid, cells, secrets, self, entries, visited, last, seen, done, childDone, i);
          done := done + childDone;
        } else {
          WalkSkip(before, cells, secrets, self, entries, visited, seen, done, i);
        }
      }
      WalkEnd(before, cells, secrets, self, entries, visited, seen, done);
    }

    /** `removeSecrets(data)`: exactly the plain objects reachable through plain objects and arrays are cleared. */
    method RemoveSecrets(v: Val)
      requires WellFormed(cells) && ValOk(cells, v)
      modifies this
      ensures cells.Keys == old(cells).Keys && forall r :: r in cells ==>
        |old(cells)[r].keys| == |old(cells)[r].vals| &&
        cells[r] == if ReachedFrom(old(cells), secrets, v, r) then Cleared(old(cells)[r], secrets) else old(cells)[r]
    {
      ghost var before := cells;
      var seen;
      ghost var done;
      seen, done := Remove(v, {});
      forall r | ReachedFrom(before, secrets, v, r)
        ensures r in seen
      {
        ClosedContainsReachable(PlainEdges(before, secrets), seen, v.ref, r);
      }
    }
  }

  /** Only arrays and literals are reached. */
  lemma ReachedIsOpen(h: Cells, secrets: seq<string>, v: Val, r: Ref)
    requires WellFormed(h) && ReachedFrom(h, secrets, v, r)
    ensures r in h && Open(h[r])
  {
    var entered := set x | x in h && Open(h[x]);
    ClosedContainsReachable(PlainEdges(h, secrets), entered, v.ref, r);
  }

  /**
   * An object literal keeps a secret exactly if one of its properties makes it pass for something
   * else, or the traversal does not reach it.
   */
  lemma LiteralKeepsSecretExactly(before: Cells, after: Cells, secrets: seq<string>, v: Val, r: Ref, i: nat)
    requires WellFormed(before) && r in before && before[r].kind.Plain?
    requires ClearedExactly(before, after, (set x | x in before && ReachedFrom(before, secrets, v, x)), secrets)
    requires i < |before[r].keys| && before[r].keys[i] in secrets && before[r].vals[i] != Undefined
    ensures after[r].vals[i] != Undefined <==>
      (exists j :: 0 <= j < |before[r].keys| && before[r].keys[j] == "pipe" && before[r].vals[j].Function?) ||
      (exists j :: 0 <= j < |before[r].keys| && before[r].keys[j] in {"$__", "_bsontype"} &&
        before[r].vals[j] != Undefined) ||
      !ReachedFrom(before, secrets, v, r)
  {
    if ReachedFrom(before, secrets, v, r) {
      ReachedIsOpen(before, secrets, v, r);
    }
  }

  /** From an array to all items, from a literal to all properties, to arrays and literals. */
  ghost function AllEdges(h: Cells): Graph {
    map r | r in h ::
      if h[r].kind.Array? || IsLiteral(h[r]) then
        set v | v in h[r].vals && v.At? && v.ref in h && (h[v.ref].kind.Array? || IsLiteral(h[v.ref])) :: v.ref
      else {}
  }

  /** After the pass, no plain object reachable through plain objects and arrays has a defined secret field. */
  lemma NoSecretReachable(before: Cells, after: Cells, secrets: seq<string>, v: Val, r: Ref, i: nat)
    requires WellFormed(before) && v.At? && v.ref in before && (before[v.ref].kind.Array? || IsLiteral(before[v.ref]))
    requires ClearedExactly(before, after, (set x | x in before && ReachedFrom(before, secrets, v, x)), secrets)
    requires Reaches(AllEdges(after), v.ref, r) && r in after && IsLiteral(after[r])
    requires i < |after[r].keys| == |after[r].vals| && after[r].keys[i] in secrets
    ensures after[r].vals[i] == Undefined
  {
    var s := set x | x in before && ReachedFrom(before, secrets, v, x);
    ReachesSelf(PlainEdges(before, secrets), v.ref);
    forall x | x in s && x in AllEdges(after)
      ensures AllEdges(after)[x] <= s
    {
      forall y | y in AllEdges(after)[x]
        ensures y in s
      {
        ReachedGrows(before, after, secrets, v, s, x, y);
      }
    }
    ClosedContainsReachable(AllEdges(after), s, v.ref, r);
  }

  lemma ReachedGrows(before: Cells, after: Cells, secrets: seq<string>, v: Val, s: set<Ref>, x: Ref, y: Ref)
    requires WellFormed(before) && ClearedExactly(before, after, s, secrets)
    requires x in s && x in before && ReachedFrom(before, secrets, v, x) && y in AllEdges(after)[x]
    ensures y in before && ReachedFrom(before, secrets, v, y)
  {
    var i :| 0 <= i < |after[x].vals| && after[x].vals[i] == At(y);
    assert before[x].vals[i] == At(y) && At(y) in Followed(before[x], secrets);
    assert y in PlainEdges(before, secrets)[x];
    ReachesEnd(PlainEdges(before, secrets), v.ref, x, y);
  }
}
