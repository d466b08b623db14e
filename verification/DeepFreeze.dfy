/** `deepFreeze`: freeze an object graph, sharing and cycles included. */
module DeepFreeze {
  import opened JsHeap

  /** Assigning a property that cannot be assigned throws, and so does freezing a view with elements. */
  ghost predicate Blocks(c: Cell) {
    (|c.vals| > 0 && (c.frozen || c.kind.View?)) || exists i :: 0 <= i < |c.keys| && c.keys[i] in c.readOnly
  }

  ghost predicate ReachedFrom(h: Cells, v: Val, r: Ref) {
    v.At? && Reaches(Edges(h), v.ref, r)
  }

  /** `after` is `before` with exactly the cells of `s` frozen. */
  ghost predicate FrozenExactly(before: Cells, after: Cells, s: set<Ref>) {
    after.Keys == before.Keys &&
    forall r :: r in before ==> after[r] == if r in s then before[r].(frozen := true) else before[r]
  }

  /**
   * What a traversal from `v` has done so far: it grew `visited` to `seen` by cells reachable from
   * `v`, and froze exactly the cells `done` among them.
   */
  ghost predicate Progress(before: Cells, after: Cells, v: Val, visited: set<Ref>, seen: set<Ref>, done: set<Ref>) {
    visited <= seen <= before.Keys && done <= seen - visited && FrozenExactly(before, after, done) &&
    forall r :: r in seen - visited ==> ReachedFrom(before, v, r)
  }

  /** The cells of `s` lead only to seen cells, and none of them refused an assignment. */
  ghost predicate Settled(before: Cells, s: set<Ref>, seen: set<Ref>) {
    forall r :: r in s ==> r in before && Refs(before[r].vals) <= seen && !Blocks(before[r])
  }

  ghost predicate Blocked(before: Cells, s: set<Ref>) {
    exists r :: r in s && r in before && Blocks(before[r])
  }

  /** Progress of a child's traversal is progress of the parent's. */
  lemma ProgressStep(before: Cells, mid: Cells, after: Cells, self: Ref, child: Val,
                     visited: set<Ref>, seen: set<Ref>, seen': set<Ref>, done: set<Ref>, done': set<Ref>)
    requires Progress(before, mid, At(self), visited, seen, done) && Progress(mid, after, child, seen, seen', done')
    requires self in before && child in before[self].vals
    ensures Progress(before, after, At(self), visited, seen', done + done')
    ensures forall s :: Settled(mid, s, seen') && s <= seen' - seen ==> Settled(before, s, seen')
    ensures Blocked(mid, seen' - seen) ==> Blocked(before, seen' - visited)
  {
    SameEdges(before, mid);
    forall r | r in seen' - seen
      ensures ReachedFrom(before, At(self), r)
    {
      assert child.ref in Edges(before)[self];
      ReachesStep(Edges(before), self, child.ref, r);
    }
  }

  /** Freezing the cell itself, after everything it leads to. */
  lemma FreezeSelf(before: Cells, after: Cells, self: Ref, visited: set<Ref>, seen: set<Ref>, done: set<Ref>)
    requires Progress(before, after, At(self), visited, seen, done) && Settled(before, done, seen)
    requires self in seen - visited && !Blocks(before[self])
    requires forall v :: v in before[self].vals && v.At? ==> v.ref in seen
    ensures Progress(before, after[self := after[self].(frozen := true)], At(self), visited, seen, done + {self})
    ensures Settled(before, done + {self}, seen)
  {
  }

  lemma SameEdges(a: Cells, b: Cells)
    requires a.Keys == b.Keys && forall r :: r in a ==> a[r].vals == b[r].vals
    ensures Edges(a) == Edges(b)
  {
  }

  /** Assigning the value of property `i` back throws. */
  ghost predicate RefusesAt(c: Cell, i: nat)
    requires i < |c.keys|
  {
    c.frozen || c.keys[i] in c.readOnly
  }

  /** Where the loop over the properties of `self` stands: those before `i` are frozen and assigned. */
  ghost predicate Entries(before: Cells, h: Cells, self: Ref, visited: set<Ref>, seen: set<Ref>, done: set<Ref>,
                          i: nat) {
    self in before && self in seen - visited && |before[self].keys| == |before[self].vals| &&
    Progress(before, h, At(self), visited, seen, done) &&
    done == seen - visited - {self} && Settled(before, done, seen) && i <= |before[self].vals| &&
    forall j :: 0 <= j < i ==>
      !RefusesAt(before[self], j) && (before[self].vals[j].At? ==> before[self].vals[j].ref in seen)
  }

  /** One property further, after its value has been frozen. */
  lemma EntriesStep(before: Cells, mid: Cells, after: Cells, self: Ref, visited: set<Ref>, seen: set<Ref>,
                    seen': set<Ref>, done: set<Ref>, done': set<Ref>, i: nat)
    requires Entries(before, mid, self, visited, seen, done, i) && i < |before[self].vals|
    requires Progress(mid, after, before[self].vals[i], seen, seen', done')
    ensures Progress(before, after, At(self), visited, seen', done + done')
    ensures Blocked(mid, seen' - seen) ==> Blocked(before, seen' - visited)
    ensures
      done' == seen' - seen && Settled(mid, done', seen') && !RefusesAt(before[self], i) &&
      (before[self].vals[i].At? ==> before[self].vals[i].ref in seen') ==>
      Entries(before, after, self, visited, seen', done + done', i + 1)
  {
    ProgressStep(before, mid, after, self, before[self].vals[i], visited, seen, seen', done, done');
  }

  /** A cell that refused no assignment blocks the traversal exactly if it is a view with elements. */
  lemma EntriesEnd(before: Cells, h: Cells, self: Ref, visited: set<Ref>, seen: set<Ref>, done: set<Ref>)
    requires WellFormed(before) && self in before && Entries(before, h, self, visited, seen, done, |before[self].vals|)
    ensures Blocks(before[self]) <==> before[self].kind.View? && before[self].vals != []
    ensures forall v :: v in before[self].vals && v.At? ==> v.ref in seen
  {
    var c := before[self];
    if c.vals != [] {
      assert !RefusesAt(c, 0);
    }
    forall i | 0 <= i < |c.keys|
      ensures c.keys[i] !in c.readOnly
    {
      assert !RefusesAt(c, i);
    }
  }

  class Heap {
    var cells: Cells

    constructor (cells: Cells)
      ensures this.cells == cells
    {
      this.cells := cells;
    }

    /**
     * The recursive traversal. It freezes exactly the cells it newly visits; it fails exactly when
     * it meets a cell that blocks it.
     */
    method Freeze(v: Val, visited: set<Ref>) returns (ok: bool, seen: set<Ref>, ghost done: set<Ref>)
      requires WellFormed(cells) && ValOk(cells, v) && visited <= cells.Keys
      modifies this
      ensures Progress(old(cells), cells, v, visited, seen, done)
      ensures ok ==> done == seen - visited && Settled(old(cells), done, seen) && (v.At? ==> v.ref in seen)
      ensures !ok ==> Blocked(old(cells), seen - visited)
      decreases cells.Keys - visited
    {
      ghost var before := cells;
      done := {};
      if !v.At? || v.ref in visited {
        return true, visited, {};
      }
      var self := v.ref;
      seen := visited + {self};
      ReachesSelf(Edges(before), self);
      assert CellOk(before, before[self]);
      var entries := cells[self].vals;
      for i := 0 to |entries|
        invariant Entries(before, cells, self, visited, seen, done, i)
      {
        ghost var mid, last := cells, seen;
        assert entries[i] in before[self].vals;
        var childOk;
        ghost var childDone;
        childOk, seen, childDone := Freeze(entries[i], seen);
        EntriesStep(before, mid, cells, self, visited, last, seen, done, childDone, i);
        done := done + childDone;
        if !childOk {
          return false, seen, done;
        }
        if cells[self].frozen || cells[self].keys[i] in cells[self].readOnly {
          assert Blocks(before[self]);
          return false, seen, done;
        }
      }
      EntriesEnd(before, cells, self, visited, seen, done);
      if cells[self].kind.View? && entries != [] {
        return false, seen, done;
      }
      FreezeSelf(before, cells, self, visited, seen, done);
      done := done + {self};
      cells := cells[self := cells[self].(frozen := true)];
      ok := true;
    }

    /** `deepFreeze(object)`. */
    method DeepFreeze(v: Val) returns (ok: bool)
      requires WellFormed(cells) && ValOk(cells, v)
      modifies this
      ensures ok <==> forall r :: r in old(cells) && ReachedFrom(old(cells), v, r) ==> !Blocks(old(cells)[r])
      ensures ok ==> cells.Keys == old(cells).Keys && forall r :: r in cells ==>
        cells[r] == if ReachedFrom(old(cells), v, r) then old(cells)[r].(frozen := true) else old(cells)[r]
      ensures forall r :: r in old(cells) ==> r in cells && cells[r].(frozen := true) == old(cells)[r].(frozen := true)
    {
      ghost var before := cells;
      var seen;
      ghost var done;
      ok, seen, done := Freeze(v, {});
      if ok {
        forall r | ReachedFrom(before, v, r)
          ensures r in seen
        {
          ClosedContainsReachable(Edges(before), seen, v.ref, r);
        }
      }
    }
  }
}
