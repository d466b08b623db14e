/**
 * `processDeep` with the function that `prepareOutput` passes: ObjectIds become strings, secret
 * fields become undefined, arrays are replaced by new arrays, other objects are changed in place.
 */
module ProcessDeep {
  import opened JsHeap

  datatype Options = Options(secrets: seq<string>, removeSecrets: bool, objectIdsToStrings: bool)

  /** Objects whose properties the traversal processes. */
  predicate Opened(c: Cell) {
    !c.kind.ObjectId? && !c.kind.NamedObjectId?
  }

  predicate IsSecret(o: Options, key: string) {
    o.removeSecrets && key in o.secrets
  }

  /** The secret fields of one object cleared. */
  function Cleared(c: Cell, o: Options): Cell
    requires |c.keys| == |c.vals|
  {
    if c.kind.Array? then c
    else
      c.(vals := seq(|c.vals|, i requires 0 <= i < |c.vals| =>
           if IsSecret(o, c.keys[i]) then Undefined else c.vals[i]))
  }

  ghost predicate Clean(c: Cell, o: Options) {
    !c.kind.Array? && !(c.kind.ObjectId? && o.objectIdsToStrings) ==>
      forall i :: 0 <= i < |c.keys| && i < |c.vals| && o.removeSecrets && c.keys[i] in o.secrets ==>
        c.vals[i] == Undefined
  }

  // ---- what one value becomes ----

  /**
   * Unchanged, or an ObjectId's string, or a copy of an array; `copies` says of which.
   * An ObjectId or array that is met again is returned as it is.
   */
  ghost predicate Becomes(start: Cells, o: Options, copies: map<Ref, Ref>, v: Val, w: Val) {
    w == v ||
    (v.At? && v.ref in start && start[v.ref].kind.ObjectId? && o.objectIdsToStrings &&
     w == Text(start[v.ref].kind.hex)) ||
    (v.At? && w.At? && w.ref in copies && copies[w.ref] == v.ref)
  }

  /** The result for one value: what was seen before stays, an ObjectId becomes its string, an array its copy. */
  ghost predicate Answers(start: Cells, o: Options, seen: set<Ref>, copies: map<Ref, Ref>, v: Val, w: Val) {
    if !v.At? || v.ref in seen || v.ref !in start then w == v
    else if start[v.ref].kind.Array? then w.At? && w.ref in copies && copies[w.ref] == v.ref
    else w == if start[v.ref].kind.ObjectId? && o.objectIdsToStrings then Text(start[v.ref].kind.hex) else v
  }

  /** Leads only to objects that the pass has seen or made. */
  ghost predicate Known(seen: set<Ref>, copies: map<Ref, Ref>, w: Val) {
    w.At? ==> w.ref in seen || w.ref in copies
  }

  /** An object the pass is finished with: shape kept, values processed, secrets gone. */
  ghost predicate Finished(start: Cells, o: Options, c: Cell, seen: set<Ref>, copies: map<Ref, Ref>, r: Ref)
    requires r in start
  {
    c.kind == start[r].kind && c.keys == start[r].keys && |c.vals| == |start[r].vals| == |c.keys| &&
    c.frozen == start[r].frozen && c.readOnly == start[r].readOnly &&
    Clean(c, o) &&
    (!c.kind.ObjectId? && !c.kind.NamedObjectId? ==>
      forall i :: 0 <= i < |c.vals| ==> Known(seen, copies, c.vals[i])) &&
    (forall i :: 0 <= i < |c.vals| ==>
      (c.vals[i] == Undefined && o.removeSecrets && c.keys[i] in o.secrets) ||
      Becomes(start, o, copies, start[r].vals[i], c.vals[i]))
  }

  /** A new array, item by item what the original array's items become. */
  ghost predicate Copied(start: Cells, o: Options, c: Cell, seen: set<Ref>, copies: map<Ref, Ref>, r: Ref)
    requires r in start
  {
    start[r].kind.Array? && c.kind.Array? && c.keys == start[r].keys && |c.vals| == |start[r].vals| == |c.keys| &&
    forall i :: 0 <= i < |c.vals| ==>
      Known(seen, copies, c.vals[i]) && Becomes(start, o, copies, start[r].vals[i], c.vals[i])
  }

  /**
   * The state during a pass that began with `start`: `gray` are the objects being processed,
   * unseen objects are untouched, all other seen objects are finished.
   */
  ghost predicate During(start: Cells, o: Options, h: Cells, next: Ref, seen: set<Ref>, gray: set<Ref>,
                         copies: map<Ref, Ref>) {
    WellFormed(start) && gray <= seen <= start.Keys &&
    start.Keys !! copies.Keys && h.Keys == start.Keys + copies.Keys && (forall r :: r in h ==> r < next) &&
    (forall r :: r in start && r !in seen ==> h[r] == start[r]) &&
    (forall r :: r in seen - gray ==> Finished(start, o, h[r], seen, copies, r)) &&
    (forall f :: f in copies ==> copies[f] in start && Copied(start, o, h[f], seen, copies, copies[f]))
  }

  /** More objects seen and more copies made: what is finished stays finished. */
  ghost predicate Grows(seen: set<Ref>, seen': set<Ref>, copies: map<Ref, Ref>, copies': map<Ref, Ref>) {
    seen <= seen' && copies.Keys <= copies'.Keys && forall f :: f in copies ==> copies'[f] == copies[f]
  }

  lemma BecomesGrows(start: Cells, o: Options, seen: set<Ref>, seen': set<Ref>, copies: map<Ref, Ref>,
                     copies': map<Ref, Ref>, v: Val, w: Val)
    requires Grows(seen, seen', copies, copies')
    ensures Becomes(start, o, copies, v, w) ==> Becomes(start, o, copies', v, w)
    ensures Known(seen, copies, w) ==> Known(seen', copies', w)
  {
  }

  /** An unseen object is marked as being processed. */
  lemma Mark(start: Cells, o: Options, h: Cells, next: Ref, seen: set<Ref>, gray: set<Ref>, copies: map<Ref, Ref>,
             self: Ref)
    requires During(start, o, h, next, seen, gray, copies) && self in start && self !in seen
    ensures During(start, o, h, next, seen + {self}, gray + {self}, copies)
  {
    forall r | r in seen - gray
      ensures Finished(start, o, h[r], seen + {self}, copies, r)
    {
      FinishedGrows(start, o, h[r], seen, seen + {self}, copies, copies, r);
    }
    forall f | f in copies
      ensures Copied(start, o, h[f], seen + {self}, copies, copies[f])
    {
      CopiedGrows(start, o, h[f], seen, seen + {self}, copies, copies, copies[f]);
    }
  }

  lemma FinishedGrows(start: Cells, o: Options, c: Cell, seen: set<Ref>, seen': set<Ref>, copies: map<Ref, Ref>,
                      copies': map<Ref, Ref>, r: Ref)
    requires r in start && Grows(seen, seen', copies, copies') && Finished(start, o, c, seen, copies, r)
    ensures Finished(start, o, c, seen', copies', r)
  {
    forall i | 0 <= i < |c.vals|
      ensures Becomes(start, o, copies, start[r].vals[i], c.vals[i]) ==>
        Becomes(start, o, copies', start[r].vals[i], c.vals[i])
      ensures Known(seen, copies, c.vals[i]) ==> Known(seen', copies', c.vals[i])
    {
      BecomesGrows(start, o, seen, seen', copies, copies', start[r].vals[i], c.vals[i]);
    }
  }

  lemma CopiedGrows(start: Cells, o: Options, c: Cell, seen: set<Ref>, seen': set<Ref>, copies: map<Ref, Ref>,
                    copies': map<Ref, Ref>, r: Ref)
    requires r in start && Grows(seen, seen', copies, copies') && Copied(start, o, c, seen, copies, r)
    ensures Copied(start, o, c, seen', copies', r)
  {
    forall i | 0 <= i < |c.vals|
      ensures Known(seen', copies', c.vals[i]) && Becomes(start, o, copies', start[r].vals[i], c.vals[i])
    {
      BecomesGrows(start, o, seen, seen', copies, copies', start[r].vals[i], c.vals[i]);
    }
  }

  /** An object being processed is finished and put back. */
  lemma Finish(start: Cells, o: Options, h: Cells, next: Ref, seen: set<Ref>, gray: set<Ref>, copies: map<Ref, Ref>,
               self: Ref, c: Cell)
    requires During(start, o, h, next, seen, gray + {self}, copies) && self in seen && self !in gray
    requires Finished(start, o, c, seen, copies, self)
    ensures During(start, o, h[self := c], next, seen, gray, copies)
  {
  }

  /** A new array is allocated. */
  lemma Allocate(start: Cells, o: Options, h: Cells, next: Ref, seen: set<Ref>, gray: set<Ref>, copies: map<Ref, Ref>,
                 origin: Ref, c: Cell)
    requires During(start, o, h, next, seen, gray, copies) && origin in start
    requires Copied(start, o, c, seen, copies, origin)
    ensures During(start, o, h[next := c], next + 1, seen, gray, copies[next := origin])
    ensures Grows(seen, seen, copies, copies[next := origin])
  {
    var copies' := copies[next := origin];
    assert next !in copies;
    forall r | r in seen - gray
      ensures Finished(start, o, h[r], seen, copies', r)
    {
      FinishedGrows(start, o, h[r], seen, seen, copies, copies', r);
    }
    forall f | f in copies
      ensures Copied(start, o, h[f], seen, copies', copies[f])
    {
      CopiedGrows(start, o, h[f], seen, seen, copies, copies', copies[f]);
    }
    CopiedGrows(start, o, c, seen, seen, copies, copies', origin);
  }

  /** The first `n` values of an object are processed, the rest are as they were. */
  ghost predicate Partly(start: Cells, o: Options, c: Cell, seen: set<Ref>, copies: map<Ref, Ref>, r: Ref, n: nat)
    requires r in start
  {
    c.kind == start[r].kind && c.keys == start[r].keys && |c.vals| == |start[r].vals| == |c.keys| &&
    c.frozen == start[r].frozen && c.readOnly == start[r].readOnly &&
    n <= |c.vals| && c.vals[n..] == start[r].vals[n..] &&
    forall i :: 0 <= i < n ==> Known(seen, copies, c.vals[i]) && Becomes(start, o, copies, start[r].vals[i], c.vals[i])
  }

  lemma PartlyStep(start: Cells, o: Options, c: Cell, seen: set<Ref>, seen': set<Ref>, copies: map<Ref, Ref>,
                   copies': map<Ref, Ref>, r: Ref, n: nat, w: Val)
    requires r in start && Grows(seen, seen', copies, copies') && Partly(start, o, c, seen, copies, r, n) &&
      n < |c.vals|
    requires Known(seen', copies', w) && Becomes(start, o, copies', start[r].vals[n], w)
    ensures Partly(start, o, c.(vals := c.vals[n := w]), seen', copies', r, n + 1)
  {
    forall i | 0 <= i < n
      ensures Known(seen', copies', c.vals[i]) && Becomes(start, o, copies', start[r].vals[i], c.vals[i])
    {
      BecomesGrows(start, o, seen, seen', copies, copies', start[r].vals[i], c.vals[i]);
    }
    assert c.vals[n := w][n + 1..] == c.vals[n..][1..];
  }

  /** What is being processed may be changed. */
  lemma ChangeGray(start: Cells, o: Options, h: Cells, next: Ref, seen: set<Ref>, gray: set<Ref>, copies: map<Ref, Ref>,
                   self: Ref, c: Cell)
    requires During(start, o, h, next, seen, gray, copies) && self in gray
    ensures During(start, o, h[self := c], next, seen, gray, copies)
  {
  }

  /** The first items of a new array, and what they were. */
  ghost predicate Items(start: Cells, o: Options, items: seq<Val>, seen: set<Ref>, copies: map<Ref, Ref>, r: Ref)
    requires r in start
  {
    |items| <= |start[r].vals| &&
    forall i :: 0 <= i < |items| ==>
      Known(seen, copies, start[r].vals[i]) && Known(seen, copies, items[i]) &&
      Becomes(start, o, copies, start[r].vals[i], items[i])
  }

  lemma ItemsStep(start: Cells, o: Options, items: seq<Val>, seen: set<Ref>, seen': set<Ref>, copies: map<Ref, Ref>,
                  copies': map<Ref, Ref>, r: Ref, w: Val)
    requires r in start && Grows(seen, seen', copies, copies') && Items(start, o, items, seen, copies, r) &&
      |items| < |start[r].vals|
    requires var v := start[r].vals[|items|];
      (v.At? ==> v.ref in seen') && Known(seen', copies', w) && Becomes(start, o, copies', v, w)
    ensures Items(start, o, items + [w], seen', copies', r)
  {
    forall i | 0 <= i < |items|
      ensures Known(seen', copies', start[r].vals[i]) && Known(seen', copies', items[i])
      ensures Becomes(start, o, copies', start[r].vals[i], items[i])
    {
      BecomesGrows(start, o, seen, seen', copies, copies', start[r].vals[i], items[i]);
      BecomesGrows(start, o, seen, seen', copies, copies', start[r].vals[i], start[r].vals[i]);
    }
  }

  /** The array itself is finished as it was, and its new array is allocated. */
  lemma FinishArray(start: Cells, o: Options, h: Cells, next: Ref, seen: set<Ref>, gray: set<Ref>,
                    copies: map<Ref, Ref>, self: Ref, items: seq<Val>)
    requires During(start, o, h, next, seen, gray + {self}, copies) && self in seen && self !in gray
    requires h[self] == start[self] && start[self].kind.Array?
    requires Items(start, o, items, seen, copies, self) && |items| == |start[self].vals|
    ensures During(start, o, h[next := Cell(Array, start[self].keys, items, {}, false)], next + 1, seen, gray,
                   copies[next := self])
    ensures Grows(seen, seen, copies, copies[next := self])
  {
    assert CellOk(start, start[self]);
    Finish(start, o, h, next, seen, gray, copies, self, h[self]);
    assert h[self := h[self]] == h;
    Allocate(start, o, h, next, seen, gray, copies, self, Cell(Array, start[self].keys, items, {}, false));
  }

  lemma PartlyDone(start: Cells, o: Options, c: Cell, seen: set<Ref>, copies: map<Ref, Ref>, r: Ref)
    requires r in start && |start[r].keys| == |start[r].vals| && !c.kind.Array?
    requires Opened(start[r]) ==> Partly(start, o, c, seen, copies, r, |start[r].vals|)
    requires !Opened(start[r]) ==> c == start[r]
    ensures Finished(start, o, Cleared(c, o), seen, copies, r)
    ensures c.kind.ObjectId? && o.objectIdsToStrings ==> Finished(start, o, c, seen, copies, r)
  {
  }

  /** Whatever the passed function does to a processed object, the object is then finished. */
  lemma FinishObject(start: Cells, o: Options, h: Cells, next: Ref, seen: set<Ref>, gray: set<Ref>,
                     copies: map<Ref, Ref>, self: Ref)
    requires During(start, o, h, next, seen, gray + {self}, copies) && self in seen && self !in gray &&
      !start[self].kind.Array?
    requires if Opened(start[self]) then Partly(start, o, h[self], seen, copies, self, |start[self].vals|)
      else h[self] == start[self]
    ensures |h[self].keys| == |h[self].vals| && h[self].kind == start[self].kind
    ensures During(start, o, h[self := Cleared(h[self], o)], next, seen, gray, copies)
    ensures start[self].kind.ObjectId? && o.objectIdsToStrings ==> During(start, o, h, next, seen, gray, copies)
  {
    assert CellOk(start, start[self]);
    PartlyDone(start, o, h[self], seen, copies, self);
    Finish(start, o, h, next, seen, gray, copies, self, Cleared(h[self], o));
    if start[self].kind.ObjectId? && o.objectIdsToStrings {
      Finish(start, o, h, next, seen, gray, copies, self, h[self]);
      assert h[self := h[self]] == h;
    }
  }

  // ---- what a pass visits ----

  /** From every array and object, whatever its class, to all its values; only classes named `ObjectId` are left out. */
  ghost function OpenEdges(h: Cells): Graph {
    map r | r in h :: if h[r].kind.ObjectId? || h[r].kind.NamedObjectId? then {}
                      else set i | 0 <= i < |h[r].vals| && h[r].vals[i].At? :: h[r].vals[i].ref
  }

  /** Reachable through objects whose properties are processed. */
  ghost predicate ReachedFrom(h: Cells, v: Val, r: Ref) {
    v.At? && Reaches(OpenEdges(h), v.ref, r)
  }

  /** From `seen` to `seen'` only what `v` reaches is added, and what is added leads to seen objects only. */
  ghost predicate Visits(start: Cells, v: Val, seen: set<Ref>, seen': set<Ref>) {
    seen <= seen' && forall r :: r in seen' - seen ==>
      ReachedFrom(start, v, r) && r in start && (Opened(start[r]) ==> Refs(start[r].vals) <= seen')
  }

  /** One value of an object more. */
  lemma VisitsStep(start: Cells, self: Ref, i: nat, seen: set<Ref>, last: set<Ref>, seen': set<Ref>)
    requires self in start && Opened(start[self]) && i < |start[self].vals|
    requires Visits(start, At(self), seen, last) && Visits(start, start[self].vals[i], last, seen')
    ensures Visits(start, At(self), seen, seen')
  {
    var v := start[self].vals[i];
    forall r | r in seen' - last ensures ReachedFrom(start, At(self), r) {
      assert v.ref in OpenEdges(start)[self];
      ReachesStep(OpenEdges(start), self, v.ref, r);
    }
  }

  lemma ItemsSeen(start: Cells, o: Options, items: seq<Val>, seen: set<Ref>, copies: map<Ref, Ref>, r: Ref)
    requires WellFormed(start) && r in start && start.Keys !! copies.Keys
    requires Items(start, o, items, seen, copies, r) && |items| == |start[r].vals|
    ensures Refs(start[r].vals) <= seen
  {
    assert CellOk(start, start[r]);
    forall v | v in start[r].vals && v.At? ensures v.ref in seen {
      var i :| 0 <= i < |start[r].vals| && start[r].vals[i] == v;
      assert Known(seen, copies, start[r].vals[i]) && ValOk(start, v);
    }
  }

  lemma ValueOk(start: Cells, self: Ref, i: nat)
    requires WellFormed(start) && self in start && i < |start[self].vals|
    ensures ValOk(start, start[self].vals[i])
  {
    assert CellOk(start, start[self]);
  }

  /** All values of the object: it counts as visited itself. */
  lemma VisitsAll(start: Cells, self: Ref, seen: set<Ref>, seen': set<Ref>)
    requires self in start && Visits(start, At(self), seen + {self}, seen')
    requires Opened(start[self]) ==> Refs(start[self].vals) <= seen'
    ensures Visits(start, At(self), seen, seen')
  {
    ReachesSelf(OpenEdges(start), self);
  }

  lemma PassBegins(h: Cells, o: Options, next: Ref)
    requires WellFormed(h) && forall r :: r in h ==> r < next
    ensures During(h, o, h, next, {}, {}, map[])
  {
  }

  /** A whole pass has seen exactly what is reachable. */
  lemma SeenExactly(start: Cells, v: Val, seen: set<Ref>)
    requires Visits(start, v, {}, seen) && seen <= start.Keys && (v.At? ==> v.ref in seen)
    ensures forall r :: r in seen <==> r in start && ReachedFrom(start, v, r)
  {
    forall r | ReachedFrom(start, v, r) ensures r in seen {
      ClosedContainsReachable(OpenEdges(start), seen, v.ref, r);
    }
  }

  class Heap {
    var cells: Cells
    var next: Ref
    const o: Options

    constructor (cells: Cells, next: Ref, o: Options)
      ensures this.cells == cells && this.next == next && this.o == o
    {
      this.cells := cells;
      this.next := next;
      this.o := o;
    }

    /** The function passed to the traversal, on an object that is not an array. */
    method Func(self: Ref) returns (w: Val)
      requires self in cells && |cells[self].keys| == |cells[self].vals| && !cells[self].kind.Array?
      modifies this`cells
      ensures if old(cells)[self].kind.ObjectId? && o.objectIdsToStrings
        then w == Text(old(cells)[self].kind.hex) && cells == old(cells)
        else w == At(self) && cells == old(cells)[self := Cleared(old(cells)[self], o)]
    {
      if o.objectIdsToStrings && cells[self].kind.ObjectId? {
        return Text(cells[self].kind.hex);
      }
      ghost var c := cells[self];
      if o.removeSecrets {
        assert Cleared(c, o.(secrets := [])).vals == c.vals;
        assert cells == cells[self := c];
        for k := 0 to |o.secrets|
          invariant cells == old(cells)[self := Cleared(c, o.(secrets := o.secrets[..k]))]
        {
          var d := cells[self];
          var field := o.secrets[k];
          assert o.secrets[..k + 1] == o.secrets[..k] + [field];
          cells := cells[self := d.(vals := seq(|d.vals|, i requires 0 <= i < |d.vals| =>
            if d.keys[i] == field then Undefined else d.vals[i]))];
          assert cells[self].vals == Cleared(c, o.(secrets := o.secrets[..k + 1])).vals;
        }
        assert o.secrets[..|o.secrets|] == o.secrets;
      } else {
        assert Cleared(c, o).vals == c.vals;
        assert cells == cells[self := c];
      }
      w := At(self);
    }

    /** `processDeepInternal`. */
    method Process(v: Val, seen: set<Ref>, ghost start: Cells, ghost gray: set<Ref>, ghost copies: map<Ref, Ref>)
      returns (w: Val, seen': set<Ref>, ghost copies': map<Ref, Ref>)
      requires During(start, o, cells, next, seen, gray, copies) && ValOk(start, v)
      modifies this
      ensures During(start, o, cells, next, seen', gray, copies') && Grows(seen, seen', copies, copies')
      ensures forall r :: r in gray ==> cells[r] == old(cells)[r]
      ensures Becomes(start, o, copies', v, w) && Known(seen', copies', w) && (v.At? ==> v.ref in seen')
      ensures Answers(start, o, seen, copies', v, w) && Visits(start, v, seen, seen')
      decreases start.Keys - seen, 1
    {
      if !v.At? || v.ref in seen {
        return v, seen, copies;
      }
      var self := v.ref;
      Mark(start, o, cells, next, seen, gray, copies, self);
      assert CellOk(start, start[self]);
      if cells[self].kind.Array? {
        w, seen', copies' := ProcessItems(self, seen + {self}, start, gray, copies);
      } else {
        w, seen', copies' := ProcessObject(self, seen + {self}, start, gray, copies);
      }
      VisitsAll(start, self, seen, seen');
    }

    /** The properties of an opened object, and then the object itself. */
    method ProcessObject(self: Ref, seen: set<Ref>, ghost start: Cells, ghost gray: set<Ref>,
                         ghost copies: map<Ref, Ref>)
      returns (w: Val, seen': set<Ref>, ghost copies': map<Ref, Ref>)
      requires During(start, o, cells, next, seen, gray + {self}, copies) && self in start && self in seen
      requires self !in gray && cells[self] == start[self] && !start[self].kind.Array? && CellOk(start, start[self])
      modifies this
      ensures During(start, o, cells, next, seen', gray, copies') && Grows(seen, seen', copies, copies')
      ensures forall r :: r in gray ==> cells[r] == old(cells)[r]
      ensures w == if start[self].kind.ObjectId? && o.objectIdsToStrings then Text(start[self].kind.hex) else At(self)
      ensures Visits(start, At(self), seen, seen') && (Opened(start[self]) ==> Refs(start[self].vals) <= seen')
      decreases start.Keys - seen, 3
    {
      seen', copies' := seen, copies;
      if Opened(cells[self]) {
        seen', copies' := ProcessProperties(self, seen, start, gray, copies);
      }
      FinishObject(start, o, cells, next, seen', gray, copies', self);
      w := Func(self);
    }

    /** The items of an array, one after the other. */
    method ProcessEach(self: Ref, seen: set<Ref>, ghost start: Cells, ghost gray: set<Ref>, ghost copies: map<Ref, Ref>)
      returns (items: seq<Val>, seen': set<Ref>, ghost copies': map<Ref, Ref>)
      requires During(start, o, cells, next, seen, gray, copies) && self in gray
      requires cells[self] == start[self] && start[self].kind.Array?
      modifies this
      ensures During(start, o, cells, next, seen', gray, copies') && Grows(seen, seen', copies, copies')
      ensures forall r :: r in gray ==> cells[r] == old(cells)[r]
      ensures Items(start, o, items, seen', copies', self) && |items| == |start[self].vals|
      ensures Visits(start, At(self), seen, seen')
      decreases start.Keys - seen, 2
    {
      var entries := cells[self].vals;
      items, seen', copies' := [], seen, copies;
      for i := 0 to |entries|
        invariant During(start, o, cells, next, seen', gray, copies') && Grows(seen, seen', copies, copies')
        invariant forall r :: r in gray ==> cells[r] == old(cells)[r]
        invariant |items| == i && Items(start, o, items, seen', copies', self) && Visits(start, At(self), seen, seen')
      {
        ValueOk(start, self, i);
        ghost var last, lastCopies := seen', copies';
        var item;
        item, seen', copies' := Process(entries[i], seen', start, gray, copies');
        ItemsStep(start, o, items, last, seen', lastCopies, copies', self, item);
        VisitsStep(start, self, i, seen, last, seen');
        items := items + [item];
      }
    }

    /** An array: a new array of the processed items takes its place. */
    method ProcessItems(self: Ref, seen: set<Ref>, ghost start: Cells, ghost gray: set<Ref>,
                        ghost copies: map<Ref, Ref>)
      returns (w: Val, seen': set<Ref>, ghost copies': map<Ref, Ref>)
      requires During(start, o, cells, next, seen, gray + {self}, copies) && self in seen && self !in gray
      requires cells[self] == start[self] && start[self].kind.Array?
      modifies this
      ensures During(start, o, cells, next, seen', gray, copies') && Grows(seen, seen', copies, copies')
      ensures forall r :: r in gray ==> cells[r] == old(cells)[r]
      ensures w.At? && w.ref in copies' && copies'[w.ref] == self
      ensures Visits(start, At(self), seen, seen') && Refs(start[self].vals) <= seen'
      decreases start.Keys - seen, 3
    {
      var items;
      items, seen', copies' := ProcessEach(self, seen, start, gray + {self}, copies);
      FinishArray(start, o, cells, next, seen', gray, copies', self, items);
      ItemsSeen(start, o, items, seen', copies', self);
      copies' := copies'[next := self];
      cells := cells[next := Cell(Array, cells[self].keys, items, {}, false)];
      w := At(next);
      next := next + 1;
    }

    /** The properties of an object, assigned in place. */
    method ProcessProperties(self: Ref, seen: set<Ref>, ghost start: Cells, ghost gray: set<Ref>,
                             ghost copies: map<Ref, Ref>)
      returns (seen': set<Ref>, ghost copies': map<Ref, Ref>)
      requires During(start, o, cells, next, seen, gray + {self}, copies) && self in seen && self !in gray
      requires cells[self] == start[self] && Opened(start[self])
      modifies this
      ensures During(start, o, cells, next, seen', gray + {self}, copies') && Grows(seen, seen', copies, copies')
      ensures forall r :: r in gray ==> cells[r] == old(cells)[r]
      ensures Partly(start, o, cells[self], seen', copies', self, |start[self].vals|)
      ensures Visits(start, At(self), seen, seen') && Refs(start[self].vals) <= seen'
      decreases start.Keys - seen, 2
    {
      var entries := cells[self].vals;
      assert CellOk(start, start[self]);
      seen', copies' := seen, copies;
      for i := 0 to |entries|
        invariant During(start, o, cells, next, seen', gray + {self}, copies') && Grows(seen, seen', copies, copies')
        invariant forall r :: r in gray ==> cells[r] == old(cells)[r]
        invariant self in cells && Partly(start, o, cells[self], seen', copies', self, i)
        invariant Visits(start, At(self), seen, seen') &&
          forall j :: 0 <= j < i && entries[j].At? ==> entries[j].ref in seen'
      {
        ValueOk(start, self, i);
        ghost var last, lastCopies := seen', copies';
        var value;
        value, seen', copies' := Process(entries[i], seen', start, gray + {self}, copies');
        PartlyStep(start, o, cells[self], last, seen', lastCopies, copies', self, i, value);
        VisitsStep(start, self, i, seen, last, seen');
        var c := cells[self].(vals := cells[self].vals[i := value]);
        ChangeGray(start, o, cells, next, seen', gray + {self}, copies', self, c);
        cells := cells[self := c];
      }
    }

    /** `processDeep(output, ...)`: the pass over exactly the objects reachable from the value. */
    method ProcessDeep(v: Val) returns (w: Val, ghost seen: set<Ref>, ghost copies: map<Ref, Ref>)
      requires WellFormed(cells) && ValOk(cells, v) && forall r :: r in cells ==> r < next
      modifies this
      ensures During(old(cells), o, cells, next, seen, {}, copies)
      ensures Answers(old(cells), o, {}, copies, v, w) && Known(seen, copies, w)
      ensures forall r :: r in seen <==> r in old(cells) && ReachedFrom(old(cells), v, r)
    {
      ghost var before := cells;
      var visited;
      PassBegins(cells, o, next);
      w, visited, copies := Process(v, {}, cells, {}, map[]);
      seen := visited;
      SeenExactly(before, v, seen);
    }
  }

  // ---- the theorem ----

  /**
   * After a pass, no object reachable from the result has a defined secret field, through replaced
   * arrays and through arrays met a second time alike.
   */
  lemma NoSecretReachable(start: Cells, o: Options, h: Cells, next: Ref, seen: set<Ref>, copies: map<Ref, Ref>, w: Val,
                          r: Ref)
    requires During(start, o, h, next, seen, {}, copies) && Known(seen, copies, w)
    requires w.At? && Reaches(OpenEdges(h), w.ref, r)
    ensures r in h && |h[r].keys| == |h[r].vals|
    ensures !h[r].kind.Array? ==>
      forall i :: 0 <= i < |h[r].keys| && o.removeSecrets && h[r].keys[i] in o.secrets ==>
        h[r].vals[i] == Undefined || (h[r].kind.ObjectId? && o.objectIdsToStrings)
  {
    var known := seen + copies.Keys;
    forall x | x in known && x in OpenEdges(h)
      ensures OpenEdges(h)[x] <= known
    {
      if Opened(h[x]) {
        forall y | y in Refs(h[x].vals)
          ensures y in known
        {
          var i :| 0 <= i < |h[x].vals| && h[x].vals[i] == At(y);
          assert Known(seen, copies, h[x].vals[i]);
        }
      }
    }
    ClosedContainsReachable(OpenEdges(h), known, w.ref, r);
  }
}
