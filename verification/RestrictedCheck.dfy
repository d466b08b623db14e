/** The recursive check in place: it terminates on every object graph, and on trees it is `RestrictedTree.Check`. */
module RestrictedCheck {
  import opened Outcomes
  import opened RestrictedAccess
  import Spec = RestrictedTree
  import opened RestrictedTree
  import opened RestrictedHeap
  import opened RestrictedSteps
  import J = JsHeap

  /** How the walk over an array ended. */
  datatype Walked = Failed | Settled | All(vals: seq<Val>) {
    function Results(): seq<Val> {
      if All? then vals else []
    }
  }

  class Heap {
    var cells: Cells
    var next: Ref
    var processed: set<Ref>
    const e: Env

    /** `validateRestricted` for a property list as it stands. */
    predicate Allowed(restricted: seq<Restriction>, props: seq<Prop>, trust: bool)
      reads this
    {
      Validate(e.cfg, restricted, HeapOwner(e.cfg, cells, props), trust, e.user)
    }

    /** May the first item of a typed array settle the whole array? */
    predicate Typed(v: Val, declared: Option<string>)
      reads this
    {
      v.At? && v.ref in cells && cells[v.ref].Obj? && ShortcutFor(e, cells[v.ref].proto, declared)
    }

    method NewArray(vals: seq<Val>, ghost start: set<Ref>) returns (v: Val)
      requires Sound(cells, next, start, processed) && (forall v :: v in vals ==> Points(cells.Keys, v))
      modifies this`cells, this`next
      ensures v == At(old(next)) && old(next) !in old(cells) && cells == old(cells)[old(next) := Arr(vals)]
      ensures Sound(cells, next, start, processed)
    {
      AddCell(cells, next, start, processed, Arr(vals));
      cells := cells[next := Arr(vals)];
      v := At(next);
      next := next + 1;
    }

    method Check(v: Val, trust: bool, declared: Option<string>, ghost start: set<Ref>, ghost t: Option<Tree>)
      returns (r: Result<Val>)
      requires Pre(cells, next, start, processed, v, t)
      modifies this`cells, this`next, this`processed
      ensures Post(e, old(cells), cells, next, start, old(processed), processed, r)
      ensures Spreads(old(cells), start, old(processed), v, processed)
      ensures r.Ok? ==> PurgedAll(e, old(cells), cells, processed - old(processed)) && SameText(v, r.value)
      ensures t.Some? ==>
        Refines(old(cells), cells, old(processed), processed, old(Foot(cells, v, t.value)), r,
                Spec.Check(e, t.value, trust, declared))
      decreases start - processed, 1
    {
      if v.Scalar? || (cells[v.ref].Obj? && e.cfg.noteCheckedObjects && cells[v.ref].marked) {
        return Ok(v);
      }
      if v.ref in processed {
        return Ok(v);
      }
      processed := processed + {v.ref};
      assert processed - {v.ref} == old(processed);
      if cells[v.ref].Arr? {
        r := CheckArray(v.ref, trust, declared, start, if t.Some? then Some(t.value.items) else None);
      } else {
        r := CheckObject(v.ref, trust, declared, start, if t.Some? then Some(t.value.fields) else None);
      }
    }

    /** Checks item after item, up to an exception or a first item that settles a typed array. */
    method CheckItems(self: Ref, items: seq<Val>, typed: bool, trust: bool, declared: Option<string>,
                      ghost start: set<Ref>, ghost ts: Option<seq<Tree>>, ghost foot: set<Ref>)
      returns (w: Walked, ghost done: seq<Tree>)
      requires Array(e, cells, cells, next, start, self, items, processed, processed, []) && items != []
      requires ts.Some? ==>
        Walk(e, cells, cells, items, ts.value, 0, [], [], trust, declared, processed, processed, foot) &&
        self !in foot && typed == UsesShortcut(e, ts.value[0], declared)
      modifies this`cells, this`next, this`processed
      ensures Array(e, old(cells), cells, next, start, self, items, old(processed), processed, w.Results())
      ensures w.Settled? ==> typed
      ensures !w.Failed? ==> PurgedAll(e, old(cells), cells, processed - old(processed))
      ensures ts.Some? ==>
        match w
        case Failed =>
          Refines(old(cells), cells, old(processed) - {self}, processed, {self} + foot, Err,
                  Spec.Check(e, List(ts.value), trust, declared))
        case Settled =>
          var first := Spec.Check(e, ts.value[0], trust, declared);
          first.Ok? && IsNothing(first.value) && processed - old(processed) <= foot
        case All(vals) =>
          Walk(e, old(cells), cells, items, ts.value, |items|, vals, done, trust, declared, old(processed), processed,
               foot)
      decreases start - processed, 2
    {
      var vals: seq<Val>, i := [], 0;
      done := [];
      while i < |items|
        invariant i <= |items|
        invariant Array(e, old(cells), cells, next, start, self, items, old(processed), processed, vals)
        invariant PurgedAll(e, old(cells), cells, processed - old(processed))
        invariant ts.Some? ==>
          Walk(e, old(cells), cells, items, ts.value, i, vals, done, trust, declared, old(processed), processed, foot)
        decreases |items| - i
      {
        ghost var h, n, p := cells, next, processed;
        if ts.Some? {
          WalkSees(e, old(cells), cells, items, ts.value, i, vals, done, trust, declared, old(processed), p, foot);
        }
        var item := Check(items[i], trust, declared, start, if ts.Some? then Some(ts.value[i]) else None);
        ArrayStep(e, old(cells), h, cells, n, next, start, self, items, old(processed), p, processed, vals, i, item);
        if ts.Some? {
          WalkStep(e, old(cells), h, cells, self, items, ts.value, i, vals, done, trust, declared, old(processed), p,
                   processed, foot, item);
        }
        if item.Err? {
          return Failed, done;
        }
        PurgedGrows(e, old(cells), h, cells, old(processed), p, processed);
        if i == 0 && typed && IsNothingVal(item.value) {
          return Settled, done;
        }
        if ts.Some? {
          done := done + [Spec.Check(e, ts.value[i], trust, declared).value];
        }
        vals, i := vals + [item.value], i + 1;
      }
      w := All(vals);
    }

    method CheckArray(self: Ref, trust: bool, declared: Option<string>, ghost start: set<Ref>,
                      ghost ts: Option<seq<Tree>>)
      returns (r: Result<Val>)
      requires Sound(cells, next, start, processed) && self in processed && cells[self].Arr? &&
        CellPoints(start, cells[self])
      requires ts.Some? ==>
        RepItems(cells, cells[self].items, ts.value) && UnsharedItems(cells, cells[self].items, ts.value) &&
        FootItems(cells, cells[self].items, ts.value) !! processed
      modifies this`cells, this`next, this`processed
      ensures Post(e, old(cells), cells, next, start, old(processed), processed, r)
      ensures Spreads(old(cells), start, old(processed) - {self}, At(self), processed)
      ensures r.Ok? ==> PurgedAll(e, old(cells), cells, processed - old(processed)) && r.value.At?
      ensures ts.Some? ==>
        Refines(old(cells), cells, old(processed) - {self}, processed,
                {self} + old(FootItems(cells, cells[self].items, ts.value)), r,
                Spec.Check(e, List(ts.value), trust, declared))
      decreases start - processed, 3
    {
      var items := cells[self].items;
      ArrayStart(e, cells, next, start, self, items, processed);
      if items == [] {
        return Ok(At(self));
      }
      var typed := Typed(items[0], declared);
      ghost var foot: set<Ref> := {};
      if ts.Some? {
        foot := FootItems(cells, items, ts.value);
        WalkStart(e, cells, items, ts.value, trust, declared, processed);
      }
      var walked, done := CheckItems(self, items, typed, trust, declared, start, ts, foot);
      if walked.Failed? {
        return Err;
      }
      var result: seq<Val>;
      if walked.Settled? {
        if ts.Some? {
          ArraySettled(e, old(cells), cells, next, start, self, ts.value, trust, declared, old(processed), processed,
                       foot);
        }
        if e.cfg.throwError {
          return Ok(At(self));
        }
        result := if e.cfg.removeUndefinedFromResultArray then [] else seq(|items|, _ => Scalar(Undefined));
      } else {
        if ts.Some? {
          WalkEnd(e, old(cells), cells, next, start, self, items, ts.value, walked.vals, done, trust, declared,
                  old(processed), processed, foot);
        }
        result := if !e.cfg.throwError && e.cfg.removeUndefinedFromResultArray then DefinedVals(walked.vals)
          else walked.vals;
      }
      var all := NewArray(result, start);
      r := Ok(all);
    }

    /** Checks the value of property `i`, which the user may have, and assigns the result. */
    method CheckProperty(self: Ref, cls: Option<string>, props: seq<Prop>, i: nat, done: seq<Prop>, trust: bool,
                         ghost start: set<Ref>, ghost before: Cells, ghost fs: Option<seq<Field>>,
                         ghost doneF: seq<Field>, ghost trust0: bool, ghost wasTrust: bool, ghost p0: set<Ref>,
                         ghost foot: set<Ref>)
      returns (r: Result<Val>)
      requires Loop(e, before, cells, next, start, self, p0, processed, i, done) && props == before[self].props &&
        i < |props|
      requires start <= before.Keys && PurgedAll(e, before, cells, processed - p0)
      requires fs.Some? ==>
        Visit(e, before, cells, cls, props, fs.value, i, done, doneF, trust0, wasTrust, p0, processed, foot) &&
        self !in foot &&
        var owner := CurrentOwner(e.cfg, doneF + fs.value[i..]);
        !Skipped(e.cfg, fs.value[i].value) && Passes(e, cls, fs.value[i].key, owner, wasTrust) &&
        trust == NextTrust(owner, wasTrust, e.user)
      modifies this`cells, this`next, this`processed
      ensures r.Err? ==> GoingFrom(e, before, cells, next, start, self, p0, processed)
      ensures r.Ok? ==> Loop(e, before, cells, next, start, self, p0, processed, i + 1,
                             done + [Prop(props[i].key, r.value)])
      ensures r.Ok? ==> PurgedAll(e, before, cells, processed - p0) && SameText(props[i].val, r.value)
      ensures fs.Some? ==>
        match r
        case Err => CheckFields(e, cls, [], fs.value, trust0).Err? && processed - (p0 - {self}) <= {self} + foot
        case Ok(v) =>
          var spec := Spec.Check(e, fs.value[i].value, trust, NestedType(e.schema, cls, props[i].key));
          spec.Ok? &&
          Visit(e, before, cells, cls, props, fs.value, i + 1, done + [Prop(props[i].key, v)],
                doneF + [Field(props[i].key, spec.value)],
                trust0, trust, p0, processed, foot)
      decreases start - processed, 2
    {
      if fs.Some? {
        VisitSees(e, before, cells, cls, props, fs.value, i, done, doneF, trust0, wasTrust, p0, processed, foot);
      }
      r := Check(props[i].val, trust, NestedType(e.schema, cls, props[i].key), start,
                 if fs.Some? then Some(fs.value[i].value) else None);
      LoopCall(e, before, old(cells), cells, old(next), next, start, self, p0, old(processed), processed, i, done, r);
      ghost var c := before[self].(props := done + [Prop(props[i].key, if r.Ok? then r.value else props[i].val)]
                                   + props[i + 1..]);
      if fs.Some? {
        VisitPass(e, before, old(cells), cells, self, c, cls, props, fs.value, i, done, doneF, trust0, wasTrust, p0,
                  old(processed), processed,
                  foot, r);
      }
      if r.Ok? {
        PurgedInLoop(e, before, old(cells), cells, old(next), start, self, p0, old(processed), processed, i, done);
        LoopWrite(e, before, cells, next, start, self, p0, processed, i, done, done + [Prop(props[i].key, r.value)]);
        PurgedWrite(e, before, cells, self, c, p0, processed);
        cells := cells[self := cells[self].(props := done + [Prop(props[i].key, r.value)] + props[i + 1..])];
      }
    }

    /** Deletes property `i`, which the user may not have. */
    method DropProperty(self: Ref, cls: Option<string>, props: seq<Prop>, i: nat, done: seq<Prop>,
                        ghost start: set<Ref>, ghost before: Cells, ghost fs: Option<seq<Field>>,
                        ghost doneF: seq<Field>, ghost trust0: bool, ghost trust: bool, ghost p0: set<Ref>,
                        ghost foot: set<Ref>)
      requires Loop(e, before, cells, next, start, self, p0, processed, i, done) && props == before[self].props &&
        i < |props| && !e.cfg.throwError && PurgedAll(e, before, cells, processed - p0)
      requires fs.Some? ==>
        Visit(e, before, cells, cls, props, fs.value, i, done, doneF, trust0, trust, p0, processed, foot) &&
        self !in foot &&
        !Skipped(e.cfg, fs.value[i].value) &&
        !Passes(e, cls, fs.value[i].key, CurrentOwner(e.cfg, doneF + fs.value[i..]), trust)
      modifies this`cells
      ensures Loop(e, before, cells, next, start, self, p0, processed, i + 1, done)
      ensures PurgedAll(e, before, cells, processed - p0)
      ensures fs.Some? ==> Visit(e, before, cells, cls, props, fs.value, i + 1, done, doneF, trust0, trust, p0,
                                 processed, foot)
    {
      LoopWrite(e, before, cells, next, start, self, p0, processed, i, done, done);
      cells := cells[self := cells[self].(props := done + props[i + 1..])];
      if fs.Some? {
        VisitDrop(e, before, old(cells), cells, self, cls, props, fs.value, i, done, doneF, trust0, trust, p0,
                  processed, foot);
      }
    }

    /** One turn of the key loop. `ok` is false when it ended in an exception. */
    method CheckKey(self: Ref, cls: Option<string>, props: seq<Prop>, i: nat, done: seq<Prop>, trust: bool,
                    ghost start: set<Ref>, ghost before: Cells, ghost fs: Option<seq<Field>>, ghost doneF: seq<Field>,
                    ghost trust0: bool, ghost p0: set<Ref>, ghost foot: set<Ref>)
      returns (ok: bool, done': seq<Prop>, trust': bool, ghost doneF': seq<Field>)
      requires Loop(e, before, cells, next, start, self, p0, processed, i, done) && props == before[self].props &&
        i < |props|
      requires start <= before.Keys && PurgedAll(e, before, cells, processed - p0) && Fine(e, cls, props, done)
      requires fs.Some? ==>
        Visit(e, before, cells, cls, props, fs.value, i, done, doneF, trust0, trust, p0, processed, foot) &&
        self !in foot
      modifies this`cells, this`next, this`processed
      ensures !ok ==>
        GoingFrom(e, before, cells, next, start, self, p0, processed) &&
        (fs.Some? ==> CheckFields(e, cls, [], fs.value, trust0).Err? && processed - (p0 - {self}) <= {self} + foot)
      ensures ok ==> PurgedAll(e, before, cells, processed - p0) && Fine(e, cls, props, done')
      ensures ok ==>
        Loop(e, before, cells, next, start, self, p0, processed, i + 1, done') &&
        (fs.Some? ==> Visit(e, before, cells, cls, props, fs.value, i + 1, done', doneF', trust0, trust', p0, processed,
                            foot))
      decreases start - processed, 3
    {
      ok, done', trust', doneF' := true, done, trust, doneF;
      if fs.Some? {
        VisitSees(e, before, cells, cls, props, fs.value, i, done, doneF, trust0, trust, p0, processed, foot);
      }
      if SkippedVal(e.cfg, props[i].val) {
        if fs.Some? {
          VisitSkip(e, before, cells, self, cls, props, fs.value, i, done, doneF, trust0, trust, p0, processed, foot);
          doneF' := doneF + [fs.value[i]];
        }
        assert done + props[i..] == (done + [props[i]]) + props[i + 1..];
        done' := done + [props[i]];
        FineSnoc(e, cls, props, done, props[i]);
      } else if Allowed(Merged(e.cfg, e.schema, cls, props[i].key), done + props[i..], trust) {
        trust' := NextTrust(HeapOwner(e.cfg, cells, done + props[i..]), trust, e.user);
        AllowedIsAttainable(e, cells, cls, props, done, i, props[i].key, trust);
        var item := CheckProperty(self, cls, props, i, done, trust', start, before, fs, doneF, trust0, trust, p0, foot);
        ok := item.Ok?;
        if ok {
          done' := done + [Prop(props[i].key, item.value)];
          FineSnoc(e, cls, props, done, Prop(props[i].key, item.value));
          if fs.Some? {
            doneF' := doneF + [Field(props[i].key,
                                     Spec.Check(e, fs.value[i].value, trust',
                                                NestedType(e.schema, cls, props[i].key)).value)];
          }
        }
      } else if e.cfg.throwError {
        ok := false;
        if fs.Some? {
          VisitThrow(e, before, cells, cls, props, fs.value, i, done, doneF, trust0, trust, self, p0, processed, foot);
        }
      } else {
        DropProperty(self, cls, props, i, done, start, before, fs, doneF, trust0, trust, p0, foot);
      }
    }

    /** The key loop. `ok` is false when it ended in an exception. */
    method CheckKeys(self: Ref, cls: Option<string>, props: seq<Prop>, trust0: bool, ghost start: set<Ref>,
                     ghost before: Cells, ghost fs: Option<seq<Field>>, ghost p0: set<Ref>, ghost foot: set<Ref>)
      returns (ok: bool, done: seq<Prop>, trust: bool, ghost doneF: seq<Field>)
      requires Loop(e, before, cells, next, start, self, p0, processed, 0, []) && props == before[self].props &&
        p0 == processed
      requires start <= before.Keys && PurgedAll(e, before, cells, processed - p0) && Fine(e, cls, props, [])
      requires fs.Some? ==>
        Visit(e, before, cells, cls, props, fs.value, 0, [], [], trust0, trust0, p0, processed, foot) &&
        self !in foot
      modifies this`cells, this`next, this`processed
      ensures !ok ==>
        GoingFrom(e, before, cells, next, start, self, p0, processed) &&
        (fs.Some? ==> CheckFields(e, cls, [], fs.value, trust0).Err? && processed - (p0 - {self}) <= {self} + foot)
      ensures ok ==>
        PurgedAll(e, before, cells, processed - p0) && Fine(e, cls, props, done) &&
        Loop(e, before, cells, next, start, self, p0, processed, |props|, done) &&
        (fs.Some? ==> Visit(e, before, cells, cls, props, fs.value, |props|, done, doneF, trust0, trust, p0, processed,
                            foot))
      decreases start - processed, 4
    {
      ok, done, trust, doneF := true, [], trust0, [];
      var i := 0;
      while i < |props|
        invariant Loop(e, before, cells, next, start, self, p0, processed, i, done)
        invariant PurgedAll(e, before, cells, processed - p0) && Fine(e, cls, props, done)
        invariant fs.Some? ==> Visit(e, before, cells, cls, props, fs.value, i, done, doneF, trust0, trust, p0,
                                     processed, foot)
        decreases |props| - i
      {
        ok, done, trust, doneF := CheckKey(self, cls, props, i, done, trust, start, before, fs, doneF, trust0, p0,
                                           foot);
        if !ok {
          return;
        }
        i := i + 1;
      }
    }

    method CheckProperties(self: Ref, cls: Option<string>, trust0: bool, ghost start: set<Ref>,
                           ghost fs: Option<seq<Field>>, ghost foot: set<Ref>)
      returns (ok: bool)
      requires Sound(cells, next, start, processed) && self in processed && cells[self].Obj? &&
        CellPoints(start, cells[self])
      requires fs.Some? ==>
        Visit(e, cells, cells, cls, cells[self].props, fs.value, 0, [], [], trust0, trust0, processed, processed,
              foot) &&
        self !in foot
      modifies this`cells, this`next, this`processed
      ensures GoingFrom(e, old(cells), cells, next, start, self, old(processed), processed)
      ensures ok ==>
        PurgedAll(e, old(cells), cells, processed - old(processed)) && self in cells && cells[self].Obj? &&
        cells[self].proto == old(cells)[self].proto && Fine(e, cls, old(cells)[self].props, cells[self].props)
      ensures fs.Some? ==>
        processed - (old(processed) - {self}) <= {self} + foot &&
        match CheckFields(e, cls, [], fs.value, trust0)
        case Err => !ok
        case Ok(kept) =>
          var t := Object(old(cells[self].marked), old(cells[self].proto), kept);
          ok && Rep(cells, At(self), t) && Foot(cells, At(self), t) <= {self} + foot + (cells.Keys - old(cells).Keys)
      decreases start - processed, 5
    {
      var props := cells[self].props;
      ghost var before, p0 := cells, processed;
      LoopStart(e, cells, next, start, self, processed);
      var done, trust;
      ghost var doneF;
      ok, done, trust, doneF := CheckKeys(self, cls, props, trust0, start, before, fs, p0, foot);
      if !ok {
        return;
      }
      LoopEnd(e, before, cells, next, start, self, p0, processed, done);
      if fs.Some? {
        VisitEnd(e, before, cells, self, cls, props, fs.value, done, doneF, trust0, trust, p0, processed, foot);
      }
    }

    method CheckObject(self: Ref, trust0: bool, declared: Option<string>, ghost start: set<Ref>,
                       ghost fs: Option<seq<Field>>)
      returns (r: Result<Val>)
      requires Sound(cells, next, start, processed) && self in processed && cells[self].Obj? &&
        CellPoints(start, cells[self])
      requires !(e.cfg.noteCheckedObjects && cells[self].marked)
      requires fs.Some? ==>
        RepFields(cells, cells[self].props, fs.value) && UnsharedFields(cells, cells[self].props, fs.value) &&
        FootFields(cells, cells[self].props, fs.value) !! processed
      modifies this`cells, this`next, this`processed
      ensures Post(e, old(cells), cells, next, start, old(processed) - {self}, processed, r)
      ensures Spreads(old(cells), start, old(processed) - {self}, At(self), processed)
      ensures r.Ok? ==>
        PurgedAll(e, old(cells), cells, processed - (old(processed) - {self})) &&
        (r.value == At(self) || r.value == Scalar(Null))
      ensures fs.Some? ==>
        Refines(old(cells), cells, old(processed) - {self}, processed,
                {self} + old(FootFields(cells, cells[self].props, fs.value)), r,
                Spec.Check(e, Object(old(cells[self].marked), old(cells[self].proto), fs.value), trust0, declared))
      decreases start - processed, 6
    {
      var cls := MetadataOwner(cells[self].proto, declared);
      SpreadsSelf(cells, start, processed - {self}, self);
      ghost var foot: set<Ref> := {};
      if fs.Some? {
        foot := FootFields(cells, cells[self].props, fs.value);
        VisitStart(e, cells, cls, cells[self].props, fs.value, trust0, processed);
        OwnerAgrees(e.cfg, cells, cells[self].props, fs.value);
        ObjectSpec(e, cells[self].marked, cells[self].proto, fs.value, trust0, declared);
      }
      if e.cfg.checkObjectItself && !Allowed(ClassRestrictions(e.schema, cls), cells[self].props, trust0) {
        RefusedIsRefused(e, cls, HeapOwner(e.cfg, cells, cells[self].props), trust0);
        return if e.cfg.throwError then Err else Ok(Scalar(Null));
      }
      var ok := CheckProperties(self, cls, trust0, start, fs, foot);
      if ok {
        PurgedSelf(e, old(cells), cells, self, declared, old(processed), processed);
      }
      r := if ok then Ok(At(self)) else Err;
    }

    /**
     * A check from the outside, on any object graph. Only objects reachable from the data change,
     * and when it returns, no instance of a class among them keeps a property that is never the user's.
     * With `throwError` no property appears or goes, whether it throws or not; data without sharing
     * becomes what the specification says.
     */
    method CheckRestricted(data: Val, creatorOfParent: bool, declared: Option<string>, ghost t: Option<Tree>)
      returns (r: Result<Val>)
      requires Sound(cells, next, cells.Keys, {}) && Points(cells.Keys, data)
      requires t.Some? ==> Rep(cells, data, t.value) && Unshared(cells, data, t.value)
      modifies this`cells, this`next, this`processed
      ensures Sound(cells, next, old(cells).Keys, processed)
      ensures e.cfg.throwError ==> KeysKept(old(cells), cells)
      ensures r.Ok? ==> PurgedAll(e, old(cells), cells, processed)
      ensures forall o :: o in processed ==> data.At? && J.Reaches(Edges(old(cells)), data.ref, o)
      ensures forall o :: o in old(cells) && o !in processed ==> o in cells && cells[o] == old(cells)[o]
      ensures t.Some? ==>
        processed <= old(Foot(cells, data, t.value)) &&
        match Spec.Check(e, t.value, creatorOfParent, declared)
        case Err => r.Err?
        case Ok(kept) => r.Ok? && Rep(cells, r.value, kept)
    {
      processed := {};
      assert Open(cells, cells.Keys, {}) == Edges(cells);
      r := Check(data, creatorOfParent, declared, cells.Keys, t);
      assert processed - {} == processed;
    }
  }
}
