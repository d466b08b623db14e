/**
 * JavaScript objects as a heap of cells, so that sharing and cycles are explicit, and what it means
 * to reach one object from another.
 */
module JsHeap {

  type Ref = nat

  datatype Val = Undefined | Null | Function | Flag(b: bool) | Number(n: int) | Text(s: string) | At(ref: Ref)

  /**
   * `Plain`: created by an object literal. `ObjectId`: an instance of the driver's class, with its
   * hex form. `NamedObjectId`: an instance of another class of that name. `View`: an array buffer
   * view, such as a `Buffer`, whose elements are its properties. `Exotic`: any other class.
   */
  datatype Kind = Plain | Array | ObjectId(hex: string) | NamedObjectId | View | Exotic

  /** Own enumerable properties in key order, and the keys of those that cannot be assigned. */
  datatype Cell = Cell(kind: Kind, keys: seq<string>, vals: seq<Val>, readOnly: set<string>, frozen: bool)

  type Cells = map<Ref, Cell>

  /** Every reference leads to a cell, and each cell has one value per key. */
  ghost predicate WellFormed(h: Cells) {
    forall r :: r in h ==> CellOk(h, h[r])
  }

  ghost predicate CellOk(h: Cells, c: Cell) {
    |c.keys| == |c.vals| && forall v :: v in c.vals ==> ValOk(h, v)
  }

  predicate ValOk(h: Cells, v: Val) {
    v.At? ==> v.ref in h
  }

  // ---- reachability along any edge relation ----

  /** A graph: the successors of every node. */
  type Graph = map<Ref, set<Ref>>

  ghost predicate IsPath(g: Graph, path: seq<Ref>) {
    |path| > 0 && forall i :: 0 <= i < |path| - 1 ==> path[i] in g && path[i + 1] in g[path[i]]
  }

  ghost predicate Reaches(g: Graph, from: Ref, to: Ref) {
    exists path :: IsPath(g, path) && path[0] == from && path[|path| - 1] == to
  }

  lemma ReachesSelf(g: Graph, r: Ref)
    ensures Reaches(g, r, r)
  {
    assert IsPath(g, [r]);
  }

  lemma ReachesStep(g: Graph, from: Ref, via: Ref, to: Ref)
    requires from in g && via in g[from] && Reaches(g, via, to)
    ensures Reaches(g, from, to)
  {
    var path :| IsPath(g, path) && path[0] == via && path[|path| - 1] == to;
    var longer := [from] + path;
    assert IsPath(g, longer) && longer[|longer| - 1] == to;
  }

  lemma ReachesEnd(g: Graph, from: Ref, via: Ref, to: Ref)
    requires Reaches(g, from, via) && via in g && to in g[via]
    ensures Reaches(g, from, to)
  {
    var path :| IsPath(g, path) && path[0] == from && path[|path| - 1] == via;
    var longer := path + [to];
    assert IsPath(g, longer) && longer[0] == from && longer[|longer| - 1] == to;
  }

  /** More edges reach more. */
  lemma ReachesMore(g: Graph, g': Graph, from: Ref, to: Ref)
    requires Reaches(g, from, to) && forall r :: r in g ==> r in g' && g[r] <= g'[r]
    ensures Reaches(g', from, to)
  {
    var path :| IsPath(g, path) && path[0] == from && path[|path| - 1] == to;
    assert IsPath(g', path);
  }

  /** What is reachable stays inside every set that is closed under the edges. */
  lemma {:induction false} ClosedContainsPath(g: Graph, s: set<Ref>, path: seq<Ref>)
    requires IsPath(g, path) && path[0] in s
    requires forall r :: r in s && r in g ==> g[r] <= s
    ensures path[|path| - 1] in s
  {
    if |path| > 1 {
      assert IsPath(g, path[1..]);
      ClosedContainsPath(g, s, path[1..]);
    }
  }

  lemma ClosedContainsReachable(g: Graph, s: set<Ref>, from: Ref, to: Ref)
    requires from in s && Reaches(g, from, to)
    requires forall r :: r in s && r in g ==> g[r] <= s
    ensures to in s
  {
    var path :| IsPath(g, path) && path[0] == from && path[|path| - 1] == to;
    ClosedContainsPath(g, s, path);
  }

  // ---- the edges of a heap ----

  /** The references among some values. */
  function Refs(vals: seq<Val>): set<Ref> {
    set v | v in vals && v.At? :: v.ref
  }

  /** Every property is an edge. */
  function Edges(h: Cells): Graph {
    map r | r in h :: Refs(h[r].vals)
  }
}
