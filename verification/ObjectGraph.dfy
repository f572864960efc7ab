/**
 `assertSerializable` (agent-packs/index.ts, lines 67-92): a depth-first walk over the
 objects of a pack manifest, which may share objects or contain cycles.
 */
module ObjectGraph {
  import opened Order

  /** The identity of an object or array. */
  type Id = nat

  datatype Value =
    | Undefined
    | Function
    | Symbol
    | BigInt
    | Number(finite: bool)
    | Null
    | Boolean(b: bool)
    | Text(text: string)
    | Object(id: Id)

  /** For every object its items or property values, in order. */
  type Heap = map<Id, seq<Value>>

  predicate InHeap(heap: Heap, v: Value) {
    v.Object? ==> v.id in heap
  }

  predicate Closed(heap: Heap) {
    forall id :: id in heap ==> forall i :: 0 <= i < |heap[id]| ==> InHeap(heap, heap[id][i])
  }

  /** A value the walk rejects on sight. */
  predicate Unserializable(v: Value) {
    v.Undefined? || v.Function? || v.Symbol? || v.BigInt? || (v.Number? && !v.finite)
  }

  /** What the walk computes, given the objects on the path to `v`. */
  predicate Accepts(heap: Heap, path: set<Id>, v: Value)
    requires Closed(heap) && InHeap(heap, v)
    decreases heap.Keys - path
  {
    && !Unserializable(v)
    && (v.Object? ==>
          v.id !in path &&
          forall i :: 0 <= i < |heap[v.id]| ==> Accepts(heap, path + {v.id}, heap[v.id][i]))
  }

  /** Of the values that are no objects exactly `null`, the booleans, texts and finite numbers are accepted. */
  lemma LeafAcceptedIff(heap: Heap, path: set<Id>, v: Value)
    requires Closed(heap) && !v.Object?
    ensures Accepts(heap, path, v) <==> v.Null? || v.Boolean? || v.Text? || (v.Number? && v.finite)
  {
  }

  class Walker {
    const heap: Heap
    var seen: set<Id>

    constructor (heap: Heap)
      ensures this.heap == heap && seen == {}
    {
      this.heap := heap;
      seen := {};
    }

    /** Returns normally (`ok`) or throws. On normal return `seen` is as it was. */
    method Visit(v: Value) returns (ok: bool)
      requires Closed(heap) && InHeap(heap, v)
      modifies this
      ensures ok <==> Accepts(heap, old(seen), v)
      ensures ok ==> seen == old(seen)
      decreases heap.Keys - seen
    {
      if Unserializable(v) { return false; }
      if !v.Object? { return true; }
      if v.id in seen { return false; }
      ghost var path := seen;
      seen := seen + {v.id};
      var children := heap[v.id];
      for k := 0 to |children|
        invariant seen == path + {v.id}
        invariant forall i :: 0 <= i < k ==> Accepts(heap, path + {v.id}, children[i])
      {
        var fine := Visit(children[k]);
        if !fine { return false; }
      }
      seen := seen - {v.id};
      assert seen == path;
      return true;
    }
  }

  // ----- walks: acceptance means no rejected value and no cycle in reach

  /** A sequence of objects, each a direct child of the one before. */
  predicate IsWalk(heap: Heap, p: seq<Id>) {
    && (forall i :: 0 <= i < |p| ==> p[i] in heap)
    && (forall i :: 1 <= i < |p| ==> Object(p[i]) in heap[p[i - 1]])
  }

  predicate WalkFrom(heap: Heap, v: Value, p: seq<Id>) {
    p != [] && v == Object(p[0]) && IsWalk(heap, p)
  }

  /** The last object of the walk has a child the walk rejects on sight. */
  predicate EndsBadly(heap: Heap, p: seq<Id>)
    requires p != [] && IsWalk(heap, p)
  {
    exists v :: v in heap[p[|p| - 1]] && Unserializable(v)
  }

  predicate Avoids(p: seq<Id>, path: set<Id>) {
    forall i :: 0 <= i < |p| ==> p[i] !in path
  }

  lemma {:induction false} AcceptedWalks(heap: Heap, path: set<Id>, v: Value, p: seq<Id>)
    requires Closed(heap) && InHeap(heap, v) && Accepts(heap, path, v) && WalkFrom(heap, v, p)
    ensures Distinct(p) && Avoids(p, path) && !EndsBadly(heap, p)
    decreases |p|
  {
    if |p| > 1 {
      AcceptedWalks(heap, path + {v.id}, Object(p[1]), p[1..]);
      assert forall i :: 1 <= i < |p| ==> p[i] == p[1..][i - 1];
    }
  }

  /** A walk that shows why a value is rejected. */
  lemma {:induction false} RejectedWalk(heap: Heap, path: set<Id>, v: Value) returns (p: seq<Id>)
    requires Closed(heap) && InHeap(heap, v) && v.Object? && !Accepts(heap, path, v)
    ensures WalkFrom(heap, v, p)
    ensures !Distinct(p) || !Avoids(p, path) || EndsBadly(heap, p)
    decreases heap.Keys - path
  {
    p := [v.id];
    if v.id !in path {
      var i :| 0 <= i < |heap[v.id]| && !Accepts(heap, path + {v.id}, heap[v.id][i]);
      var child := heap[v.id][i];
      if child.Object? {
        var q := RejectedWalk(heap, path + {v.id}, child);
        p := [v.id] + q;
        Extended(heap, path, v.id, q, p);
      }
    }
  }

  lemma ExtendedRepeat(n: Id, q: seq<Id>)
    requires !Distinct(q)
    ensures !Distinct([n] + q)
  {
    var i, j :| 0 <= i < j < |q| && q[i] == q[j];
    assert ([n] + q)[i + 1] == ([n] + q)[j + 1];
  }

  lemma ExtendedMeets(path: set<Id>, n: Id, q: seq<Id>)
    requires !Avoids(q, path + {n})
    ensures !Distinct([n] + q) || !Avoids([n] + q, path)
  {
    var i :| 0 <= i < |q| && q[i] in path + {n};
    assert ([n] + q)[i + 1] == q[i] && ([n] + q)[0] == n;
  }

  lemma Extended(heap: Heap, path: set<Id>, n: Id, q: seq<Id>, p: seq<Id>)
    requires q != [] && p == [n] + q && IsWalk(heap, p) && IsWalk(heap, q)
    requires !Distinct(q) || !Avoids(q, path + {n}) || EndsBadly(heap, q)
    ensures !Distinct(p) || !Avoids(p, path) || EndsBadly(heap, p)
  {
    if EndsBadly(heap, q) {
      assert p[|p| - 1] == q[|q| - 1];
    } else if !Distinct(q) {
      ExtendedRepeat(n, q);
    } else {
      ExtendedMeets(path, n, q);
    }
  }

  /** The walk accepts a value exactly when no rejected value and no cycle is reachable:
      shared objects are fine. */
  lemma AcceptsIffNoCycle(heap: Heap, v: Value)
    requires Closed(heap) && InHeap(heap, v)
    ensures Accepts(heap, {}, v)
       <==> !Unserializable(v) && forall p: seq<Id> :: WalkFrom(heap, v, p) ==> Distinct(p) && !EndsBadly(heap, p)
  {
    if Accepts(heap, {}, v) {
      forall p: seq<Id> | WalkFrom(heap, v, p) ensures Distinct(p) && !EndsBadly(heap, p) {
        AcceptedWalks(heap, {}, v, p);
      }
    } else if v.Object? {
      var p := RejectedWalk(heap, {}, v);
    }
  }

  // ----- trees: acceptance means the value can be written out

  /** A value with its sharing written out, as JSON text would have it. */
  datatype Tree = Leaf(value: Value) | Node(children: seq<Tree>)

  predicate Denotes(heap: Heap, v: Value, t: Tree)
    decreases t
  {
    match t
    case Leaf(w) => v == w && !v.Object? && !Unserializable(v)
    case Node(ts) =>
      v.Object? && v.id in heap && |ts| == |heap[v.id]| &&
      forall i :: 0 <= i < |ts| ==> Denotes(heap, heap[v.id][i], ts[i])
  }

  function Unfold(heap: Heap, path: set<Id>, v: Value): Tree
    requires Closed(heap) && InHeap(heap, v) && Accepts(heap, path, v)
    decreases heap.Keys - path
  {
    if v.Object? then
      Node(seq(|heap[v.id]|, i requires 0 <= i < |heap[v.id]| => Unfold(heap, path + {v.id}, heap[v.id][i])))
    else Leaf(v)
  }

  lemma {:induction false} UnfoldDenotes(heap: Heap, path: set<Id>, v: Value)
    requires Closed(heap) && InHeap(heap, v) && Accepts(heap, path, v)
    ensures Denotes(heap, v, Unfold(heap, path, v))
    decreases heap.Keys - path
  {
    if v.Object? {
      forall i | 0 <= i < |heap[v.id]|
        ensures Denotes(heap, heap[v.id][i], Unfold(heap, path + {v.id}, heap[v.id][i]))
      {
        UnfoldDenotes(heap, path + {v.id}, heap[v.id][i]);
      }
    }
  }

  lemma {:induction false} DenotesUnique(heap: Heap, v: Value, t: Tree, u: Tree)
    requires Denotes(heap, v, t) && Denotes(heap, v, u)
    ensures t == u
    decreases t
  {
    if t.Node? {
      forall i | 0 <= i < |t.children| ensures t.children[i] == u.children[i] {
        DenotesUnique(heap, heap[v.id][i], t.children[i], u.children[i]);
      }
    }
  }

  function Size(t: Tree): nat {
    match t
    case Leaf(_) => 1
    case Node(ts) => 1 + SizeAll(ts)
  }

  function SizeAll(ts: seq<Tree>): nat {
    if ts == [] then 0 else Size(ts[0]) + SizeAll(ts[1..])
  }

  lemma {:induction false} ChildSmaller(ts: seq<Tree>, i: nat)
    requires i < |ts|
    ensures Size(ts[i]) <= SizeAll(ts)
  {
    if i > 0 { ChildSmaller(ts[1..], i - 1); }
  }

  /** The objects on the path, with trees larger than `t`. */
  predicate Ancestors(heap: Heap, path: set<Id>, ancestors: map<Id, Tree>, t: Tree) {
    path == ancestors.Keys && forall id :: id in ancestors ==> Denotes(heap, Object(id), ancestors[id]) && Size(t) < Size(ancestors[id])
  }

  lemma {:induction false} DenotedAccepted(heap: Heap, path: set<Id>, ancestors: map<Id, Tree>, v: Value, t: Tree)
    requires Closed(heap) && InHeap(heap, v) && Denotes(heap, v, t) && Ancestors(heap, path, ancestors, t)
    ensures Accepts(heap, path, v)
    decreases t
  {
    if t.Node? {
      if v.id in ancestors { DenotesUnique(heap, v, t, ancestors[v.id]); }
      forall i | 0 <= i < |heap[v.id]| ensures Accepts(heap, path + {v.id}, heap[v.id][i]) {
        ChildSmaller(t.children, i);
        DenotedAccepted(heap, path + {v.id}, ancestors[v.id := t], heap[v.id][i], t.children[i]);
      }
    }
  }

  /** The walk accepts a value exactly when the value can be written out as a finite tree
      of serializable leaves. */
  lemma AcceptsIffTree(heap: Heap, v: Value)
    requires Closed(heap) && InHeap(heap, v)
    ensures Accepts(heap, {}, v) <==> exists t :: Denotes(heap, v, t)
  {
    if Accepts(heap, {}, v) {
      UnfoldDenotes(heap, {}, v);
      var t := Unfold(heap, {}, v);
      assert Denotes(heap, v, t);
    } else if exists t :: Denotes(heap, v, t) {
      var t :| Denotes(heap, v, t);
      DenotedAccepted(heap, {}, map[], v, t);
    }
  }
}
