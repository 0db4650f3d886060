/**
 Disjoint sets over the indices of an array of parents. The ghost depth of an
 index, which falls towards the root, is what makes the searches end.
 */
module UnionFind {
  ghost predicate StepsDown(p: seq<nat>, depth: seq<nat>, i: nat)
    requires i < |p| == |depth|
  {
    p[i] < |p| && (p[i] != i ==> depth[p[i]] < depth[i])
  }

  ghost predicate IsForest(p: seq<nat>, depth: seq<nat>) {
    |depth| == |p| && forall i :: 0 <= i < |p| ==> StepsDown(p, depth, i)
  }

  ghost function Root(p: seq<nat>, depth: seq<nat>, i: nat): (r: nat)
    requires IsForest(p, depth) && i < |p|
    ensures r < |p| && p[r] == r && (r != i ==> depth[r] < depth[i])
    decreases depth[i]
  {
    assert StepsDown(p, depth, i);
    if p[i] == i then i else Root(p, depth, p[i])
  }

  lemma {:induction false} CompressKeepsRoots(p: seq<nat>, depth: seq<nat>, at: nat, i: nat)
    requires IsForest(p, depth) && at < |p| && i < |p|
    ensures var p' := p[at := Root(p, depth, at)];
            IsForest(p', depth) && Root(p', depth, i) == Root(p, depth, i)
    decreases depth[i]
  {
    var r := Root(p, depth, at);
    var p' := p[at := r];
    forall j | 0 <= j < |p|
      ensures StepsDown(p', depth, j)
    {
      assert StepsDown(p, depth, j);
    }
    assert StepsDown(p, depth, i);
    if p[i] != i {
      if i == at {
        assert p'[r] == r;
      } else {
        CompressKeepsRoots(p, depth, at, p[i]);
      }
    }
  }

  method Find(parent: array<nat>, index: nat, ghost depth: seq<nat>) returns (root: nat)
    requires index < parent.Length && IsForest(parent[..], depth)
    modifies parent
    ensures IsForest(parent[..], depth)
    ensures forall i :: 0 <= i < parent.Length ==> Root(parent[..], depth, i) == old(Root(parent[..], depth, i))
    ensures root == old(Root(parent[..], depth, index))
    decreases depth[index]
  {
    assert StepsDown(parent[..], depth, index);
    if parent[index] != index {
      var r: nat := Find(parent, parent[index], depth);
      forall i | 0 <= i < parent.Length
        ensures IsForest(parent[..][index := r], depth)
        ensures Root(parent[..][index := r], depth, i) == Root(parent[..], depth, i)
      {
        CompressKeepsRoots(parent[..], depth, index, i);
      }
      ghost var before := parent[..];
      parent[index] := r;
      assert parent[..] == before[index := r];
    }
    root := parent[index];
  }

  /** Depths after hanging root b below root a: b's whole tree sinks below a. */
  ghost function JoinedDepth(p: seq<nat>, depth: seq<nat>, a: nat, b: nat): seq<nat>
    requires IsForest(p, depth) && a < |p| && b < |p|
  {
    seq(|p|, i requires 0 <= i < |p| => if Root(p, depth, i) == b then depth[i] + depth[a] + 1 else depth[i])
  }

  lemma JoinIsForest(p: seq<nat>, depth: seq<nat>, a: nat, b: nat)
    requires IsForest(p, depth) && a < |p| && b < |p| && p[a] == a && p[b] == b && a != b
    ensures IsForest(p[b := a], JoinedDepth(p, depth, a, b))
  {
    var p', depth' := p[b := a], JoinedDepth(p, depth, a, b);
    forall i | 0 <= i < |p|
      ensures StepsDown(p', depth', i)
    {
      assert StepsDown(p, depth, i);
      if i != b && p[i] != i {
        assert Root(p, depth, i) == Root(p, depth, p[i]);
      }
    }
  }

  lemma {:induction false} JoinMergesRoots(p: seq<nat>, depth: seq<nat>, a: nat, b: nat, i: nat)
    requires IsForest(p, depth) && a < |p| && b < |p| && p[a] == a && p[b] == b && a != b && i < |p|
    requires IsForest(p[b := a], JoinedDepth(p, depth, a, b))
    ensures Root(p[b := a], JoinedDepth(p, depth, a, b), i) == if Root(p, depth, i) == b then a else Root(p, depth, i)
    decreases depth[i]
  {
    assert StepsDown(p, depth, i);
    if p[i] != i {
      JoinMergesRoots(p, depth, a, b, p[i]);
    } else if i == b {
      assert p[b := a][a] == a;
    }
  }

  method Union(parent: array<nat>, a: nat, b: nat, ghost depth: seq<nat>) returns (ghost depth': seq<nat>)
    requires a < parent.Length && b < parent.Length && IsForest(parent[..], depth)
    modifies parent
    ensures IsForest(parent[..], depth')
    ensures forall i :: 0 <= i < parent.Length ==>
              Root(parent[..], depth', i) ==
              if old(Root(parent[..], depth, i)) == old(Root(parent[..], depth, b)) then old(Root(parent[..], depth, a))
              else old(Root(parent[..], depth, i))
  {
    var ra: nat := Find(parent, a, depth);
    var rb: nat := Find(parent, b, depth);
    depth' := depth;
    if ra != rb {
      ghost var p := parent[..];
      JoinIsForest(p, depth, ra, rb);
      depth' := JoinedDepth(p, depth, ra, rb);
      forall i | 0 <= i < |p|
        ensures Root(p[rb := ra], depth', i) == if Root(p, depth, i) == rb then ra else Root(p, depth, i)
      {
        JoinMergesRoots(p, depth, ra, rb, i);
      }
      parent[rb] := ra;
      assert parent[..] == p[rb := ra];
    }
  }
}
