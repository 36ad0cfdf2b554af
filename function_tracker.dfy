/** LiveEditFunctionTracker (liveedit.cc): lists the function literals of a script in
    pre-order, each with the index of the entry of the function that encloses it. */
module FunctionTracking {
  import opened Wrappers

  /** A function literal and the function literals directly nested in it, in source
      order; `shared` stands for the SharedFunctionInfo the script holds for it. */
  datatype FunctionLiteral = FunctionLiteral(
    name: seq<char>, startPosition: int, endPosition: int, parameterCount: int,
    literalId: int, shared: int, inner: seq<FunctionLiteral>)

  /** The record FunctionInfoWrapper keeps for one function. */
  datatype FunctionInfo = FunctionInfo(
    name: seq<char>, startPosition: int, endPosition: int, parameterCount: int,
    parentIndex: int, literalId: int, shared: Option<int>)

  /** SetInitialProperties: the record FunctionStarted creates. */
  function Started(f: FunctionLiteral, parentIndex: int): (r: FunctionInfo)
    ensures r.parentIndex == parentIndex && r.literalId == f.literalId && r.shared.None?
  {
    FunctionInfo(f.name, f.startPosition, f.endPosition, f.parameterCount, parentIndex, f.literalId, None)
  }

  /** The record once FunctionDone has attached the SharedFunctionInfo. */
  function Done(f: FunctionLiteral, parentIndex: int): (r: FunctionInfo)
    ensures r.parentIndex == parentIndex && r.literalId == f.literalId && r.shared == Some(f.shared)
  {
    Started(f, parentIndex).(shared := Some(f.shared))
  }

  /** The number of function literals in `f`, itself included. */
  function Size(f: FunctionLiteral): (n: nat)
    ensures n >= 1
    decreases f, |f.inner| + 1
  {
    1 + SizeUpTo(f, |f.inner|)
  }

  /** The number of function literals in the first `k` literals nested in `f`. */
  function SizeUpTo(f: FunctionLiteral, k: nat): nat
    requires k <= |f.inner|
    decreases f, k
  {
    if k == 0 then 0 else SizeUpTo(f, k - 1) + Size(f.inner[k - 1])
  }

  /** The entries the tracker adds for `f` at index `base`, whose enclosing function has
      entry `parentIndex`: `f` itself, then the entries of its nested literals in
      order, each with `base` as parent. */
  ghost function Flat(f: FunctionLiteral, parentIndex: int, base: int): seq<FunctionInfo>
    decreases f, |f.inner| + 1
  {
    [Done(f, parentIndex)] + FlatUpTo(f, |f.inner|, base)
  }

  /** The entries of the first `k` literals nested in `f`, whose entry is `base`. */
  ghost function FlatUpTo(f: FunctionLiteral, k: nat, base: int): seq<FunctionInfo>
    requires k <= |f.inner|
    decreases f, k
  {
    if k == 0 then [] else FlatUpTo(f, k - 1, base) + Flat(f.inner[k - 1], base, base + 1 + SizeUpTo(f, k - 1))
  }

  /** There is one entry per function literal. */
  lemma {:induction false} FlatSize(f: FunctionLiteral, parentIndex: int, base: int)
    ensures |Flat(f, parentIndex, base)| == Size(f)
    decreases f, |f.inner| + 1
  {
    FlatUpToSize(f, |f.inner|, base);
  }

  lemma {:induction false} FlatUpToSize(f: FunctionLiteral, k: nat, base: int)
    requires k <= |f.inner|
    ensures |FlatUpTo(f, k, base)| == SizeUpTo(f, k)
    decreases f, k
  {
    if k > 0 {
      FlatUpToSize(f, k - 1, base);
      FlatSize(f.inner[k - 1], base, base + 1 + SizeUpTo(f, k - 1));
    }
  }

  /** The parent-index discipline: the first entry has the given parent, and every other
      entry's parent is an earlier entry of the same list; every entry has its
      SharedFunctionInfo. */
  ghost predicate ParentsPrecede(entries: seq<FunctionInfo>, parentIndex: int, base: int) {
    && |entries| >= 1
    && entries[0].parentIndex == parentIndex
    && (forall k :: 1 <= k < |entries| ==> base <= entries[k].parentIndex < base + k)
    && (forall k :: 0 <= k < |entries| ==> entries[k].shared.Some?)
  }

  lemma {:induction false} FlatParentsPrecede(f: FunctionLiteral, parentIndex: int, base: int)
    ensures ParentsPrecede(Flat(f, parentIndex, base), parentIndex, base)
    decreases f, |f.inner| + 1
  {
    FlatUpToParents(f, |f.inner|, base);
    var e := Flat(f, parentIndex, base);
    var c := FlatUpTo(f, |f.inner|, base);
    forall k | 1 <= k < |e| ensures base <= e[k].parentIndex < base + k {
      assert e[k] == c[k - 1];
    }
    forall k | 0 <= k < |e| ensures e[k].shared.Some? {
      if k > 0 {
        assert e[k] == c[k - 1];
      }
    }
  }

  /** The entries of nested literals have parents from `base` to just before themselves,
      `base + 1` being the index of the first of them. */
  lemma {:induction false} FlatUpToParents(f: FunctionLiteral, k: nat, base: int)
    requires k <= |f.inner|
    ensures forall m :: 0 <= m < |FlatUpTo(f, k, base)| ==>
      base <= FlatUpTo(f, k, base)[m].parentIndex < base + 1 + m && FlatUpTo(f, k, base)[m].shared.Some?
    decreases f, k
  {
    if k > 0 {
      FlatUpToParents(f, k - 1, base);
      FlatUpToSize(f, k - 1, base);
      var child := f.inner[k - 1];
      var childBase := base + 1 + SizeUpTo(f, k - 1);
      FlatParentsPrecede(child, base, childBase);
      var prefix := FlatUpTo(f, k - 1, base);
      var last := Flat(child, base, childBase);
      var all := FlatUpTo(f, k, base);
      forall m | 0 <= m < |all|
        ensures base <= all[m].parentIndex < base + 1 + m && all[m].shared.Some?
      {
        if m < |prefix| {
          assert all[m] == prefix[m];
        } else {
          assert all[m] == last[m - |prefix|];
        }
      }
    }
  }

  /** The tracker: the list it builds and the index of the function being visited. */
  class LiveEditFunctionTracker {
    var result: seq<FunctionInfo>
    var currentParentIndex: int

    constructor ()
      ensures result == [] && currentParentIndex == -1
    {
      result := [];
      currentParentIndex := -1;
    }

    /** FunctionStarted (pre-order): appends the function's record with the current
        parent, and makes it the current parent. */
    method FunctionStarted(f: FunctionLiteral)
      modifies this
      ensures result == old(result) + [Started(f, old(currentParentIndex))]
      ensures currentParentIndex == |old(result)|
    {
      var info := Started(f, currentParentIndex);
      currentParentIndex := |result|;
      result := result + [info];
    }

    /** FunctionDone (post-order): attaches the SharedFunctionInfo to the current
        function's record, and makes that record's parent current again. */
    method FunctionDone(shared: int)
      requires 0 <= currentParentIndex < |result|
      modifies this
      ensures result == old(result)[old(currentParentIndex) := old(result)[old(currentParentIndex)].(shared := Some(shared))]
      ensures currentParentIndex == old(result)[old(currentParentIndex)].parentIndex
    {
      var info := result[currentParentIndex].(shared := Some(shared));
      result := result[currentParentIndex := info];
      currentParentIndex := info.parentIndex;
    }

    /** VisitFunctionLiteral: the function, then the literals nested in it, then
        FunctionDone; the entries of the whole subtree are appended and the current
        parent is what it was. */
    method VisitFunctionLiteral(f: FunctionLiteral)
      modifies this
      ensures result == old(result) + Flat(f, old(currentParentIndex), |old(result)|)
      ensures currentParentIndex == old(currentParentIndex)
      decreases f
    {
      ghost var parent := currentParentIndex;
      ghost var before := result;
      var base := |result|;
      FunctionStarted(f);
      var k := 0;
      while k < |f.inner|
        invariant 0 <= k <= |f.inner|
        invariant currentParentIndex == base
        invariant result == before + [Started(f, parent)] + FlatUpTo(f, k, base)
        invariant |FlatUpTo(f, k, base)| == SizeUpTo(f, k)
      {
        VisitFunctionLiteral(f.inner[k]);
        FlatSize(f.inner[k], base, base + 1 + SizeUpTo(f, k));
        k := k + 1;
      }
      FunctionDone(f.shared);
      assert result == before + [Done(f, parent)] + FlatUpTo(f, |f.inner|, base);
    }
  }

  /** Collect: the records of all function literals of `f`, in pre-order, the first one
      with parent -1 and every other one with the index of the function enclosing it. */
  method Collect(f: FunctionLiteral) returns (result: seq<FunctionInfo>)
    ensures result == Flat(f, -1, 0)
    ensures |result| == Size(f) && ParentsPrecede(result, -1, 0)
  {
    var tracker := new LiveEditFunctionTracker();
    tracker.VisitFunctionLiteral(f);
    result := tracker.result;
    FlatSize(f, -1, 0);
    FlatParentsPrecede(f, -1, 0);
  }
}
