/** Edit scripts produced by the live-edit comparator (Comparator::Output::AddChunk
    receives one chunk at a time; the chunks in arrival order form the script). */
module EditScript {

  /** A changed region: `len1` elements of sequence 1 starting at `pos1` correspond to
      `len2` elements of sequence 2 starting at `pos2`. */
  datatype Chunk = Chunk(pos1: nat, pos2: nat, len1: nat, len2: nat) {
    function End1(): nat { pos1 + len1 }
    function End2(): nat { pos2 + len2 }
  }

  /** `cs` describes how `a[i..]` becomes `b[j..]`: the chunks come in order, each lies
      inside both suffixes, and every stretch between two chunks (and before the first
      and after the last) is element-wise equal in the two sequences. */
  ghost predicate Matches<T>(a: seq<T>, b: seq<T>, i: nat, j: nat, cs: seq<Chunk>)
    decreases |cs|
  {
    && i <= |a| && j <= |b|
    && if cs == [] then a[i..] == b[j..]
       else
         var c := cs[0];
         && i <= c.pos1 && j <= c.pos2
         && c.End1() <= |a| && c.End2() <= |b|
         && a[i..c.pos1] == b[j..c.pos2]
         && Matches(a, b, c.End1(), c.End2(), cs[1..])
  }

  /** Every chunk changes something, and consecutive chunks are separated by at least
      one unchanged element in both sequences (strictly ascending and disjoint). */
  ghost predicate Canonical(cs: seq<Chunk>) {
    && (forall k :: 0 <= k < |cs| ==> cs[k].len1 + cs[k].len2 > 0)
    && (forall k, l :: 0 <= k < l < |cs| ==> cs[k].End1() < cs[l].pos1 && cs[k].End2() < cs[l].pos2)
  }

  /** Number of deleted plus inserted elements of a script. */
  function ScriptCost(cs: seq<Chunk>): nat {
    if cs == [] then 0 else cs[0].len1 + cs[0].len2 + ScriptCost(cs[1..])
  }

  /** Moves every chunk of `cs` by `o1` in sequence 1 and `o2` in sequence 2. */
  function Shift(cs: seq<Chunk>, o1: nat, o2: nat): (r: seq<Chunk>)
    ensures |r| == |cs|
  {
    if cs == [] then [] else [Chunk(cs[0].pos1 + o1, cs[0].pos2 + o2, cs[0].len1, cs[0].len2)] + Shift(cs[1..], o1, o2)
  }

  lemma {:induction false} ScriptCostAppend(xs: seq<Chunk>, ys: seq<Chunk>)
    ensures ScriptCost(xs + ys) == ScriptCost(xs) + ScriptCost(ys)
  {
    if xs != [] {
      assert (xs + ys)[1..] == xs[1..] + ys;
      ScriptCostAppend(xs[1..], ys);
    } else {
      assert xs + ys == ys;
    }
  }

  /** A script for `a[i+k..]`/`b[j+k..]` also describes `a[i..]`/`b[j..]` when the `k`
      elements in front are equal. */
  lemma MatchesExtendBack<T>(a: seq<T>, b: seq<T>, i: nat, j: nat, k: nat, cs: seq<Chunk>)
    requires i + k <= |a| && j + k <= |b|
    requires a[i..i + k] == b[j..j + k]
    requires Matches(a, b, i + k, j + k, cs)
    ensures Matches(a, b, i, j, cs)
  {
    if cs == [] {
      assert a[i..] == a[i..i + k] + a[i + k..];
      assert b[j..] == b[j..j + k] + b[j + k..];
    } else {
      var c := cs[0];
      assert a[i..c.pos1] == a[i..i + k] + a[i + k..c.pos1];
      assert b[j..c.pos2] == b[j..j + k] + b[j + k..c.pos2];
    }
  }

  /** Prepending a chunk preceded by an equal stretch keeps a script valid. */
  lemma MatchesCons<T>(a: seq<T>, b: seq<T>, i: nat, j: nat, c: Chunk, rest: seq<Chunk>)
    requires i <= c.pos1 && j <= c.pos2 && c.End1() <= |a| && c.End2() <= |b|
    requires a[i..c.pos1] == b[j..c.pos2]
    requires Matches(a, b, c.End1(), c.End2(), rest)
    ensures Matches(a, b, i, j, [c] + rest)
  {
    assert ([c] + rest)[1..] == rest;
  }

  /** The facts a non-empty script states about its first chunk. */
  lemma MatchesUncons<T>(a: seq<T>, b: seq<T>, i: nat, j: nat, cs: seq<Chunk>)
    requires cs != [] && Matches(a, b, i, j, cs)
    ensures i <= cs[0].pos1 <= cs[0].End1() <= |a| && j <= cs[0].pos2 <= cs[0].End2() <= |b|
    ensures a[i..cs[0].pos1] == b[j..cs[0].pos2]
    ensures Matches(a, b, cs[0].End1(), cs[0].End2(), cs[1..])
  {
  }

  lemma SliceOfSlice<T>(a: seq<T>, o: nat, n: nat, i: nat, k: nat)
    requires o + n <= |a| && i <= k <= n
    ensures a[o..o + n][i..k] == a[o + i..o + k]
  {
    var s := a[o..o + n];
    assert |s| == n;
    assert forall m | 0 <= m < k - i :: s[i..k][m] == s[i + m] == a[o + i + m];
  }

  lemma MatchesShiftNil<T>(a: seq<T>, b: seq<T>, o1: nat, o2: nat, n1: nat, n2: nat,
                           i: nat, j: nat, post: seq<Chunk>)
    requires o1 + n1 <= |a| && o2 + n2 <= |b|
    requires Matches(a[o1..o1 + n1], b[o2..o2 + n2], i, j, [])
    requires Matches(a, b, o1 + n1, o2 + n2, post)
    ensures Matches(a, b, o1 + i, o2 + j, post)
  {
    SliceOfSlice(a, o1, n1, i, n1);
    SliceOfSlice(b, o2, n2, j, n2);
    MatchesExtendBack(a, b, o1 + i, o2 + j, n1 - i, post);
  }

  lemma {:induction false} MatchesShiftStep<T>(a: seq<T>, b: seq<T>, o1: nat, o2: nat, n1: nat, n2: nat,
                                               i: nat, j: nat, cs: seq<Chunk>, post: seq<Chunk>)
    requires o1 + n1 <= |a| && o2 + n2 <= |b| && cs != []
    requires Matches(a[o1..o1 + n1], b[o2..o2 + n2], i, j, cs)
    requires Matches(a, b, o1 + n1, o2 + n2, post)
    ensures Matches(a, b, o1 + i, o2 + j, Shift(cs, o1, o2) + post)
    decreases |cs|, 0
  {
    MatchesUncons(a[o1..o1 + n1], b[o2..o2 + n2], i, j, cs);
    MatchesShift(a, b, o1, o2, n1, n2, cs[0].End1(), cs[0].End2(), cs[1..], post);
    MatchesShiftCons(a, b, o1, o2, n1, n2, i, j, cs, post);
  }

  lemma MatchesShiftCons<T>(a: seq<T>, b: seq<T>, o1: nat, o2: nat, n1: nat, n2: nat,
                            i: nat, j: nat, cs: seq<Chunk>, post: seq<Chunk>)
    requires o1 + n1 <= |a| && o2 + n2 <= |b| && cs != []
    requires i <= cs[0].pos1 <= cs[0].End1() <= n1 && j <= cs[0].pos2 <= cs[0].End2() <= n2
    requires a[o1..o1 + n1][i..cs[0].pos1] == b[o2..o2 + n2][j..cs[0].pos2]
    requires Matches(a, b, o1 + cs[0].End1(), o2 + cs[0].End2(), Shift(cs[1..], o1, o2) + post)
    ensures Matches(a, b, o1 + i, o2 + j, Shift(cs, o1, o2) + post)
  {
    var c := cs[0];
    var c' := Chunk(c.pos1 + o1, c.pos2 + o2, c.len1, c.len2);
    SliceOfSlice(a, o1, n1, i, c.pos1);
    SliceOfSlice(b, o2, n2, j, c.pos2);
    MatchesCons(a, b, o1 + i, o2 + j, c', Shift(cs[1..], o1, o2) + post);
    assert Shift(cs, o1, o2) == [c'] + Shift(cs[1..], o1, o2);
    assert ([c'] + Shift(cs[1..], o1, o2)) + post == [c'] + (Shift(cs[1..], o1, o2) + post);
  }

  /** A script computed on the windows `a[o1..o1+n1]` and `b[o2..o2+n2]`, shifted back
      to absolute positions and followed by a script `post` for what comes after the
      windows, describes the whole sequences. */
  lemma {:induction false} MatchesShift<T>(a: seq<T>, b: seq<T>, o1: nat, o2: nat, n1: nat, n2: nat,
                                           i: nat, j: nat, cs: seq<Chunk>, post: seq<Chunk>)
    requires o1 + n1 <= |a| && o2 + n2 <= |b|
    requires Matches(a[o1..o1 + n1], b[o2..o2 + n2], i, j, cs)
    requires Matches(a, b, o1 + n1, o2 + n2, post)
    ensures Matches(a, b, o1 + i, o2 + j, Shift(cs, o1, o2) + post)
    decreases |cs|, 1
  {
    if cs == [] {
      MatchesShiftNil(a, b, o1, o2, n1, n2, i, j, post);
      assert Shift(cs, o1, o2) + post == post;
    } else {
      MatchesShiftStep(a, b, o1, o2, n1, n2, i, j, cs, post);
    }
  }

  /** Shifting distributes over concatenation. */
  lemma {:induction false} ShiftAppend(xs: seq<Chunk>, ys: seq<Chunk>, o1: nat, o2: nat)
    ensures Shift(xs + ys, o1, o2) == Shift(xs, o1, o2) + Shift(ys, o1, o2)
  {
    if xs != [] {
      assert (xs + ys)[1..] == xs[1..] + ys;
      ShiftAppend(xs[1..], ys, o1, o2);
    } else {
      assert xs + ys == ys;
    }
  }

  /** Element `k` of a shifted script is element `k` moved by the offsets. */
  lemma {:induction false} ShiftIndex(cs: seq<Chunk>, o1: nat, o2: nat, k: nat)
    requires k < |cs|
    ensures Shift(cs, o1, o2)[k] == Chunk(cs[k].pos1 + o1, cs[k].pos2 + o2, cs[k].len1, cs[k].len2)
  {
    if k > 0 {
      ShiftIndex(cs[1..], o1, o2, k - 1);
    }
  }

  /** A script from (x, y) also describes the sequences from (i, j) when the stretches
      in between are equal. */
  lemma MatchesExtendGap<T>(a: seq<T>, b: seq<T>, i: nat, j: nat, x: nat, y: nat, cs: seq<Chunk>)
    requires i <= x <= |a| && j <= y <= |b| && a[i..x] == b[j..y]
    requires Matches(a, b, x, y, cs)
    ensures Matches(a, b, i, j, cs)
  {
    assert |a[i..x]| == |b[j..y]|;
    MatchesExtendBack(a, b, i, j, x - i, cs);
  }
}
