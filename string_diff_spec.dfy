/** Specification of LiveEdit::CompareStrings (src/debug/liveedit.cc): the strings are
    compared line by line after the common prefix and suffix of lines are set aside,
    each changed run of lines is re-compared character by character when both sides
    are short, and every resulting chunk is written as the triple
    (start in string 1, end in string 1, end in string 2). */
module StringDiffSpec {
  import opened EditScript
  import opened DiffSpec
  import opened Lines

  /** Character spans at or above this length are not re-compared. */
  const ChunkLenLimit: nat := 800

  /** CompareOutputArrayWriter's encoding of one chunk. */
  function Triple(c: Chunk): seq<int> {
    [c.pos1, c.End1(), c.End2()]
  }

  /** The encoding of a script: three numbers per chunk, in order. */
  function Triples(cs: seq<Chunk>): (r: seq<int>)
    ensures |r| == 3 * |cs|
  {
    if cs == [] then [] else Triple(cs[0]) + Triples(cs[1..])
  }

  lemma {:induction false} TriplesAppend(xs: seq<Chunk>, ys: seq<Chunk>)
    ensures Triples(xs + ys) == Triples(xs) + Triples(ys)
  {
    if xs != [] {
      assert (xs + ys)[1..] == xs[1..] + ys;
      TriplesAppend(xs[1..], ys);
    } else {
      assert xs + ys == ys;
    }
  }

  /** Decodes triples back into chunks, given where the previous chunk ended in both
      strings: the stretch before a chunk is equally long in both, which fixes where
      the chunk starts in string 2. */
  function ChunksOf(t: seq<int>, end1: nat, end2: nat): seq<Chunk>
    decreases |t|
  {
    if |t| < 3 || t[0] < end1 || t[1] < t[0] || t[2] < t[0] - end1 + end2 then []
    else
      var pos2 := t[0] - end1 + end2;
      [Chunk(t[0], pos2, t[1] - t[0], t[2] - pos2)] + ChunksOf(t[3..], t[1], t[2])
  }

  /** The triples lose nothing: a script that describes two sequences is recovered
      from its encoding. */
  lemma {:induction false} TriplesRoundTrip<T>(a: seq<T>, b: seq<T>, i: nat, j: nat, cs: seq<Chunk>)
    requires Matches(a, b, i, j, cs)
    ensures ChunksOf(Triples(cs), i, j) == cs
    decreases |cs|
  {
    if cs != [] {
      MatchesUncons(a, b, i, j, cs);
      TriplesRoundTrip(a, b, cs[0].End1(), cs[0].End2(), cs[1..]);
      var t := Triples(cs);
      assert t[3..] == Triples(cs[1..]);
      assert |a[i..cs[0].pos1]| == |b[j..cs[0].pos2]|;
    }
  }

  /** The character span of a chunk of lines. */
  function CharSpan(s1: seq<char>, w1: LineEndsWrapper, s2: seq<char>, w2: LineEndsWrapper, c: Chunk): (r: Chunk)
    requires w1.ValidFor(|s1|) && w2.ValidFor(|s2|)
    requires c.End1() <= w1.Length() && c.End2() <= w2.Length()
    ensures r.End1() <= |s1| && r.End2() <= |s2|
  {
    LineStartMonotone(s1, w1, c.pos1, c.End1());
    LineStartMonotone(s2, w2, c.pos2, c.End2());
    var p1, p2 := w1.GetLineStart(c.pos1), w2.GetLineStart(c.pos2);
    Chunk(p1, p2, w1.GetLineStart(c.End1()) - p1, w2.GetLineStart(c.End2()) - p2)
  }

  /** The differencer on characters, as the nested comparison of short spans. */
  function CharDiff(x: seq<char>, y: seq<char>): seq<Chunk> {
    Diff(x, y)
  }

  /** `nested` compares any two strings into a script that describes them. */
  ghost predicate DescribesAll(nested: (seq<char>, seq<char>) -> seq<Chunk>) {
    forall x, y :: Matches(x, y, 0, 0, nested(x, y))
  }

  /** The differencer compares any two strings into a script that describes them. */
  lemma DiffDescribesAll()
    ensures DescribesAll(CharDiff)
  {
    forall x: seq<char>, y: seq<char> ensures Matches(x, y, 0, 0, Diff(x, y)) {
      DiffMatches(x, y);
    }
  }

  /** The chunks written for a changed character span: the character diff of the span
      when both sides are shorter than the limit, moved to absolute positions, and the
      whole span as one chunk otherwise. */
  function RefineSpan(s1: seq<char>, s2: seq<char>, cc: Chunk, nested: (seq<char>, seq<char>) -> seq<Chunk>): seq<Chunk>
    requires cc.End1() <= |s1| && cc.End2() <= |s2|
  {
    if cc.len1 < ChunkLenLimit && cc.len2 < ChunkLenLimit then
      Shift(nested(s1[cc.pos1..cc.End1()], s2[cc.pos2..cc.End2()]), cc.pos1, cc.pos2)
    else [cc]
  }

  /** A short span is written as the nested comparison of its two windows. */
  lemma RefineSpanNested(s1: seq<char>, s2: seq<char>, cc: Chunk, nested: (seq<char>, seq<char>) -> seq<Chunk>, d: seq<Chunk>)
    requires cc.End1() <= |s1| && cc.End2() <= |s2|
    requires cc.len1 < ChunkLenLimit && cc.len2 < ChunkLenLimit
    requires d == nested(s1[cc.pos1..cc.End1()], s2[cc.pos2..cc.End2()])
    ensures RefineSpan(s1, s2, cc, nested) == Shift(d, cc.pos1, cc.pos2)
  {
  }

  /** The chunks written for one chunk of lines. */
  function RefineChunk(s1: seq<char>, w1: LineEndsWrapper, s2: seq<char>, w2: LineEndsWrapper, c: Chunk,
                       nested: (seq<char>, seq<char>) -> seq<Chunk>): seq<Chunk>
    requires w1.ValidFor(|s1|) && w2.ValidFor(|s2|)
    requires c.End1() <= w1.Length() && c.End2() <= w2.Length()
  {
    RefineSpan(s1, s2, CharSpan(s1, w1, s2, w2, c), nested)
  }

  /** Every chunk lies within the lines of both strings. */
  ghost predicate InLines(cs: seq<Chunk>, n1: nat, n2: nat) {
    forall k :: 0 <= k < |cs| ==> cs[k].End1() <= n1 && cs[k].End2() <= n2
  }

  /** Each chunk of `cs` mapped through `f`, the results concatenated. */
  ghost function FlatMap(cs: seq<Chunk>, f: Chunk -> seq<Chunk>): seq<Chunk> {
    if cs == [] then [] else f(cs[0]) + FlatMap(cs[1..], f)
  }

  lemma {:induction false} FlatMapAppend(xs: seq<Chunk>, ys: seq<Chunk>, f: Chunk -> seq<Chunk>)
    ensures FlatMap(xs + ys, f) == FlatMap(xs, f) + FlatMap(ys, f)
  {
    if xs == [] {
      assert xs + ys == ys;
    } else {
      assert (xs + ys)[1..] == xs[1..] + ys;
      FlatMapAppend(xs[1..], ys, f);
    }
  }

  /** RefineChunk for the chunks that lie within the lines of both strings. */
  ghost function Refiner(s1: seq<char>, w1: LineEndsWrapper, s2: seq<char>, w2: LineEndsWrapper,
                         nested: (seq<char>, seq<char>) -> seq<Chunk>): Chunk -> seq<Chunk>
  {
    (c: Chunk) =>
      if w1.ValidFor(|s1|) && w2.ValidFor(|s2|) && c.End1() <= w1.Length() && c.End2() <= w2.Length()
      then RefineChunk(s1, w1, s2, w2, c, nested) else []
  }

  /** The character-level script for a line-level script. */
  ghost function Refine(s1: seq<char>, w1: LineEndsWrapper, s2: seq<char>, w2: LineEndsWrapper, cs: seq<Chunk>,
                  nested: (seq<char>, seq<char>) -> seq<Chunk>): seq<Chunk>
    requires w1.ValidFor(|s1|) && w2.ValidFor(|s2|) && InLines(cs, w1.Length(), w2.Length())
  {
    FlatMap(cs, Refiner(s1, w1, s2, w2, nested))
  }

  /** Refine of a nonempty script: its head chunk refined, then the rest. */
  lemma RefineCons(s1: seq<char>, w1: LineEndsWrapper, s2: seq<char>, w2: LineEndsWrapper,
                   cs: seq<Chunk>, nested: (seq<char>, seq<char>) -> seq<Chunk>)
    requires w1.ValidFor(|s1|) && w2.ValidFor(|s2|) && InLines(cs, w1.Length(), w2.Length()) && cs != []
    ensures InLines(cs[1..], w1.Length(), w2.Length())
    ensures Refine(s1, w1, s2, w2, cs, nested)
         == RefineChunk(s1, w1, s2, w2, cs[0], nested) + Refine(s1, w1, s2, w2, cs[1..], nested)
  {
  }

  /** Refine of a single chunk is that chunk refined. */
  lemma RefineSingle(s1: seq<char>, w1: LineEndsWrapper, s2: seq<char>, w2: LineEndsWrapper,
                     c: Chunk, nested: (seq<char>, seq<char>) -> seq<Chunk>)
    requires w1.ValidFor(|s1|) && w2.ValidFor(|s2|) && c.End1() <= w1.Length() && c.End2() <= w2.Length()
    ensures InLines([c], w1.Length(), w2.Length())
    ensures Refine(s1, w1, s2, w2, [c], nested) == RefineChunk(s1, w1, s2, w2, c, nested)
  {
    RefineCons(s1, w1, s2, w2, [c], nested);
    assert [c][1..] == [];
    assert Refine(s1, w1, s2, w2, [], nested) == [];
  }

  /** Refining is compositional: refining two scripts one after the other gives the
      refinement of their concatenation. */
  lemma RefineAppend(s1: seq<char>, w1: LineEndsWrapper, s2: seq<char>, w2: LineEndsWrapper,
                     xs: seq<Chunk>, ys: seq<Chunk>, nested: (seq<char>, seq<char>) -> seq<Chunk>)
    requires w1.ValidFor(|s1|) && w2.ValidFor(|s2|)
    requires InLines(xs, w1.Length(), w2.Length()) && InLines(ys, w1.Length(), w2.Length())
    ensures InLines(xs + ys, w1.Length(), w2.Length())
    ensures Refine(s1, w1, s2, w2, xs + ys, nested) == Refine(s1, w1, s2, w2, xs, nested) + Refine(s1, w1, s2, w2, ys, nested)
  {
    InLinesAppend(xs, ys, w1.Length(), w2.Length());
    FlatMapAppend(xs, ys, Refiner(s1, w1, s2, w2, nested));
  }

  lemma InLinesAppend(xs: seq<Chunk>, ys: seq<Chunk>, n1: nat, n2: nat)
    requires InLines(xs, n1, n2) && InLines(ys, n1, n2)
    ensures InLines(xs + ys, n1, n2)
  {
    forall k | 0 <= k < |xs + ys| ensures (xs + ys)[k].End1() <= n1 && (xs + ys)[k].End2() <= n2 {
      if k < |xs| {
        assert (xs + ys)[k] == xs[k];
      } else {
        assert (xs + ys)[k] == ys[k - |xs|];
      }
    }
  }

  /** The chunks written for a span describe it. */
  lemma RefineSpanMatches(s1: seq<char>, s2: seq<char>, cc: Chunk, post: seq<Chunk>, nested: (seq<char>, seq<char>) -> seq<Chunk>)
    requires DescribesAll(nested)
    requires cc.End1() <= |s1| && cc.End2() <= |s2|
    requires Matches(s1, s2, cc.End1(), cc.End2(), post)
    ensures Matches(s1, s2, cc.pos1, cc.pos2, RefineSpan(s1, s2, cc, nested) + post)
  {
    if cc.len1 < ChunkLenLimit && cc.len2 < ChunkLenLimit {
      assert Matches(s1[cc.pos1..cc.End1()], s2[cc.pos2..cc.End2()], 0, 0, nested(s1[cc.pos1..cc.End1()], s2[cc.pos2..cc.End2()]));
      WindowMatches(s1, s2, cc, post, nested(s1[cc.pos1..cc.End1()], s2[cc.pos2..cc.End2()]));
    } else {
      MatchesCons(s1, s2, cc.pos1, cc.pos2, cc, post);
    }
  }

  /** A script describing two windows, moved to where the windows start, describes
      them inside the whole sequences. */
  lemma WindowMatches<T>(s1: seq<T>, s2: seq<T>, cc: Chunk, post: seq<Chunk>, d: seq<Chunk>)
    requires cc.End1() <= |s1| && cc.End2() <= |s2|
    requires Matches(s1[cc.pos1..cc.End1()], s2[cc.pos2..cc.End2()], 0, 0, d)
    requires Matches(s1, s2, cc.End1(), cc.End2(), post)
    ensures Matches(s1, s2, cc.pos1, cc.pos2, Shift(d, cc.pos1, cc.pos2) + post)
  {
    MatchesShift(s1, s2, cc.pos1, cc.pos2, cc.len1, cc.len2, 0, 0, d, post);
  }

  /** One chunk of a line-level script, preceded by equal lines, refines to chunks that
      describe the corresponding text. */
  lemma RefineStep(s1: seq<char>, w1: LineEndsWrapper, s2: seq<char>, w2: LineEndsWrapper,
                   i: nat, j: nat, cs: seq<Chunk>, nested: (seq<char>, seq<char>) -> seq<Chunk>)
    requires DescribesAll(nested)
    requires w1.ValidFor(|s1|) && w2.ValidFor(|s2|)
    requires cs != [] && InLines(cs, w1.Length(), w2.Length())
    requires Matches(SplitLines(s1, w1), SplitLines(s2, w2), i, j, cs)
    requires Matches(s1, s2, w1.GetLineStart(cs[0].End1()), w2.GetLineStart(cs[0].End2()), Refine(s1, w1, s2, w2, cs[1..], nested))
    ensures Matches(s1, s2, w1.GetLineStart(i), w2.GetLineStart(j), Refine(s1, w1, s2, w2, cs, nested))
  {
    var c := cs[0];
    var cc := CharSpan(s1, w1, s2, w2, c);
    var post := Refine(s1, w1, s2, w2, cs[1..], nested);
    MatchesUncons(SplitLines(s1, w1), SplitLines(s2, w2), i, j, cs);
    RefineSpanMatches(s1, s2, cc, post, nested);
    EqualLinesEqualText(s1, w1, s2, w2, i, c.pos1, j, c.pos2);
    MatchesExtendGap(s1, s2, w1.GetLineStart(i), w2.GetLineStart(j), cc.pos1, cc.pos2, RefineSpan(s1, s2, cc, nested) + post);
  }

  /** A line-level script that describes the lines of two strings refines to a
      character-level script that describes the strings. */
  lemma {:induction false} RefineMatches(s1: seq<char>, w1: LineEndsWrapper, s2: seq<char>, w2: LineEndsWrapper,
                                         i: nat, j: nat, cs: seq<Chunk>, nested: (seq<char>, seq<char>) -> seq<Chunk>)
    requires DescribesAll(nested)
    requires w1.ValidFor(|s1|) && w2.ValidFor(|s2|) && InLines(cs, w1.Length(), w2.Length())
    requires Matches(SplitLines(s1, w1), SplitLines(s2, w2), i, j, cs)
    ensures Matches(s1, s2, w1.GetLineStart(i), w2.GetLineStart(j), Refine(s1, w1, s2, w2, cs, nested))
    decreases |cs|
  {
    if cs == [] {
      EqualLinesEqualText(s1, w1, s2, w2, i, w1.Length(), j, w2.Length());
    } else {
      MatchesUncons(SplitLines(s1, w1), SplitLines(s2, w2), i, j, cs);
      RefineCons(s1, w1, s2, w2, cs, nested);
      RefineMatches(s1, w1, s2, w2, cs[0].End1(), cs[0].End2(), cs[1..], nested);
      RefineStep(s1, w1, s2, w2, i, j, cs, nested);
    }
  }

  /** Length of the common prefix of `x` and `y` that extends past `k` equal elements. */
  function PrefixFrom<T(==)>(x: seq<T>, y: seq<T>, k: nat): nat
    requires k <= |x| && k <= |y|
    decreases |x| - k
  {
    if k < |x| && k < |y| && x[k] == y[k] then PrefixFrom(x, y, k + 1) else k
  }

  /** Length of the common suffix of `x[p..]` and `y[p..]` that extends past `k` equal
      elements. */
  function SuffixFrom<T(==)>(x: seq<T>, y: seq<T>, p: nat, k: nat): nat
    requires p + k <= |x| && p + k <= |y|
    decreases |x| - k
  {
    if p + k < |x| && p + k < |y| && x[|x| - k - 1] == y[|y| - k - 1] then SuffixFrom(x, y, p, k + 1) else k
  }

  lemma SuffixStep<T>(x: seq<T>, y: seq<T>, p: nat, k: nat)
    requires p + k < |x| && p + k < |y| && x[|x| - k - 1] == y[|y| - k - 1]
    ensures SuffixFrom(x, y, p, k) == SuffixFrom(x, y, p, k + 1)
  {
  }

  lemma SuffixStop<T>(x: seq<T>, y: seq<T>, p: nat, k: nat)
    requires p + k <= |x| && p + k <= |y|
    requires p + k == |x| || p + k == |y| || x[|x| - k - 1] != y[|y| - k - 1]
    ensures SuffixFrom(x, y, p, k) == k
  {
  }

  /** The common prefix is as long as possible and really common. */
  lemma {:induction false} PrefixFromIsCommonPrefix<T>(x: seq<T>, y: seq<T>, k: nat)
    requires k <= |x| && k <= |y| && x[..k] == y[..k]
    ensures k <= PrefixFrom(x, y, k) <= |x| && PrefixFrom(x, y, k) <= |y|
    ensures x[..PrefixFrom(x, y, k)] == y[..PrefixFrom(x, y, k)]
    ensures PrefixFrom(x, y, k) < |x| && PrefixFrom(x, y, k) < |y| ==> x[PrefixFrom(x, y, k)] != y[PrefixFrom(x, y, k)]
    decreases |x| - k
  {
    if k < |x| && k < |y| && x[k] == y[k] {
      assert x[..k + 1] == x[..k] + [x[k]] && y[..k + 1] == y[..k] + [y[k]];
      PrefixFromIsCommonPrefix(x, y, k + 1);
    }
  }

  /** The common suffix is as long as possible, stays clear of the prefix, and is
      really common. */
  lemma {:induction false} SuffixFromIsCommonSuffix<T>(x: seq<T>, y: seq<T>, p: nat, k: nat)
    requires p + k <= |x| && p + k <= |y| && x[|x| - k..] == y[|y| - k..]
    ensures k <= SuffixFrom(x, y, p, k) && p + SuffixFrom(x, y, p, k) <= |x| && p + SuffixFrom(x, y, p, k) <= |y|
    ensures x[|x| - SuffixFrom(x, y, p, k)..] == y[|y| - SuffixFrom(x, y, p, k)..]
    ensures var n := SuffixFrom(x, y, p, k);
      p + n < |x| && p + n < |y| ==> x[|x| - n - 1] != y[|y| - n - 1]
    decreases |x| - k
  {
    if p + k < |x| && p + k < |y| && x[|x| - k - 1] == y[|y| - k - 1] {
      assert x[|x| - (k + 1)..] == [x[|x| - k - 1]] + x[|x| - k..];
      assert y[|y| - (k + 1)..] == [y[|y| - k - 1]] + y[|y| - k..];
      SuffixFromIsCommonSuffix(x, y, p, k + 1);
    }
  }

  /** The line-level script CompareStrings reports: the difference of what remains
      between the common prefix and the common suffix, moved past the prefix. */
  function NarrowedScript<T(==)>(x: seq<T>, y: seq<T>): seq<Chunk> {
    var p := PrefixFrom(x, y, 0);
    assert x[..0] == y[..0];
    PrefixFromIsCommonPrefix(x, y, 0);
    var n := SuffixFrom(x, y, p, 0);
    assert x[|x|..] == y[|y|..];
    SuffixFromIsCommonSuffix(x, y, p, 0);
    MiddleScript(x, y, p, n)
  }

  /** The difference of what lies between the first `p` and the last `n` elements,
      moved past the first `p`. */
  function MiddleScript<T(==)>(x: seq<T>, y: seq<T>, p: nat, n: nat): seq<Chunk>
    requires p + n <= |x| && p + n <= |y|
  {
    Shift(Diff(x[p..|x| - n], y[p..|y| - n]), p, p)
  }

  /** The narrowed script is the difference of what lies between the common prefix
      and suffix, moved past the prefix. */
  lemma NarrowedScriptIs<T>(x: seq<T>, y: seq<T>, p: nat, n: nat, d: seq<Chunk>)
    requires p + n <= |x| && p + n <= |y|
    requires p == PrefixFrom(x, y, 0) && n == SuffixFrom(x, y, p, 0)
    requires d == Diff(x[p..|x| - n], y[p..|y| - n])
    ensures NarrowedScript(x, y) == Shift(d, p, p)
  {
    assert NarrowedScript(x, y) == MiddleScript(x, y, p, n);
  }

  /** The difference of the middle part, moved past an equal prefix, describes the
      whole sequences when what follows the middle parts is equal too. */
  lemma MiddleScriptMatches<T>(x: seq<T>, y: seq<T>, p: nat, n1: nat, n2: nat)
    requires p + n1 <= |x| && p + n2 <= |y|
    requires x[..p] == y[..p] && x[p + n1..] == y[p + n2..]
    ensures Matches(x, y, 0, 0, Shift(Diff(x[p..p + n1], y[p..p + n2]), p, p))
  {
    var d := Diff(x[p..p + n1], y[p..p + n2]);
    DiffMatches(x[p..p + n1], y[p..p + n2]);
    MatchesShift(x, y, p, p, n1, n2, 0, 0, d, []);
    assert Shift(d, p, p) + [] == Shift(d, p, p);
    assert x[..p] == x[0..p] && y[..p] == y[0..p];
    MatchesExtendBack(x, y, 0, 0, p, Shift(d, p, p));
  }

  /** Setting the common prefix and suffix aside loses nothing: the narrowed script
      still describes the whole sequences. */
  lemma NarrowedScriptMatches<T>(x: seq<T>, y: seq<T>)
    ensures Matches(x, y, 0, 0, NarrowedScript(x, y))
  {
    var p := PrefixFrom(x, y, 0);
    assert x[..0] == y[..0];
    PrefixFromIsCommonPrefix(x, y, 0);
    var n := SuffixFrom(x, y, p, 0);
    assert x[|x|..] == y[|y|..];
    SuffixFromIsCommonSuffix(x, y, p, 0);
    MiddleScriptMatches(x, y, p, |x| - n - p, |y| - n - p);
  }

  /** The narrowed script stays within the sequences. */
  lemma NarrowedScriptInBounds<T>(x: seq<T>, y: seq<T>)
    ensures InLines(NarrowedScript(x, y), |x|, |y|)
  {
    var cs := NarrowedScript(x, y);
    NarrowedScriptMatches(x, y);
    forall k | 0 <= k < |cs| ensures cs[k].End1() <= |x| && cs[k].End2() <= |y| {
      MatchesBounds(x, y, 0, 0, cs, k);
    }
  }

  /** The difference of two sequences stays within them. */
  lemma DiffInBounds<T>(a: seq<T>, b: seq<T>)
    ensures InLines(Diff(a, b), |a|, |b|)
  {
    var cs := Diff(a, b);
    DiffMatches(a, b);
    forall k | 0 <= k < |cs| ensures cs[k].End1() <= |a| && cs[k].End2() <= |b| {
      MatchesBounds(a, b, 0, 0, cs, k);
    }
  }

  /** Chunks within `n1` and `n2` elements, moved by `o1` and `o2`, stay within any
      bounds that leave room for the move. */
  lemma ShiftInLines(cs: seq<Chunk>, n1: nat, n2: nat, o1: nat, o2: nat, m1: nat, m2: nat)
    requires InLines(cs, n1, n2) && o1 + n1 <= m1 && o2 + n2 <= m2
    ensures InLines(Shift(cs, o1, o2), m1, m2)
  {
    forall k | 0 <= k < |cs| ensures Shift(cs, o1, o2)[k].End1() <= m1 && Shift(cs, o1, o2)[k].End2() <= m2 {
      ShiftIndex(cs, o1, o2, k);
    }
  }

  /** The chunks of a describing script lie inside the sequences. */
  lemma {:induction false} MatchesBounds<T>(a: seq<T>, b: seq<T>, i: nat, j: nat, cs: seq<Chunk>, k: nat)
    requires Matches(a, b, i, j, cs) && k < |cs|
    ensures cs[k].End1() <= |a| && cs[k].End2() <= |b|
    decreases k
  {
    MatchesUncons(a, b, i, j, cs);
    if k > 0 {
      MatchesBounds(a, b, cs[0].End1(), cs[0].End2(), cs[1..], k - 1);
    }
  }

  /** The character-level script behind LiveEdit::CompareStrings. */
  ghost function StringScript(s1: seq<char>, w1: LineEndsWrapper, s2: seq<char>, w2: LineEndsWrapper): seq<Chunk>
    requires w1.ValidFor(|s1|) && w2.ValidFor(|s2|)
  {
    NarrowedScriptInBounds(SplitLines(s1, w1), SplitLines(s2, w2));
    Refine(s1, w1, s2, w2, NarrowedScript(SplitLines(s1, w1), SplitLines(s2, w2)), CharDiff)
  }

  /** The strings differ only inside the chunks CompareStrings reports. */
  lemma StringScriptMatches(s1: seq<char>, w1: LineEndsWrapper, s2: seq<char>, w2: LineEndsWrapper)
    requires w1.ValidFor(|s1|) && w2.ValidFor(|s2|)
    ensures Matches(s1, s2, 0, 0, StringScript(s1, w1, s2, w2))
  {
    var x, y := SplitLines(s1, w1), SplitLines(s2, w2);
    NarrowedScriptMatches(x, y);
    NarrowedScriptInBounds(x, y);
    DiffDescribesAll();
    RefineMatches(s1, w1, s2, w2, 0, 0, NarrowedScript(x, y), CharDiff);
  }

  /** What CompareStrings returns decodes to the character-level script, which
      describes the two strings. */
  lemma StringScriptDecodes(s1: seq<char>, w1: LineEndsWrapper, s2: seq<char>, w2: LineEndsWrapper)
    requires w1.ValidFor(|s1|) && w2.ValidFor(|s2|)
    ensures ChunksOf(Triples(StringScript(s1, w1, s2, w2)), 0, 0) == StringScript(s1, w1, s2, w2)
    ensures Matches(s1, s2, 0, 0, ChunksOf(Triples(StringScript(s1, w1, s2, w2)), 0, 0))
  {
    StringScriptMatches(s1, w1, s2, w2);
    TriplesRoundTrip(s1, s2, 0, 0, StringScript(s1, w1, s2, w2));
  }
}
