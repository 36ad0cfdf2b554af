/** LineEndsWrapper of src/debug/liveedit.cc: a string seen as the lines between its
    newline characters. The positions of the newlines come from the runtime's
    String::CalculateLineEnds, which is taken here as given data. */
module Lines {

  /** `ends` holds the position of every newline of a string of length `stringLen`;
      the wrapper presents the `|ends| + 1` lines they separate. */
  datatype LineEndsWrapper = LineEndsWrapper(ends: seq<nat>, stringLen: nat) {

    /** Number of lines: one more than the number of newlines. */
    function Length(): nat { |ends| + 1 }

    /** Start of line `index`; `index == Length()` gives the start of the imaginary
        line after the last one. */
    function GetLineStart(index: nat): nat
      requires index <= |ends| + 1
    {
      if index == 0 then 0 else GetLineEnd(index - 1)
    }

    /** End of line `index`: one past its newline, or the string length for the last
        line, which has no newline. */
    function GetLineEnd(index: nat): nat
      requires index <= |ends|
    {
      if index == |ends| then stringLen else ends[index] + 1
    }

    /** The ends lie inside a string of length `len`, in strictly ascending order. */
    ghost predicate ValidFor(len: nat) {
      && stringLen == len
      && (forall k :: 0 <= k < |ends| ==> ends[k] < len)
      && (forall k, l :: 0 <= k < l < |ends| ==> ends[k] < ends[l])
    }
  }

  /** `w` describes `s`: its ends are exactly the newline positions of `s`, in order. */
  ghost predicate IsLineEndsOf(s: seq<char>, w: LineEndsWrapper) {
    && w.ValidFor(|s|)
    && (forall k :: 0 <= k < |w.ends| ==> s[w.ends[k]] == '\n')
    && (forall p :: 0 <= p < |s| && s[p] == '\n' ==> p in w.ends)
  }

  /** Lines are well formed: each starts where the previous ends, and none runs past
      the string. */
  lemma LineBounds(s: seq<char>, w: LineEndsWrapper, i: nat)
    requires w.ValidFor(|s|) && i <= |w.ends|
    ensures w.GetLineStart(i) <= w.GetLineEnd(i) <= |s|
    ensures w.GetLineStart(i + 1) == w.GetLineEnd(i)
  {
    if 0 < i < |w.ends| {
      assert w.ends[i - 1] < w.ends[i];
    }
  }

  /** Line starts never decrease. */
  lemma {:induction false} LineStartMonotone(s: seq<char>, w: LineEndsWrapper, i: nat, k: nat)
    requires w.ValidFor(|s|) && i <= k <= w.Length()
    ensures w.GetLineStart(i) <= w.GetLineStart(k) <= |s|
    decreases k - i
  {
    if i < k {
      LineBounds(s, w, k - 1);
      LineStartMonotone(s, w, i, k - 1);
    } else if k > 0 {
      LineBounds(s, w, k - 1);
    }
  }

  /** The text of line `i`. */
  function Line(s: seq<char>, w: LineEndsWrapper, i: nat): (r: seq<char>)
    requires w.ValidFor(|s|) && i < w.Length()
    ensures |r| == w.GetLineEnd(i) - w.GetLineStart(i)
  {
    LineBounds(s, w, i);
    s[w.GetLineStart(i)..w.GetLineEnd(i)]
  }

  /** The lines of the string from line `i` on. */
  function LinesFrom(s: seq<char>, w: LineEndsWrapper, i: nat): (r: seq<seq<char>>)
    requires w.ValidFor(|s|) && i <= w.Length()
    ensures |r| == w.Length() - i
    decreases w.Length() - i
  {
    if i == w.Length() then [] else [Line(s, w, i)] + LinesFrom(s, w, i + 1)
  }

  /** The string as its sequence of lines. */
  function SplitLines(s: seq<char>, w: LineEndsWrapper): (r: seq<seq<char>>)
    requires w.ValidFor(|s|)
    ensures |r| == w.Length()
  {
    LinesFrom(s, w, 0)
  }

  lemma {:induction false} LinesFromIndex(s: seq<char>, w: LineEndsWrapper, i: nat, k: nat)
    requires w.ValidFor(|s|) && i <= k < w.Length()
    ensures LinesFrom(s, w, i)[k - i] == Line(s, w, k)
    decreases k - i
  {
    if i < k {
      LinesFromIndex(s, w, i + 1, k);
    }
  }

  /** Element `k` of the lines is line `k`. */
  lemma SplitLinesIndex(s: seq<char>, w: LineEndsWrapper, k: nat)
    requires w.ValidFor(|s|) && k < w.Length()
    ensures SplitLines(s, w)[k] == Line(s, w, k)
  {
    LinesFromIndex(s, w, 0, k);
  }

  /** Every line but the last ends with its newline; no line has a newline anywhere
      else. */
  lemma LineShape(s: seq<char>, w: LineEndsWrapper, i: nat)
    requires IsLineEndsOf(s, w) && i < w.Length()
    ensures i < |w.ends| ==> |Line(s, w, i)| > 0 && Line(s, w, i)[|Line(s, w, i)| - 1] == '\n'
    ensures forall p :: 0 <= p < |Line(s, w, i)| && Line(s, w, i)[p] == '\n' ==>
      i < |w.ends| && p == |Line(s, w, i)| - 1
  {
    var start, end := w.GetLineStart(i), w.GetLineEnd(i);
    LineBounds(s, w, i);
    forall p | 0 <= p < |Line(s, w, i)| && Line(s, w, i)[p] == '\n'
      ensures i < |w.ends| && p == |Line(s, w, i)| - 1
    {
      assert s[start + p] == '\n';
      var k :| 0 <= k < |w.ends| && w.ends[k] == start + p;
    }
  }

  /** Concatenation of a sequence of lines. */
  function Concat(ls: seq<seq<char>>): seq<char> {
    if ls == [] then [] else Concat(ls[..|ls| - 1]) + ls[|ls| - 1]
  }

  lemma ConcatSnoc(ls: seq<seq<char>>, i: nat, k: nat)
    requires i < k <= |ls|
    ensures Concat(ls[i..k]) == Concat(ls[i..k - 1]) + ls[k - 1]
  {
    assert ls[i..k][..k - 1 - i] == ls[i..k - 1];
  }

  lemma SliceSplit(s: seq<char>, x: nat, y: nat, z: nat)
    requires x <= y <= z <= |s|
    ensures s[x..z] == s[x..y] + s[y..z]
  {
  }

  /** The text between two line starts is the concatenation of the lines between them. */
  lemma {:induction false} TextOfLines(s: seq<char>, w: LineEndsWrapper, i: nat, k: nat)
    requires w.ValidFor(|s|) && i <= k <= w.Length()
    ensures w.GetLineStart(i) <= w.GetLineStart(k) <= |s|
    ensures s[w.GetLineStart(i)..w.GetLineStart(k)] == Concat(SplitLines(s, w)[i..k])
    decreases k - i
  {
    LineStartMonotone(s, w, i, k);
    if i < k {
      TextOfLines(s, w, i, k - 1);
      LineBounds(s, w, k - 1);
      ConcatSnoc(SplitLines(s, w), i, k);
      SplitLinesIndex(s, w, k - 1);
      SliceSplit(s, w.GetLineStart(i), w.GetLineStart(k - 1), w.GetLineStart(k));
    } else {
      assert SplitLines(s, w)[i..k] == [];
    }
  }

  /** The lines tile the string. */
  lemma LinesTileString(s: seq<char>, w: LineEndsWrapper)
    requires w.ValidFor(|s|)
    ensures Concat(SplitLines(s, w)) == s
  {
    TextOfLines(s, w, 0, w.Length());
    assert SplitLines(s, w)[0..w.Length()] == SplitLines(s, w);
  }

  /** Equal runs of lines in two strings cover equal text. */
  lemma EqualLinesEqualText(s1: seq<char>, w1: LineEndsWrapper, s2: seq<char>, w2: LineEndsWrapper,
                            i: nat, k: nat, j: nat, l: nat)
    requires w1.ValidFor(|s1|) && w2.ValidFor(|s2|)
    requires i <= k <= w1.Length() && j <= l <= w2.Length()
    requires SplitLines(s1, w1)[i..k] == SplitLines(s2, w2)[j..l]
    ensures w1.GetLineStart(i) <= w1.GetLineStart(k) <= |s1| && w2.GetLineStart(j) <= w2.GetLineStart(l) <= |s2|
    ensures s1[w1.GetLineStart(i)..w1.GetLineStart(k)] == s2[w2.GetLineStart(j)..w2.GetLineStart(l)]
  {
    TextOfLines(s1, w1, i, k);
    TextOfLines(s2, w2, j, l);
  }
}
