/** LiveEdit::CompareStrings of src/debug/liveedit.cc and the input and output objects
    it plugs into the differencer: lines as the comparator's elements, a line-level
    output that re-compares short chunks character by character, and the writer that
    stores every chunk as three numbers. */
module StringDiff {
  import opened EditScript
  import opened DiffSpec
  import opened Differ
  import opened Lines
  import opened StringDiffSpec

  /** Whether `len` characters of `s1` from `pos1` equal those of `s2` from `pos2`. */
  method CompareSubstrings(s1: seq<char>, pos1: nat, s2: seq<char>, pos2: nat, len: nat) returns (r: bool)
    requires pos1 + len <= |s1| && pos2 + len <= |s2|
    ensures r <==> s1[pos1..pos1 + len] == s2[pos2..pos2 + len]
  {
    var i := 0;
    while i < len
      invariant i <= len
      invariant s1[pos1..pos1 + i] == s2[pos2..pos2 + i]
    {
      if s1[i + pos1] != s2[i + pos2] {
        assert s1[pos1..pos1 + len][i] != s2[pos2..pos2 + len][i];
        return false;
      }
      assert s1[pos1..pos1 + i + 1] == s1[pos1..pos1 + i] + [s1[pos1 + i]];
      assert s2[pos2..pos2 + i + 1] == s2[pos2..pos2 + i] + [s2[pos2 + i]];
      i := i + 1;
    }
    return true;
  }

  /** Collects the chunks as numbers: (start in string 1, end in string 1, end in
      string 2) per chunk. The length of `numbers` is the source's `current_size_`. */
  class CompareOutputArrayWriter {
    var numbers: seq<int>

    constructor ()
      ensures numbers == []
    {
      numbers := [];
    }

    method WriteChunk(charPos1: nat, charPos2: nat, charLen1: nat, charLen2: nat)
      modifies this
      ensures numbers == old(numbers) + Triple(Chunk(charPos1, charPos2, charLen1, charLen2))
    {
      numbers := numbers + [charPos1, charPos1 + charLen1, charPos2 + charLen2];
    }
  }

  /** Output of a character-level comparison of two spans: moves each chunk to
      absolute positions before writing it. */
  class TokensCompareOutput {
    const arrayWriter: CompareOutputArrayWriter
    const offset1: nat
    const offset2: nat

    constructor (arrayWriter: CompareOutputArrayWriter, offset1: nat, offset2: nat)
      ensures this.arrayWriter == arrayWriter && this.offset1 == offset1 && this.offset2 == offset2
    {
      this.arrayWriter := arrayWriter;
      this.offset1 := offset1;
      this.offset2 := offset2;
    }

    method AddChunk(pos1: nat, pos2: nat, len1: nat, len2: nat)
      modifies arrayWriter
      ensures arrayWriter.numbers == old(arrayWriter.numbers) + Triples(Shift([Chunk(pos1, pos2, len1, len2)], offset1, offset2))
    {
      arrayWriter.WriteChunk(pos1 + offset1, pos2 + offset2, len1, len2);
    }

    /** The AddChunk calls the differencer makes for the chunks of a comparison. */
    method AddChunks(chunks: seq<Chunk>)
      modifies arrayWriter
      ensures arrayWriter.numbers == old(arrayWriter.numbers) + Triples(Shift(chunks, offset1, offset2))
    {
      var k := 0;
      while k < |chunks|
        invariant k <= |chunks|
        invariant arrayWriter.numbers == old(arrayWriter.numbers) + Triples(Shift(chunks[..k], offset1, offset2))
      {
        var c := chunks[k];
        AddChunk(c.pos1, c.pos2, c.len1, c.len2);
        assert chunks[..k + 1] == chunks[..k] + [c];
        ShiftAppend(chunks[..k], [c], offset1, offset2);
        TriplesAppend(Shift(chunks[..k], offset1, offset2), Shift([c], offset1, offset2));
        k := k + 1;
      }
      assert chunks[..k] == chunks;
    }
  }

  /** The lines of two strings as the comparator's two element sequences, restricted
      to a sub-range of each. */
  class LineArrayCompareInput {
    const s1: seq<char>
    const s2: seq<char>
    const lineEnds1: LineEndsWrapper
    const lineEnds2: LineEndsWrapper
    var subrangeOffset1: nat
    var subrangeOffset2: nat
    var subrangeLen1: nat
    var subrangeLen2: nat

    ghost predicate Valid()
      reads this
    {
      && lineEnds1.ValidFor(|s1|) && lineEnds2.ValidFor(|s2|)
      && subrangeOffset1 + subrangeLen1 <= lineEnds1.Length()
      && subrangeOffset2 + subrangeLen2 <= lineEnds2.Length()
    }

    /** The lines of the sub-range of string 1. */
    function Elements1(): (r: seq<seq<char>>)
      requires Valid()
      reads this
      ensures |r| == subrangeLen1
    {
      SplitLines(s1, lineEnds1)[subrangeOffset1..subrangeOffset1 + subrangeLen1]
    }

    /** The lines of the sub-range of string 2. */
    function Elements2(): (r: seq<seq<char>>)
      requires Valid()
      reads this
      ensures |r| == subrangeLen2
    {
      SplitLines(s2, lineEnds2)[subrangeOffset2..subrangeOffset2 + subrangeLen2]
    }

    constructor (s1: seq<char>, s2: seq<char>, lineEnds1: LineEndsWrapper, lineEnds2: LineEndsWrapper)
      requires lineEnds1.ValidFor(|s1|) && lineEnds2.ValidFor(|s2|)
      ensures Valid() && this.s1 == s1 && this.s2 == s2
      ensures this.lineEnds1 == lineEnds1 && this.lineEnds2 == lineEnds2
      ensures subrangeOffset1 == 0 && subrangeOffset2 == 0
      ensures subrangeLen1 == lineEnds1.Length() && subrangeLen2 == lineEnds2.Length()
    {
      this.s1, this.s2 := s1, s2;
      this.lineEnds1, this.lineEnds2 := lineEnds1, lineEnds2;
      subrangeOffset1, subrangeOffset2 := 0, 0;
      subrangeLen1, subrangeLen2 := lineEnds1.Length(), lineEnds2.Length();
    }

    /** Two lines are equal when they have the same length and the same characters. */
    method Equals(index1: nat, index2: nat) returns (r: bool)
      requires Valid() && index1 < subrangeLen1 && index2 < subrangeLen2
      ensures r <==> Elements1()[index1] == Elements2()[index2]
    {
      var i1 := index1 + subrangeOffset1;
      var i2 := index2 + subrangeOffset2;
      LineBounds(s1, lineEnds1, i1);
      LineBounds(s2, lineEnds2, i2);
      var lineStart1 := lineEnds1.GetLineStart(i1);
      var lineStart2 := lineEnds2.GetLineStart(i2);
      var lineEnd1 := lineEnds1.GetLineEnd(i1);
      var lineEnd2 := lineEnds2.GetLineEnd(i2);
      var len1 := lineEnd1 - lineStart1;
      var len2 := lineEnd2 - lineStart2;
      SplitLinesIndex(s1, lineEnds1, i1);
      SplitLinesIndex(s2, lineEnds2, i2);
      assert Elements1()[index1] == Line(s1, lineEnds1, i1);
      assert Elements2()[index2] == Line(s2, lineEnds2, i2);
      if len1 != len2 {
        return false;
      }
      r := CompareSubstrings(s1, lineStart1, s2, lineStart2, len1);
    }

    method SetSubrange1(offset: nat, len: nat)
      requires offset + len <= lineEnds1.Length()
      modifies this
      ensures subrangeOffset1 == offset && subrangeLen1 == len
      ensures subrangeOffset2 == old(subrangeOffset2) && subrangeLen2 == old(subrangeLen2)
    {
      subrangeOffset1 := offset;
      subrangeLen1 := len;
    }

    method SetSubrange2(offset: nat, len: nat)
      requires offset + len <= lineEnds2.Length()
      modifies this
      ensures subrangeOffset2 == offset && subrangeLen2 == len
      ensures subrangeOffset1 == old(subrangeOffset1) && subrangeLen1 == old(subrangeLen1)
    {
      subrangeOffset2 := offset;
      subrangeLen2 := len;
    }
  }

  /** Output of the line-level comparison: turns each chunk of lines into characters
      and writes either the chunks of a nested character comparison or the whole
      span. The sub-range offsets move line numbers back to the whole string. */
  class TokenizingLineArrayCompareOutput {
    const arrayWriter: CompareOutputArrayWriter
    const lineEnds1: LineEndsWrapper
    const lineEnds2: LineEndsWrapper
    const s1: seq<char>
    const s2: seq<char>
    var subrangeOffset1: nat
    var subrangeOffset2: nat

    ghost predicate Valid() {
      lineEnds1.ValidFor(|s1|) && lineEnds2.ValidFor(|s2|)
    }

    constructor (lineEnds1: LineEndsWrapper, lineEnds2: LineEndsWrapper, s1: seq<char>, s2: seq<char>)
      ensures this.lineEnds1 == lineEnds1 && this.lineEnds2 == lineEnds2 && this.s1 == s1 && this.s2 == s2
      ensures fresh(arrayWriter) && arrayWriter.numbers == []
      ensures subrangeOffset1 == 0 && subrangeOffset2 == 0
    {
      this.lineEnds1, this.lineEnds2 := lineEnds1, lineEnds2;
      this.s1, this.s2 := s1, s2;
      arrayWriter := new CompareOutputArrayWriter();
      subrangeOffset1, subrangeOffset2 := 0, 0;
    }

    /** Moves the chunk of lines back to the whole strings and writes it. */
    method AddChunk(linePos1: nat, linePos2: nat, lineLen1: nat, lineLen2: nat)
      requires Valid()
      requires linePos1 + subrangeOffset1 + lineLen1 <= lineEnds1.Length()
      requires linePos2 + subrangeOffset2 + lineLen2 <= lineEnds2.Length()
      modifies arrayWriter
      ensures arrayWriter.numbers == old(arrayWriter.numbers) +
        Triples(RefineChunk(s1, lineEnds1, s2, lineEnds2,
                            Chunk(linePos1 + subrangeOffset1, linePos2 + subrangeOffset2, lineLen1, lineLen2), CharDiff))
    {
      WriteLineChunk(arrayWriter, s1, lineEnds1, s2, lineEnds2,
                     Chunk(linePos1 + subrangeOffset1, linePos2 + subrangeOffset2, lineLen1, lineLen2));
    }

    /** The AddChunk calls the differencer makes for the chunks of the line-level
        comparison. */
    method AddChunks(chunks: seq<Chunk>)
      requires Valid() && InLines(Shift(chunks, subrangeOffset1, subrangeOffset2), lineEnds1.Length(), lineEnds2.Length())
      modifies arrayWriter
      ensures arrayWriter.numbers == old(arrayWriter.numbers) +
        Triples(Refine(s1, lineEnds1, s2, lineEnds2, Shift(chunks, subrangeOffset1, subrangeOffset2), CharDiff))
    {
      WriteLineChunks(arrayWriter, s1, lineEnds1, s2, lineEnds2, chunks, subrangeOffset1, subrangeOffset2);
    }

    /** Only the offset is kept; the length is not needed to move chunks back. */
    method SetSubrange1(offset: nat, len: nat)
      modifies this
      ensures subrangeOffset1 == offset && subrangeOffset2 == old(subrangeOffset2)
    {
      subrangeOffset1 := offset;
    }

    method SetSubrange2(offset: nat, len: nat)
      modifies this
      ensures subrangeOffset2 == offset && subrangeOffset1 == old(subrangeOffset1)
    {
      subrangeOffset2 := offset;
    }
  }

  lemma ShiftedChunkInLines(w1: LineEndsWrapper, w2: LineEndsWrapper, chunks: seq<Chunk>, k: nat, o1: nat, o2: nat)
    requires k < |chunks| && InLines(Shift(chunks, o1, o2), w1.Length(), w2.Length())
    ensures chunks[k].pos1 + o1 + chunks[k].len1 <= w1.Length()
    ensures chunks[k].pos2 + o2 + chunks[k].len2 <= w2.Length()
  {
    ShiftIndex(chunks, o1, o2, k);
  }

  /** The body of TokenizingLineArrayCompareOutput::AddChunk for a chunk of lines
      `c` of the whole strings: its character span is compared character by
      character when both sides are short, and written whole otherwise. */
  method WriteLineChunk(writer: CompareOutputArrayWriter, s1: seq<char>, w1: LineEndsWrapper,
                        s2: seq<char>, w2: LineEndsWrapper, c: Chunk)
    requires w1.ValidFor(|s1|) && w2.ValidFor(|s2|) && c.End1() <= w1.Length() && c.End2() <= w2.Length()
    modifies writer
    ensures writer.numbers == old(writer.numbers) + Triples(RefineChunk(s1, w1, s2, w2, c, CharDiff))
  {
    LineStartMonotone(s1, w1, c.pos1, c.End1());
    LineStartMonotone(s2, w2, c.pos2, c.End2());
    var charPos1 := w1.GetLineStart(c.pos1);
    var charPos2 := w2.GetLineStart(c.pos2);
    var charLen1 := w1.GetLineStart(c.End1()) - charPos1;
    var charLen2 := w2.GetLineStart(c.End2()) - charPos2;
    ghost var cc := Chunk(charPos1, charPos2, charLen1, charLen2);
    assert cc == CharSpan(s1, w1, s2, w2, c);
    if charLen1 < ChunkLenLimit && charLen2 < ChunkLenLimit {
      var chunks := CalculateDifference(s1[charPos1..charPos1 + charLen1], s2[charPos2..charPos2 + charLen2]);
      RefineSpanNested(s1, s2, cc, CharDiff, chunks);
      var tokensOutput := new TokensCompareOutput(writer, charPos1, charPos2);
      tokensOutput.AddChunks(chunks);
    } else {
      writer.WriteChunk(charPos1, charPos2, charLen1, charLen2);
      assert Triples([cc]) == Triple(cc);
    }
  }

  /** The line-level chunks, found between lines `o1` and `o2` onwards, written one
      after the other. */
  method WriteLineChunks(writer: CompareOutputArrayWriter, s1: seq<char>, w1: LineEndsWrapper,
                         s2: seq<char>, w2: LineEndsWrapper, chunks: seq<Chunk>, o1: nat, o2: nat)
    requires w1.ValidFor(|s1|) && w2.ValidFor(|s2|) && InLines(Shift(chunks, o1, o2), w1.Length(), w2.Length())
    modifies writer
    ensures writer.numbers == old(writer.numbers) + Triples(Refine(s1, w1, s2, w2, Shift(chunks, o1, o2), CharDiff))
  {
    var k := 0;
    while k < |chunks|
      invariant k <= |chunks|
      invariant InLines(Shift(chunks[..k], o1, o2), w1.Length(), w2.Length())
      invariant writer.numbers == old(writer.numbers) + Triples(Refine(s1, w1, s2, w2, Shift(chunks[..k], o1, o2), CharDiff))
    {
      var c := chunks[k];
      ShiftedChunkInLines(w1, w2, chunks, k, o1, o2);
      ghost var done := Triples(Refine(s1, w1, s2, w2, Shift(chunks[..k], o1, o2), CharDiff));
      ghost var before := writer.numbers;
      WriteLineChunk(writer, s1, w1, s2, w2, Chunk(c.pos1 + o1, c.pos2 + o2, c.len1, c.len2));
      RefinedTriplesStep(s1, w1, s2, w2, chunks, k, o1, o2);
      AppendAssoc(old(writer.numbers), done, writer.numbers[|before|..]);
      k := k + 1;
    }
    assert chunks[..k] == chunks;
  }

  lemma AppendAssoc(a: seq<int>, b: seq<int>, c: seq<int>)
    ensures (a + b) + c == a + (b + c)
  {
  }

  /** Refining one more chunk of the line-level script appends its refinement. */
  lemma AppendRefined(s1: seq<char>, w1: LineEndsWrapper, s2: seq<char>, w2: LineEndsWrapper,
                      chunks: seq<Chunk>, k: nat, o1: nat, o2: nat)
    requires w1.ValidFor(|s1|) && w2.ValidFor(|s2|) && k < |chunks|
    requires InLines(Shift(chunks, o1, o2), w1.Length(), w2.Length())
    requires InLines(Shift(chunks[..k], o1, o2), w1.Length(), w2.Length())
    ensures InLines(Shift(chunks[..k + 1], o1, o2), w1.Length(), w2.Length())
    ensures chunks[k].pos1 + o1 + chunks[k].len1 <= w1.Length()
    ensures chunks[k].pos2 + o2 + chunks[k].len2 <= w2.Length()
    ensures Refine(s1, w1, s2, w2, Shift(chunks[..k + 1], o1, o2), CharDiff)
         == Refine(s1, w1, s2, w2, Shift(chunks[..k], o1, o2), CharDiff)
          + RefineChunk(s1, w1, s2, w2, Chunk(chunks[k].pos1 + o1, chunks[k].pos2 + o2, chunks[k].len1, chunks[k].len2), CharDiff)
  {
    var c := chunks[k];
    var c' := Chunk(c.pos1 + o1, c.pos2 + o2, c.len1, c.len2);
    ShiftedChunkInLines(w1, w2, chunks, k, o1, o2);
    assert chunks[..k + 1] == chunks[..k] + [c];
    ShiftAppend(chunks[..k], [c], o1, o2);
    assert Shift([c], o1, o2) == [c'];
    RefineSingle(s1, w1, s2, w2, c', CharDiff);
    RefineAppend(s1, w1, s2, w2, Shift(chunks[..k], o1, o2), [c'], CharDiff);
  }

  /** The triples of one more refined chunk follow those already written. */
  lemma RefinedTriplesStep(s1: seq<char>, w1: LineEndsWrapper, s2: seq<char>, w2: LineEndsWrapper,
                           chunks: seq<Chunk>, k: nat, o1: nat, o2: nat)
    requires w1.ValidFor(|s1|) && w2.ValidFor(|s2|) && k < |chunks|
    requires InLines(Shift(chunks, o1, o2), w1.Length(), w2.Length())
    requires InLines(Shift(chunks[..k], o1, o2), w1.Length(), w2.Length())
    ensures InLines(Shift(chunks[..k + 1], o1, o2), w1.Length(), w2.Length())
    ensures chunks[k].pos1 + o1 + chunks[k].len1 <= w1.Length()
    ensures chunks[k].pos2 + o2 + chunks[k].len2 <= w2.Length()
    ensures Triples(Refine(s1, w1, s2, w2, Shift(chunks[..k + 1], o1, o2), CharDiff))
         == Triples(Refine(s1, w1, s2, w2, Shift(chunks[..k], o1, o2), CharDiff))
          + Triples(RefineChunk(s1, w1, s2, w2, Chunk(chunks[k].pos1 + o1, chunks[k].pos2 + o2, chunks[k].len1, chunks[k].len2), CharDiff))
  {
    AppendRefined(s1, w1, s2, w2, chunks, k, o1, o2);
    TriplesAppend(Refine(s1, w1, s2, w2, Shift(chunks[..k], o1, o2), CharDiff),
      RefineChunk(s1, w1, s2, w2, Chunk(chunks[k].pos1 + o1, chunks[k].pos2 + o2, chunks[k].len1, chunks[k].len2), CharDiff));
  }

  lemma SliceOfPrefix<T>(s: seq<T>, len: nat, p: nat, q: nat)
    requires p <= q <= len <= |s|
    ensures s[0..len][p..q] == s[p..q]
  {
  }

  function Min(x: nat, y: nat): nat { if x < y then x else y }

  /** Sets the longest common prefix and then the longest common suffix of the rest
      aside, by narrowing both the input and the output to what lies in between; when
      nothing is common neither is touched. The sub-range set is absolute, so the
      input must not be narrowed already. */
  method NarrowDownInput(input: LineArrayCompareInput, output: TokenizingLineArrayCompareOutput)
    returns (commonPrefixLen: nat, commonSuffixLen: nat)
    requires input.Valid() && input.subrangeOffset1 == 0 && input.subrangeOffset2 == 0
    requires output.subrangeOffset1 == 0 && output.subrangeOffset2 == 0
    modifies input, output
    ensures input.Valid()
    ensures commonPrefixLen + commonSuffixLen <= old(input.subrangeLen1)
    ensures commonPrefixLen + commonSuffixLen <= old(input.subrangeLen2)
    ensures commonPrefixLen == PrefixFrom(old(input.Elements1()), old(input.Elements2()), 0)
    ensures commonSuffixLen == SuffixFrom(old(input.Elements1()), old(input.Elements2()), commonPrefixLen, 0)
    ensures input.subrangeOffset1 == commonPrefixLen && input.subrangeOffset2 == commonPrefixLen
    ensures output.subrangeOffset1 == commonPrefixLen && output.subrangeOffset2 == commonPrefixLen
    ensures input.Elements1() == old(input.Elements1())[commonPrefixLen..old(input.subrangeLen1) - commonSuffixLen]
    ensures input.Elements2() == old(input.Elements2())[commonPrefixLen..old(input.subrangeLen2) - commonSuffixLen]
  {
    commonPrefixLen := CommonPrefixLen(input);
    commonSuffixLen := CommonSuffixLen(input, commonPrefixLen);
    NarrowTo(input, output, commonPrefixLen, commonSuffixLen);
  }

  /** The tail of NarrowDownInput: narrows the input and the output to what lies
      between `prefixLen` and `suffixLen` common lines, leaving both untouched when
      there are none. */
  method NarrowTo(input: LineArrayCompareInput, output: TokenizingLineArrayCompareOutput, prefixLen: nat, suffixLen: nat)
    requires input.Valid() && input.subrangeOffset1 == 0 && input.subrangeOffset2 == 0
    requires output.subrangeOffset1 == 0 && output.subrangeOffset2 == 0
    requires prefixLen + suffixLen <= input.subrangeLen1 && prefixLen + suffixLen <= input.subrangeLen2
    modifies input, output
    ensures input.Valid()
    ensures input.subrangeOffset1 == prefixLen && input.subrangeOffset2 == prefixLen
    ensures output.subrangeOffset1 == prefixLen && output.subrangeOffset2 == prefixLen
    ensures input.Elements1() == old(input.Elements1())[prefixLen..old(input.subrangeLen1) - suffixLen]
    ensures input.Elements2() == old(input.Elements2())[prefixLen..old(input.subrangeLen2) - suffixLen]
  {
    ghost var e1, e2 := input.Elements1(), input.Elements2();
    var len1 := input.subrangeLen1;
    var len2 := input.subrangeLen2;
    if prefixLen > 0 || suffixLen > 0 {
      var newLen1 := len1 - suffixLen - prefixLen;
      var newLen2 := len2 - suffixLen - prefixLen;

      input.SetSubrange1(prefixLen, newLen1);
      input.SetSubrange2(prefixLen, newLen2);

      output.SetSubrange1(prefixLen, newLen1);
      output.SetSubrange2(prefixLen, newLen2);
      SliceOfPrefix(SplitLines(input.s1, input.lineEnds1), len1, prefixLen, len1 - suffixLen);
      SliceOfPrefix(SplitLines(input.s2, input.lineEnds2), len2, prefixLen, len2 - suffixLen);
    } else {
      assert e1[0..len1] == e1 && e2[0..len2] == e2;
    }
  }

  /** The first loop of NarrowDownInput: counts the equal lines at the front. */
  method CommonPrefixLen(input: LineArrayCompareInput) returns (commonPrefixLen: nat)
    requires input.Valid()
    ensures commonPrefixLen == PrefixFrom(input.Elements1(), input.Elements2(), 0)
    ensures commonPrefixLen <= input.subrangeLen1 && commonPrefixLen <= input.subrangeLen2
  {
    ghost var e1, e2 := input.Elements1(), input.Elements2();
    commonPrefixLen := 0;
    var prefixLimit := Min(input.subrangeLen1, input.subrangeLen2);
    while commonPrefixLen < prefixLimit
      invariant commonPrefixLen <= prefixLimit
      invariant PrefixFrom(e1, e2, commonPrefixLen) == PrefixFrom(e1, e2, 0)
    {
      var eq := input.Equals(commonPrefixLen, commonPrefixLen);
      if !eq {
        break;
      }
      commonPrefixLen := commonPrefixLen + 1;
    }
  }

  /** The second loop of NarrowDownInput: counts the equal lines at the back, short of
      the `commonPrefixLen` lines already set aside. */
  method CommonSuffixLen(input: LineArrayCompareInput, commonPrefixLen: nat) returns (commonSuffixLen: nat)
    requires input.Valid() && commonPrefixLen <= input.subrangeLen1 && commonPrefixLen <= input.subrangeLen2
    ensures commonSuffixLen == SuffixFrom(input.Elements1(), input.Elements2(), commonPrefixLen, 0)
    ensures commonPrefixLen + commonSuffixLen <= input.subrangeLen1
    ensures commonPrefixLen + commonSuffixLen <= input.subrangeLen2
  {
    ghost var e1, e2 := input.Elements1(), input.Elements2();
    var len1, len2 := input.subrangeLen1, input.subrangeLen2;
    commonSuffixLen := 0;
    var suffixLimit := Min(len1 - commonPrefixLen, len2 - commonPrefixLen);
    while commonSuffixLen < suffixLimit
      invariant commonSuffixLen <= suffixLimit
      invariant SuffixFrom(e1, e2, commonPrefixLen, commonSuffixLen) == SuffixFrom(e1, e2, commonPrefixLen, 0)
    {
      var eq := input.Equals(len1 - commonSuffixLen - 1, len2 - commonSuffixLen - 1);
      if !eq {
        SuffixStop(e1, e2, commonPrefixLen, commonSuffixLen);
        break;
      }
      SuffixStep(e1, e2, commonPrefixLen, commonSuffixLen);
      commonSuffixLen := commonSuffixLen + 1;
    }
    if commonSuffixLen == suffixLimit {
      SuffixStop(e1, e2, commonPrefixLen, commonSuffixLen);
    }
  }

  /** Comparator::CalculateDifference run on the lines of the input's sub-ranges,
      with the line-level output as the place the chunks go. */
  method CalculateLineDifference(input: LineArrayCompareInput, output: TokenizingLineArrayCompareOutput)
    requires input.Valid() && output.Valid()
    requires output.s1 == input.s1 && output.s2 == input.s2
    requires output.lineEnds1 == input.lineEnds1 && output.lineEnds2 == input.lineEnds2
    requires output.subrangeOffset1 == input.subrangeOffset1 && output.subrangeOffset2 == input.subrangeOffset2
    modifies output.arrayWriter
    ensures InLines(Shift(Diff(input.Elements1(), input.Elements2()), input.subrangeOffset1, input.subrangeOffset2),
                    input.lineEnds1.Length(), input.lineEnds2.Length())
    ensures output.arrayWriter.numbers == old(output.arrayWriter.numbers) +
      Triples(Refine(input.s1, input.lineEnds1, input.s2, input.lineEnds2,
                     Shift(Diff(input.Elements1(), input.Elements2()), input.subrangeOffset1, input.subrangeOffset2), CharDiff))
  {
    var lineChunks := CalculateDifference(input.Elements1(), input.Elements2());
    DiffInBounds(input.Elements1(), input.Elements2());
    ShiftInLines(lineChunks, input.subrangeLen1, input.subrangeLen2, input.subrangeOffset1, input.subrangeOffset2,
                 input.lineEnds1.Length(), input.lineEnds2.Length());
    output.AddChunks(lineChunks);
  }

  /** LiveEdit::CompareStrings: the chunks by which `s2` differs from `s1`, encoded as
      triples. `ends1` and `ends2` are the line-end positions of the two strings, in ascending order. The
      triples decode to a script that describes the two strings. */
  method CompareStrings(s1: seq<char>, s2: seq<char>, ends1: seq<nat>, ends2: seq<nat>) returns (result: seq<int>)
    requires LineEndsWrapper(ends1, |s1|).ValidFor(|s1|) && LineEndsWrapper(ends2, |s2|).ValidFor(|s2|)
    ensures result == Triples(StringScript(s1, LineEndsWrapper(ends1, |s1|), s2, LineEndsWrapper(ends2, |s2|)))
    ensures Matches(s1, s2, 0, 0, ChunksOf(result, 0, 0)) && Triples(ChunksOf(result, 0, 0)) == result
  {
    var lineEnds1 := LineEndsWrapper(ends1, |s1|);
    var lineEnds2 := LineEndsWrapper(ends2, |s2|);
    ghost var x, y := SplitLines(s1, lineEnds1), SplitLines(s2, lineEnds2);

    var input := new LineArrayCompareInput(s1, s2, lineEnds1, lineEnds2);
    var output := new TokenizingLineArrayCompareOutput(lineEnds1, lineEnds2, s1, s2);
    assert input.Elements1() == x && input.Elements2() == y;

    var p, n := NarrowDownInput(input, output);
    ghost var e1, e2 := input.Elements1(), input.Elements2();
    assert e1 == x[p..|x| - n] && e2 == y[p..|y| - n];
    CalculateLineDifference(input, output);
    result := output.arrayWriter.numbers;
    assert result == Triples(Refine(s1, lineEnds1, s2, lineEnds2, Shift(Diff(e1, e2), p, p), CharDiff));
    NarrowedScriptIs(x, y, p, n, Diff(e1, e2));
    StringScriptDecodes(s1, lineEnds1, s2, lineEnds2);
  }
}
