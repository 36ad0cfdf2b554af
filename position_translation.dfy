/** Translation of positions in unchanged text through the change list that
    LiveEdit::CompareStrings produces (TranslatePosition in liveedit.cc), and its two
    users: the source-position table of a bytecode array and the positions of a
    function. */
module PositionTranslation {
  import opened EditScript
  import opened StringDiffSpec
  import opened Wrappers

  /** The shift the changes apply to `pos`, given the shift `diff` in force before
      the first group: the groups are read in order until one starts after `pos`,
      and the last group read sets the shift to its new end minus its old end. */
  function Translated(changes: seq<int>, pos: int, diff: int): int
    decreases |changes|
  {
    if |changes| < 3 || pos < changes[0] then pos + diff
    else Translated(changes[3..], pos, changes[2] - changes[1])
  }

  /** `pos` is not inside any of the changes it is translated past: it lies at or
      beyond the old end of every group that starts at or before it. */
  ghost predicate OutsideChanges(changes: seq<int>, pos: int)
    decreases |changes|
  {
    |changes| < 3 || pos < changes[0] || (pos >= changes[1] && OutsideChanges(changes[3..], pos))
  }

  /** TranslatePosition: walks the groups (change_begin, change_end,
      change_end_new_position) and moves `originalPosition` by the shift of the last
      group that begins at or before it. */
  method TranslatePosition(originalPosition: int, positionChanges: seq<int>) returns (r: int)
    requires |positionChanges| % 3 == 0
    requires OutsideChanges(positionChanges, originalPosition)
    ensures r == Translated(positionChanges, originalPosition, 0)
    ensures (|positionChanges| == 0 || originalPosition < positionChanges[0]) ==> r == originalPosition
  {
    var positionDiff := 0;
    var i := 0;
    while i < |positionChanges|
      invariant i <= |positionChanges| && (|positionChanges| - i) % 3 == 0
      invariant Translated(positionChanges[i..], originalPosition, positionDiff) == Translated(positionChanges, originalPosition, 0)
      invariant OutsideChanges(positionChanges[i..], originalPosition)
    {
      var chunkStart := positionChanges[i];
      if originalPosition < chunkStart {
        break;
      }
      var chunkEnd := positionChanges[i + 1];
      var chunkChangedEnd := positionChanges[i + 2];
      assert positionChanges[i..][3..] == positionChanges[i + 3..];
      positionDiff := chunkChangedEnd - chunkEnd;
      i := i + 3;
    }
    return originalPosition + positionDiff;
  }

  /** A position in a stretch the script leaves unchanged translates to a position of
      the new text holding the same element, and is not inside any change. `diff` is
      the shift between the two stretches the script starts from. */
  lemma {:induction false} TranslateKeepsText<T>(a: seq<T>, b: seq<T>, i: nat, j: nat, cs: seq<Chunk>, pos: nat)
    requires Matches(a, b, i, j, cs)
    requires i <= pos < |a|
    requires forall k :: 0 <= k < |cs| ==> pos < cs[k].pos1 || cs[k].End1() <= pos
    ensures OutsideChanges(Triples(cs), pos)
    ensures 0 <= Translated(Triples(cs), pos, j - i) < |b|
    ensures b[Translated(Triples(cs), pos, j - i)] == a[pos]
    decreases |cs|
  {
    if cs == [] {
      assert a[i..][pos - i] == a[pos];
    } else {
      var c := cs[0];
      var t := Triples(cs);
      assert t == Triple(c) + Triples(cs[1..]);
      assert t[0] == c.pos1 && t[1] == c.End1() && t[2] == c.End2();
      if pos < c.pos1 {
        assert a[i..c.pos1][pos - i] == a[pos];
      } else {
        assert t[3..] == Triples(cs[1..]);
        forall k | 0 <= k < |cs[1..]| ensures pos < cs[1..][k].pos1 || cs[1..][k].End1() <= pos {
          assert cs[1..][k] == cs[k + 1];
        }
        TranslateKeepsText(a, b, c.End1(), c.End2(), cs[1..], pos);
      }
    }
  }

  /** For the change list of two strings: every position of the old text outside the
      changed regions satisfies the requirement of TranslatePosition and lands on the
      same character of the new text. */
  lemma TranslateStringPosition(s1: seq<char>, s2: seq<char>, cs: seq<Chunk>, pos: nat)
    requires Matches(s1, s2, 0, 0, cs) && pos < |s1|
    requires forall k :: 0 <= k < |cs| ==> pos < cs[k].pos1 || cs[k].End1() <= pos
    ensures |Triples(cs)| % 3 == 0 && OutsideChanges(Triples(cs), pos)
    ensures 0 <= Translated(Triples(cs), pos, 0) < |s2| && s2[Translated(Triples(cs), pos, 0)] == s1[pos]
  {
    TranslateKeepsText(s1, s2, 0, 0, cs, pos);
  }

  /** SourcePosition: the script offset and the inlining the offset belongs to. */
  datatype SourcePosition = SourcePosition(scriptOffset: int, inliningId: int)

  /** One entry of a source-position table. */
  datatype PositionTableEntry = PositionTableEntry(codeOffset: int, position: SourcePosition, isStatement: bool)

  /** The entry with its script offset translated; everything else is kept. */
  function TranslatedEntry(e: PositionTableEntry, positionChanges: seq<int>): (r: PositionTableEntry)
    ensures r.codeOffset == e.codeOffset && r.isStatement == e.isStatement
    ensures r.position.inliningId == e.position.inliningId
    ensures r.position.scriptOffset == Translated(positionChanges, e.position.scriptOffset, 0)
  {
    e.(position := e.position.(scriptOffset := Translated(positionChanges, e.position.scriptOffset, 0)))
  }

  ghost predicate TableOutsideChanges(table: seq<PositionTableEntry>, positionChanges: seq<int>) {
    forall k :: 0 <= k < |table| ==> OutsideChanges(positionChanges, table[k].position.scriptOffset)
  }

  /** TranslateSourcePositionTable: rebuilds the table entry by entry, translating each
      script offset and keeping each code offset and statement flag. */
  method TranslateSourcePositionTable(table: seq<PositionTableEntry>, positionChanges: seq<int>)
    returns (newTable: seq<PositionTableEntry>)
    requires |positionChanges| % 3 == 0
    requires TableOutsideChanges(table, positionChanges)
    ensures |newTable| == |table|
    ensures forall k :: 0 <= k < |table| ==> newTable[k] == TranslatedEntry(table[k], positionChanges)
  {
    newTable := [];
    var k := 0;
    while k < |table|
      invariant k <= |table| && |newTable| == k
      invariant forall m :: 0 <= m < k ==> newTable[m] == TranslatedEntry(table[m], positionChanges)
    {
      var position := table[k].position;
      var offset := TranslatePosition(position.scriptOffset, positionChanges);
      newTable := newTable + [PositionTableEntry(table[k].codeOffset, position.(scriptOffset := offset), table[k].isStatement)];
      k := k + 1;
    }
  }

  /** The fields of a SharedFunctionInfo that PatchFunctionPositions reads or writes. */
  class SharedFunctionInfo {
    var startPosition: int
    var endPosition: int
    var functionTokenPosition: int
    /** The scope info's own copy of start and end, when it has position info. */
    var scopePositions: Option<(int, int)>
    /** The source-position table of the bytecode, when there is bytecode. */
    var bytecodePositions: Option<seq<PositionTableEntry>>
    var hasBreakInfo: bool

    constructor (start: int, end: int, tokenPos: int, scopePositions: Option<(int, int)>,
                 bytecodePositions: Option<seq<PositionTableEntry>>, hasBreakInfo: bool)
      ensures startPosition == start && endPosition == end && functionTokenPosition == tokenPos
      ensures this.scopePositions == scopePositions && this.bytecodePositions == bytecodePositions
      ensures this.hasBreakInfo == hasBreakInfo
    {
      startPosition, endPosition, functionTokenPosition := start, end, tokenPos;
      this.scopePositions := scopePositions;
      this.bytecodePositions := bytecodePositions;
      this.hasBreakInfo := hasBreakInfo;
    }

    /** Every position of the function lies outside the changes. */
    ghost predicate PositionsOutside(positionChanges: seq<int>)
      reads this
    {
      && OutsideChanges(positionChanges, startPosition)
      && OutsideChanges(positionChanges, endPosition)
      && OutsideChanges(positionChanges, functionTokenPosition)
      && (bytecodePositions.Some? ==> TableOutsideChanges(bytecodePositions.value, positionChanges))
    }
  }

  /** LiveEdit::PatchFunctionPositions: translates start, end and function token
      position, mirrors start and end into the scope info when it carries positions,
      rewrites the bytecode's position table and drops the break info. */
  method PatchFunctionPositions(info: SharedFunctionInfo, positionChanges: seq<int>)
    requires |positionChanges| % 3 == 0
    requires info.PositionsOutside(positionChanges)
    modifies info
    ensures info.startPosition == Translated(positionChanges, old(info.startPosition), 0)
    ensures info.endPosition == Translated(positionChanges, old(info.endPosition), 0)
    ensures info.functionTokenPosition == Translated(positionChanges, old(info.functionTokenPosition), 0)
    ensures info.scopePositions == if old(info.scopePositions).Some? then Some((info.startPosition, info.endPosition)) else None
    ensures info.bytecodePositions.Some? == old(info.bytecodePositions).Some?
    ensures info.bytecodePositions.Some? ==>
      && |info.bytecodePositions.value| == |old(info.bytecodePositions).value|
      && forall k :: 0 <= k < |info.bytecodePositions.value| ==>
           info.bytecodePositions.value[k] == TranslatedEntry(old(info.bytecodePositions).value[k], positionChanges)
    ensures !info.hasBreakInfo
  {
    var newFunctionStart := TranslatePosition(info.startPosition, positionChanges);
    var newFunctionEnd := TranslatePosition(info.endPosition, positionChanges);
    var newFunctionTokenPos := TranslatePosition(info.functionTokenPosition, positionChanges);

    info.startPosition := newFunctionStart;
    info.endPosition := newFunctionEnd;
    if info.scopePositions.Some? {
      info.scopePositions := Some((newFunctionStart, newFunctionEnd));
    }
    info.functionTokenPosition := newFunctionTokenPos;

    if info.bytecodePositions.Some? {
      var table := TranslateSourcePositionTable(info.bytecodePositions.value, positionChanges);
      info.bytecodePositions := Some(table);
    }
    if info.hasBreakInfo {
      info.hasBreakInfo := false;
    }
  }
}
