/** The live-edit differencer of src/debug/liveedit.cc: the dynamic-programming table,
    the walk that reads chunks off it, and the writer that coalesces single steps into
    chunks. Each method is proved against the functions of DiffSpec. */
module Differ {
  import opened EditScript
  import opened DiffSpec

  /** Coalesces the walk's single steps into chunks. `chunks` is what has been handed to
      the output's AddChunk so far; the begin positions are -1 until a chunk is opened. */
  class ResultWriter {
    var chunks: seq<Chunk>
    var pos1: nat
    var pos2: nat
    var pos1Begin: int
    var pos2Begin: int
    var hasOpenChunk: bool

    /** An open chunk begins at or before the cursor. */
    ghost predicate Valid()
      reads this
    {
      hasOpenChunk ==> 0 <= pos1Begin <= pos1 && 0 <= pos2Begin <= pos2
    }

    /** The pending chunk, as the specification's `Begin`. */
    ghost function Open(): (r: Begin)
      requires Valid()
      reads this
      ensures OpenBefore(r, pos1, pos2)
    {
      if hasOpenChunk then ChunkFrom(pos1Begin, pos2Begin) else NoChunk
    }

    constructor ()
      ensures Valid() && chunks == [] && pos1 == 0 && pos2 == 0 && Open() == NoChunk
      ensures pos1Begin == -1 && pos2Begin == -1
    {
      chunks := [];
      pos1, pos2 := 0, 0;
      pos1Begin, pos2Begin := -1, -1;
      hasOpenChunk := false;
    }

    /** An equal pair: flushes the open chunk and steps diagonally. */
    method Eq()
      requires Valid()
      modifies this
      ensures Valid() && Open() == NoChunk
      ensures chunks == old(chunks) + Flush(old(Open()), old(pos1), old(pos2))
      ensures pos1 == old(pos1) + 1 && pos2 == old(pos2) + 1
    {
      FlushChunk();
      pos1 := pos1 + 1;
      pos2 := pos2 + 1;
    }

    /** Skips `len1` elements of sequence 1, inside the open chunk or a new one. */
    method Skip1(len1: nat)
      requires Valid()
      modifies this
      ensures Valid() && Open() == Start(old(Open()), old(pos1), old(pos2))
      ensures chunks == old(chunks) && pos1 == old(pos1) + len1 && pos2 == old(pos2)
    {
      StartChunk();
      pos1 := pos1 + len1;
    }

    /** Skips `len2` elements of sequence 2, inside the open chunk or a new one. */
    method Skip2(len2: nat)
      requires Valid()
      modifies this
      ensures Valid() && Open() == Start(old(Open()), old(pos1), old(pos2))
      ensures chunks == old(chunks) && pos1 == old(pos1) && pos2 == old(pos2) + len2
    {
      StartChunk();
      pos2 := pos2 + len2;
    }

    /** Ends the walk: flushes the open chunk. */
    method Close()
      requires Valid()
      modifies this
      ensures Valid() && Open() == NoChunk
      ensures chunks == old(chunks) + Flush(old(Open()), old(pos1), old(pos2))
      ensures pos1 == old(pos1) && pos2 == old(pos2)
    {
      FlushChunk();
    }

    method StartChunk()
      requires Valid()
      modifies this
      ensures Valid() && Open() == Start(old(Open()), pos1, pos2)
      ensures chunks == old(chunks) && pos1 == old(pos1) && pos2 == old(pos2)
    {
      if !hasOpenChunk {
        pos1Begin := pos1;
        pos2Begin := pos2;
        hasOpenChunk := true;
      }
    }

    method FlushChunk()
      requires Valid()
      modifies this
      ensures Valid() && Open() == NoChunk
      ensures chunks == old(chunks) + Flush(old(Open()), old(pos1), old(pos2))
      ensures pos1 == old(pos1) && pos2 == old(pos2)
    {
      if hasOpenChunk {
        chunks := chunks + [Chunk(pos1Begin, pos2Begin, pos1 - pos1Begin, pos2 - pos2Begin)];
        hasOpenChunk := false;
      }
    }
  }

  /** The table of subproblem results for the input sequences `a` and `b`: cell (i, j)
      holds the cost of `a[i..]` against `b[j..]` and the direction taken from there. */
  class Differencer<T(==)> {
    const a: seq<T>
    const b: seq<T>
    const buffer: array2<Cell>

    ghost predicate Dims() {
      buffer.Length0 == |a| && buffer.Length1 == |b|
    }

    /** `c` is what CompareUpToTail computes for cell (p, q). */
    ghost predicate CellOk(p: nat, q: nat, c: Cell)
      requires p < |a| && q < |b|
    {
      c == Cell(Cost(a, b, p, q), Dir(a, b, p, q))
    }

    ghost predicate Filled()
      reads buffer
    {
      Dims() && forall p: nat, q: nat :: p < |a| && q < |b| ==> CellOk(p, q, buffer[p, q])
    }

    constructor (a: seq<T>, b: seq<T>)
      ensures this.a == a && this.b == b && Dims() && fresh(buffer)
    {
      this.a := a;
      this.b := b;
      buffer := new Cell[|a|, |b|];
    }

    /** The cost of a subproblem: the stored cell inside the table, the remaining
        length of the other sequence once one is exhausted. */
    function CostAt(i: nat, j: nat): (r: nat)
      requires Dims() && i <= |a| && j <= |b|
      requires i < |a| && j < |b| ==> CellOk(i, j, buffer[i, j])
      reads buffer
      ensures r == Cost(a, b, i, j)
    {
      if i < |a| then
        if j < |b| then buffer[i, j].cost else |a| - i
      else |b| - j
    }

    /** Fills every cell, last row and column first, so that the cells a cell depends
        on are always filled before it. */
    method FillTable()
      requires Dims()
      modifies buffer
      ensures Filled()
    {
      var i := |a|;
      while i > 0
        invariant 0 <= i <= |a|
        invariant forall p: nat, q: nat :: i <= p < |a| && q < |b| ==> CellOk(p, q, buffer[p, q])
      {
        i := i - 1;
        var j := |b|;
        while j > 0
          invariant 0 <= j <= |b|
          invariant forall p: nat, q: nat :: i < p < |a| && q < |b| ==> CellOk(p, q, buffer[p, q])
          invariant forall q: nat :: j <= q < |b| ==> CellOk(i, q, buffer[i, q])
        {
          j := j - 1;
          var cell := NewCell(i, j);
          buffer[i, j] := cell;
        }
      }
    }

    /** The body of CompareUpToTail for a cell whose successors are all filled. */
    method NewCell(i: nat, j: nat) returns (cell: Cell)
      requires Dims() && i < |a| && j < |b|
      requires i + 1 < |a| ==> CellOk(i + 1, j, buffer[i + 1, j])
      requires j + 1 < |b| ==> CellOk(i, j + 1, buffer[i, j + 1])
      requires i + 1 < |a| && j + 1 < |b| ==> CellOk(i + 1, j + 1, buffer[i + 1, j + 1])
      ensures cell == Cell(Cost(a, b, i, j), Dir(a, b, i, j))
    {
      if a[i] == b[j] {
        cell := Cell(CostAt(i + 1, j + 1), Eq);
      } else {
        var res1 := CostAt(i + 1, j) + 1;
        var res2 := CostAt(i, j + 1) + 1;
        if res1 == res2 {
          cell := Cell(res1, SkipAny);
        } else if res1 < res2 {
          cell := Cell(res1, Skip1);
        } else {
          cell := Cell(res2, Skip2);
        }
      }
    }

    /** Walks the filled table from (0, 0), following the directions, and returns the
        chunks the writer emits. */
    method SaveResult() returns (chunks: seq<Chunk>)
      requires Filled()
      ensures chunks == Diff(a, b)
    {
      var writer := new ResultWriter();
      var pos1: nat := 0;
      var pos2: nat := 0;
      while true
        invariant pos1 <= |a| && pos2 <= |b|
        invariant writer.Valid() && writer.pos1 == pos1 && writer.pos2 == pos2
        invariant writer.chunks + Script(a, b, pos1, pos2, writer.Open()) == Diff(a, b)
        decreases |a| - pos1 + |b| - pos2
      {
        if pos1 < |a| {
          if pos2 < |b| {
            pos1, pos2 := Step(writer, pos1, pos2);
          } else {
            ScriptTail(a, b, pos1, pos2, writer.Open());
            writer.Skip1(|a| - pos1);
            pos1 := |a|;
            ScriptTail(a, b, pos1, pos2, writer.Open());
            break;
          }
        } else {
          ScriptTail(a, b, pos1, pos2, writer.Open());
          if |b| != pos2 {
            writer.Skip2(|b| - pos2);
            pos2 := |b|;
            ScriptTail(a, b, pos1, pos2, writer.Open());
          }
          break;
        }
      }
      writer.Close();
      chunks := writer.chunks;
    }

    /** One step of SaveResult's walk inside the table: the stored direction says
        whether the pair is equal or which element is skipped. */
    method Step(writer: ResultWriter, pos1: nat, pos2: nat) returns (next1: nat, next2: nat)
      requires Filled() && pos1 < |a| && pos2 < |b|
      requires writer.Valid() && writer.pos1 == pos1 && writer.pos2 == pos2
      modifies writer
      ensures writer.Valid() && writer.pos1 == next1 && writer.pos2 == next2
      ensures next1 <= |a| && next2 <= |b| && pos1 + pos2 < next1 + next2
      ensures writer.chunks + Script(a, b, next1, next2, writer.Open())
           == old(writer.chunks) + Script(a, b, pos1, pos2, old(writer.Open()))
    {
      assert CellOk(pos1, pos2, buffer[pos1, pos2]);
      var dir := buffer[pos1, pos2].dir;
      ghost var open := writer.Open();
      if dir == Eq {
        ScriptStepEq(a, b, pos1, pos2, open);
        writer.Eq();
        next1, next2 := pos1 + 1, pos2 + 1;
      } else if dir == Skip1 {
        ScriptStepSkip1(a, b, pos1, pos2, open);
        writer.Skip1(1);
        next1, next2 := pos1 + 1, pos2;
      } else {
        ScriptStepSkip2(a, b, pos1, pos2, open);
        writer.Skip2(1);
        next1, next2 := pos1, pos2 + 1;
      }
    }
  }

  /** Comparator::CalculateDifference: fills the table and reads the script off it.
      The script describes the inputs, is canonical, and is of minimal cost. */
  method CalculateDifference<T(==)>(a: seq<T>, b: seq<T>) returns (chunks: seq<Chunk>)
    ensures chunks == Diff(a, b)
    ensures Matches(a, b, 0, 0, chunks) && Canonical(chunks)
    ensures forall cs :: Matches(a, b, 0, 0, cs) ==> ScriptCost(chunks) <= ScriptCost(cs)
  {
    var differencer := new Differencer(a, b);
    differencer.FillTable();
    chunks := differencer.SaveResult();
    DiffIsOptimalScript(a, b);
  }
}
