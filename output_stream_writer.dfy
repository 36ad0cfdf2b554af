/** OutputStreamWriter (output-stream-writer.h): collects characters in a fixed-size
    chunk and hands each full chunk to an embedder-supplied output stream, which may ask
    it to abort. */
module OutputStreamWriting {
  import opened DecimalText
  import opened JsonEscape

  /** What v8::OutputStream::WriteAsciiChunk answers. */
  datatype WriteResult = Continue | Abort

  /** The embedder's output stream: its chunk size, and a record of the chunks and the
      end-of-stream notices it received. It may answer any chunk with Abort. */
  class OutputStream {
    const chunkSize: int
    var chunks: seq<seq<char>>
    var endOfStreamCount: nat

    constructor (chunkSize: int)
      ensures this.chunkSize == chunkSize && chunks == [] && endOfStreamCount == 0
    {
      this.chunkSize := chunkSize;
      chunks := [];
      endOfStreamCount := 0;
    }

    method WriteAsciiChunk(data: seq<char>) returns (r: WriteResult)
      modifies this
      ensures chunks == old(chunks) + [data] && endOfStreamCount == old(endOfStreamCount)
    {
      chunks := chunks + [data];
      r :| true;
    }

    method EndOfStream()
      modifies this
      ensures chunks == old(chunks) && endOfStreamCount == old(endOfStreamCount) + 1
    {
      endOfStreamCount := endOfStreamCount + 1;
    }
  }

  /** The characters of a sequence of chunks, in order. */
  function Flatten(chunks: seq<seq<char>>): seq<char> {
    if chunks == [] then [] else Flatten(chunks[..|chunks| - 1]) + chunks[|chunks| - 1]
  }

  lemma FlattenAppend(chunks: seq<seq<char>>, c: seq<char>)
    ensures Flatten(chunks + [c]) == Flatten(chunks) + c
  {
    assert (chunks + [c])[..|chunks|] == chunks;
  }

  lemma AppendAssoc(a: seq<char>, b: seq<char>, c: seq<char>)
    ensures a + b + c == a + (b + c)
  {
  }

  lemma AppendFour(a: seq<char>, p: seq<char>, c1: char, c2: char, c3: char, c4: char)
    ensures a + p + [c1] + [c2] + [c3] + [c4] == a + (p + [c1, c2, c3, c4])
  {
  }

  lemma SerializedParts(a: seq<char>, e: seq<char>)
    ensures a + ['\n'] + ['"'] + e + ['"'] == a + ("\n\"" + e + "\"")
  {
  }

  /** The longest unsigned number of the given width and its terminating NUL. */
  function MaxNumberSize(width: Width): int {
    (if width == FourBytes then MaxUnsignedDigits4 else MaxUnsignedDigits8) + 1
  }

  class OutputStreamWriter {
    const stream: OutputStream
    const chunkSize: int
    const chunk: array<char>
    var chunkPos: int
    var aborted: bool
    /** Every character added since construction. */
    ghost var added: seq<char>
    /** The chunks this writer handed to the stream. */
    ghost var written: seq<seq<char>>
    ghost const chunksBefore: seq<seq<char>>
    ghost const endsBefore: nat

    /** The state between two steps of an operation: the chunk may be full. What was
        handed to the stream followed by the chunk is everything added, until the stream
        aborts; from then on nothing more reaches it. */
    ghost predicate Consistent()
      reads this, stream, chunk
    {
      && chunkSize == stream.chunkSize == chunk.Length > 0
      && 0 <= chunkPos <= chunkSize
      && stream.chunks == chunksBefore + written
      && stream.endOfStreamCount == endsBefore
      && (!aborted ==> Flatten(written) + chunk[..chunkPos] == added)
      && (aborted ==> Flatten(written) <= added)
    }

    /** The state between public calls: there is room in the chunk for one more
        character, and every chunk handed over so far was full. */
    ghost predicate Valid()
      reads this, stream, chunk
    {
      && Consistent()
      && chunkPos < chunkSize
      && forall k :: 0 <= k < |written| ==> |written[k]| == chunkSize
    }

    /** Once aborted, the writer stays aborted and hands nothing more to the stream. */
    twostate predicate KeepsAbort()
      reads this
    {
      old(aborted) ==> aborted && written == old(written)
    }

    constructor (stream: OutputStream)
      requires stream.chunkSize > 0
      ensures Valid() && fresh(chunk)
      ensures this.stream == stream && added == [] && written == [] && !aborted && chunkPos == 0
    {
      this.stream := stream;
      chunkSize := stream.chunkSize;
      chunk := new char[stream.chunkSize];
      chunkPos := 0;
      aborted := false;
      added := [];
      written := [];
      chunksBefore := stream.chunks;
      endsBefore := stream.endOfStreamCount;
      new;
      assert Flatten(written) + chunk[..chunkPos] == [];
    }

    /** AddCharacter: appends `c`, handing the chunk over when it becomes full. */
    method AddCharacter(c: char)
      requires Valid() && c != '\0'
      modifies this, chunk, stream
      ensures Valid() && KeepsAbort()
      ensures added == old(added) + [c]
    {
      chunk[chunkPos] := c;
      chunkPos := chunkPos + 1;
      added := added + [c];
      assert chunk[..chunkPos] == old(chunk[..chunkPos]) + [c];
      MaybeWriteChunk();
    }

    /** AddString: appends the characters of a C string (the characters before its
        terminator), whose length fits an int. */
    method AddString(s: seq<char>)
      requires Valid() && |s| <= 0x7FFF_FFFF
      modifies this, chunk, stream
      ensures Valid() && KeepsAbort()
      ensures added == old(added) + s
    {
      AddSubstring(s, |s|);
      assert s[..|s|] == s;
    }

    /** AddSubstring: appends the first `n` characters of `s`, nothing when `n` is not
        positive, copying as much as fits into the chunk at a time. */
    method AddSubstring(s: seq<char>, n: int)
      requires Valid() && n <= |s|
      modifies this, chunk, stream
      ensures Valid() && KeepsAbort()
      ensures added == old(added) + (if n <= 0 then [] else s[..n])
    {
      if n <= 0 {
        return;
      }
      var i := 0;
      while i < n
        invariant 0 <= i <= n
        invariant Valid() && KeepsAbort()
        invariant added == old(added) + s[..i]
      {
        var sChunkSize := if chunkSize - chunkPos < n - i then chunkSize - chunkPos else n - i;
        CopyIntoChunk(s, i, sChunkSize);
        assert s[..i + sChunkSize] == s[..i] + s[i..i + sChunkSize];
        AppendAssoc(old(added), s[..i], s[i..i + sChunkSize]);
        i := i + sChunkSize;
        MaybeWriteChunk();
      }
    }

    /** The MemCopy of AddSubstring: `count` characters of `s` from `from` on go into the
        chunk at the current position. */
    method CopyIntoChunk(s: seq<char>, from: nat, count: int)
      requires Valid() && 0 < count <= chunkSize - chunkPos && from + count <= |s|
      modifies this, chunk
      ensures Consistent() && KeepsAbort() && written == old(written)
      ensures chunkPos == old(chunkPos) + count
      ensures added == old(added) + s[from..from + count]
      ensures forall k :: 0 <= k < |written| ==> |written[k]| == chunkSize
    {
      ghost var before := chunk[..chunkPos];
      forall k | 0 <= k < count {
        chunk[chunkPos + k] := s[from + k];
      }
      assert chunk[..chunkPos + count] == before + s[from..from + count];
      chunkPos := chunkPos + count;
      added := added + s[from..from + count];
      if !aborted {
        AppendAssoc(Flatten(written), before, s[from..from + count]);
      }
    }

    /** AddNumber: appends the decimal digits of an unsigned 32-bit number. */
    method AddNumber(n: nat)
      requires Valid() && n < 0x1_0000_0000
      modifies this, chunk, stream
      ensures Valid() && KeepsAbort()
      ensures added == old(added) + Decimal(n)
    {
      AddNumberImpl(n, FourBytes);
    }

    /** AddNumberImpl: prints the number straight into the chunk when the longest number
        of its width and a NUL fit, and into a buffer that is then added as a string
        otherwise; either way the digits are appended. */
    method AddNumberImpl(n: nat, width: Width)
      requires Valid() && n < width.Modulus()
      modifies this, chunk, stream
      ensures Valid() && KeepsAbort()
      ensures added == old(added) + Decimal(n)
    {
      DecimalFitsMaxDigits(n);
      var maxNumberSize := MaxNumberSize(width);
      if chunkSize - chunkPos >= maxNumberSize {
        ghost var before := chunk[..chunkPos];
        var result := UtoaImpl(n, chunk, chunkPos);
        chunk[result] := '\0';
        assert chunk[..result] == before + Decimal(n) by {
          assert chunk[..chunkPos] == before;
        }
        chunkPos := result;
        added := added + Decimal(n);
        if !aborted {
          AppendAssoc(Flatten(written), before, Decimal(n));
        }
        MaybeWriteChunk();
      } else {
        var buffer := new char[maxNumberSize];
        var result := UtoaImpl(n, buffer, 0);
        buffer[result] := '\0';
        AddString(buffer[..result]);
      }
    }

    /** AddUChar: appends "\u" and the four hexadecimal digits of bits 15..0 of `u`. */
    method AddUChar(u: nat)
      requires Valid()
      modifies this, chunk, stream
      ensures Valid() && KeepsAbort()
      ensures added == old(added) + UCharEscape(u)
    {
      var hexChars := "0123456789ABCDEF";
      ghost var a0 := added;
      AddString("\\u");
      ghost var a1 := added;
      AddCharacter(hexChars[u / 4096 % 16]);
      ghost var a2 := added;
      AddCharacter(hexChars[u / 256 % 16]);
      ghost var a3 := added;
      AddCharacter(hexChars[u / 16 % 16]);
      ghost var a4 := added;
      AddCharacter(hexChars[u % 16]);
      AppendFour(a0, "\\u", hexChars[u / 4096 % 16], hexChars[u / 256 % 16], hexChars[u / 16 % 16], hexChars[u % 16]);
    }

    /** SerializeString: appends a line break and the bytes of a C string as a quoted,
        escaped JSON string. */
    method SerializeString(s: seq<Byte>, decode: Utf8Decoder)
      requires Valid() && NoNul(s) && DecoderContract(decode)
      modifies this, chunk, stream
      ensures Valid() && KeepsAbort()
      ensures added == old(added) + Serialized(s, decode)
    {
      ghost var start := added;
      AddCharacter('\n');
      AddCharacter('"');
      ghost var body := added;
      var i := 0;
      while i < |s|
        invariant 0 <= i <= |s|
        invariant Valid() && KeepsAbort()
        invariant added + EscapeFrom(s, i, decode) == body + EscapeFrom(s, 0, decode)
        decreases |s| - i
      {
        ghost var prev := added;
        var next := SerializeByte(s, i, decode);
        AppendAssoc(prev, PieceText(s, i, decode), EscapeFrom(s, next, decode));
        i := next;
      }
      ghost var escaped := EscapeFrom(s, 0, decode);
      assert added == body + escaped;
      AddCharacter('"');
      SerializedParts(start, escaped);
    }

    /** One iteration of the loop of SerializeString: the switch on the byte at `i`. */
    method SerializeByte(s: seq<Byte>, i: nat, decode: Utf8Decoder) returns (next: nat)
      requires Valid() && i < |s| && DecoderContract(decode)
      modifies this, chunk, stream
      ensures Valid() && KeepsAbort()
      ensures next == Next(s, i, decode)
      ensures added == old(added) + PieceText(s, i, decode)
    {
      if s[i] < 128 {
        SerializeAsciiByte(s[i]);
        next := i + 1;
      } else {
        next := SerializeUtf8(s, i, decode);
      }
    }

    /** The cases of the switch for a byte below 128: the short escapes, quote and
        backslash, the characters from U+0020 to U+007F (DEL included), copied as
        they are, and those below U+0020. */
    method SerializeAsciiByte(b: Byte)
      requires Valid() && b < 128
      modifies this, chunk, stream
      ensures Valid() && KeepsAbort()
      ensures added == old(added) + AsciiText(b)
    {
      if b == 8 {
        AddString("\\b");
      } else if b == 12 {
        AddString("\\f");
      } else if b == 10 {
        AddString("\\n");
      } else if b == 13 {
        AddString("\\r");
      } else if b == 9 {
        AddString("\\t");
      } else if b == 34 || b == 92 {
        ghost var before := added;
        AddCharacter('\\');
        AddCharacter(b as char);
        assert added == before + ['\\', b as char];
      } else if 31 < b {
        AddCharacter(b as char);
      } else {
        AddUChar(b);
      }
    }

    /** The default case for a byte of 128 or more: the byte and up to four following
        ones go to the UTF-8 decoder; a decoded character is written as "\u" and its
        low 16 bits and the bytes it took are skipped, otherwise '?' is written. */
    method SerializeUtf8(s: seq<Byte>, i: nat, decode: Utf8Decoder) returns (next: nat)
      requires Valid() && i < |s| && s[i] >= 128 && DecoderContract(decode)
      modifies this, chunk, stream
      ensures Valid() && KeepsAbort()
      ensures next == Next(s, i, decode)
      ensures added == old(added) + PieceText(s, i, decode)
    {
      var length := 1;
      while length <= 4 && i + length < |s|
        invariant 1 <= length <= 5 && i + length <= |s|
        invariant length <= WindowLength(s, i)
      {
        length := length + 1;
      }
      assert length == WindowLength(s, i);
      var d := decode(s[i..i + length]);
      Utf8Piece(s, i, decode, d);
      if d.CodePoint? {
        AddUChar(d.value);
        next := i + d.cursor;
      } else {
        AddCharacter('?');
        next := i + 1;
      }
    }

    /** Finalize: unless aborted, hands over what the chunk holds, if anything, and
        signals the end of the stream; the stream then holds everything added. */
    method Finalize()
      requires Valid()
      modifies this, stream
      ensures old(aborted) ==> unchanged(stream) && written == old(written)
      ensures !old(aborted) ==>
        && written == old(written) + (if old(chunkPos) == 0 then [] else [old(chunk[..chunkPos])])
        && stream.chunks == chunksBefore + written
        && stream.endOfStreamCount == endsBefore + 1
        && Flatten(written) == added
    {
      if aborted {
        return;
      }
      if chunkPos != 0 {
        ghost var before := chunk[..chunkPos];
        WriteChunk();
        FlattenAppend(old(written), before);
      } else {
        assert chunk[..chunkPos] == [];
      }
      stream.EndOfStream();
    }

    /** MaybeWriteChunk: hands the chunk over when it is full. */
    method MaybeWriteChunk()
      requires Consistent()
      requires forall k :: 0 <= k < |written| ==> |written[k]| == chunkSize
      modifies this, stream
      ensures Valid() && KeepsAbort() && added == old(added)
    {
      if chunkPos == chunkSize {
        ghost var full := chunk[..chunkPos];
        WriteChunk();
        assert |full| == chunkSize;
      }
    }

    /** WriteChunk, corrected: unless aborted, hands the chunk to the stream, and records
        an abort; in every case the chunk is emptied. The source returns early when
        aborted, leaving a full chunk full (see AbortedChunkStaysFull). */
    method WriteChunk()
      requires Consistent()
      modifies this, stream
      ensures Consistent() && KeepsAbort() && added == old(added) && chunkPos == 0
      ensures !old(aborted) ==> written == old(written) + [old(chunk[..chunkPos])]
    {
      if !aborted {
        ghost var data := chunk[..chunkPos];
        var reply := stream.WriteAsciiChunk(chunk[..chunkPos]);
        written := written + [data];
        FlattenAppend(old(written), data);
        if reply == Abort {
          aborted := true;
        }
      }
      chunkPos := 0;
      assert chunk[..chunkPos] == [];
    }
  }

  // The chunk position and abort flag of the writer as written in the source, where
  // WriteChunk returns before emptying the chunk once the stream has aborted.

  datatype ChunkState = ChunkState(chunkPos: int, aborted: bool)

  function WriteChunkAsWritten(st: ChunkState, reply: WriteResult): (r: ChunkState)
    ensures st.aborted ==> r == st
  {
    if st.aborted then st else ChunkState(0, reply == Abort)
  }

  function AddCharacterAsWritten(st: ChunkState, chunkSize: int, reply: WriteResult): (r: ChunkState)
    requires 0 <= st.chunkPos < chunkSize
    ensures r.aborted == (st.aborted || (st.chunkPos + 1 == chunkSize && reply == Abort))
  {
    var filled := st.(chunkPos := st.chunkPos + 1);
    if filled.chunkPos == chunkSize then WriteChunkAsWritten(filled, reply) else filled
  }

  /** With a one-character chunk and a stream that aborts on the first chunk, the second
      character leaves the chunk full, so a third AddCharacter would write past its end. */
  lemma AbortedChunkStaysFull()
    ensures var st1 := AddCharacterAsWritten(ChunkState(0, false), 1, Abort);
            && st1 == ChunkState(0, true)
            && AddCharacterAsWritten(st1, 1, Continue).chunkPos == 1
  {
  }

  /** In general: once aborted, filling the chunk leaves it full. */
  lemma AbortedFillStaysFull(st: ChunkState, chunkSize: int, reply: WriteResult)
    requires st.aborted && st.chunkPos == chunkSize - 1 && chunkSize > 0
    ensures AddCharacterAsWritten(st, chunkSize, reply).chunkPos == chunkSize
  {
  }
}
