/** Decimal conversion of unsigned numbers into a character buffer (utoa_impl and utoa
    of output-stream-writer.h). */
module DecimalText {

  /** The digit character of `d`. */
  function DigitChar(d: nat): (c: char)
    requires d < 10
    ensures '0' <= c <= '9'
  {
    ('0' as int + d) as char
  }

  /** The decimal digits of `v`, most significant first, without leading zeros. */
  function Decimal(v: nat): (r: seq<char>)
    ensures |r| >= 1
  {
    if v < 10 then [DigitChar(v)] else Decimal(v / 10) + [DigitChar(v % 10)]
  }

  /** The value a string of decimal digits denotes. */
  function ParseDecimal(s: seq<char>): int
    decreases |s|
  {
    if s == [] then 0 else 10 * ParseDecimal(s[..|s| - 1]) + (s[|s| - 1] as int - '0' as int)
  }

  function Pow10(k: nat): (p: nat)
    ensures p >= 1
  {
    if k == 0 then 1 else 10 * Pow10(k - 1)
  }

  /** The digits read back give the number, every character is a digit and the first
      one is not a zero unless the number is. */
  lemma {:induction false} DecimalRoundTrip(v: nat)
    ensures ParseDecimal(Decimal(v)) == v
    ensures forall k :: 0 <= k < |Decimal(v)| ==> '0' <= Decimal(v)[k] <= '9'
    ensures Decimal(v)[0] == '0' <==> v == 0
  {
    var d := Decimal(v);
    if v >= 10 {
      DecimalRoundTrip(v / 10);
      assert d[..|d| - 1] == Decimal(v / 10);
      assert d[0] == Decimal(v / 10)[0];
    }
  }

  /** A number below 10^k has at most k digits. */
  lemma {:induction false} DecimalLengthBound(v: nat, k: nat)
    requires k >= 1 && v < Pow10(k)
    ensures |Decimal(v)| <= k
  {
    if v >= 10 {
      assert k >= 2;
      DecimalLengthBound(v / 10, k - 1);
    }
  }

  /** A number with 10^(k-1) <= v < 10^k has exactly k digits. */
  lemma {:induction false} DecimalLength(v: nat, k: nat)
    requires k >= 1 && (k == 1 || Pow10(k - 1) <= v) && v < Pow10(k)
    ensures |Decimal(v)| == k
  {
    if k > 1 {
      assert v >= 10 by {
        Pow10AtLeastTen(k - 1);
      }
      DecimalLength(v / 10, k - 1);
    }
  }

  lemma {:induction false} Pow10AtLeastTen(k: nat)
    requires k >= 1
    ensures Pow10(k) >= 10
  {
    if k > 1 {
      Pow10AtLeastTen(k - 1);
    }
  }

  /** MaxDecimalDigitsIn: the unsigned digit counts bound the digits of every value of
      4 and 8 bytes. */
  const MaxUnsignedDigits4 := 10
  const MaxUnsignedDigits8 := 20

  lemma DecimalFitsMaxDigits(v: nat)
    ensures v < 0x1_0000_0000 ==> |Decimal(v)| <= MaxUnsignedDigits4
    ensures v < 0x1_0000_0000_0000_0000 ==> |Decimal(v)| <= MaxUnsignedDigits8
  {
    assert Pow10(10) == 10_000_000_000 by {
      assert Pow10(5) == 100_000;
    }
    assert Pow10(20) == 100_000_000_000_000_000_000 by {
      assert Pow10(10) == 10_000_000_000 by { assert Pow10(5) == 100_000; }
      assert Pow10(15) == 1_000_000_000_000_000;
    }
    if v < 0x1_0000_0000 {
      DecimalLengthBound(v, 10);
    }
    if v < 0x1_0000_0000_0000_0000 {
      DecimalLengthBound(v, 20);
    }
  }

  /** utoa_impl: writes the decimal digits of `value` into `buffer` from `bufferPos` on
      and returns the position after the last digit; nothing else in the buffer
      changes. */
  method UtoaImpl(value: nat, buffer: array<char>, bufferPos: nat) returns (result: nat)
    requires bufferPos + |Decimal(value)| <= buffer.Length
    modifies buffer
    ensures result == bufferPos + |Decimal(value)|
    ensures buffer[bufferPos..result] == Decimal(value)
    ensures buffer[..bufferPos] == old(buffer[..bufferPos]) && buffer[result..] == old(buffer[result..])
  {
    var numberOfDigits := 1;
    var t: nat := value / 10;
    while t != 0
      invariant numberOfDigits + (if t == 0 then 0 else |Decimal(t)|) == |Decimal(value)|
    {
      numberOfDigits := numberOfDigits + 1;
      t := t / 10;
    }

    var pos := bufferPos + numberOfDigits;
    result := pos;
    var v := value;
    pos := pos - 1;
    buffer[pos] := DigitChar(v % 10);
    v := v / 10;
    while v != 0
      invariant bufferPos <= pos < result
      invariant v != 0 ==> pos == bufferPos + |Decimal(v)| && Decimal(value) == Decimal(v) + buffer[pos..result]
      invariant v == 0 ==> pos == bufferPos && Decimal(value) == buffer[pos..result]
      invariant buffer[..bufferPos] == old(buffer[..bufferPos]) && buffer[result..] == old(buffer[result..])
    {
      pos := pos - 1;
      buffer[pos] := DigitChar(v % 10);
      v := v / 10;
    }
  }

  /** The widths utoa is instantiated with. */
  datatype Width = FourBytes | EightBytes {
    function Modulus(): int {
      if this == FourBytes then 0x1_0000_0000 else 0x1_0000_0000_0000_0000
    }
  }

  /** The value of any integer type of the given width, signed or unsigned, converted to
      the unsigned type of that width (two's complement). */
  function ToUnsigned(value: int, width: Width): (u: nat)
    requires -(width.Modulus() / 2) <= value < width.Modulus()
    ensures u < width.Modulus()
    ensures (u - value) % width.Modulus() == 0
  {
    if value < 0 then value + width.Modulus() else value
  }

  /** utoa: writes the decimal digits of `value` taken as unsigned. */
  method Utoa(value: int, width: Width, buffer: array<char>, bufferPos: nat) returns (result: nat)
    requires -(width.Modulus() / 2) <= value < width.Modulus()
    requires bufferPos + |Decimal(ToUnsigned(value, width))| <= buffer.Length
    modifies buffer
    ensures result == bufferPos + |Decimal(ToUnsigned(value, width))|
    ensures buffer[bufferPos..result] == Decimal(ToUnsigned(value, width))
    ensures buffer[..bufferPos] == old(buffer[..bufferPos]) && buffer[result..] == old(buffer[result..])
  {
    var unsignedValue := if value < 0 then value + width.Modulus() else value;
    result := UtoaImpl(unsignedValue, buffer, bufferPos);
  }

  /** A negative 32-bit value is written as its two's complement, which takes all ten
      digits: -1 is written as 4294967295. */
  lemma UtoaMinusOne()
    ensures ToUnsigned(-1, FourBytes) == 4294967295
    ensures |Decimal(ToUnsigned(-1, FourBytes))| == MaxUnsignedDigits4
    ensures ParseDecimal(Decimal(ToUnsigned(-1, FourBytes))) == 4294967295
  {
    assert Pow10(10) == 10_000_000_000 && Pow10(9) == 1_000_000_000 by {
      assert Pow10(5) == 100_000;
    }
    DecimalLength(4294967295, 10);
    DecimalRoundTrip(4294967295);
  }
}
