/**
 * Package `extra` of the composter node: rendering bytes as hexadecimal text
 * for diagnostic logs.
 *
 * A Go `byte` is an unsigned 8-bit value, modelled as `bv8` so that the nibble
 * extraction keeps the source's shift and mask. A Go `string` built from the
 * runes '0'..'9' and 'A'..'F' is ASCII, so one byte of it is one `char` here.
 *
 * The output follows the Base16 encoding of section 8 of RFC 4648: the
 * alphabet "0123456789ABCDEF", two digits per byte, the high nibble first,
 * no separators. `DecodeByte` and `DecodeHex` are the inverse direction,
 * accepting exactly that canonical (upper-case) alphabet; they are the
 * reference the encoder is proved against.
 */
module Extra {
  import opened Wrappers

  /** The Base16 alphabet of section 8 of RFC 4648: digit `n` encodes value `n`. */
  const Base16Alphabet: string := "0123456789ABCDEF"

  predicate IsUpperHexDigit(c: char) {
    ('0' <= c <= '9') || ('A' <= c <= 'F')
  }

  /** The high nibble, `(b >> 4) & 0x0F`; for an unsigned byte this is `b / 16`. */
  function HighNibble(b: bv8): (n: nat)
    ensures n < 16
    ensures n == b as int / 16
  {
    ((b >> 4) & 0x0F) as int
  }

  /** The low nibble, `b & 0xF`; for an unsigned byte this is `b % 16`. */
  function LowNibble(b: bv8): (n: nat)
    ensures n < 16
    ensures n == b as int % 16
  {
    (b & 0xF) as int
  }

  /** One digit as ByteToHex writes it: `'0' + n` below ten, `'A' + (n - 10)` from ten on. */
  function HexDigit(n: nat): (c: char)
    requires n < 16
    ensures c == Base16Alphabet[n]
    ensures IsUpperHexDigit(c)
  {
    if n < 10 then ('0' as int + n) as char else ('A' as int + (n - 10)) as char
  }

  /** The value of one canonical digit, or None for any other character (lower case included). */
  function DigitValue(c: char): (r: Option<nat>)
    ensures r.Some? <==> IsUpperHexDigit(c)
    ensures r.Some? ==> r.value < 16 && Base16Alphabet[r.value] == c
  {
    if '0' <= c <= '9' then Some(c as int - '0' as int)
    else if 'A' <= c <= 'F' then Some(c as int - 'A' as int + 10)
    else None
  }

  lemma DigitRoundTrip(n: nat)
    requires n < 16
    ensures DigitValue(HexDigit(n)) == Some(n)
  {
  }

  /** Every canonical digit is the rendering of the value it decodes to. */
  lemma DigitValueInverse(c: char)
    requires IsUpperHexDigit(c)
    ensures DigitValue(c).Some? && HexDigit(DigitValue(c).value) == c
  {
  }

  /** Two upper-case digits, the high nibble first. */
  function ByteToHex(b: bv8): (s: string)
    ensures |s| == 2
    ensures s[0] == Base16Alphabet[b as int / 16]
    ensures s[1] == Base16Alphabet[b as int % 16]
    ensures IsUpperHexDigit(s[0]) && IsUpperHexDigit(s[1])
  {
    [HexDigit(HighNibble(b))] + [HexDigit(LowNibble(b))]
  }

  /** The inverse of ByteToHex on canonical two-digit strings: `16 * hi + lo`. */
  function DecodeByte(s: string): (r: Option<bv8>)
    ensures r.Some? <==> |s| == 2 && IsUpperHexDigit(s[0]) && IsUpperHexDigit(s[1])
  {
    if |s| != 2 then None
    else
      match (DigitValue(s[0]), DigitValue(s[1]))
      case (Some(hi), Some(lo)) => Some((16 * hi + lo) as bv8)
      case _ => None
  }

  lemma ByteToHexRoundTrip(b: bv8)
    ensures DecodeByte(ByteToHex(b)) == Some(b)
  {
    var s := ByteToHex(b);
    DigitRoundTrip(HighNibble(b));
    DigitRoundTrip(LowNibble(b));
    assert DigitValue(s[0]) == Some(b as int / 16);
    assert DigitValue(s[1]) == Some(b as int % 16);
    assert 16 * (b as int / 16) + b as int % 16 == b as int;
  }

  /** `16 * hi + lo` stored in a byte splits back into `hi` and `lo`. */
  lemma NibblesOfByte(hi: nat, lo: nat)
    requires hi < 16 && lo < 16
    ensures ((16 * hi + lo) as bv8) as int / 16 == hi
    ensures ((16 * hi + lo) as bv8) as int % 16 == lo
  {
    var v := 16 * hi + lo;
    assert (v as bv8) as int == v;
  }

  /** Every two-digit string that decodes is the rendering of its value. */
  lemma DecodeByteInverse(s: string)
    requires DecodeByte(s).Some?
    ensures ByteToHex(DecodeByte(s).value) == s
  {
    var hi, lo := DigitValue(s[0]).value, DigitValue(s[1]).value;
    NibblesOfByte(hi, lo);
    DigitValueInverse(s[0]);
    DigitValueInverse(s[1]);
  }

  /** Distinct bytes render differently. */
  lemma ByteToHexInjective(a: bv8, b: bv8)
    ensures ByteToHex(a) == ByteToHex(b) <==> a == b
  {
    ByteToHexRoundTrip(a);
    ByteToHexRoundTrip(b);
  }

  /**
   * The hex text of a byte sequence: the renderings of its bytes, in order.
   * Stated as the loop of BytesToHexString builds it, one byte appended at a time.
   */
  function HexOf(data: seq<bv8>): (s: string)
    ensures |s| == 2 * |data|
  {
    if |data| == 0 then "" else HexOf(data[..|data| - 1]) + ByteToHex(data[|data| - 1])
  }

  /** Characters `2i` and `2i+1` are the rendering of byte `i`, so byte order is kept. */
  lemma {:induction false} HexOfAt(data: seq<bv8>, i: nat)
    requires i < |data|
    ensures HexOf(data)[2 * i .. 2 * i + 2] == ByteToHex(data[i])
  {
    var n := |data| - 1;
    var prefix := data[..n];
    assert HexOf(data) == HexOf(prefix) + ByteToHex(data[n]);
    if i < n {
      HexOfAt(prefix, i);
      assert prefix[i] == data[i];
    }
  }

  /** Rendering distributes over concatenation. */
  lemma {:induction false} HexOfAppend(a: seq<bv8>, b: seq<bv8>)
    ensures HexOf(a + b) == HexOf(a) + HexOf(b)
  {
    if |b| == 0 {
      assert a + b == a;
    } else {
      var n := |b| - 1;
      assert (a + b)[..|a + b| - 1] == a + b[..n];
      assert (a + b)[|a + b| - 1] == b[n];
      HexOfAppend(a, b[..n]);
    }
  }

  /** Every character of the output is a canonical digit: never lower case, never a separator. */
  lemma {:induction false} HexOfAlphabet(data: seq<bv8>, k: nat)
    requires k < |HexOf(data)|
    ensures IsUpperHexDigit(HexOf(data)[k])
  {
    var i := k / 2;
    HexOfAt(data, i);
    assert HexOf(data)[k] == HexOf(data)[2 * i .. 2 * i + 2][k - 2 * i];
  }

  /** Decodes canonical Base16 text two digits at a time; odd lengths and other characters fail. */
  function DecodeHex(s: string): (r: Option<seq<bv8>>)
    ensures r.Some? ==> |s| == 2 * |r.value|
  {
    if |s| == 0 then Some([])
    else if |s| == 1 then None
    else
      match (DecodeByte(s[..2]), DecodeHex(s[2..]))
      case (Some(b), Some(rest)) => Some([b] + rest)
      case _ => None
  }

  /** Rendering the first byte in front of the rest. */
  lemma HexOfCons(b: bv8, rest: seq<bv8>)
    ensures HexOf([b] + rest) == ByteToHex(b) + HexOf(rest)
  {
    HexOfAppend([b], rest);
    assert [b][..0] == [];
  }

  lemma {:induction false} HexRoundTrip(data: seq<bv8>)
    ensures DecodeHex(HexOf(data)) == Some(data)
  {
    if |data| > 0 {
      var s := HexOf(data);
      HexOfCons(data[0], data[1..]);
      assert [data[0]] + data[1..] == data;
      assert s[..2] == ByteToHex(data[0]);
      assert s[2..] == HexOf(data[1..]);
      ByteToHexRoundTrip(data[0]);
      HexRoundTrip(data[1..]);
    }
  }

  /** Every string that decodes is the rendering of what it decodes to. */
  lemma {:induction false} DecodeHexInverse(s: string)
    requires DecodeHex(s).Some?
    ensures HexOf(DecodeHex(s).value) == s
  {
    if |s| > 0 {
      var d := DecodeHex(s).value;
      var b := DecodeByte(s[..2]).value;
      var rest := DecodeHex(s[2..]).value;
      assert d == [b] + rest;
      DecodeByteInverse(s[..2]);
      DecodeHexInverse(s[2..]);
      HexOfCons(b, rest);
      assert s == s[..2] + s[2..];
    }
  }

  /** Distinct byte sequences render differently. */
  lemma HexOfInjective(a: seq<bv8>, b: seq<bv8>)
    ensures HexOf(a) == HexOf(b) <==> a == b
  {
    HexRoundTrip(a);
    HexRoundTrip(b);
  }

  /** BytesToHexString: appends the rendering of each byte to an accumulator, first to last. */
  method BytesToHexString(data: seq<bv8>) returns (s: string)
    ensures s == HexOf(data)
    ensures |s| == 2 * |data|
  {
    s := "";
    var i := 0;
    while i < |data|
      invariant 0 <= i <= |data|
      invariant s == HexOf(data[..i])
    {
      assert data[..i + 1][..i] == data[..i];
      s := s + ByteToHex(data[i]);
      i := i + 1;
    }
    assert data[..i] == data;
  }
}
