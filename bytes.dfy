/** Byte-level helpers: the unsigned lexicographic order that orders the
    splits of one bucket, and the big-endian int encoding that
    java.nio.ByteBuffer.putInt uses. */
module Bytes {
  import opened Common

  /** An unsigned byte value (Java's byte read through Byte.toUnsignedInt). */
  newtype byte = x: int | 0 <= x < 0x100

  /** Guava's UnsignedBytes.lexicographicalComparator(): the difference of
      the first differing bytes read as unsigned values, or, when one array
      is a prefix of the other, the difference of the lengths. Callers only
      look at the sign. */
  function LexCompare(a: seq<byte>, b: seq<byte>): int
  {
    if a == [] || b == [] then |a| - |b|
    else if a[0] != b[0] then a[0] as int - b[0] as int
    else LexCompare(a[1..], b[1..])
  }

  /** The comparator returns zero exactly on equal arrays, so a TreeSet
      ordered by it treats splits with equal bytes as one element. */
  lemma {:induction false} LexCompareZeroIffEqual(a: seq<byte>, b: seq<byte>)
    ensures LexCompare(a, b) == 0 <==> a == b
  {
    if a != [] && b != [] && a[0] == b[0] {
      LexCompareZeroIffEqual(a[1..], b[1..]);
      if a[1..] == b[1..] {
        assert a == [a[0]] + a[1..] && b == [b[0]] + b[1..];
      }
    }
  }

  /** Swapping the arguments negates the result. */
  lemma {:induction false} LexCompareAntisymmetric(a: seq<byte>, b: seq<byte>)
    ensures LexCompare(a, b) == -LexCompare(b, a)
  {
    if a != [] && b != [] && a[0] == b[0] {
      LexCompareAntisymmetric(a[1..], b[1..]);
    }
  }

  /** The strict order "compares below" is transitive. */
  lemma {:induction false} LexCompareTransitive(a: seq<byte>, b: seq<byte>, c: seq<byte>)
    requires LexCompare(a, b) < 0 && LexCompare(b, c) < 0
    ensures LexCompare(a, c) < 0
  {
    if a != [] && b != [] && c != [] && a[0] == b[0] && b[0] == c[0] {
      LexCompareTransitive(a[1..], b[1..], c[1..]);
    }
  }

  /** The four bytes ByteBuffer.putInt writes: big-endian two's complement. */
  function EncodeInt32(x: int32): (r: seq<byte>)
    ensures |r| == 4
  {
    var u := if x < 0 then x + 0x1_0000_0000 else x;
    [(u / 0x100_0000) as byte, (u / 0x1_0000 % 0x100) as byte,
     (u / 0x100 % 0x100) as byte, (u % 0x100) as byte]
  }

  /** ByteBuffer.getInt: reads four big-endian bytes as a signed int. */
  function DecodeInt32(b: seq<byte>): int32
    requires |b| == 4
  {
    var u := b[0] as int * 0x100_0000 + b[1] as int * 0x1_0000 + b[2] as int * 0x100 + b[3] as int;
    if u >= 0x8000_0000 then u - 0x1_0000_0000 else u
  }

  /** Reading back what putInt wrote gives the original int. */
  lemma DecodeEncodeInt32(x: int32)
    ensures DecodeInt32(EncodeInt32(x)) == x
  {
    var u := if x < 0 then x + 0x1_0000_0000 else x;
    var b := EncodeInt32(x);
    DigitsRecombine(u);
    assert b[0] as int * 0x100_0000 + b[1] as int * 0x1_0000 + b[2] as int * 0x100 + b[3] as int == u;
  }

  lemma DigitsRecombine(u: int)
    requires 0 <= u < 0x1_0000_0000
    ensures u == (u / 0x100_0000) * 0x100_0000 + (u / 0x1_0000 % 0x100) * 0x1_0000
                 + (u / 0x100 % 0x100) * 0x100 + u % 0x100
  {
    var q1 := u / 0x100;
    var q2 := q1 / 0x100;
    var q3 := q2 / 0x100;
    assert u == q1 * 0x100 + u % 0x100;
    assert q1 == q2 * 0x100 + q1 % 0x100;
    assert q2 == q3 * 0x100 + q2 % 0x100;
    assert u / 0x1_0000 == q2;
    assert u / 0x100_0000 == q3;
  }
}
