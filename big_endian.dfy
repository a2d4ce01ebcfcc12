// The root address in the superblock is packed with Python's `struct`
// format "!Q": an unsigned 64-bit integer, network (big-endian) byte order.
module BigEndian {

  newtype byte = x: int | 0 <= x < 256

  /** Width in bytes of the packed root address. */
  const IntegerLength: nat := 8

  function Pow256(n: nat): (p: nat)
    ensures p >= 1
  {
    if n == 0 then 1 else 256 * Pow256(n - 1)
  }

  /** Largest value plus one that "!Q" can pack. */
  const QLimit: nat := Pow256(IntegerLength)

  /** `n` bytes, most significant first; `x` must fit. */
  function Encode(x: nat, n: nat): (s: seq<byte>)
    requires x < Pow256(n)
    ensures |s| == n
  {
    if n == 0 then [] else Encode(x / 256, n - 1) + [(x % 256) as byte]
  }

  /** Reads bytes most significant first. */
  function Decode(s: seq<byte>): (x: nat)
    ensures x < Pow256(|s|)
  {
    if s == [] then 0 else Decode(s[..|s| - 1]) * 256 + s[|s| - 1] as nat
  }

  /** Unpacking what was packed gives the value back. */
  lemma {:induction false} DecodeEncode(x: nat, n: nat)
    requires x < Pow256(n)
    ensures Decode(Encode(x, n)) == x
  {
    if n > 0 {
      var s := Encode(x, n);
      assert s[..n - 1] == Encode(x / 256, n - 1);
      DecodeEncode(x / 256, n - 1);
    }
  }

  /** Packing what was unpacked gives the bytes back: "!Q" is a bijection
      between 8-byte strings and [0, 2^64). */
  lemma {:induction false} EncodeDecode(s: seq<byte>)
    ensures Encode(Decode(s), |s|) == s
  {
    if s != [] {
      var init := s[..|s| - 1];
      var x := Decode(s);
      assert x / 256 == Decode(init) && x % 256 == s[|s| - 1] as nat;
      EncodeDecode(init);
      assert s == init + [s[|s| - 1]];
    }
  }

  /** Zero bytes unpack to zero. */
  lemma {:induction false} DecodeZeros(s: seq<byte>)
    requires forall i | 0 <= i < |s| :: s[i] == 0
    ensures Decode(s) == 0
  {
    if s != [] {
      DecodeZeros(s[..|s| - 1]);
    }
  }
}
