/**
 * Fixed-width unsigned integers and their network byte order (big-endian)
 * representation, as the keyring file stores them.
 */
module Wire {

  type byte = x: int | 0 <= x < 0x100
  type uint16 = x: int | 0 <= x < 0x1_0000
  type uint32 = x: int | 0 <= x < 0x1_0000_0000
  type uint64 = x: int | 0 <= x < 0x1_0000_0000_0000_0000

  /** 256 to the power n: one more than the largest value n bytes hold. */
  function Pow256(n: nat): (r: nat)
    ensures r >= 1
  {
    if n == 0 then 1 else 256 * Pow256(n - 1)
  }

  /** The unsigned integer `s` encodes, most significant byte first (what be16toh/be32toh/be64toh compute). */
  function BigEndian(s: seq<byte>): (v: nat)
    ensures v < Pow256(|s|)
  {
    if s == [] then 0
    else
      var high := BigEndian(s[..|s| - 1]);
      assert high * 256 + s[|s| - 1] < Pow256(|s|) by {
        assert high <= Pow256(|s| - 1) - 1;
        assert high * 256 <= Pow256(|s| - 1) * 256 - 256;
      }
      high * 256 + s[|s| - 1]
  }

  /** The `width` bytes that represent `v` in network byte order. */
  function ToBigEndian(v: nat, width: nat): (s: seq<byte>)
    requires v < Pow256(width)
    ensures |s| == width
  {
    if width == 0 then []
    else
      assert v / 256 < Pow256(width - 1) by {
        DivBound(v, Pow256(width - 1));
      }
      ToBigEndian(v / 256, width - 1) + [v % 256]
  }

  lemma DivBound(v: nat, p: nat)
    requires p >= 1 && v < 256 * p
    ensures v / 256 < p
  {
  }

  /** Decoding an encoded value gives the value back. */
  lemma {:induction false} BigEndianOfToBigEndian(v: nat, width: nat)
    requires v < Pow256(width)
    ensures BigEndian(ToBigEndian(v, width)) == v
  {
    if width > 0 {
      var s := ToBigEndian(v, width);
      assert s[..width - 1] == ToBigEndian(v / 256, width - 1);
      BigEndianOfToBigEndian(v / 256, width - 1);
    }
  }

  /** Encoding a decoded byte run gives the bytes back: BigEndian is a bijection on each width. */
  lemma {:induction false} ToBigEndianOfBigEndian(s: seq<byte>)
    ensures ToBigEndian(BigEndian(s), |s|) == s
  {
    if s != [] {
      var init := s[..|s| - 1];
      var v := BigEndian(s);
      assert v == BigEndian(init) * 256 + s[|s| - 1];
      assert v / 256 == BigEndian(init) && v % 256 == s[|s| - 1];
      ToBigEndianOfBigEndian(init);
      assert s == init + [s[|s| - 1]];
    }
  }
}
