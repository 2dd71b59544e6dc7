/** Recursive length prefix encoding of byte strings and integers (Appendix B of the Ethereum
    Yellow Paper), as the batch poster writes it and as the inbox reader's stream decoder reads it,
    including the decoder's rejection of non-canonical forms. */
module Rlp {
  import opened Types

  /** Big-endian bytes of a number, without leading zeros. */
  function BigEndian(n: nat): (s: bytes)
    ensures n == 0 <==> s == []
    ensures s != [] ==> s[0] != 0
  {
    if n == 0 then [] else BigEndian(n / 256) + [n % 256]
  }

  function FromBigEndian(s: bytes): (n: nat)
  {
    if s == [] then 0 else FromBigEndian(s[..|s| - 1]) * 256 + s[|s| - 1]
  }

  function Pow256(k: nat): (p: nat)
    ensures p >= 1
  {
    if k == 0 then 1 else 256 * Pow256(k - 1)
  }

  /** The RLP form of a byte string. */
  function EncodeString(s: bytes): bytes
    requires |s| < TWO64
  {
    if |s| == 1 && s[0] < 0x80 then s
    else if |s| < 56 then [0x80 + |s|] + s
    else
      Pow256Eight();
      LengthBytesBound(|s|, 8);
      [0xB7 + |BigEndian(|s|)|] + BigEndian(|s|) + s
  }

  /** The RLP form of an unsigned integer is that of its minimal big-endian bytes. */
  function EncodeUint(n: u64): bytes {
    Pow256Eight();
    LengthBytesBound(n, 8);
    EncodeString(BigEndian(n))
  }

  /** A decoded item together with the input that follows it. */
  datatype Item<T> = Item(value: T, rest: bytes)

  /** Reads one byte string off the front of a stream. Every failure of the stream decoder (end of
      input, truncation, list where a string is wanted, non-canonical length) is None. */
  function DecodeString(input: bytes): (r: Option<Item<bytes>>)
    ensures r.Some? ==> |r.value.rest| < |input| && |r.value.value| <= |input|
  {
    if input == [] then None
    else if input[0] < 0x80 then Some(Item([input[0]], input[1..]))
    else if input[0] < 0xB8 then
      var size := input[0] - 0x80;
      if |input| - 1 < size then None
      else if size == 1 && input[1] < 0x80 then None
      else Some(Item(input[1..1 + size], input[1 + size..]))
    else if input[0] < 0xC0 then
      var lenLen := input[0] - 0xB7;
      if |input| - 1 < lenLen then None
      else
        var size := FromBigEndian(input[1..1 + lenLen]);
        if (lenLen > 1 && input[1] == 0) || size < 56 || |input| - 1 - lenLen < size then None
        else Some(Item(input[1 + lenLen..1 + lenLen + size], input[1 + lenLen + size..]))
    else None
  }

  /** Reads an unsigned 64-bit integer off the front of a stream; what follows it is ignored. */
  function DecodeUint(input: bytes): Option<u64> {
    if input == [] then None
    else if input[0] < 0x80 then
      if input[0] == 0 then None else Some(input[0])
    else if input[0] < 0xB8 then
      var size := input[0] - 0x80;
      if size > 8 || |input| - 1 < size then None
      else
        var v := FromBigEndian(input[1..1 + size]);
        FromBigEndianBound(input[1..1 + size]);
        if size > 1 && input[1] == 0 then None
        else if size > 0 && v < 0x80 then None
        else Pow256Eight(); Pow256Monotonic(size, 8); Some(v)
    else None
  }

  // ---- Properties

  lemma Pow256Eight()
    ensures Pow256(8) == TWO64
  {
    assert Pow256(4) == 0x1_0000_0000;
  }

  lemma Pow256Monotonic(a: nat, b: nat)
    requires a <= b
    ensures Pow256(a) <= Pow256(b)
  {
    if a < b { Pow256Monotonic(a, b - 1); }
  }

  lemma {:induction false} LengthBytesBound(n: nat, k: nat)
    requires n < Pow256(k)
    ensures |BigEndian(n)| <= k
    decreases k
  {
    if n != 0 {
      assert n / 256 < Pow256(k - 1);
      LengthBytesBound(n / 256, k - 1);
    }
  }

  lemma {:induction false} FromBigEndianBound(s: bytes)
    ensures FromBigEndian(s) < Pow256(|s|)
  {
    if s != [] { FromBigEndianBound(s[..|s| - 1]); }
  }

  lemma {:induction false} BigEndianInverse(n: nat)
    ensures FromBigEndian(BigEndian(n)) == n
  {
    if n != 0 {
      var s := BigEndian(n);
      assert s[..|s| - 1] == BigEndian(n / 256);
      BigEndianInverse(n / 256);
    }
  }

  lemma {:induction false} FromBigEndianPositive(s: bytes)
    requires s != [] && s[0] != 0
    ensures FromBigEndian(s) > 0
  {
    if |s| > 1 { FromBigEndianPositive(s[..|s| - 1]); }
  }

  /** Bytes without a leading zero are the big-endian form of the number they denote. */
  lemma {:induction false} FromBigEndianInverse(s: bytes)
    requires s != [] ==> s[0] != 0
    ensures BigEndian(FromBigEndian(s)) == s
  {
    if s != [] {
      var init := s[..|s| - 1];
      var n := FromBigEndian(s);
      FromBigEndianPositive(s);
      assert n / 256 == FromBigEndian(init) && n % 256 == s[|s| - 1];
      FromBigEndianInverse(init);
      assert s == init + [s[|s| - 1]];
    }
  }

  /** Decoding undoes encoding, whatever follows in the stream. */
  lemma DecodeEncodedString(s: bytes, rest: bytes)
    requires |s| < TWO64
    ensures DecodeString(EncodeString(s) + rest) == Some(Item(s, rest))
  {
    var input := EncodeString(s) + rest;
    if |s| == 1 && s[0] < 0x80 {
      assert s == [input[0]] && input[1..] == rest;
    } else if |s| < 56 {
      assert input[1..1 + |s|] == s && input[1 + |s|..] == rest;
    } else {
      DecodeLongString(s, rest);
    }
  }

  lemma DecodeLongString(s: bytes, rest: bytes)
    requires 56 <= |s| < TWO64
    ensures DecodeString(EncodeString(s) + rest) == Some(Item(s, rest))
  {
    var be := BigEndian(|s|);
    Pow256Eight();
    LengthBytesBound(|s|, 8);
    BigEndianInverse(|s|);
    assert be != [] && be[0] != 0;
    LongSlices(0xB7 + |be|, be, s, rest);
    hide BigEndian;
    hide FromBigEndian;
  }

  lemma LongSlices(h: byte, be: bytes, s: bytes, rest: bytes)
    requires be != []
    ensures var input := [h] + be + s + rest;
            && input[0] == h && input[1] == be[0] && |input| == 1 + |be| + |s| + |rest|
            && input[1..1 + |be|] == be
            && input[1 + |be|..1 + |be| + |s|] == s
            && input[1 + |be| + |s|..] == rest
  {
  }

  /** The decoder accepts nothing but canonical encodings, so it is the exact inverse. */
  lemma DecodedStringIsCanonical(input: bytes)
    requires DecodeString(input).Some?
    requires |input| < TWO64
    ensures var Item(s, rest) := DecodeString(input).value;
            input == EncodeString(s) + rest
  {
    if 0xB8 <= input[0] {
      LongStringIsCanonical(input);
    } else {
      var Item(s, rest) := DecodeString(input).value;
      assert input == [input[0]] + input[1..];
      if 0x80 <= input[0] {
        assert input[1..] == s + rest;
        assert [0x80 + |s|] + s + rest == [0x80 + |s|] + (s + rest);
      }
    }
  }

  lemma LongStringIsCanonical(input: bytes)
    requires DecodeString(input).Some?
    requires |input| < TWO64
    requires 0xB8 <= input[0]
    ensures var Item(s, rest) := DecodeString(input).value;
            input == EncodeString(s) + rest
  {
    var Item(s, rest) := DecodeString(input).value;
    var lenLen := input[0] - 0xB7;
    var be := input[1..1 + lenLen];
    if lenLen == 1 { assert FromBigEndian(be) == be[0]; }
    FromBigEndianInverse(be);
    assert |s| == FromBigEndian(be);
    assert EncodeString(s) == [input[0]] + be + s;
    assert input == [input[0]] + be + s + rest;
  }

  lemma DecodeEncodedUint(n: u64, rest: bytes)
    ensures DecodeUint(EncodeUint(n) + rest) == Some(n)
  {
    var be := BigEndian(n);
    Pow256Eight();
    LengthBytesBound(n, 8);
    BigEndianInverse(n);
    var input := EncodeUint(n) + rest;
    if |be| == 1 {
      assert FromBigEndian(be[..0]) == 0;
      assert n == be[0];
    }
    if !(|be| == 1 && be[0] < 0x80) {
      assert input[1..1 + |be|] == be;
      if |be| > 1 {
        assert BigEndian(n / 256) != [];
      }
    }
  }
}
