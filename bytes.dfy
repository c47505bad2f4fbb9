/** Bytes as Java's BigInteger sees them: new BigInteger(byte[]) reads a
    big-endian two's-complement array, toByteArray() writes the shortest one.
    Bytes are kept as their unsigned value 0..255; a byte b >= 128 stands for
    the Java byte b - 256. */
module Bytes {
  import opened Wrappers

  type byte = x: int | 0 <= x < 256

  function Pow256(n: nat): (r: nat)
    ensures r >= 1
  {
    if n == 0 then 1 else 256 * Pow256(n - 1)
  }

  /** The unsigned big-endian value of bs. */
  function Unsigned(bs: seq<byte>): nat {
    if |bs| == 0 then 0 else Unsigned(bs[..|bs| - 1]) * 256 + bs[|bs| - 1]
  }

  /** The two's-complement value of bs: the top bit of the first byte is the sign. */
  function FromTwos(bs: seq<byte>): int {
    Unsigned(bs) - (if |bs| > 0 && bs[0] >= 128 then Pow256(|bs|) else 0)
  }

  /** new BigInteger(byte[]): a zero-length array throws NumberFormatException. */
  function BigIntegerOfBytes(bs: seq<byte>): (r: Option<int>)
    ensures r.None? <==> |bs| == 0
  {
    if |bs| == 0 then None else Some(FromTwos(bs))
  }

  /** BigInteger.toByteArray(): the shortest two's-complement array holding n
      (always at least one byte). */
  function ToTwos(n: int): (bs: seq<byte>)
    ensures |bs| >= 1
    decreases if n < 0 then -n else n
  {
    if -128 <= n < 128 then [n % 256] else ToTwos(n / 256) + [n % 256]
  }

  /** An array toByteArray() can produce: nonempty, and no leading byte that
      only repeats the sign of the next one. */
  predicate Canonical(bs: seq<byte>) {
    |bs| >= 1 &&
    (|bs| >= 2 ==> !(bs[0] == 0 && bs[1] < 128) && !(bs[0] == 255 && bs[1] >= 128))
  }

  lemma FromTwosAppend(bs: seq<byte>, b: byte)
    requires |bs| >= 1
    ensures FromTwos(bs + [b]) == FromTwos(bs) * 256 + b
  {
    var s := bs + [b];
    assert s[..|s| - 1] == bs;
    assert s[0] == bs[0];
    assert Pow256(|s|) == 256 * Pow256(|bs|);
  }

  lemma FromTwosSingle(x: byte)
    ensures FromTwos([x]) == if x < 128 then x else x - 256
  {
    assert [x][..0] == [];
    assert Unsigned([x]) == x;
    assert Pow256(1) == 256;
  }

  /** new BigInteger(n.toByteArray()) == n. */
  lemma {:induction false} FromTwosToTwos(n: int)
    ensures FromTwos(ToTwos(n)) == n
    decreases if n < 0 then -n else n
  {
    if -128 <= n < 128 {
      FromTwosSingle(n % 256);
    } else {
      FromTwosToTwos(n / 256);
      FromTwosAppend(ToTwos(n / 256), n % 256);
    }
  }

  /** The value of a canonical array of two or more bytes needs more than one byte. */
  lemma {:induction false} CanonicalWide(bs: seq<byte>)
    requires Canonical(bs) && |bs| >= 2
    ensures !(-128 <= FromTwos(bs) < 128)
    decreases |bs|
  {
    var init := bs[..|bs| - 1];
    var b := bs[|bs| - 1];
    assert bs == init + [b];
    FromTwosAppend(init, b);
    if |init| == 1 {
      FromTwosSingle(init[0]);
    } else {
      assert init[0] == bs[0] && init[1] == bs[1];
      CanonicalWide(init);
    }
  }

  lemma DivMod256(w: int, b: byte)
    ensures (w * 256 + b) / 256 == w && (w * 256 + b) % 256 == b
  {
  }

  lemma CanonicalInit(bs: seq<byte>)
    requires Canonical(bs) && |bs| >= 2
    ensures Canonical(bs[..|bs| - 1])
  {
    if |bs| >= 3 {
      assert bs[..|bs| - 1][0] == bs[0] && bs[..|bs| - 1][1] == bs[1];
    }
  }

  /** toByteArray() gives back every canonical array it is read from. */
  lemma {:induction false} ToTwosFromTwos(bs: seq<byte>)
    requires Canonical(bs)
    ensures ToTwos(FromTwos(bs)) == bs
    decreases |bs|
  {
    if |bs| == 1 {
      FromTwosSingle(bs[0]);
    } else {
      var init := bs[..|bs| - 1];
      var b := bs[|bs| - 1];
      assert bs == init + [b];
      FromTwosAppend(init, b);
      CanonicalWide(bs);
      CanonicalInit(bs);
      var w := FromTwos(init);
      DivMod256(w, b);
      ToTwosFromTwos(init);
      assert ToTwos(w * 256 + b) == ToTwos(w) + [b];
    }
  }

  /** Every array toByteArray() produces is canonical. */
  lemma {:induction false} ToTwosCanonical(n: int)
    ensures Canonical(ToTwos(n))
    decreases if n < 0 then -n else n
  {
    if !(-128 <= n < 128) {
      var m := n / 256;
      ToTwosCanonical(m);
      var bs := ToTwos(m) + [n % 256];
      assert bs == ToTwos(n);
      if -128 <= m < 128 {
        assert ToTwos(m) == [m % 256];
      } else {
        assert bs[0] == ToTwos(m)[0] && bs[1] == ToTwos(m)[1];
      }
    }
  }

  /** Reading an array and writing it back is the identity exactly on
      canonical arrays. */
  lemma ToTwosFromTwosIff(bs: seq<byte>)
    ensures ToTwos(FromTwos(bs)) == bs <==> Canonical(bs)
  {
    if Canonical(bs) {
      ToTwosFromTwos(bs);
    } else {
      ToTwosCanonical(FromTwos(bs));
    }
  }

  /** A string of one character per byte (code points 0..255), the way the
      model reads the bytes of a string atom. */
  function BytesToString(bs: seq<byte>): (s: string)
    ensures |s| == |bs|
    ensures forall i :: 0 <= i < |bs| ==> s[i] as int == bs[i]
  {
    seq(|bs|, i requires 0 <= i < |bs| => bs[i] as char)
  }

  predicate IsByteString(s: string) {
    forall i :: 0 <= i < |s| ==> (s[i] as int) < 256
  }

  function StringToBytes(s: string): (bs: seq<byte>)
    requires IsByteString(s)
    ensures |bs| == |s|
    ensures forall i :: 0 <= i < |s| ==> bs[i] == s[i] as int
  {
    seq(|s|, i requires 0 <= i < |s| => s[i] as int)
  }

  lemma BytesStringRoundTrip(bs: seq<byte>)
    ensures IsByteString(BytesToString(bs))
    ensures StringToBytes(BytesToString(bs)) == bs
  {
  }
}
