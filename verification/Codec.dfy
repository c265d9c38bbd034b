/** The 8-byte big-endian request header: the C++ shift-and-mask loops, and the base-256
    positional value that the Rust side reads with `from_be_bytes`. */
module Codec {

  type byte = b: int | 0 <= b < 256

  const U64: nat := 0x1_0000_0000_0000_0000
  const U32: nat := 0x1_0000_0000

  /** The positional value of a byte string, most significant byte first. */
  function BigEndian(bytes: seq<byte>): nat {
    if bytes == [] then 0 else BigEndian(bytes[..|bytes| - 1]) * 256 + bytes[|bytes| - 1]
  }

  /** The last `k` base-256 digits of `n`, most significant first. */
  function ToBytes(n: nat, k: nat): (bytes: seq<byte>)
    ensures |bytes| == k
  {
    if k == 0 then [] else ToBytes(n / 256, k - 1) + [n % 256]
  }

  function Pow256(k: nat): (p: nat)
    ensures p >= 1
  {
    if k == 0 then 1 else 256 * Pow256(k - 1)
  }

  /** The integer widths. */
  lemma U64IsPow()
    ensures Pow256(8) == U64 == 18446744073709551616
  {
  }

  lemma U32IsPow()
    ensures Pow256(4) == U32 == 4294967296
  {
  }

  lemma {:induction false} BigEndianBound(bytes: seq<byte>)
    ensures BigEndian(bytes) < Pow256(|bytes|)
  {
    if bytes != [] {
      BigEndianBound(bytes[..|bytes| - 1]);
    }
  }

  /** Decoding what was encoded gives the number back, for every number that fits. */
  lemma {:induction false} DecodeEncode(n: nat, k: nat)
    requires n < Pow256(k)
    ensures BigEndian(ToBytes(n, k)) == n
  {
    if k > 0 {
      DecodeEncode(n / 256, k - 1);
      assert ToBytes(n, k)[..k - 1] == ToBytes(n / 256, k - 1);
    }
  }

  /** Encoding what was decoded gives the bytes back, for every byte string. */
  lemma {:induction false} EncodeDecode(bytes: seq<byte>)
    ensures ToBytes(BigEndian(bytes), |bytes|) == bytes
  {
    if bytes != [] {
      var init, last := bytes[..|bytes| - 1], bytes[|bytes| - 1];
      EncodeDecode(init);
      assert BigEndian(bytes) / 256 == BigEndian(init) && BigEndian(bytes) % 256 == last;
      assert bytes == init + [last];
    }
  }

  /** Two headers of the same length with the same value are the same header. */
  lemma BigEndianInjective(a: seq<byte>, b: seq<byte>)
    requires |a| == |b| && BigEndian(a) == BigEndian(b)
    ensures a == b
  {
    EncodeDecode(a);
    EncodeDecode(b);
  }

  /** `x >> 8` once more is one more division by 256. */
  lemma DivDiv(n: nat, p: nat)
    requires p > 0
    ensures n / (256 * p) == n / 256 / p
  {
    var q := n / (256 * p);
    var r := n % (256 * p);
    assert n == 256 * (p * q) + r;
    var s := r / 256;
    assert n / 256 == p * q + s;
    assert s < p;
    DivUnique(n / 256, p, q, s);
  }

  lemma {:induction false} MulGap(p: nat, a: nat, b: nat)
    requires a < b
    ensures p * a + p <= p * b
  {
    assert p * b == p * (b - 1) + p;
    if a < b - 1 {
      MulGap(p, a, b - 1);
    }
  }

  lemma DivUnique(n: nat, p: nat, q: nat, s: nat)
    requires n == p * q + s && s < p
    ensures n / p == q
  {
    var q', s' := n / p, n % p;
    assert n == p * q' + s';
    if q' > q {
      MulGap(p, q, q');
    } else if q' < q {
      MulGap(p, q', q);
    }
  }

  lemma {:induction false} DigitAt(n: nat, k: nat, j: nat)
    requires j < k
    ensures ToBytes(n, k)[k - 1 - j] == n / Pow256(j) % 256
  {
    if j > 0 {
      DigitAt(n / 256, k - 1, j - 1);
      DivDiv(n, Pow256(j - 1));
    }
  }

  lemma OneByteMore(b: seq<byte>, k: nat)
    requires k < |b|
    ensures BigEndian(b[..k + 1]) == BigEndian(b[..k]) * 256 + b[k]
  {
    assert b[..k + 1][..k] == b[..k];
  }

  lemma FourBytesMore(b: seq<byte>, k: nat)
    requires k + 4 <= |b|
    ensures BigEndian(b[..k + 4]) ==
            (((BigEndian(b[..k]) * 256 + b[k]) * 256 + b[k + 1]) * 256 + b[k + 2]) * 256 + b[k + 3]
  {
    OneByteMore(b, k);
    OneByteMore(b, k + 1);
    OneByteMore(b, k + 2);
    OneByteMore(b, k + 3);
  }

  /** The 8-byte header, byte by byte: the first weighs most. It is read as that number, and that number is
      written as it. */
  lemma HeaderBytes(b: seq<byte>, n: nat)
    requires |b| == 8
    requires n == (((((((b[0] as int * 256 + b[1]) * 256 + b[2]) * 256 + b[3]) * 256 + b[4]) * 256 + b[5]) * 256
                    + b[6]) * 256 + b[7])
    ensures BigEndian(b) == n && ToBytes(n, |b|) == b
  {
    FourBytesMore(b, 0);
    FourBytesMore(b, 4);
    assert b[..8] == b && b[..0] == [];
    EncodeDecode(b);
  }

  /** The C++ encoder: one shifted and masked byte per iteration, written from the right. */
  method RequestToBytes(size: nat, out: array<byte>)
    requires size < U64 && out.Length == 8
    modifies out
    ensures out[..] == ToBytes(size, 8)
    ensures BigEndian(out[..]) == size
  {
    for i := 0 to 8
      invariant forall j :: 0 <= j < i ==> out[7 - j] == size / Pow256(j) % 256
    {
      out[7 - i] := size / Pow256(i) % 256;
    }
    forall k | 0 <= k < 8 ensures out[k] == ToBytes(size, 8)[k] {
      DigitAt(size, 8, 7 - k);
      assert out[7 - (7 - k)] == size / Pow256(7 - k) % 256;
    }
    assert out[..] == ToBytes(size, 8);
    U64IsPow();
    DecodeEncode(size, 8);
  }

  /** The C++ decoder. The shift drops bits above the 64th; the `|` fills eight cleared bits, so it adds. */
  method RequestFromBytes(header: seq<byte>) returns (size: nat)
    requires |header| == 8
    ensures size == BigEndian(header) < U64
    ensures ToBytes(size, 8) == header
  {
    size := 0;
    for i := 0 to 8
      invariant size == BigEndian(header[..i])
      invariant size < Pow256(i)
    {
      assert header[..i + 1][..i] == header[..i];
      assert Pow256(i) <= Pow256(7) by { PowMonotone(i, 7); }
      assert Pow256(7) * 256 == U64 by { U64IsPow(); }
      size := size * 256 % U64 + header[i];
    }
    assert header[..8] == header;
    U64IsPow();
    EncodeDecode(header);
  }

  lemma {:induction false} PowMonotone(i: nat, j: nat)
    requires i <= j
    ensures Pow256(i) <= Pow256(j)
  {
    if i < j {
      PowMonotone(i, j - 1);
    }
  }
}
