/** Fixed-width integers as bytes, big-endian and little-endian. */
module ByteOrder {
  import opened Words
  import Difficulty

  function Pow256(n: nat): (p: nat)
    ensures 0 < p
  {
    if n == 0 then 1 else 256 * Pow256(n - 1)
  }

  /** The last byte is the least significant. */
  function FromBE(s: Bytes): nat {
    if s == [] then 0 else FromBE(s[..|s| - 1]) * 256 + s[|s| - 1] as nat
  }

  function ToBE(n: nat, len: nat): (s: Bytes)
    ensures |s| == len
  {
    if len == 0 then [] else ToBE(n / 256, len - 1) + [(n % 256) as u8]
  }

  /** The first byte is the least significant. */
  function FromLE(s: Bytes): nat {
    if s == [] then 0 else s[0] as nat + 256 * FromLE(s[1..])
  }

  function ToLE(n: nat, len: nat): (s: Bytes)
    ensures |s| == len
  {
    if len == 0 then [] else [(n % 256) as u8] + ToLE(n / 256, len - 1)
  }

  lemma {:induction false} BERoundTrip(n: nat, len: nat)
    requires n < Pow256(len)
    ensures FromBE(ToBE(n, len)) == n
  {
    if len > 0 {
      BERoundTrip(n / 256, len - 1);
      assert ToBE(n, len)[..len - 1] == ToBE(n / 256, len - 1);
    }
  }

  lemma {:induction false} LERoundTrip(n: nat, len: nat)
    requires n < Pow256(len)
    ensures FromLE(ToLE(n, len)) == n
  {
    if len > 0 {
      LERoundTrip(n / 256, len - 1);
      assert ToLE(n, len)[1..] == ToLE(n / 256, len - 1);
    }
  }

  lemma ByteOut(q: nat, p: nat)
    ensures q * (256 * p) == 256 * (q * p)
  {
    TimesAssociates(q, 256, p);
    TimesAssociates(256, q, p);
  }

  lemma QuotientOfQuotient(n: nat, p: nat)
    requires 0 < p
    ensures n / 256 / p == n / (256 * p)
  {
    hide Difficulty.Goes;
    Difficulty.QuotientGoes(n / 256, p);
    NestedGoes(n / 256 / p, p, n / 256, n);
    QuotientAt(n / 256 / p, n, 256 * p);
  }

  lemma QuotientAt(q: nat, n: nat, d: nat)
    requires Difficulty.Goes(q, n, d) && 0 < d
    ensures q == n / d
  {
    hide Difficulty.Goes;
    Difficulty.QuotientGoes(n, d);
    Difficulty.GoesOnce(n, d, q, n / d);
  }

  lemma NestedGoes(q: nat, p: nat, m: nat, n: nat)
    requires Difficulty.Goes(q, m, p) && 256 * m <= n < 256 * m + 256
    ensures Difficulty.Goes(q, n, 256 * p)
  {
    ByteOut(q, p);
    ByteOut(q + 1, p);
  }

  /** Digit `i` of `n` to the base 256. */
  function Digit(n: nat, i: nat): nat {
    n / Pow256(i) % 256
  }

  /** Byte `i` is digit `i` to the base 256. */
  lemma {:induction false} LEDigit(n: nat, len: nat, i: nat)
    requires i < len
    ensures ToLE(n, len)[i] as nat == Digit(n, i)
  {
    if i > 0 {
      LEDigit(n / 256, len - 1, i - 1);
      QuotientOfQuotient(n, Pow256(i - 1));
    }
  }

  /** Counted from the other end. */
  lemma {:induction false} BEDigit(n: nat, len: nat, i: nat)
    requires i < len
    ensures ToBE(n, len)[len - 1 - i] as nat == Digit(n, i)
  {
    if i > 0 {
      BEDigit(n / 256, len - 1, i - 1);
      QuotientOfQuotient(n, Pow256(i - 1));
    }
  }

  /** Every byte string is the number it is read as. */
  lemma {:induction false} LEWhole(s: Bytes)
    ensures ToLE(FromLE(s), |s|) == s
  {
    if s != [] {
      LEWhole(s[1..]);
      LowByte(s[0] as nat, FromLE(s[1..]));
      assert s == [s[0]] + s[1..];
    }
  }

  lemma LowByte(low: nat, high: nat)
    requires low < 256
    ensures (low + 256 * high) % 256 == low && (low + 256 * high) / 256 == high
  {
  }

  lemma {:induction false} BEWhole(s: Bytes)
    ensures ToBE(FromBE(s), |s|) == s
  {
    if s != [] {
      BEWhole(s[..|s| - 1]);
      LowByte(s[|s| - 1] as nat, FromBE(s[..|s| - 1]));
      assert s == s[..|s| - 1] + [s[|s| - 1]];
    }
  }

  lemma {:induction false} BEBound(s: Bytes)
    ensures FromBE(s) < Pow256(|s|)
  {
    if s != [] {
      BEBound(s[..|s| - 1]);
    }
  }

  lemma {:induction false} LEBound(s: Bytes)
    ensures FromLE(s) < Pow256(|s|)
  {
    if s != [] {
      LEBound(s[1..]);
    }
  }

  /** A big-endian number splits at any byte. */
  lemma {:induction false} BESplit(a: Bytes, b: Bytes)
    ensures FromBE(a + b) == FromBE(a) * Pow256(|b|) + FromBE(b)
  {
    if b == [] {
      assert a + b == a;
    } else {
      var front := b[..|b| - 1];
      assert (a + b)[..|a + b| - 1] == a + front;
      BESplit(a, front);
      assert FromBE(a) * Pow256(|front|) * 256 == FromBE(a) * Pow256(|b|);
    }
  }

  lemma WordWidths()
    ensures Pow256(8) == U64_MAX as nat + 1
    ensures Pow256(16) == U128_MAX as nat + 1
  {
    Pow256Adds(4, 4);
    Pow256Adds(8, 8);
    assert Pow256(4) == 0x1_0000_0000 by {
      assert Pow256(2) == 0x1_0000;
      Pow256Adds(2, 2);
    }
  }

  lemma {:induction false} Pow256Adds(a: nat, b: nat)
    ensures Pow256(a) * Pow256(b) == Pow256(a + b)
  {
    if a > 0 {
      Pow256Adds(a - 1, b);
      TimesAssociates(256, Pow256(a - 1), Pow256(b));
    }
  }
}
