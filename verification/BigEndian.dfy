/** Big-endian integers: big.Int.Bytes, big.Int.SetBytes and the left-padded,
    fixed-width form of section 3.4 of RFC 7518. */
module BigEndian {
  import opened Wrappers

  function Pow2(k: nat): (r: nat)
    ensures r > 0
  {
    if k == 0 then 1 else 2 * Pow2(k - 1)
  }

  function Pow256(k: nat): (r: nat)
    ensures r > 0
  {
    if k == 0 then 1 else 256 * Pow256(k - 1)
  }

  // big.Int.SetBytes.
  function Value(b: Bytes): nat {
    if b == [] then 0 else Value(b[..|b| - 1]) * 256 + b[|b| - 1]
  }

  // big.Int.Bytes of a non-negative integer: no leading zero octet.
  function Minimal(n: nat): Bytes {
    if n == 0 then [] else Minimal(n / 256) + [n % 256]
  }

  function Zeros(k: nat): (b: Bytes)
    ensures |b| == k
    ensures forall i :: 0 <= i < k ==> b[i] == 0
  {
    seq(k, _ => 0)
  }

  lemma {:induction false} ValueOfMinimal(n: nat)
    ensures Value(Minimal(n)) == n
  {
    if n > 0 {
      ValueOfMinimal(n / 256);
      var m := Minimal(n / 256);
      assert (m + [n % 256])[..|m|] == m;
    }
  }

  lemma {:induction false} MinimalLength(n: nat, k: nat)
    ensures |Minimal(n)| <= k <==> n < Pow256(k)
  {
    if n > 0 && k > 0 {
      MinimalLength(n / 256, k - 1);
    }
  }

  lemma {:induction false} LeadingZeros(k: nat, b: Bytes)
    ensures Value(Zeros(k) + b) == Value(b)
    decreases k + |b|
  {
    if b != [] {
      var init := b[..|b| - 1];
      assert (Zeros(k) + b)[..k + |b| - 1] == Zeros(k) + init;
      LeadingZeros(k, init);
    } else if k > 0 {
      assert Zeros(k) + b == Zeros(k);
      assert Zeros(k)[..k - 1] == Zeros(k - 1) + [];
      LeadingZeros(k - 1, []);
    }
  }

  lemma {:induction false} ValueBound(b: Bytes)
    ensures Value(b) < Pow256(|b|)
  {
    if b != [] {
      ValueBound(b[..|b| - 1]);
    }
  }

  lemma {:induction false} NoLeadingZero(n: nat)
    ensures Minimal(n) != [] ==> Minimal(n)[0] != 0
  {
    if n >= 256 {
      NoLeadingZero(n / 256);
      assert Minimal(n / 256) != [];
    }
  }

  // n needs no more than `size` octets.
  predicate Fits(n: nat, size: nat) {
    |Minimal(n)| <= size
  }

  // The `size` octets that represent n, padded on the left with zeros.
  function FixedWidth(n: nat, size: nat): (b: Bytes)
    requires Fits(n, size)
    ensures |b| == size
  {
    Zeros(size - |Minimal(n)|) + Minimal(n)
  }

  lemma FixedWidthRoundTrip(n: nat, size: nat)
    requires Fits(n, size)
    ensures Value(FixedWidth(n, size)) == n
  {
    LeadingZeros(size - |Minimal(n)|, Minimal(n));
    ValueOfMinimal(n);
  }

  lemma {:induction false} SameValueSameOctets(a: Bytes, b: Bytes)
    requires |a| == |b| && Value(a) == Value(b)
    ensures a == b
  {
    if a != [] {
      var i := |a| - 1;
      SameValueSameOctets(a[..i], b[..i]);
      assert a == a[..i] + [a[i]] && b == b[..i] + [b[i]];
    }
  }

  // The fixed-width form is the only string of `size` octets with that value.
  lemma FixedWidthUnique(b: Bytes)
    ensures Fits(Value(b), |b|)
    ensures FixedWidth(Value(b), |b|) == b
  {
    ValueBound(b);
    MinimalLength(Value(b), |b|);
    FixedWidthRoundTrip(Value(b), |b|);
    SameValueSameOctets(FixedWidth(Value(b), |b|), b);
  }

  lemma {:induction false} BitsFitOctets(bits: nat, size: nat)
    requires bits <= 8 * size
    ensures Pow2(bits) <= Pow256(size)
  {
    if size == 0 {
    } else if bits <= 8 {
      SmallPowers();
      assert Pow256(size) == 256 * Pow256(size - 1);
      Pow2Monotone(bits, 8);
    } else {
      BitsFitOctets(bits - 8, size - 1);
      EightBits(bits - 8);
    }
  }

  lemma {:induction false} Pow2Monotone(a: nat, b: nat)
    requires a <= b
    ensures Pow2(a) <= Pow2(b)
  {
    if a < b {
      Pow2Monotone(a, b - 1);
    }
  }

  lemma SmallPowers()
    ensures Pow2(8) == 256
  {
    EightBits(0);
  }

  lemma EightBits(k: nat)
    ensures Pow2(k + 8) == 256 * Pow2(k)
  {
    assert Pow2(k + 2) == 4 * Pow2(k);
    assert Pow2(k + 4) == 4 * Pow2(k + 2);
    assert Pow2(k + 6) == 4 * Pow2(k + 4);
    assert Pow2(k + 8) == 4 * Pow2(k + 6);
  }

  // Go's copy(buf[start:], src) into a buffer that has room for all of src.
  method CopyInto(buf: array<byte>, start: nat, src: Bytes)
    requires start + |src| <= buf.Length
    modifies buf
    ensures buf[..] == old(buf[..start]) + src + old(buf[start + |src|..])
  {
    var i := 0;
    while i < |src|
      invariant 0 <= i <= |src|
      invariant forall k :: 0 <= k < i ==> buf[start + k] == src[k]
      invariant forall k :: 0 <= k < buf.Length && !(start <= k < start + i) ==> buf[k] == old(buf[k])
    {
      buf[start + i] := src[i];
      i := i + 1;
    }
  }
}
