/** Bytes as small numbers. */
module Byte {
  lemma Value(n: nat)
    requires n < 256
    ensures (n as bv8) as nat == n
  {
  }
}

/** Big-endian numbers in sequences of bytes. */
module Octets {
  import opened Wrappers
  import Byte

  type Bytes = seq<bv8>

  function Power256(k: nat): nat {
    if k == 0 then 1 else 256 * Power256(k - 1)
  }

  /** The last `k` bytes of `n`. */
  function BigEndian(n: nat, k: nat): (s: Bytes)
    ensures |s| == k
  {
    if k == 0 then [] else BigEndian(n / 256, k - 1) + [(n % 256) as bv8]
  }

  function FromBigEndian(s: Bytes): nat {
    if s == [] then 0 else 256 * FromBigEndian(s[..|s| - 1]) + s[|s| - 1] as nat
  }

  lemma FromBigEndianAppend(s: Bytes, b: bv8)
    ensures FromBigEndian(s + [b]) == 256 * FromBigEndian(s) + b as nat
  {
    assert (s + [b])[..|s|] == s;
  }

  lemma {:induction false} BigEndianRoundTrip(n: nat, k: nat)
    requires n < Power256(k)
    ensures FromBigEndian(BigEndian(n, k)) == n
  {
    if k > 0 {
      BigEndianRoundTrip(n / 256, k - 1);
      FromBigEndianAppend(BigEndian(n / 256, k - 1), (n % 256) as bv8);
      Byte.Value(n % 256);
    }
  }

  lemma Powers()
    ensures Power256(2) == 0x1_0000 && Power256(8) == U64_LIMIT
  {
    assert Power256(4) == 0x1_0000_0000;
  }

  lemma BigEndianZero(k: nat)
    ensures forall i :: 0 <= i < k ==> BigEndian(0, k)[i] == 0
  {
  }

  lemma {:induction false} FromBigEndianBound(s: Bytes)
    ensures FromBigEndian(s) < Power256(|s|)
  {
    if s != [] {
      FromBigEndianBound(s[..|s| - 1]);
    }
  }

  lemma {:induction false} PowerMonotone(j: nat, k: nat)
    requires j <= k
    ensures 0 < Power256(j) <= Power256(k)
  {
    if j < k {
      PowerMonotone(j, k - 1);
    } else if j > 0 {
      PowerMonotone(j - 1, k - 1);
    }
  }
}
