/** Bytes, C strings and the little-endian integers of the wire format. */
module Bytes {

  newtype byte = x: int | 0 <= x < 256
  type bytes = seq<byte>

  const NUL: byte := 0
  const TAB: byte := 9
  const LF: byte := 10
  const VT: byte := 11
  const FF: byte := 12
  const CR: byte := 13
  const SPACE: byte := 32
  const BACKSLASH: byte := 92

  /** 2^64: a `size_t` is below it. */
  const SIZE_LIMIT: nat := 0x1_0000_0000_0000_0000

  datatype Option<+T> = None | Some(value: T)

  /* ---------- C strings ---------- */

  /** Index of the first NUL of `s`, or |s| when there is none. */
  function FirstNul(s: bytes): (n: nat)
    ensures n <= |s|
    ensures forall i :: 0 <= i < n ==> s[i] != NUL
    ensures n < |s| ==> s[n] == NUL
  {
    if s == [] || s[0] == NUL then 0 else 1 + FirstNul(s[1..])
  }

  /** The C string a pointer to `s` denotes: everything before the first NUL. */
  function CStr(s: bytes): (c: bytes)
    ensures NulFree(c)
  {
    s[..FirstNul(s)]
  }

  predicate NulFree(s: bytes) {
    forall i :: 0 <= i < |s| ==> s[i] != NUL
  }

  function Zeros(n: nat): (z: bytes)
    ensures |z| == n
    ensures forall i :: 0 <= i < n ==> z[i] == NUL
  {
    seq(n, i => NUL)
  }

  /** What `strncpy(dst, s, |s|)` leaves in `dst`: the C string, padded with NULs. */
  function StrNCpy(s: bytes): (d: bytes)
    ensures |d| == |s|
    ensures forall i :: 0 <= i < |s| ==> d[i] == if i < FirstNul(s) then s[i] else NUL
  {
    CStr(s) + Zeros(|s| - FirstNul(s))
  }

  /** No byte after the first NUL carries data. */
  predicate NothingAfterNul(s: bytes) {
    forall i, j :: 0 <= i < j < |s| && s[i] == NUL ==> s[j] == NUL
  }

  lemma FirstNulIs(s: bytes, n: nat)
    requires n <= |s| && (forall i :: 0 <= i < n ==> s[i] != NUL) && (n < |s| ==> s[n] == NUL)
    ensures FirstNul(s) == n
  {
  }

  lemma StrNCpyOfPrefix(s: bytes, n: nat)
    requires n <= |s|
    ensures StrNCpy(s)[..n] == StrNCpy(s[..n])
  {
    FirstNulIs(s[..n], if FirstNul(s) < n then FirstNul(s) else n);
  }

  /** Where the copy has a NUL: at the first one and everywhere behind. */
  lemma StrNCpyNulAt(s: bytes, n: nat)
    requires n < |s|
    ensures StrNCpy(s)[n] == NUL <==> !NulFree(s[..n]) || s[n] == NUL
  {
    if NulFree(s[..n]) {
      assert forall i :: 0 <= i < n ==> s[i] == s[..n][i];
    }
  }

  /** `strncpy` is a faithful copy exactly of the byte strings with no data after a NUL. */
  lemma StrNCpyFaithful(s: bytes)
    ensures StrNCpy(s) == s <==> NothingAfterNul(s)
  {
    var n := FirstNul(s);
    if NothingAfterNul(s) {
      forall i | 0 <= i < |s| ensures StrNCpy(s)[i] == s[i] {
        if n < i { assert s[n] == NUL; }
      }
    } else {
      var i, j :| 0 <= i < j < |s| && s[i] == NUL && s[j] != NUL;
      assert n <= i;
      assert StrNCpy(s)[j] == NUL;
    }
  }

  /* ---------- text ---------- */

  /** The bytes of a text literal */
  function Ascii(s: string): (b: bytes)
    ensures |b| == |s|
    ensures forall i :: 0 <= i < |s| ==> b[i] as int == s[i] as int % 256
  {
    seq(|s|, i requires 0 <= i < |s| => (s[i] as int % 256) as byte)
  }

  /* ---------- little-endian integers ---------- */

  function Pow256(k: nat): (p: nat)
    ensures p >= 1
  {
    if k == 0 then 1 else 256 * Pow256(k - 1)
  }

  /** The `k` low bytes of `n`, least significant first. */
  function Le(n: nat, k: nat): (s: bytes)
    ensures |s| == k
  {
    if k == 0 then [] else [(n % 256) as byte] + Le(n / 256, k - 1)
  }

  lemma QuotientIs(n: nat, d: nat, q: nat, r: nat)
    requires n == d * q + r && r < d
    ensures n / d == q
  {
    var q' := n / d;
    if q' > q {
      AtLeastOnce(d, q' - q);
      assert false;
    } else if q' < q {
      AtLeastOnce(d, q - q');
      assert false;
    }
  }

  lemma AtLeastOnce(d: nat, k: nat)
    requires k > 0
    ensures d * k >= d
  {
  }

  /** Dividing by 256 and then by `b` is dividing by 256 * b. */
  lemma DivDiv(n: nat, b: nat)
    requires b > 0
    ensures n / (256 * b) == (n / 256) / b
  {
    var m := n / 256;
    var q, r := m / b, m % b;
    assert (256 * b) * q == 256 * (b * q);
    QuotientIs(n, 256 * b, q, 256 * r + n % 256);
  }

  /** Byte `i` of an integer is its digit to the base 256, least significant first. */
  lemma {:induction false} LeDigits(n: nat, k: nat, i: nat)
    requires i < k
    ensures Le(n, k)[i] as nat == (n / Pow256(i)) % 256
  {
    if i > 0 {
      LeDigits(n / 256, k - 1, i - 1);
      DivDiv(n, Pow256(i - 1));
      assert Le(n, k)[1..] == Le(n / 256, k - 1);
    }
  }

  function DecodeLe(s: bytes): nat {
    if s == [] then 0 else s[0] as nat + 256 * DecodeLe(s[1..])
  }

  lemma {:induction false} LeRoundTrip(n: nat, k: nat)
    requires n < Pow256(k)
    ensures DecodeLe(Le(n, k)) == n
  {
    if k > 0 {
      LeRoundTrip(n / 256, k - 1);
      assert Le(n, k)[1..] == Le(n / 256, k - 1);
    }
  }

  lemma {:induction false} DecodeRoundTrip(s: bytes)
    ensures DecodeLe(s) < Pow256(|s|)
    ensures Le(DecodeLe(s), |s|) == s
  {
    if s != [] {
      DecodeRoundTrip(s[1..]);
      assert DecodeLe(s) / 256 == DecodeLe(s[1..]);
    }
  }

  lemma Pow256Of8()
    ensures Pow256(8) == SIZE_LIMIT
  {
    assert Pow256(2) == 0x1_0000;
    assert Pow256(4) == 0x1_0000_0000;
    assert Pow256(6) == 0x1_0000_0000_0000;
  }

  /** The eight bytes of a `size_t` on the wire and in memory. */
  function Le64(n: nat): (s: bytes)
    ensures |s| == 8
  {
    Le(n, 8)
  }

  lemma Le64RoundTrip(n: nat)
    requires n < SIZE_LIMIT
    ensures DecodeLe(Le64(n)) == n
  {
    Pow256Of8();
    LeRoundTrip(n, 8);
  }
}
