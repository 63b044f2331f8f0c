/** The Internet checksum: summed in the machine's own byte order, stored as section 2 of RFC 1071 wants it. */
module Checksum {
  import opened Common

  const MODULUS: nat := 0xFFFF
  const INT_MAX: nat := 0x7FFF_FFFF
  const MAX_PAYLOAD: nat := 65515
  const PSEUDO_HEADER: nat := 12

  type u16 = x: nat | x < 0x1_0000

  // ---------------------------------------------------------------- sums of words

  /** The sum of the 16-bit words as a little-endian machine reads them; an odd byte at the end counts as it is. */
  function LeSum(b: seq<byte>): nat {
    if |b| == 0 then 0
    else if |b| == 1 then b[0] as nat
    else b[0] as nat + 0x100 * b[1] as nat + LeSum(b[2..])
  }

  /** The words in network order, padded with a zero byte at the end. */
  function Words(b: seq<byte>): seq<u16> {
    if |b| == 0 then []
    else if |b| == 1 then [0x100 * b[0] as nat]
    else [0x100 * b[0] as nat + b[1] as nat] + Words(b[2..])
  }

  function Sum(words: seq<u16>): nat {
    if words == [] then 0 else words[0] + Sum(words[1..])
  }

  // ---------------------------------------------------------------- one's complement arithmetic

  /** One's complement addition: the carry out of the top comes back in at the bottom. */
  function OnesAdd(a: u16, b: u16): u16 {
    if a + b > MODULUS then a + b - MODULUS else a + b
  }

  /** The one's complement sum of RFC 1071. */
  function OnesSum(words: seq<u16>): u16 {
    if words == [] then 0 else OnesAdd(words[0], OnesSum(words[1..]))
  }

  /** Adding the upper half to the lower one until there is no upper half. */
  function Fold(n: nat): (r: u16)
    decreases n
  {
    if n / 0x1_0000 == 0 then n else Fold(n % 0x1_0000 + n / 0x1_0000)
  }

  /** The 16-bit number congruent to `n`, where zero stands for itself only. */
  ghost predicate Residue(n: nat, r: u16) {
    r % MODULUS == n % MODULUS && (r == 0 <==> n == 0)
  }

  lemma ResidueUnique(n: nat, r: u16, r': u16)
    requires Residue(n, r) && Residue(n, r')
    ensures r == r'
  {
  }

  lemma {:induction false} FoldResidue(n: nat)
    ensures Residue(n, Fold(n))
    decreases n
  {
    if n / 0x1_0000 != 0 {
      FoldResidue(n % 0x1_0000 + n / 0x1_0000);
      assert n == (n % 0x1_0000 + n / 0x1_0000) + MODULUS * (n / 0x1_0000);
      SameResidue(n % 0x1_0000 + n / 0x1_0000, n / 0x1_0000);
    }
  }

  lemma {:induction false} SameResidue(n: nat, k: nat)
    ensures (n + MODULUS * k) % MODULUS == n % MODULUS
  {
    if k > 0 {
      SameResidue(n, k - 1);
      assert n + MODULUS * k == n + MODULUS * (k - 1) + MODULUS;
    }
  }

  lemma {:induction false} OnesSumResidue(words: seq<u16>)
    ensures Residue(Sum(words), OnesSum(words))
  {
    if words != [] {
      OnesSumResidue(words[1..]);
      var a, s, n := words[0], OnesSum(words[1..]), Sum(words[1..]);
      AddResidue(a, s, n);
    }
  }

  lemma AddResidue(a: u16, s: u16, n: nat)
    requires Residue(n, s)
    ensures Residue(a + n, OnesAdd(a, s))
  {
    assert (a + s) % MODULUS == (a + n) % MODULUS;
  }

  // ---------------------------------------------------------------- byte order

  function Swap(x: u16): u16 {
    x % 0x100 * 0x100 + x / 0x100
  }

  function Complement(x: u16): u16 {
    MODULUS - x
  }

  lemma SwapComplement(x: u16)
    ensures Swap(Complement(x)) == Complement(Swap(x))
  {
  }

  lemma ModAdd(a: nat, b: nat, c: nat)
    requires a % MODULUS == b % MODULUS
    ensures (c + a) % MODULUS == (c + b) % MODULUS
  {
    SameResidue(c + a % MODULUS, a / MODULUS);
    SameResidue(c + b % MODULUS, b / MODULUS);
    assert c + a == c + a % MODULUS + MODULUS * (a / MODULUS);
    assert c + b == c + b % MODULUS + MODULUS * (b / MODULUS);
  }

  lemma ShiftWord(lo: nat, hi: nat, n: nat, m: nat)
    requires (0x100 * n) % MODULUS == m % MODULUS
    ensures (0x100 * (lo + 0x100 * hi + n)) % MODULUS == (0x100 * lo + hi + m) % MODULUS
  {
    assert 0x100 * (lo + 0x100 * hi + n) == 0x100 * lo + hi + 0x100 * n + MODULUS * hi;
    SameResidue(0x100 * lo + hi + 0x100 * n, hi);
    ModAdd(0x100 * n, m, 0x100 * lo + hi);
  }

  /** Reading the words the other way round multiplies the sum by 256, modulo 65535. */
  lemma {:induction false} OrderShift(b: seq<byte>)
    ensures (0x100 * LeSum(b)) % MODULUS == Sum(Words(b)) % MODULUS
    ensures LeSum(b) == 0 <==> Sum(Words(b)) == 0
  {
    if |b| == 1 {
      assert Words(b)[1..] == [];
    } else if |b| > 1 {
      OrderShift(b[2..]);
      var lo, hi, n, m := b[0] as nat, b[1] as nat, LeSum(b[2..]), Sum(Words(b[2..]));
      assert Words(b)[1..] == Words(b[2..]);
      ShiftWord(lo, hi, n, m);
    }
  }

  lemma SwapShift(x: u16)
    ensures Swap(x) % MODULUS == (0x100 * x) % MODULUS && (Swap(x) == 0 <==> x == 0)
  {
    assert 0x100 * x == Swap(x) + MODULUS * (x / 0x100);
    SameResidue(Swap(x), x / 0x100);
  }

  /** The folded sum in native order, with its bytes swapped, is the one's complement sum in network order. */
  lemma NativeOrder(b: seq<byte>)
    ensures Swap(Fold(LeSum(b))) == OnesSum(Words(b))
  {
    var n, m := LeSum(b), Sum(Words(b));
    FoldResidue(n);
    OrderShift(b);
    OnesSumResidue(Words(b));
    SwapShift(Fold(n));
    assert (0x100 * Fold(n)) % MODULUS == (0x100 * n) % MODULUS by {
      TimesResidue(Fold(n), n);
    }
    ResidueUnique(m, Swap(Fold(n)), OnesSum(Words(b)));
  }

  lemma TimesResidue(a: nat, b: nat)
    requires a % MODULUS == b % MODULUS
    ensures (0x100 * a) % MODULUS == (0x100 * b) % MODULUS
  {
    SameResidue(0x100 * (a % MODULUS), 0x100 * (a / MODULUS));
    SameResidue(0x100 * (b % MODULUS), 0x100 * (b / MODULUS));
    assert 0x100 * a == 0x100 * (a % MODULUS) + MODULUS * (0x100 * (a / MODULUS));
    assert 0x100 * b == 0x100 * (b % MODULUS) + MODULUS * (0x100 * (b / MODULUS));
  }

  // ---------------------------------------------------------------- the code

  lemma {:induction false} LeSumBound(b: seq<byte>)
    ensures LeSum(b) <= MODULUS * (|b| / 2) + 255 * (|b| % 2)
  {
    if |b| > 1 {
      LeSumBound(b[2..]);
    }
  }

  lemma {:induction false} LeSumConcat(a: seq<byte>, b: seq<byte>)
    requires |a| % 2 == 0
    ensures LeSum(a + b) == LeSum(a) + LeSum(b)
  {
    if a == [] {
      assert a + b == b;
    } else {
      LeSumConcat(a[2..], b);
      assert (a + b)[2..] == a[2..] + b;
    }
  }

  /** partial_checksum. For a payload that fits a packet, the sum fits the int it is kept in. */
  method PartialChecksum(b: seq<byte>) returns (sum: nat)
    ensures sum == LeSum(b)
    ensures |b| <= MAX_PAYLOAD ==> sum + MODULUS * (PSEUDO_HEADER / 2) <= INT_MAX
  {
    sum := 0;
    var i, count := 0, |b|;
    while count > 1
      invariant 0 <= i <= |b| && count == |b| - i && sum + LeSum(b[i..]) == LeSum(b)
    {
      assert b[i..][2..] == b[i + 2..];
      sum := sum + b[i] as nat + 0x100 * b[i + 1] as nat;
      i, count := i + 2, count - 2;
    }
    if count > 0 {
      sum := sum + b[i] as nat;
    }
    LeSumBound(b);
  }

  /** The checksum of RFC 1071: the complement of the one's complement sum, in network order. */
  function RfcChecksum(b: seq<byte>): u16 {
    Complement(OnesSum(Words(b)))
  }

  /** Folding, complementing and swapping, as both checksum functions end. */
  method Finish(sum0: nat) returns (c: u16)
    ensures c == Complement(Swap(Fold(sum0)))
  {
    var sum := sum0;
    while sum / 0x1_0000 != 0
      invariant Fold(sum) == Fold(sum0)
      decreases sum
    {
      sum := sum % 0x1_0000 + sum / 0x1_0000;
    }
    SwapComplement(Fold(sum0));
    c := Swap(Complement(sum));
  }

  /** compute_header_checksum. */
  method HeaderChecksum(header: seq<byte>) returns (c: u16)
    ensures c == RfcChecksum(header)
  {
    var sum := PartialChecksum(header);
    c := Finish(sum);
    NativeOrder(header);
  }

  /**
    ipv4_transport_checksum: over the segment with the pseudo header of RFC 768 and RFC 793 before
    it, which is the addresses, a zero byte, the protocol and the length. The 32-bit sum never overflows.
   */
  method TransportChecksum(segment: seq<byte>, src: seq<byte>, dst: seq<byte>, protocol: byte) returns (c: u16)
    requires |src| == 4 && |dst| == 4 && |segment| <= MAX_PAYLOAD
    ensures c == RfcChecksum(src + dst + [0, protocol, (|segment| / 0x100) as byte, (|segment| % 0x100) as byte] + segment)
    ensures LeSum(src + dst + [0, protocol, (|segment| / 0x100) as byte, (|segment| % 0x100) as byte]) + LeSum(segment) <= 0x7FFF_FFFF
  {
    var pseudo := PseudoHeader(src, dst, protocol, |segment|);
    var sum := PartialChecksum(pseudo);
    LeSumBound(pseudo);
    var rest := PartialChecksum(segment);
    assert sum + rest <= INT_MAX;
    sum := sum + rest;
    c := Finish(sum);
    LeSumConcat(pseudo, segment);
    NativeOrder(pseudo + segment);
  }

  function PseudoHeader(src: seq<byte>, dst: seq<byte>, protocol: byte, length: u16): (b: seq<byte>)
    requires |src| == 4 && |dst| == 4
    ensures |b| == PSEUDO_HEADER
  {
    src + dst + [0, protocol, (length / 0x100) as byte, (length % 0x100) as byte]
  }

  // ---------------------------------------------------------------- checking

  /** A be16 field. */
  function Filled(b: seq<byte>, k: nat, c: u16): (f: seq<byte>)
    requires k + 1 < |b|
    ensures |f| == |b|
  {
    b[k := (c / 0x100) as byte][k + 1 := (c % 0x100) as byte]
  }

  lemma {:induction false} FilledSum(b: seq<byte>, k: nat, c: u16)
    requires k + 1 < |b| && k % 2 == 0 && b[k] == 0 && b[k + 1] == 0
    ensures Sum(Words(Filled(b, k, c))) == Sum(Words(b)) + c
    decreases |b|
  {
    var f := Filled(b, k, c);
    assert Words(f)[1..] == Words(f[2..]) && Words(b)[1..] == Words(b[2..]);
    if k == 0 {
      assert f[2..] == b[2..];
    } else {
      FilledSum(b[2..], k - 2, c);
      assert f[2..] == Filled(b[2..], k - 2, c);
    }
  }

  /** A packet whose field was zero while the checksum was computed checks to zero once it is filled in. */
  lemma FilledChecks(b: seq<byte>, k: nat)
    requires k + 1 < |b| && k % 2 == 0 && b[k] == 0 && b[k + 1] == 0
    ensures RfcChecksum(Filled(b, k, RfcChecksum(b))) == 0
  {
    var s, n := OnesSum(Words(b)), Sum(Words(b));
    var f := Filled(b, k, Complement(s));
    FilledSum(b, k, Complement(s));
    OnesSumResidue(Words(b));
    OnesSumResidue(Words(f));
    ModAdd(n, s, MODULUS - s);
    ResidueUnique(n + Complement(s), OnesSum(Words(f)), MODULUS);
  }
}
