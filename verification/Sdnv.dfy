/** ltp/src/sdnv.rs: self-delimiting numeric values, section 2 of RFC 5326. */
module Sdnv {
  import opened Basics
  import opened Bits

  const MAX_LEN := 10

  const TWO_64 := 0x1_0000_0000_0000_0000

  datatype Error = Truncated | Overflow

  datatype Result<+T> = Ok(value: T) | Err(error: Error)

  // ---- What an SDNV is -----------------------------------------------------------------------

  /** The number written in base 128 by the low seven bits of the octets, most significant first. */
  ghost function Base128(s: seq<byte>): nat {
    if s == [] then 0 else 128 * Base128(s[..|s| - 1]) + s[|s| - 1] % 128
  }

  /** Every octet has its continuation bit set. */
  ghost predicate Continues(s: seq<byte>) {
    forall i :: 0 <= i < |s| ==> 0x80 <= s[i]
  }

  /** `s` is one whole SDNV, possibly padded, with value `v`. */
  ghost predicate IsSdnv(s: seq<byte>, v: nat) {
    1 <= |s| <= MAX_LEN && Continues(s[..|s| - 1]) && s[|s| - 1] < 0x80 && Base128(s) == v < TWO_64
  }

  /** The first `n` octets of `input` are an SDNV with value `v`. */
  ghost predicate Decodes(input: seq<byte>, v: nat, n: nat) {
    n <= |input| && IsSdnv(input[..n], v)
  }

  lemma DecodesAt(input: seq<byte>, v: nat, n: nat)
    requires Decodes(input, v, n)
    ensures 1 <= n <= MAX_LEN && input[n - 1] < 0x80 && forall i :: 0 <= i < n - 1 ==> 0x80 <= input[i]
  {
    var s := input[..n];
    forall i | 0 <= i < n - 1 ensures 0x80 <= input[i] {
      assert s[..|s| - 1][i] == input[i];
    }
  }

  /** An input starts with at most one SDNV. */
  lemma DecodesOneWay(input: seq<byte>, v: nat, n: nat, w: nat, m: nat)
    requires Decodes(input, v, n) && Decodes(input, w, m)
    ensures n == m && v == w
  {
    DecodesAt(input, v, n);
    DecodesAt(input, w, m);
  }

  // ---- Powers and lengths ----------------------------------------------------------------------

  function Pow128(n: nat): (p: nat)
    ensures 1 <= p
  {
    if n == 0 then 1 else 128 * Pow128(n - 1)
  }

  lemma {:induction false} Pow128Grows(a: nat, b: nat)
    requires a <= b
    ensures Pow128(a) <= Pow128(b)
  {
    if a < b { Pow128Grows(a, b - 1); }
  }

  lemma SevenDoublings(n: nat)
    ensures Pow2(n + 7) == 128 * Pow2(n)
  {
    assert Pow2(n + 2) == 4 * Pow2(n);
    assert Pow2(n + 4) == 4 * Pow2(n + 2);
    assert Pow2(n + 6) == 4 * Pow2(n + 4);
  }

  lemma {:induction false} Pow128IsPow2(n: nat)
    ensures Pow128(n) == Pow2(7 * n)
  {
    if n > 0 {
      Pow128IsPow2(n - 1);
      SevenDoublings(7 * (n - 1));
    }
  }

  lemma {:induction false} Base128Fits(s: seq<byte>)
    ensures Base128(s) < Pow128(|s|)
  {
    if s != [] { Base128Fits(s[..|s| - 1]); }
  }

  /** `64 - (v | 1).leading_zeros()`: the bits needed to write v, at least one. */
  function BitLength(v: nat): (b: nat)
    ensures 1 <= b
  {
    if v < 2 then 1 else 1 + BitLength(v / 2)
  }

  lemma {:induction false} BitLengthIsLeast(v: nat)
    ensures v < Pow2(BitLength(v))
    ensures 1 <= v ==> Pow2(BitLength(v) - 1) <= v
  {
    if 2 <= v { BitLengthIsLeast(v / 2); }
  }

  /** `encoded_len`. */
  function EncodedLen(v: u64): (n: nat)
    ensures 1 <= n
  {
    (BitLength(v) + 6) / 7
  }

  /** `encoded_len` is the least number of 7-bit groups that holds the value. */
  lemma EncodedLenIsLeast(v: u64)
    ensures v < Pow128(EncodedLen(v))
    ensures EncodedLen(v) == 1 || Pow128(EncodedLen(v) - 1) <= v
  {
    var b, n := BitLength(v), EncodedLen(v);
    BitLengthIsLeast(v);
    Pow128IsPow2(n);
    Pow128IsPow2(n - 1);
    Pow2Grows(b, 7 * n);
    if n > 1 { Pow2Grows(7 * (n - 1), b - 1); }
  }

  lemma Pow128Of9()
    ensures Pow128(9) == 0x8000_0000_0000_0000
  {
  }

  /** Any u64 fits in ten octets. */
  lemma EncodedLenFits(v: u64)
    ensures EncodedLen(v) <= MAX_LEN
  {
    EncodedLenIsLeast(v);
    if EncodedLen(v) > MAX_LEN {
      Pow128Of9();
      Pow128Grows(10, EncodedLen(v) - 1);
    }
  }

  // ---- Encoding ----------------------------------------------------------------------------------

  /** Octet i of the n octets written for v: shifting right by 7k divides by 128 to the k. */
  function Octet(v: u64, n: nat, i: nat): byte
    requires i < n
  {
    (v / Pow128(n - 1 - i)) % 128 + (if i + 1 == n then 0 else 0x80)
  }

  lemma OctetLow(v: u64, n: nat, i: nat)
    requires i < n
    ensures Octet(v, n, i) % 128 == (v / Pow128(n - 1 - i)) % 128
    ensures Octet(v, n, i) < 0x80 <==> i + 1 == n
  {
  }

  ghost function Encoding(v: u64): (s: seq<byte>)
    ensures |s| == EncodedLen(v)
  {
    seq(EncodedLen(v), i requires 0 <= i < EncodedLen(v) => Octet(v, EncodedLen(v), i))
  }

  lemma Regroup(q: nat, r: nat, p: nat)
    ensures (128 * q + r) * p == q * (128 * p) + r * p
  {
  }

  lemma DivideTwice(v: nat, p: nat)
    requires 0 < p
    ensures v / (128 * p) == (v / p) / 128
  {
    var q, r := v / p, v % p;
    var q1, r1 := q / 128, q % 128;
    Regroup(q1, r1, p);
    TimesGrows(r1, 127, p);
    QuotientIs(v, 128 * p, q1, r1 * p + r);
  }

  /** The octets written so far stand for the high groups of v. */
  lemma {:induction false} EncodingPrefix(v: u64, k: nat)
    requires k <= EncodedLen(v)
    ensures Base128(Encoding(v)[..k]) == v / Pow128(EncodedLen(v) - k)
  {
    var n, s := EncodedLen(v), Encoding(v)[..k];
    if k == 0 {
      EncodedLenIsLeast(v);
      QuotientIs(v, Pow128(n), 0, v);
    } else {
      EncodingPrefix(v, k - 1);
      assert s[..k - 1] == Encoding(v)[..k - 1];
      DivideTwice(v, Pow128(n - k));
      OctetLow(v, n, k - 1);
    }
  }

  /** What is written for v is an SDNV of exactly that value. */
  lemma EncodingIsSdnv(v: u64)
    ensures IsSdnv(Encoding(v), v)
  {
    var n, s := EncodedLen(v), Encoding(v);
    EncodedLenFits(v);
    EncodingPrefix(v, n);
    assert s[..n] == s;
  }

  /** Round trip: decoding what was written gives the value back, whatever follows. */
  lemma DecodesEncoding(v: u64, rest: seq<byte>)
    ensures Decodes(Encoding(v) + rest, v, EncodedLen(v))
  {
    EncodingIsSdnv(v);
    assert (Encoding(v) + rest)[..EncodedLen(v)] == Encoding(v);
  }

  /** No accepted encoding of v is shorter than the one written. */
  lemma NoneShorter(s: seq<byte>, v: u64)
    requires IsSdnv(s, v)
    ensures EncodedLen(v) <= |s|
  {
    Base128Fits(s);
    EncodedLenIsLeast(v);
    if |s| < EncodedLen(v) {
      Pow128Grows(|s|, EncodedLen(v) - 1);
    }
  }

  /** Padding with 0x80 octets changes the length, never the value. */
  lemma {:induction false} PaddingKeepsValue(s: seq<byte>)
    requires s != []
    ensures Base128([0x80] + s) == Base128(s)
  {
    var p := [0x80] + s;
    if |s| == 1 {
      assert p[..1] == [0x80];
      assert Base128([0x80]) == 0;
    } else {
      assert p[..|p| - 1] == [0x80] + s[..|s| - 1];
      PaddingKeepsValue(s[..|s| - 1]);
    }
  }

  /** `encode_to_array`: the buffer and how much of it is used. */
  method EncodeToArray(v: u64) returns (out: array<byte>, n: nat)
    ensures fresh(out) && out.Length == MAX_LEN && n == EncodedLen(v) <= MAX_LEN
    ensures out[..n] == Encoding(v) && IsSdnv(out[..n], v)
    ensures forall i :: n <= i < MAX_LEN ==> out[i] == 0
  {
    EncodedLenFits(v);
    EncodingIsSdnv(v);
    out := new byte[MAX_LEN](_ => 0);
    if v < 0x80 {
      SmallIsOneOctet(v);
      out[0] := v;
      n := 1;
      assert out[..1] == [v];
      return;
    }
    n := EncodedLen(v);
    for i := 0 to n
      invariant forall k :: 0 <= k < i ==> out[k] == Octet(v, n, k)
      invariant forall k :: i <= k < MAX_LEN ==> out[k] == 0
    {
      var group := (v / Pow128(n - 1 - i)) % 128;
      out[i] := (if i + 1 == n then 0 else 0x80) + group;
    }
    assert out[..n] == Encoding(v);
  }

  lemma SmallIsOneOctet(v: u64)
    requires v < 0x80
    ensures Encoding(v) == [v]
  {
    if EncodedLen(v) > 1 { Pow128Grows(1, EncodedLen(v) - 1); }
    EncodedLenIsLeast(v);
    assert Octet(v, 1, 0) == v;
  }

  /** `encode` appends the octets used. */
  method Encode(v: u64, out: seq<byte>) returns (longer: seq<byte>)
    ensures longer == out + Encoding(v)
  {
    var buf, n := EncodeToArray(v);
    longer := out + buf[..n];
  }

  // ---- Decoding ----------------------------------------------------------------------------------

  /**
   * The exact answer of `decode`: the one SDNV the input starts with, `Truncated` exactly when fewer
   * than ten octets were given and all of them continue, and `Overflow` for everything else.
   */
  ghost predicate Answers(input: seq<byte>, r: Result<(u64, nat)>) {
    match r
    case Ok((v, n)) => Decodes(input, v, n)
    case Err(Truncated) => Continues(input) && |input| < MAX_LEN
    case Err(Overflow) => (forall v, n :: !Decodes(input, v, n)) && !(Continues(input) && |input| < MAX_LEN)
  }

  /** The loop has passed `i` octets, all of them continued, and holds their value. */
  ghost predicate Passed(input: seq<byte>, i: nat, acc: nat) {
    i <= |input| && i <= MAX_LEN && Continues(input[..i]) && Base128(input[..i]) == acc
  }

  lemma PassOne(input: seq<byte>, i: nat, acc: nat)
    requires Passed(input, i, acc) && i < |input|
    ensures Base128(input[..i + 1]) == 128 * acc + input[i] % 128
    ensures 0x80 <= input[i] && i < MAX_LEN ==> Passed(input, i + 1, 128 * acc + input[i] % 128)
    ensures input[i] < 0x80 && i < MAX_LEN && 128 * acc + input[i] % 128 < TWO_64 ==>
      Decodes(input, 128 * acc + input[i] % 128, i + 1)
  {
    var s := input[..i + 1];
    assert s[..i] == input[..i];
  }

  lemma PassNone(input: seq<byte>)
    ensures Passed(input, 0, 0)
  {
  }

  lemma PassedAt(input: seq<byte>, i: nat, acc: nat, k: nat)
    requires Passed(input, i, acc) && k < i
    ensures 0x80 <= input[k]
  {
    assert input[..i][k] == input[k];
  }

  /** Whatever can be decoded ends beyond the octets passed. */
  lemma EndsLater(input: seq<byte>, i: nat, acc: nat, v: nat, n: nat)
    requires Passed(input, i, acc) && Decodes(input, v, n)
    ensures i < n <= MAX_LEN
  {
    if n <= i { PassedAt(input, i, acc, n - 1); }
    DecodesAt(input, v, n);
  }

  /** After ten continued octets nothing can be decoded any more. */
  lemma TooLong(input: seq<byte>, acc: nat)
    requires Passed(input, MAX_LEN, acc)
    ensures Answers(input, Err(Overflow))
  {
    forall v: nat, n: nat ensures !Decodes(input, v, n) {
      if Decodes(input, v, n) { EndsLater(input, MAX_LEN, acc, v, n); }
    }
  }

  lemma {:induction false} Base128GrowsWithPrefix(s: seq<byte>, i: nat, n: nat)
    requires i <= n <= |s|
    ensures Base128(s[..i]) <= Base128(s[..n])
  {
    if i < n {
      Base128GrowsWithPrefix(s, i, n - 1);
      assert s[..n][..n - 1] == s[..n - 1];
    }
  }

  /** Once seven bits would be shifted out of 64, no ending makes the value fit again. */
  lemma TooLarge(input: seq<byte>, i: nat, acc: nat)
    requires Passed(input, i, acc) && i < |input| && 0x200_0000_0000_0000 <= acc
    ensures Answers(input, Err(Overflow))
  {
    PassOne(input, i, acc);
    forall v: nat, n: nat ensures !Decodes(input, v, n) {
      if Decodes(input, v, n) {
        EndsLater(input, i, acc, v, n);
        Base128GrowsWithPrefix(input, i + 1, n);
      }
    }
    Base128Fits(input[..i]);
    assert Pow128(9) == 128 * Pow128(8);
    Pow128Of9();
    if i < 9 { Pow128Grows(i, 8); }
  }

  lemma NothingEnds(input: seq<byte>, acc: nat)
    requires Passed(input, |input|, acc)
    ensures Answers(input, if MAX_LEN <= |input| then Err(Overflow) else Err(Truncated))
  {
    assert input[..|input|] == input;
    forall v: nat, n: nat ensures !Decodes(input, v, n) {
      if Decodes(input, v, n) { EndsLater(input, |input|, acc, v, n); }
    }
  }

  /** There is one right answer for every input. */
  lemma AnswerIsUnique(input: seq<byte>, r: Result<(u64, nat)>, s: Result<(u64, nat)>)
    requires Answers(input, r) && Answers(input, s)
    ensures r == s
  {
    if r.Ok? && s.Ok? {
      DecodesOneWay(input, r.value.0, r.value.1, s.value.0, s.value.1);
    } else if r.Ok? {
      DecodesAt(input, r.value.0, r.value.1);
    } else if s.Ok? {
      DecodesAt(input, s.value.0, s.value.1);
    }
  }

  /** `decode`. */
  method Decode(input: seq<byte>) returns (r: Result<(u64, nat)>)
    ensures Answers(input, r)
  {
    hide Base128, Continues;
    PassNone(input);
    if 0 < |input| && input[0] < 0x80 {
      PassOne(input, 0, 0);
      return Ok((input[0], 1));
    }
    var acc: u64 := 0;
    for i := 0 to |input|
      invariant Passed(input, i, acc)
    {
      if i == MAX_LEN {
        TooLong(input, acc);
        return Err(Overflow);
      }
      if acc / 0x200_0000_0000_0000 != 0 {
        TooLarge(input, i, acc);
        return Err(Overflow);
      }
      PassOne(input, i, acc);
      acc := (acc * 128) % TWO_64 + input[i] % 128;
      if input[i] < 0x80 {
        return Ok((acc, i + 1));
      }
    }
    NothingEnds(input, acc);
    r := if MAX_LEN <= |input| then Err(Overflow) else Err(Truncated);
  }
}
