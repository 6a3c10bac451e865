/** The text handling behind dtn-hdy-ham/src/coordinator/cron.rs: splitting, case and decimal numbers. */
module CronText {
  import opened Basics

  const TWO_32 := 0x1_0000_0000

  // ---- Splitting -------------------------------------------------------------------------------

  /** `str::split_once` */
  function SplitOnce(s: string, sep: char): (r: Option<(string, string)>)
    ensures r.None? <==> sep !in s
    ensures r.Some? ==> s == r.value.0 + [sep] + r.value.1 && sep !in r.value.0
  {
    if s == "" then None
    else if s[0] == sep then Some(("", s[1..]))
    else
      match SplitOnce(s[1..], sep)
      case None => None
      case Some((a, b)) =>
        assert s == [s[0]] + a + [sep] + b;
        Some(([s[0]] + a, b))
  }

  /** `str::split` by one character: one item more than there are separators. */
  function Split(s: string, sep: char): (items: seq<string>)
    ensures items != []
    decreases |s|
  {
    match SplitOnce(s, sep)
    case None => [s]
    case Some((a, b)) =>
      assert |s| == |a| + 1 + |b|;
      [a] + Split(b, sep)
  }

  function Join(items: seq<string>, sep: char): string
    requires items != []
  {
    if |items| == 1 then items[0] else items[0] + [sep] + Join(items[1..], sep)
  }

  /** Splitting loses nothing and leaves no separator. */
  lemma {:induction false} SplitThenJoin(s: string, sep: char)
    ensures Join(Split(s, sep), sep) == s
    ensures forall i :: 0 <= i < |Split(s, sep)| ==> sep !in Split(s, sep)[i]
    decreases |s|
  {
    match SplitOnce(s, sep)
    case None =>
    case Some((a, b)) =>
      assert |s| == |a| + 1 + |b|;
      SplitThenJoin(b, sep);
      assert Split(s, sep)[1..] == Split(b, sep);
  }

  /** Unicode `White_Space`. */
  predicate IsSpace(c: char) {
    var n := c as int;
    || 9 <= n <= 13 || n == 0x20 || n == 0x85 || n == 0xA0 || n == 0x1680 || 0x2000 <= n <= 0x200A
    || n == 0x2028 || n == 0x2029 || n == 0x202F || n == 0x205F || n == 0x3000
  }

  ghost predicate NoSpace(s: string) { forall i :: 0 <= i < |s| ==> !IsSpace(s[i]) }

  function TrimStart(s: string): string {
    if s != "" && IsSpace(s[0]) then TrimStart(s[1..]) else s
  }

  function TrimEnd(s: string): string {
    if s != "" && IsSpace(s[|s| - 1]) then TrimEnd(s[..|s| - 1]) else s
  }

  function Trim(s: string): string { TrimEnd(TrimStart(s)) }

  /** Length of the run of non-space characters at the start. */
  function WordLength(s: string): (n: nat)
    ensures n <= |s| && NoSpace(s[..n])
    ensures n < |s| ==> IsSpace(s[n])
  {
    if s == "" || IsSpace(s[0]) then 0
    else
      assert forall i :: 0 < i < |s| ==> s[i] == s[1..][i - 1];
      1 + WordLength(s[1..])
  }

  /** `split_whitespace` */
  function Words(s: string): seq<string>
    decreases |s|
  {
    if s == "" then []
    else if IsSpace(s[0]) then Words(s[1..])
    else [s[..WordLength(s)]] + Words(s[WordLength(s)..])
  }

  lemma WordLengthIs(w: string, rest: string)
    requires NoSpace(w) && (rest == "" || IsSpace(rest[0]))
    ensures WordLength(w + rest) == |w|
  {
    var s, n := w + rest, WordLength(w + rest);
    assert forall i :: 0 <= i < |w| ==> s[i] == w[i];
    assert |w| < |s| ==> s[|w|] == rest[0];
  }

  /** The first word of a line of words. */
  lemma FirstWordOf(w: string, rest: string)
    requires w != "" && NoSpace(w)
    ensures Words(w + " " + rest) == [w] + Words(rest)
    ensures Words(w) == [w]
  {
    var s := w + " " + rest;
    assert s == w + (" " + rest);
    WordLengthIs(w, " " + rest);
    assert s[0] == w[0] && s[..|w|] == w && s[|w|..] == " " + rest;
    assert (" " + rest)[1..] == rest;
    assert w + "" == w;
    WordLengthIs(w, "");
    assert w[..|w|] == w && w[|w|..] == "";
  }

  // ---- Case ------------------------------------------------------------------------------------

  function UpperChar(c: char): char {
    if 'a' <= c <= 'z' then (c as int - 32) as char else c
  }

  function LowerChar(c: char): char {
    if 'A' <= c <= 'Z' then (c as int + 32) as char else c
  }

  /** `to_ascii_uppercase` */
  function Upper(s: string): (u: string)
    ensures |u| == |s|
  {
    seq(|s|, i requires 0 <= i < |s| => UpperChar(s[i]))
  }

  /** `to_ascii_lowercase` */
  function Lower(s: string): (l: string)
    ensures |l| == |s|
  {
    seq(|s|, i requires 0 <= i < |s| => LowerChar(s[i]))
  }

  // ---- Numbers ---------------------------------------------------------------------------------

  predicate IsDigit(c: char) { '0' <= c <= '9' }

  function Decimal(s: string): nat {
    if s == "" then 0
    else if IsDigit(s[|s| - 1]) then 10 * Decimal(s[..|s| - 1]) + (s[|s| - 1] as int - '0' as int)
    else 0
  }

  predicate AllDigits(s: string) { forall i :: 0 <= i < |s| ==> IsDigit(s[i]) }

  function DecimalText(n: nat): string {
    if n < 10 then [('0' as int + n) as char] else DecimalText(n / 10) + [('0' as int + n % 10) as char]
  }

  /** A number written in decimal is read back as that number. */
  lemma {:induction false} DecimalOfText(n: nat)
    ensures Decimal(DecimalText(n)) == n && AllDigits(DecimalText(n))
  {
    var s := DecimalText(n);
    if 10 <= n {
      DecimalOfText(n / 10);
      assert s[..|s| - 1] == DecimalText(n / 10);
    } else {
      assert Decimal(s) == 10 * Decimal(s[..0]) + n;
    }
  }

  /** Optional sign and leading zeros before the decimal digits of `n`. */
  predicate NumberWith(s: string, n: nat, signed: bool, zeros: nat) {
    s == (if signed then "+" else "") + (seq(zeros, _ => '0') + DecimalText(n))
  }

  /** `s` is a way to write the number `n`. */
  ghost predicate Number(s: string, n: nat) { exists signed, zeros: nat :: NumberWith(s, n, signed, zeros) }

  lemma {:induction false} ZerosThenDigits(zeros: nat, n: nat)
    ensures
      var s := seq(zeros, _ => '0') + DecimalText(n);
      s != "" && AllDigits(s) && Decimal(s) == n
    decreases n
  {
    var s := seq(zeros, _ => '0') + DecimalText(n);
    DecimalOfText(n);
    if 10 <= n {
      ZerosThenDigits(zeros, n / 10);
      assert s[..|s| - 1] == seq(zeros, _ => '0') + DecimalText(n / 10);
    } else {
      assert s[..|s| - 1] == seq(zeros, _ => '0');
      ZerosAreZero(zeros);
    }
  }

  lemma {:induction false} ZerosAreZero(zeros: nat)
    ensures Decimal(seq(zeros, _ => '0')) == 0
  {
    if zeros > 0 {
      assert seq(zeros, _ => '0')[..zeros - 1] == seq(zeros - 1, _ => '0');
      ZerosAreZero(zeros - 1);
    }
  }

  /** Digits are the number they stand for behind some zeros. */
  lemma {:induction false} DigitsAreZerosThenText(d: string) returns (zeros: nat)
    requires d != "" && AllDigits(d)
    ensures d == seq(zeros, _ => '0') + DecimalText(Decimal(d))
    decreases |d|
  {
    var f, n := d[..|d| - 1], Decimal(d);
    var last := d[|d| - 1] as int - '0' as int;
    assert d == f + [d[|d| - 1]] && ('0' as int + last) as char == d[|d| - 1];
    if f == "" {
      zeros := 0;
      assert Decimal(f) == 0;
    } else {
      zeros := DigitsAreZerosThenText(f);
      QuotientIs(n, 10, Decimal(f), last);
      if n < 10 {
        assert f == seq(zeros, _ => '0') + "0" == seq(zeros + 1, _ => '0');
        zeros := zeros + 1;
      } else {
        assert DecimalText(n) == DecimalText(Decimal(f)) + [d[|d| - 1]];
      }
    }
  }

  lemma NumberIsRead(s: string, n: nat, signed: bool, zeros: nat)
    requires NumberWith(s, n, signed, zeros)
    ensures ParseU32(s) == if n < TWO_32 then Some(n) else None
  {
    var d := seq(zeros, _ => '0') + DecimalText(n);
    ZerosThenDigits(zeros, n);
    assert d[0] != '+';
    if signed { assert s[0] == '+' && s[1..] == d; } else { assert s == d; }
  }

  /** Exactly the texts that `u32::from_str` reads as `n`. */
  lemma NumberIff(s: string, n: nat)
    ensures ParseU32(s) == Some(n) <==> Number(s, n) && n < TWO_32
  {
    if Number(s, n) {
      var signed, zeros: nat :| NumberWith(s, n, signed, zeros);
      NumberIsRead(s, n, signed, zeros);
    }
    if ParseU32(s) == Some(n) {
      var signed := s != "" && s[0] == '+';
      var d := if signed then s[1..] else s;
      var zeros := DigitsAreZerosThenText(d);
      assert s == (if signed then "+" else "") + d;
      assert NumberWith(s, n, signed, zeros);
    }
  }

  /** Taking the text apart at the first separator. */
  lemma {:induction false} SplitOnceAt(x: string, sep: char, y: string)
    requires sep !in x
    ensures SplitOnce(x + [sep] + y, sep) == Some((x, y))
  {
    var s := x + [sep] + y;
    if x != "" {
      assert s[1..] == x[1..] + [sep] + y && s[0] == x[0];
      SplitOnceAt(x[1..], sep, y);
      assert [x[0]] + x[1..] == x;
    } else {
      assert s[0] == sep && s[1..] == y;
    }
  }

  /** Items without separators, joined, are split into themselves. */
  lemma {:induction false} JoinThenSplit(items: seq<string>, sep: char)
    requires items != [] && forall i :: 0 <= i < |items| ==> sep !in items[i]
    ensures Split(Join(items, sep), sep) == items
  {
    if |items| > 1 {
      SplitOnceAt(items[0], sep, Join(items[1..], sep));
      JoinThenSplit(items[1..], sep);
    } else {
      assert items == [items[0]];
    }
  }

  /** `u32::from_str`: digits, at least one, after an optional plus sign, with a value that fits. */
  function ParseU32(s: string): (n: Option<nat>)
    ensures n.Some? ==> n.value < TWO_32
  {
    var digits := if s != "" && s[0] == '+' then s[1..] else s;
    if digits != "" && AllDigits(digits) && Decimal(digits) < TWO_32 then Some(Decimal(digits)) else None
  }

  /** Letter case does not matter to numbers, as no number has letters. */
  lemma NumbersHaveNoCase(a: string, b: string)
    requires Upper(a) == Upper(b)
    ensures ParseU32(a) == ParseU32(b)
  {
    assert |a| == |b|;
    assert forall i :: 0 <= i < |a| ==> UpperChar(a[i]) == Upper(a)[i] == Upper(b)[i] == UpperChar(b[i]);
    var x := if a != "" && a[0] == '+' then a[1..] else a;
    var y := if b != "" && b[0] == '+' then b[1..] else b;
    assert forall i :: 0 <= i < |x| ==> UpperChar(x[i]) == UpperChar(y[i]);
    if AllDigits(x) {
      assert forall i :: 0 <= i < |x| ==> IsDigit(x[i]) && x[i] == y[i];
      assert x == y;
    } else {
      var i :| 0 <= i < |x| && !IsDigit(x[i]);
      assert !IsDigit(y[i]);
    }
  }
}
