/** Numbers as text (student-distrib/lib.c): itoa writes the digits lowest first and turns the string
    around in place; printf pads eight hexadecimal digits. */
module Numbers {
  import opened Basics
  import opened Division

  const UINT := 0x1_0000_0000

  // ---- Reading a numeral ----

  predicate Radix(radix: nat) { 2 <= radix <= 36 }

  /** The value of a digit; 36 for anything else. */
  function DigitValue(c: byte): nat {
    if '0' as int <= c <= '9' as int then c - '0' as int
    else if 'A' as int <= c <= 'Z' as int then c - 'A' as int + 10
    else 36
  }

  predicate Digits(s: seq<byte>, radix: nat) {
    forall k :: 0 <= k < |s| ==> DigitValue(s[k]) < radix
  }

  /** What a string of digits stands for. */
  function Value(s: seq<byte>, radix: nat): nat {
    if s == [] then 0 else Value(s[..|s| - 1], radix) * radix + DigitValue(s[|s| - 1])
  }

  /** Digits, at least one, and no leading zero except for zero itself. */
  predicate Numeral(s: seq<byte>, radix: nat) {
    Digits(s, radix) && s != [] && (DigitValue(s[0]) == 0 ==> |s| == 1)
  }

  lemma {:induction false} LeadingDigitCounts(s: seq<byte>, radix: nat)
    requires radix > 0 && s != [] && DigitValue(s[0]) > 0
    ensures Value(s, radix) > 0
    decreases |s|
  {
    if |s| > 1 {
      LeadingDigitCounts(s[..|s| - 1], radix);
      MultipleIsFar(radix, Value(s[..|s| - 1], radix));
    } else {
      assert s[..0] == [];
    }
  }

  /** A number has only one numeral. */
  lemma {:induction false} NumeralUnique(s: seq<byte>, t: seq<byte>, radix: nat)
    requires Radix(radix) && Numeral(s, radix) && Numeral(t, radix)
    requires Value(s, radix) == Value(t, radix)
    ensures s == t
    decreases |s| + |t|
  {
    var s', t' := s[..|s| - 1], t[..|t| - 1];
    LastDigit(s, radix);
    LastDigit(t, radix);
    SameDigit(s[|s| - 1], t[|t| - 1], radix);
    if s' != [] {
      LeadingDigitCounts(s', radix);
    }
    if t' != [] {
      LeadingDigitCounts(t', radix);
    }
    if s' != [] && t' != [] {
      NumeralUnique(s', t', radix);
    }
    assert s == s' + [s[|s| - 1]] && t == t' + [t[|t| - 1]];
  }

  lemma {:induction false} LastDigit(s: seq<byte>, radix: nat)
    requires Radix(radix) && s != [] && Digits(s, radix)
    ensures Value(s[..|s| - 1], radix) == Value(s, radix) / radix
    ensures DigitValue(s[|s| - 1]) == Value(s, radix) % radix
  {
    QuotientIs(Value(s, radix), radix, Value(s[..|s| - 1], radix), DigitValue(s[|s| - 1]));
  }

  lemma SameDigit(c: byte, d: byte, radix: nat)
    requires Radix(radix) && DigitValue(c) == DigitValue(d) < radix
    ensures c == d
  {
  }

  lemma {:induction false} LeadingZeros(s: seq<byte>, zeros: seq<byte>, radix: nat)
    requires forall k :: 0 <= k < |zeros| ==> zeros[k] == '0' as int
    ensures Value(zeros + s, radix) == Value(s, radix)
    decreases |zeros| + |s|
  {
    var all := zeros + s;
    if s != [] {
      assert all[..|all| - 1] == zeros + s[..|s| - 1];
      LeadingZeros(s[..|s| - 1], zeros, radix);
    } else if zeros != [] {
      assert all[..|all| - 1] == zeros[..|zeros| - 1] + s;
      LeadingZeros(s, zeros[..|zeros| - 1], radix);
    }
  }

  // ---- Writing a numeral ----

  /** The lookup table: 0 to 9, then A to Z. */
  function Lookup(i: nat): (c: byte)
    requires i < 36
    ensures DigitValue(c) == i
  {
    if i < 10 then '0' as int + i else 'A' as int + i - 10
  }

  /** The digits of a number, lowest first; nothing for zero. */
  function LowFirst(v: nat, radix: nat): seq<byte>
    requires Radix(radix)
  {
    if v == 0 then [] else Divided(v, radix); [Lookup(v % radix)] + LowFirst(v / radix, radix)
  }

  function Reversed(s: seq<byte>): seq<byte> {
    seq(|s|, k requires 0 <= k < |s| => s[|s| - 1 - k])
  }

  function Text(v: nat, radix: nat): seq<byte>
    requires Radix(radix)
  {
    if v == 0 then ['0' as int] else Reversed(LowFirst(v, radix))
  }

  /** The text of a number below the radix is its digit. */
  lemma SingleDigit(v: nat, radix: nat)
    requires Radix(radix) && v < radix
    ensures Text(v, radix) == ["0123456789ABCDEFGHIJKLMNOPQRSTUVWXYZ"[v] as int]
  {
    LookupTable(v);
    OneLowDigit(v, radix);
  }

  lemma LookupTable(i: nat)
    requires i < 36
    ensures Lookup(i) == "0123456789ABCDEFGHIJKLMNOPQRSTUVWXYZ"[i] as int
  {
  }

  lemma OneLowDigit(v: nat, radix: nat)
    requires Radix(radix) && v < radix
    ensures Text(v, radix) == [Lookup(v)]
  {
    QuotientIs(v, radix, 0, v);
    assert v > 0 ==> LowFirst(v, radix) == [Lookup(v)] + [];
  }

  lemma ReversedCons(c: byte, s: seq<byte>)
    ensures Reversed([c] + s) == Reversed(s) + [c]
  {
  }

  lemma AppendDigit(s: seq<byte>, c: byte, radix: nat)
    requires Digits(s, radix) && DigitValue(c) < radix
    requires if s == [] then DigitValue(c) > 0 else DigitValue(s[0]) > 0
    ensures Numeral(s + [c], radix) && DigitValue((s + [c])[0]) > 0
    ensures Value(s + [c], radix) == Value(s, radix) * radix + DigitValue(c)
  {
  }

  /** `s` holds the digits of `v`, lowest first. */
  predicate LowDigits(s: seq<byte>, v: nat, radix: nat) {
    && Digits(Reversed(s), radix)
    && (s == [] <==> v == 0)
    && (s != [] ==> DigitValue(Reversed(s)[0]) > 0)
    && Value(Reversed(s), radix) == v
  }

  lemma LowDigitsStep(s: seq<byte>, q: nat, d: nat, radix: nat)
    requires Radix(radix) && d < radix && (q > 0 || d > 0) && LowDigits(s, q, radix)
    ensures LowDigits([Lookup(d)] + s, q * radix + d, radix)
  {
    ReversedCons(Lookup(d), s);
    AppendDigit(Reversed(s), Lookup(d), radix);
    MultipleIsFar(radix, q);
  }

  lemma {:induction false} LowFirstReversed(v: nat, radix: nat)
    requires Radix(radix)
    ensures LowDigits(LowFirst(v, radix), v, radix)
    decreases v
  {
    if v > 0 {
      Divided(v, radix);
      var q, d := v / radix, v % radix;
      LowFirstReversed(q, radix);
      LowDigitsStep(LowFirst(q, radix), q, d, radix);
    }
  }

  /** The round trip: the text of a number is a numeral and reads back as the number. */
  lemma TextReadsBack(v: nat, radix: nat)
    requires Radix(radix)
    ensures Numeral(Text(v, radix), radix) && Value(Text(v, radix), radix) == v
  {
    if v == 0 {
      assert ['0' as int][..0] == [];
    } else {
      LowFirstReversed(v, radix);
    }
  }

  /** And back: the text of what a numeral stands for is that numeral. */
  lemma NumeralIsText(s: seq<byte>, radix: nat)
    requires Radix(radix) && Numeral(s, radix)
    ensures Text(Value(s, radix), radix) == s
  {
    TextReadsBack(Value(s, radix), radix);
    NumeralUnique(Text(Value(s, radix), radix), s, radix);
  }

  // ---- How long it gets ----

  function Power(b: nat, e: nat): nat {
    if e == 0 then 1 else b * Power(b, e - 1)
  }

  lemma QuotientBelow(v: nat, b: nat, radix: nat, bound: nat)
    requires 0 < b <= radix && v < b * bound
    ensures v / radix < bound
  {
  }

  lemma {:induction false} LowFirstLength(v: nat, radix: nat, b: nat, k: nat)
    requires Radix(radix) && 0 < b <= radix && v < Power(b, k)
    ensures |LowFirst(v, radix)| <= k
    decreases k
  {
    if v > 0 {
      QuotientBelow(v, b, radix, Power(b, k - 1));
      LowFirstLength(v / radix, radix, b, k - 1);
    }
  }

  /** Every 32-bit value fits in 32 digits, and in 8 in hexadecimal. */
  lemma TextFits(v: nat, radix: nat)
    requires Radix(radix) && v < UINT
    ensures |Text(v, radix)| <= 32
    ensures radix == 16 ==> |Text(v, radix)| <= 8
  {
    assert Power(2, 8) == 0x100;
    assert Power(2, 16) == 0x1_0000;
    assert Power(2, 24) == 0x100_0000;
    assert Power(2, 32) == UINT;
    LowFirstLength(v, radix, 2, 32);
    if radix == 16 {
      assert Power(16, 8) == UINT;
      LowFirstLength(v, radix, 16, 8);
    }
  }

  // ---- In a buffer ----

  /** A NUL-terminated string of length `n` at `base`. */
  ghost predicate StringAt(s: seq<byte>, base: nat, n: nat) {
    base + n < |s| && s[base + n] == 0 && forall k :: base <= k < base + n ==> s[k] != 0
  }

  method StrLen(buf: array<byte>, base: nat, ghost n: nat) returns (len: nat)
    requires StringAt(buf[..], base, n)
    ensures len == n
  {
    len := 0;
    while buf[base + len] != 0
      invariant len <= n
      decreases n - len
    {
      len := len + 1;
    }
  }

  /** `s` with the `n` bytes at `base` in the opposite order. */
  function Mirrored(s: seq<byte>, base: nat, n: nat): seq<byte>
    requires base + n <= |s|
  {
    s[..base] + Reversed(s[base..base + n]) + s[base + n..]
  }

  /** `s` with `done` pairs of the string swapped from the outside in. */
  function Swapped(s: seq<byte>, base: nat, n: nat, done: nat): (r: seq<byte>)
    requires base + n <= |s| && 2 * done <= n + 1
    ensures |r| == |s|
  {
    seq(|s|, k requires 0 <= k < |s| =>
      if base <= k < base + done || base + n - done <= k < base + n then s[2 * base + n - 1 - k] else s[k])
  }

  lemma SwappedNone(s: seq<byte>, base: nat, n: nat)
    requires base + n <= |s|
    ensures Swapped(s, base, n, 0) == s
  {
  }

  lemma SwappedAll(s: seq<byte>, base: nat, n: nat, done: nat)
    requires base + n <= |s| && n <= 2 * done + 1 && 2 * done <= n
    ensures Swapped(s, base, n, done) == Mirrored(s, base, n)
  {
  }

  lemma SwappedStep(s: seq<byte>, base: nat, n: nat, done: nat)
    requires base + n <= |s| && 2 * done + 1 < n
    ensures var r, lo, hi := Swapped(s, base, n, done), base + done, base + n - 1 - done;
            r[hi := r[lo]][lo := r[hi]] == Swapped(s, base, n, done + 1)
  {
  }

  method SwapBytes(buf: array<byte>, lo: nat, hi: nat)
    requires lo < hi < buf.Length
    modifies buf
    ensures var was := old(buf[..]); buf[..] == was[hi := was[lo]][lo := was[hi]]
  {
    var tmp := buf[hi];
    buf[hi] := buf[lo];
    buf[lo] := tmp;
  }

  method StrRev(buf: array<byte>, base: nat, ghost n: nat)
    requires StringAt(buf[..], base, n)
    modifies buf
    ensures buf[..] == Mirrored(old(buf[..]), base, n)
  {
    ghost var was := buf[..];
    var len := StrLen(buf, base, n);
    var beg, end := 0, len as int - 1;
    SwappedNone(was, base, n);
    while beg < end
      invariant 0 <= 2 * beg <= n && end == n - 1 - beg
      invariant buf[..] == Swapped(was, base, n, beg)
    {
      SwappedStep(was, base, n, beg);
      SwapBytes(buf, base + beg, base + end);
      beg, end := beg + 1, end - 1;
    }
    SwappedAll(was, base, n, beg);
  }

  /** `s` with the digits of a number and a NUL written at `base`. */
  function Written(s: seq<byte>, base: nat, text: seq<byte>): seq<byte>
    requires base + |text| < |s|
  {
    s[..base] + text + [0] + s[base + |text| + 1..]
  }

  /** `s` with the first `n` digits written. */
  function PartWritten(s: seq<byte>, base: nat, digits: seq<byte>, n: nat): (r: seq<byte>)
    requires n <= |digits| && base + |digits| < |s|
    ensures |r| == |s|
  {
    s[..base] + digits[..n] + s[base + n..]
  }

  lemma PartWrittenStep(s: seq<byte>, base: nat, digits: seq<byte>, n: nat)
    requires n < |digits| && base + |digits| < |s|
    ensures PartWritten(s, base, digits, n)[base + n := digits[n]] == PartWritten(s, base, digits, n + 1)
  {
  }

  lemma PartWrittenEnds(s: seq<byte>, base: nat, digits: seq<byte>)
    requires base + |digits| < |s|
    ensures PartWritten(s, base, digits, 0) == s
    ensures PartWritten(s, base, digits, |digits|)[base + |digits| := 0] == Written(s, base, digits)
  {
  }

  lemma DigitsLeft(digits: seq<byte>, n: nat, newval: nat, radix: nat)
    requires Radix(radix) && newval > 0 && n <= |digits| && digits[n..] == LowFirst(newval, radix)
    ensures 0 <= newval / radix < newval
    ensures n < |digits| && digits[n] == Lookup(newval % radix)
    ensures digits[n + 1..] == LowFirst(newval / radix, radix)
  {
    Divided(newval, radix);
    assert digits[n..][1..] == digits[n + 1..];
  }

  method WriteLowFirst(value: nat, buf: array<byte>, base: nat, radix: nat)
    requires Radix(radix) && base + |LowFirst(value, radix)| < buf.Length
    modifies buf
    ensures buf[..] == Written(old(buf[..]), base, LowFirst(value, radix))
  {
    ghost var was, digits := buf[..], LowFirst(value, radix);
    var newval: nat, n := value, 0;
    PartWrittenEnds(was, base, digits);
    while newval > 0
      invariant n <= |digits| && LowFirst(newval, radix) == digits[n..]
      invariant buf[..] == PartWritten(was, base, digits, n)
    {
      DigitsLeft(digits, n, newval, radix);
      PartWrittenStep(was, base, digits, n);
      buf[base + n] := Lookup(newval % radix);
      n, newval := n + 1, newval / radix;
    }
    buf[base + n] := 0;
  }

  lemma {:induction false} LowFirstHasNoNul(v: nat, radix: nat)
    requires Radix(radix)
    ensures forall k :: 0 <= k < |LowFirst(v, radix)| ==> LowFirst(v, radix)[k] != 0
    decreases v
  {
    if v > 0 {
      Divided(v, radix);
      LowFirstHasNoNul(v / radix, radix);
    }
  }

  lemma MirroredText(s: seq<byte>, base: nat, digits: seq<byte>)
    requires base + |digits| < |s|
    ensures Mirrored(Written(s, base, digits), base, |digits|) == Written(s, base, Reversed(digits))
  {
    var w, end := Written(s, base, digits), base + |digits|;
    assert w[..base] == s[..base] && w[base..end] == digits && w[end..] == [0] + s[end + 1..];
  }

  /** itoa, for every value and radix it has digits for. */
  method Itoa(value: nat, buf: array<byte>, base: nat, radix: nat)
    requires Radix(radix) && base + |Text(value, radix)| < buf.Length
    modifies buf
    ensures buf[..] == Written(old(buf[..]), base, Text(value, radix))
    ensures StringAt(buf[..], base, |Text(value, radix)|)
    ensures Value(buf[base..base + |Text(value, radix)|], radix) == value
    ensures Numeral(buf[base..base + |Text(value, radix)|], radix)
  {
    ghost var was := buf[..];
    TextReadsBack(value, radix);
    if value == 0 {
      buf[base] := '0' as int;
      buf[base + 1] := 0;
    } else {
      WriteLowFirst(value, buf, base, radix);
      LowFirstHasNoNul(value, radix);
      MirroredText(was, base, LowFirst(value, radix));
      StrRev(buf, base, |LowFirst(value, radix)|);
    }
    WrittenText(was, base, Text(value, radix), radix);
  }

  lemma WrittenText(s: seq<byte>, base: nat, text: seq<byte>, radix: nat)
    requires Radix(radix) && Digits(text, radix) && base + |text| < |s|
    ensures Written(s, base, text)[base..base + |text|] == text
    ensures StringAt(Written(s, base, text), base, |text|)
  {
  }

  /** Zeros written from `start` up to 8, and nothing behind them. */
  predicate ZerosBefore(now: seq<byte>, was: seq<byte>, start: nat) {
    && |now| == |was| == 64 && start <= 8 && now[8..] == was[8..]
    && forall k :: start <= k < 8 ==> now[k] == '0' as int
  }

  method FillZeros(buf: array<byte>, start: nat)
    requires start <= 8 && buf.Length == 64
    modifies buf
    ensures ZerosBefore(buf[..], old(buf[..]), start)
  {
    ghost var was := buf[..];
    var i := start;
    while i < 8
      invariant start <= i <= 8
      invariant forall k :: start <= k < i ==> buf[k] == '0' as int
      invariant buf[8..] == was[8..]
    {
      buf[i] := '0' as int;
      i := i + 1;
    }
  }

  /** `now` holds eight hexadecimal digits of that value, and a NUL, from `start` on. */
  ghost predicate EightDigits(now: seq<byte>, start: nat, value: nat) {
    && start + 8 < |now| && StringAt(now, start, 8)
    && Digits(now[start..start + 8], 16) && Value(now[start..start + 8], 16) == value
  }

  lemma PaddedString(now: seq<byte>, start: nat)
    requires start <= 8 && |now| == 64 && StringAt(now, 8, start) && Digits(now[8..8 + start], 16)
    requires forall k :: start <= k < 8 ==> now[k] == '0' as int
    ensures StringAt(now, start, 8) && Digits(now[start..start + 8], 16)
  {
  }

  /** Zeros in front of a number make it longer and leave its value alone. */
  lemma PaddedNumber(was: seq<byte>, now: seq<byte>, start: nat, value: nat)
    requires ZerosBefore(now, was, start) && StringAt(was, 8, start) && Digits(was[8..8 + start], 16)
    requires Value(was[8..8 + start], 16) == value
    ensures EightDigits(now, start, value)
  {
    assert now[8..][..start] == was[8..][..start];
    assert now[8..8 + start] == was[8..8 + start] && now[8..][start] == was[8..][start];
    assert now[start..start + 8] == now[start..8] + now[8..8 + start];
    LeadingZeros(now[8..8 + start], now[start..8], 16);
    assert forall k :: 8 <= k < 8 + start ==> now[k] == now[8..8 + start][k - 8];
    PaddedString(now, start);
  }

  /** The number as itoa leaves it at 8, and its length. */
  method ItoaAtEight(value: nat, buf: array<byte>) returns (length: nat)
    requires value < UINT && buf.Length == 64
    modifies buf
    ensures length <= 8 && StringAt(buf[..], 8, length) && Digits(buf[..][8..8 + length], 16)
    ensures Value(buf[..][8..8 + length], 16) == value
  {
    TextFits(value, 16);
    Itoa(value, buf, 8, 16);
    length := StrLen(buf, 8, |Text(value, 16)|);
  }

  /** The padded form of printf: exactly eight hexadecimal digits and a NUL, starting at `start`. */
  method PaddedHex(value: nat, buf: array<byte>) returns (start: nat)
    requires value < UINT && buf.Length == 64
    modifies buf
    ensures start <= 8 && StringAt(buf[..], start, 8)
    ensures Digits(buf[..][start..start + 8], 16) && Value(buf[..][start..start + 8], 16) == value
  {
    start := ItoaAtEight(value, buf);
    ghost var was := buf[..];
    FillZeros(buf, start);
    PaddedNumber(was, buf[..], start, value);
  }
}
