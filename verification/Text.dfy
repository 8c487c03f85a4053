/** Optional values, as the source's null and `Option`. */
module Options {
  datatype Option<+T> = None | Some(value: T)

  function OrZero(n: Option<int>): int {
    if n.Some? then n.value else 0
  }
}

module Numbers {
  function Max(a: int, b: int): int {
    if a < b then b else a
  }

  function Min(a: int, b: int): int {
    if a < b then a else b
  }
}

/** Splitting, joining, and decimal numbers in text. */
module Text {
  import opened Options

  predicate IsDigit(c: char) {
    '0' <= c <= '9'
  }

  predicate AllDigits(s: string) {
    forall i :: 0 <= i < |s| ==> IsDigit(s[i])
  }

  /** The pieces between separators; one more than there are separators. */
  function Split(s: string, isSep: char -> bool): (parts: seq<string>)
    ensures 0 < |parts|
  {
    if s == [] then [[]]
    else
      var rest := Split(s[1..], isSep);
      if isSep(s[0]) then [[]] + rest else [[s[0]] + rest[0]] + rest[1..]
  }

  /** The pieces with a separator text between them. */
  function Join(parts: seq<string>, between: string): string {
    if parts == [] then []
    else if |parts| == 1 then parts[0]
    else parts[0] + between + Join(parts[1..], between)
  }

  lemma {:induction false} PiecesHaveNoSeparator(s: string, isSep: char -> bool)
    ensures forall p <- Split(s, isSep), c <- p :: !isSep(c)
  {
    if s != [] {
      PiecesHaveNoSeparator(s[1..], isSep);
      var rest := Split(s[1..], isSep);
      assert rest[0] in rest;
    }
  }

  lemma {:induction false} SplitPlain(s: string, isSep: char -> bool)
    requires forall c <- s :: !isSep(c)
    ensures Split(s, isSep) == [s]
  {
    if s != [] {
      SplitPlain(s[1..], isSep);
      assert !isSep(s[0]) by { assert s[0] in s; }
      assert [s[0]] + s[1..] == s;
    }
  }

  lemma {:induction false} SplitAtSeparator(head: string, sep: char, tail: string, isSep: char -> bool)
    requires isSep(sep) && forall c <- head :: !isSep(c)
    ensures Split(head + [sep] + tail, isSep) == [head] + Split(tail, isSep)
  {
    var s := head + [sep] + tail;
    if head == [] {
      assert s[1..] == tail;
    } else {
      assert s[1..] == head[1..] + [sep] + tail;
      SplitAtSeparator(head[1..], sep, tail, isSep);
      assert !isSep(s[0]) by { assert s[0] in head; }
      assert [s[0]] + head[1..] == head;
    }
  }

  /** Joining pieces that hold no separator and splitting again gives the pieces. */
  lemma {:induction false} SplitOfJoin(parts: seq<string>, sep: char)
    requires parts != [] && forall p <- parts :: sep !in p
    ensures Split(Join(parts, [sep]), c => c == sep) == parts
  {
    assert parts[0] in parts;
    if |parts| == 1 {
      SplitPlain(parts[0], c => c == sep);
    } else {
      var tail := parts[1..];
      SplitOfJoin(tail, sep);
      SplitAtSeparator(parts[0], sep, Join(tail, [sep]), c => c == sep);
      assert parts == [parts[0]] + tail;
    }
  }

  /** Splitting and joining again gives the text. */
  lemma {:induction false} JoinOfSplit(s: string, sep: char)
    ensures Join(Split(s, c => c == sep), [sep]) == s
  {
    if s != [] {
      JoinOfSplit(s[1..], sep);
      var rest := Split(s[1..], c => c == sep);
      if s[0] == sep {
        assert ([[]] + rest)[1..] == rest;
      } else if |rest| > 1 {
        assert ([[s[0]] + rest[0]] + rest[1..])[1..] == rest[1..];
      }
    }
  }

  // ---- decimal numbers ----

  function Value(s: string): nat
    requires AllDigits(s)
  {
    if s == [] then 0 else 10 * Value(s[..|s| - 1]) + (s[|s| - 1] - '0') as int
  }

  function Decimal(n: nat): (s: string)
    ensures s != [] && AllDigits(s)
  {
    var last := ['0' + (n % 10) as char];
    if n < 10 then last else Decimal(n / 10) + last
  }

  function Zeros(n: nat): (s: string)
    ensures |s| == n && AllDigits(s)
  {
    if n == 0 then [] else ['0'] + Zeros(n - 1)
  }

  /** A number with leading zeros up to `width`, longer when it needs more. */
  function Padded(n: nat, width: nat): (s: string)
    ensures s != [] && AllDigits(s)
  {
    var s := Decimal(n);
    if |s| < width then Zeros(width - |s|) + s else s
  }

  lemma {:induction false} ValueOfDecimal(n: nat)
    ensures Value(Decimal(n)) == n
  {
    if n >= 10 {
      ValueOfDecimal(n / 10);
      assert Decimal(n)[..|Decimal(n)| - 1] == Decimal(n / 10);
    }
  }

  lemma {:induction false} LeadingZerosDoNotCount(k: nat, s: string)
    requires AllDigits(s)
    ensures Value(Zeros(k) + s) == Value(s)
  {
    if s == [] {
      assert Zeros(k) + s == Zeros(k);
      ZerosAreZero(k);
    } else {
      LeadingZerosDoNotCount(k, s[..|s| - 1]);
      assert (Zeros(k) + s)[..k + |s| - 1] == Zeros(k) + s[..|s| - 1];
    }
  }

  lemma {:induction false} ZerosAreZero(k: nat)
    ensures Value(Zeros(k)) == 0
  {
    if k > 0 {
      ZerosAreZero(k - 1);
      ZerosFromRight(k);
    }
  }

  lemma {:induction false} ZerosFromRight(k: nat)
    requires 0 < k
    ensures Zeros(k)[..k - 1] == Zeros(k - 1) && Zeros(k)[k - 1] == '0'
  {
    if k > 1 {
      ZerosFromRight(k - 1);
    }
  }

  lemma ValueOfPadded(n: nat, width: nat)
    ensures Value(Padded(n, width)) == n
  {
    var s := Decimal(n);
    ValueOfDecimal(n);
    if |s| < width {
      LeadingZerosDoNotCount(width - |s|, s);
    }
  }

  function Power10(k: nat): nat {
    if k == 0 then 1 else 10 * Power10(k - 1)
  }

  /** A number has at most `k` digits exactly when it is below the `k`th power of ten. */
  lemma {:induction false} DecimalLength(n: nat, k: nat)
    requires 0 < k
    ensures |Decimal(n)| <= k <==> n < Power10(k)
  {
    if n >= 10 && k > 1 {
      DecimalLength(n / 10, k - 1);
    } else if n < 10 {
      PowerAtLeastTen(k);
    }
  }

  lemma {:induction false} PowerAtLeastTen(k: nat)
    requires 0 < k
    ensures 10 <= Power10(k)
  {
    if k > 1 {
      PowerAtLeastTen(k - 1);
    }
  }

  lemma PaddedLength(n: nat, width: nat)
    requires 0 < width
    ensures |Padded(n, width)| == width <==> n < Power10(width)
  {
    DecimalLength(n, width);
  }

  /** Rust's `parse` for an unsigned integer: one leading plus is allowed. */
  function ParseUnsigned(s: string, max: nat): (n: Option<nat>)
    ensures n.Some? ==> n.value <= max
  {
    var digits := if |s| > 1 && s[0] == '+' then s[1..] else s;
    if digits != [] && AllDigits(digits) && Value(digits) <= max then Some(Value(digits)) else None
  }

  /** Rust's `parse` for a signed integer of the range `-max - 1 ..= max`. */
  function ParseSigned(s: string, max: nat): Option<int> {
    if |s| > 1 && s[0] == '-' then
      if AllDigits(s[1..]) && Value(s[1..]) <= max + 1 then
        var n: int := -(Value(s[1..]) as int);
        Some(n)
      else None
    else
      match ParseUnsigned(s, max)
      case Some(n) => Some(n)
      case None => None
  }

  lemma {:induction false} ValueBelowPower(s: string)
    requires AllDigits(s)
    ensures Value(s) < Power10(|s|)
  {
    if s != [] {
      ValueBelowPower(s[..|s| - 1]);
    }
  }

  // ---- white space ----

  /** Unicode white space, as Rust's `trim` drops it. */
  predicate RustSpace(c: char) {
    var n := c as int;
    9 <= n <= 13 || n == 32 || n == 0x85 || n == 0xA0 || n == 0x1680 || 0x2000 <= n <= 0x200A
    || n == 0x2028 || n == 0x2029 || n == 0x202F || n == 0x205F || n == 0x3000
  }

  /** White space and line ends, as JavaScript's `trim` drops them. */
  predicate JsSpace(c: char) {
    var n := c as int;
    9 <= n <= 13 || n == 32 || n == 0xA0 || n == 0x1680 || 0x2000 <= n <= 0x200A
    || n == 0x2028 || n == 0x2029 || n == 0x202F || n == 0x205F || n == 0x3000 || n == 0xFEFF
  }

  function TrimStart(s: string, space: char -> bool): string {
    if s != [] && space(s[0]) then TrimStart(s[1..], space) else s
  }

  function TrimEnd(s: string, space: char -> bool): string {
    if s != [] && space(s[|s| - 1]) then TrimEnd(s[..|s| - 1], space) else s
  }

  function Trim(s: string, space: char -> bool): string {
    TrimEnd(TrimStart(s, space), space)
  }
}
