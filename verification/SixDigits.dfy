/** The two readers of a six-digit code in a mail: the index loop of the Gmail reader, and the
  * one-line split of the mail worker. */
module SixDigits {
  import opened Options
  import opened Text

  predicate DigitsIn(text: string, from: int, to: int) {
    0 <= from <= to <= |text| && forall k :: from <= k < to ==> IsDigit(text[k])
  }

  /** A maximal run of digits of length six begins at `i`. */
  predicate SixRun(text: string, i: int) {
    && DigitsIn(text, i, i + 6)
    && (i > 0 ==> !IsDigit(text[i - 1]))
    && (i + 6 < |text| ==> !IsDigit(text[i + 6]))
  }

  /** The answer is the leftmost such run, or none when there is none. */
  ghost predicate IsFirstCode(text: string, code: Option<string>) {
    match code
    case None => forall i: int :: !SixRun(text, i)
    case Some(c) =>
      exists i :: SixRun(text, i) && c == text[i..i + 6] && forall k :: k < i ==> !SixRun(text, k)
  }

  lemma FirstCodeIsUnique(text: string, a: Option<string>, b: Option<string>)
    requires IsFirstCode(text, a) && IsFirstCode(text, b)
    ensures a == b
  {
    if a.Some? && b.Some? {
      var i :| SixRun(text, i) && a.value == text[i..i + 6] && forall k :: k < i ==> !SixRun(text, k);
      var j :| SixRun(text, j) && b.value == text[j..j + 6] && forall k :: k < j ==> !SixRun(text, k);
      assert i == j;
    }
  }

  // ---- the split ----

  function FindSix(runs: seq<string>): Option<string> {
    if runs == [] then None
    else if |runs[0]| == 6 then Some(runs[0])
    else FindSix(runs[1..])
  }

  predicate NonDigit(c: char) {
    !IsDigit(c)
  }

  function BySplit(text: string): Option<string> {
    FindSix(Split(text, NonDigit))
  }

  function LeadingDigits(text: string): (n: nat)
    ensures DigitsIn(text, 0, n) && (n < |text| ==> !IsDigit(text[n]))
  {
    if text == [] || !IsDigit(text[0]) then 0 else 1 + LeadingDigits(text[1..])
  }

  /** Past a leading run that is not the code, runs are those of the rest. */
  lemma RunsOfRest(text: string, n: nat, i: int)
    requires n < |text| && n != 6 && DigitsIn(text, 0, n) && !IsDigit(text[n])
    ensures SixRun(text, i) <==> SixRun(text[n + 1..], i - n - 1)
  {
    var rest := text[n + 1..];
    if i > n {
      if SixRun(rest, i - n - 1) {
        assert forall k :: i <= k < i + 6 ==> text[k] == rest[k - n - 1];
      }
    } else if 0 < i {
      assert i <= n && (i - 1 < n ==> IsDigit(text[i - 1]));
    } else if 6 < n {
      assert IsDigit(text[6]);
    }
  }

  lemma WholeTextRun(text: string, i: int)
    requires DigitsIn(text, 0, |text|)
    ensures SixRun(text, i) <==> i == 0 && |text| == 6
  {
    if 0 < i <= |text| - 6 {
      assert IsDigit(text[i - 1]);
    }
  }

  lemma OnlyRun(text: string)
    ensures FindSix([text]) == if |text| == 6 then Some(text) else None
  {
    assert FindSix([text][1..]) == None;
  }

  lemma {:induction false} SplitFindsFirst(text: string)
    ensures IsFirstCode(text, BySplit(text))
    decreases |text|
  {
    var n := LeadingDigits(text);
    var head := text[..n];
    assert forall c <- head :: !NonDigit(c);
    if n == |text| {
      assert text == head;
      SplitPlain(text, NonDigit);
      OnlyRun(text);
      forall i ensures SixRun(text, i) <==> i == 0 && n == 6 { WholeTextRun(text, i); }
      if n == 6 {
        assert SixRun(text, 0) && text[0..6] == text;
      }
    } else {
      var rest := text[n + 1..];
      assert text == head + [text[n]] + rest;
      SplitAtSeparator(head, text[n], rest, NonDigit);
      if n == 6 {
        assert SixRun(text, 0) && text[0..6] == head;
      } else {
        SplitFindsFirst(rest);
        FirstOfRest(text, n, BySplit(rest));
      }
    }
  }

  lemma SliceOfRest(text: string, start: nat, j: nat)
    requires start + j + 6 <= |text|
    ensures text[start..][j..j + 6] == text[start + j..start + j + 6]
  {
  }

  lemma FirstOfRest(text: string, n: nat, code: Option<string>)
    requires n < |text| && n != 6 && DigitsIn(text, 0, n) && !IsDigit(text[n])
    requires IsFirstCode(text[n + 1..], code)
    ensures IsFirstCode(text, code)
  {
    var rest := text[n + 1..];
    forall i: int ensures SixRun(text, i) <==> SixRun(rest, i - n - 1) { RunsOfRest(text, n, i); }
    if code.Some? {
      var j :| SixRun(rest, j) && code.value == rest[j..j + 6] && forall k :: k < j ==> !SixRun(rest, k);
      SliceOfRest(text, n + 1, j);
      assert SixRun(text, n + 1 + j);
    }
  }

  // ---- the index loop ----

  /** The Gmail reader's loop finds the leftmost run, and so answers as the split does. */
  method FirstSixDigitCode(text: string) returns (code: Option<string>)
    ensures IsFirstCode(text, code)
    ensures code == BySplit(text)
  {
    var start := 0;
    while start < |text|
      invariant 0 <= start <= |text|
      invariant forall k :: k < start ==> !SixRun(text, k)
      invariant 0 < start < |text| && IsDigit(text[start]) ==> !IsDigit(text[start - 1])
      decreases |text| - start
    {
      if !IsDigit(text[start]) {
        start := start + 1;
        continue;
      }
      var end := start;
      while end < |text| && IsDigit(text[end])
        invariant start <= end <= |text|
        invariant DigitsIn(text, start, end)
        invariant end == start ==> IsDigit(text[start])
      {
        end := end + 1;
      }
      if end - start == 6 {
        assert SixRun(text, start);
        SplitFindsFirst(text);
        FirstCodeIsUnique(text, Some(text[start..end]), BySplit(text));
        return Some(text[start..end]);
      }
      NoRunInside(text, start, end);
      start := end;
    }
    SplitFindsFirst(text);
    FirstCodeIsUnique(text, None, BySplit(text));
    return None;
  }

  /** A maximal run of another length holds no run of six. */
  lemma NoRunInside(text: string, start: nat, end: nat)
    requires start < end && DigitsIn(text, start, end) && end - start != 6
    requires end < |text| ==> !IsDigit(text[end])
    ensures forall k :: start <= k < end ==> !SixRun(text, k)
  {
    forall k | start <= k < end ensures !SixRun(text, k) {
      if start < k {
        assert IsDigit(text[k - 1]);
      } else if start + 6 < end {
        assert IsDigit(text[start + 6]);
      }
    }
  }
}
