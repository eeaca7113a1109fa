/** Character-level string operations shared by the timeline parser (JavaScript)
    and the record cleaner (Python). */
module Text {
  import opened Wrappers

  // ---------------------------------------------------------------------------
  // Splitting on a one-character separator
  // ---------------------------------------------------------------------------

  /** Splits `s` at every occurrence of `sep`, keeping empty pieces: two
      adjacent separators yield an empty piece between them, and the empty
      string yields one empty piece.  JavaScript's `str.split(' ')` and
      Python's `str.split('\n')` both behave this way. */
  function Split(s: string, sep: char): (parts: seq<string>)
    ensures |parts| >= 1
    ensures forall i :: 0 <= i < |parts| ==> sep !in parts[i]
    decreases |s|
  {
    if |s| == 0 then [""]
    else
      var rest := Split(s[1..], sep);
      if s[0] == sep then [""] + rest
      else [[s[0]] + rest[0]] + rest[1..]
  }

  /** Glues the pieces back together with `sep` between neighbours. */
  function Join(parts: seq<string>, sep: char): string
    requires |parts| >= 1
    decreases |parts|
  {
    if |parts| == 1 then parts[0] else parts[0] + [sep] + Join(parts[1..], sep)
  }

  /** Splitting loses nothing: joining the pieces gives the string back. */
  lemma {:induction false} JoinSplit(s: string, sep: char)
    ensures Join(Split(s, sep), sep) == s
    decreases |s|
  {
    if |s| > 0 {
      var rest := Split(s[1..], sep);
      JoinSplit(s[1..], sep);
      if s[0] == sep {
        assert Split(s, sep)[1..] == rest;
      } else if |rest| > 1 {
        assert Split(s, sep)[1..] == rest[1..];
        assert Join(rest, sep) == rest[0] + [sep] + Join(rest[1..], sep);
      }
    }
  }

  /** Splitting is the inverse of joining separator-free pieces. */
  lemma {:induction false} SplitJoin(parts: seq<string>, sep: char)
    requires |parts| >= 1
    requires forall i :: 0 <= i < |parts| ==> sep !in parts[i]
    ensures Split(Join(parts, sep), sep) == parts
    decreases |parts|
  {
    if |parts| == 1 {
      SplitFree(parts[0], sep);
    } else {
      SplitJoin(parts[1..], sep);
      SplitPrefix(parts[0], Join(parts[1..], sep), sep);
    }
  }

  /** A separator-free string splits into itself alone. */
  lemma {:induction false} SplitFree(s: string, sep: char)
    requires sep !in s
    ensures Split(s, sep) == [s]
    decreases |s|
  {
    if |s| > 0 {
      SplitFree(s[1..], sep);
      assert [s[0]] + s[1..] == s;
    }
  }

  /** Splitting `a + sep + rest`, with `a` separator-free, yields `a` and then
      the pieces of `rest`. */
  lemma {:induction false} SplitPrefix(a: string, rest: string, sep: char)
    requires sep !in a
    ensures Split(a + [sep] + rest, sep) == [a] + Split(rest, sep)
    decreases |a|
  {
    if |a| == 0 {
      assert a + [sep] + rest == [sep] + rest;
      assert ([sep] + rest)[1..] == rest;
    } else {
      var s := a + [sep] + rest;
      assert s[1..] == a[1..] + [sep] + rest;
      SplitPrefix(a[1..], rest, sep);
      assert [a[0]] + a[1..] == a;
    }
  }

  /** The number of occurrences of `c` in `s`. */
  function Occurrences(s: string, c: char): nat
    decreases |s|
  {
    if |s| == 0 then 0 else (if s[0] == c then 1 else 0) + Occurrences(s[1..], c)
  }

  /** There is one more piece than there are separators. */
  lemma {:induction false} SplitCount(s: string, sep: char)
    ensures |Split(s, sep)| == Occurrences(s, sep) + 1
    decreases |s|
  {
    if |s| > 0 {
      SplitCount(s[1..], sep);
    }
  }

  // ---------------------------------------------------------------------------
  // Removing the first occurrence of a character
  // ---------------------------------------------------------------------------

  /** The position of the first `c` in `s`. */
  function IndexOf(s: string, c: char): (k: nat)
    requires c in s
    ensures k < |s| && s[k] == c && c !in s[..k]
    decreases |s|
  {
    if s[0] == c then 0
    else
      var k := IndexOf(s[1..], c) + 1;
      assert s[..k] == [s[0]] + s[1..][..k - 1];
      k
  }

  /** JavaScript's `str.replace(c, '')` with a string pattern: only the FIRST
      occurrence of `c` is removed. */
  function RemoveFirst(s: string, c: char): (r: string)
    ensures c !in s ==> r == s
    ensures c in s ==> r == s[..IndexOf(s, c)] + s[IndexOf(s, c) + 1..]
    decreases |s|
  {
    if |s| == 0 then s
    else if s[0] == c then s[1..]
    else
      var r := [s[0]] + RemoveFirst(s[1..], c);
      assert c in s ==> s[..IndexOf(s, c)] == [s[0]] + s[1..][..IndexOf(s[1..], c)];
      r
  }

  /** Only one `c` goes: a second occurrence survives the removal. */
  lemma RemoveFirstKeepsLater(s: string, c: char)
    requires Occurrences(s, c) >= 2
    ensures Occurrences(RemoveFirst(s, c), c) == Occurrences(s, c) - 1
    ensures c in RemoveFirst(s, c)
    decreases |s|
  {
    OccursIn(s, c);
    RemoveFirstCount(s, c);
    OccursIn(RemoveFirst(s, c), c);
  }

  lemma {:induction false} RemoveFirstCount(s: string, c: char)
    requires c in s
    ensures Occurrences(RemoveFirst(s, c), c) == Occurrences(s, c) - 1
    decreases |s|
  {
    if s[0] != c {
      RemoveFirstCount(s[1..], c);
      assert RemoveFirst(s, c)[1..] == RemoveFirst(s[1..], c);
    }
  }

  /** `c` occurs in `s` exactly when its count is positive. */
  lemma {:induction false} OccursIn(s: string, c: char)
    ensures c in s <==> Occurrences(s, c) > 0
    decreases |s|
  {
    if |s| > 0 {
      OccursIn(s[1..], c);
      assert c in s <==> s[0] == c || c in s[1..];
    }
  }

  // ---------------------------------------------------------------------------
  // Trimming
  // ---------------------------------------------------------------------------

  /** Drops the leading characters that satisfy `space`. */
  function TrimLeft(s: string, space: char -> bool): string
    decreases |s|
  {
    if |s| > 0 && space(s[0]) then TrimLeft(s[1..], space) else s
  }

  /** TrimLeft keeps a suffix of `s`, drops only `space` characters, and
      stops at the first character that is not one. */
  lemma {:induction false} TrimLeftSpec(s: string, space: char -> bool)
    ensures var r := TrimLeft(s, space);
            && |r| <= |s| && r == s[|s| - |r|..]
            && (forall i :: 0 <= i < |s| - |r| ==> space(s[i]))
            && (|r| > 0 ==> !space(r[0]))
    decreases |s|
  {
    if |s| > 0 && space(s[0]) {
      TrimLeftSpec(s[1..], space);
    }
  }

  /** Drops the trailing characters that satisfy `space`. */
  function TrimRight(s: string, space: char -> bool): string
    decreases |s|
  {
    if |s| > 0 && space(s[|s| - 1]) then TrimRight(s[..|s| - 1], space) else s
  }

  /** TrimRight keeps a prefix of `s`, drops only `space` characters, and
      stops at the last character that is not one. */
  lemma {:induction false} TrimRightSpec(s: string, space: char -> bool)
    ensures var r := TrimRight(s, space);
            && |r| <= |s| && r == s[..|r|]
            && (forall i :: |r| <= i < |s| ==> space(s[i]))
            && (|r| > 0 ==> !space(r[|r| - 1]))
    decreases |s|
  {
    if |s| > 0 && space(s[|s| - 1]) {
      TrimRightSpec(s[..|s| - 1], space);
    }
  }

  /** Neither end of `s` is a `space` character. */
  predicate Trimmed(s: string, space: char -> bool) {
    |s| == 0 || (!space(s[0]) && !space(s[|s| - 1]))
  }

  /** Drops the characters satisfying `space` from both ends. */
  function Trim(s: string, space: char -> bool): (r: string)
  {
    TrimRight(TrimLeft(s, space), space)
  }

  /** Trimming yields a trimmed infix of `s`, cut out of `s` by dropping only
      `space` characters. */
  lemma TrimSpec(s: string, space: char -> bool)
    ensures Trimmed(Trim(s, space), space)
    ensures exists a, b :: 0 <= a <= b <= |s| && Trim(s, space) == s[a..b]
                          && (forall i :: 0 <= i < a ==> space(s[i]))
                          && (forall i :: b <= i < |s| ==> space(s[i]))
  {
    var l := TrimLeft(s, space);
    var r := TrimRight(l, space);
    TrimLeftSpec(s, space);
    TrimRightSpec(l, space);
    var a := |s| - |l|;
    var b := a + |r|;
    assert r == s[a..b];
    assert forall i :: b <= i < |s| ==> s[i] == l[i - a];
  }

  /** A trimmed string is its own trim, so trimming is idempotent. */
  lemma TrimOfTrimmed(s: string, space: char -> bool)
    requires Trimmed(s, space)
    ensures Trim(s, space) == s
  {
  }

  // ---------------------------------------------------------------------------
  // Digits
  // ---------------------------------------------------------------------------

  /** The value of `c` as a digit in radix up to 36 (0-9, then a-z or A-Z). */
  function DigitValue(c: char): Option<nat> {
    if '0' <= c <= '9' then Some(c as int - '0' as int)
    else if 'a' <= c <= 'z' then Some(c as int - 'a' as int + 10)
    else if 'A' <= c <= 'Z' then Some(c as int - 'A' as int + 10)
    else None
  }

  predicate IsDigit(c: char, radix: nat) {
    DigitValue(c).Some? && DigitValue(c).value < radix
  }

  predicate AllDigits(s: string, radix: nat) {
    forall i :: 0 <= i < |s| ==> IsDigit(s[i], radix)
  }

  /** The length of the longest prefix of `s` made of radix-`radix` digits. */
  function DigitRun(s: string, radix: nat): (n: nat)
    ensures n <= |s| && AllDigits(s[..n], radix)
    ensures n < |s| ==> !IsDigit(s[n], radix)
    decreases |s|
  {
    if |s| > 0 && IsDigit(s[0], radix) then
      var n := DigitRun(s[1..], radix) + 1;
      assert s[..n] == [s[0]] + s[1..][..n - 1];
      n
    else 0
  }

  /** The number written by the digit string `ds`, most significant first. */
  function DigitsValue(ds: string, radix: nat): nat
    requires AllDigits(ds, radix)
    decreases |ds|
  {
    if |ds| == 0 then 0
    else DigitsValue(ds[..|ds| - 1], radix) * radix + DigitValue(ds[|ds| - 1]).value
  }

  /** The run of digits at the head of `ds + t` is exactly `ds` when `t` does
      not start with a digit. */
  lemma {:induction false} DigitRunOf(ds: string, t: string, radix: nat)
    requires AllDigits(ds, radix)
    requires |t| == 0 || !IsDigit(t[0], radix)
    ensures DigitRun(ds + t, radix) == |ds|
    decreases |ds|
  {
    if |ds| > 0 {
      assert (ds + t)[1..] == ds[1..] + t;
      DigitRunOf(ds[1..], t, radix);
    } else {
      assert ds + t == t;
    }
  }

  function DigitChar(d: nat): (c: char)
    requires d < 10
    ensures IsDigit(c, 10) && DigitValue(c) == Some(d)
  {
    (d + '0' as int) as char
  }

  /** The shortest decimal numeral of `n`, as JavaScript's `String(n)` and
      Python's `str(n)` print a non-negative integer. */
  function Decimal(n: nat): (s: string)
    ensures |s| >= 1 && AllDigits(s, 10)
    ensures |s| > 1 ==> s[0] != '0'
    decreases n
  {
    if n < 10 then [DigitChar(n)] else Decimal(n / 10) + [DigitChar(n % 10)]
  }

  /** Reading back a printed numeral gives the number. */
  lemma {:induction false} DecimalValue(n: nat)
    ensures DigitsValue(Decimal(n), 10) == n
    decreases n
  {
    if n >= 10 {
      DecimalValue(n / 10);
      var s := Decimal(n);
      assert s[..|s| - 1] == Decimal(n / 10);
    }
  }

  /** Leading zeros do not change the value of a digit string. */
  lemma {:induction false} LeadingZero(ds: string, radix: nat)
    requires radix >= 1 && AllDigits(ds, radix)
    ensures AllDigits("0" + ds, radix)
    ensures DigitsValue("0" + ds, radix) == DigitsValue(ds, radix)
    decreases |ds|
  {
    var z := "0" + ds;
    assert IsDigit('0', radix);
    if |ds| > 0 {
      assert z[..|z| - 1] == "0" + ds[..|ds| - 1];
      LeadingZero(ds[..|ds| - 1], radix);
    }
  }
}
