/**
 * The text operations `to_xrandr_cli` relies on: `u32::to_string` (unsigned
 * decimal without leading zeros) and `join` with a separator, together with
 * their inverses, the decimal reader and the split at a separator.
 */
module Text {

  predicate IsDigit(c: char)
  {
    '0' <= c <= '9'
  }

  predicate AllDigits(s: string)
  {
    forall i :: 0 <= i < |s| ==> IsDigit(s[i])
  }

  /** The text `to_string` prints for an unsigned integer: digits only, at least one, no leading zero. */
  predicate IsCanonical(s: string)
  {
    |s| >= 1 && AllDigits(s) && (s[0] == '0' ==> |s| == 1)
  }

  function DigitChar(d: nat): (c: char)
    requires d < 10
    ensures IsDigit(c)
  {
    (48 + d) as char
  }

  function DigitValue(c: char): (d: nat)
    requires IsDigit(c)
    ensures d < 10 && DigitChar(d) == c
  {
    c as int - 48
  }

  /** `n.to_string()` for an unsigned `n`. */
  function ToDecimal(n: nat): (s: string)
    ensures IsCanonical(s)
    ensures (s[0] == '0') == (n == 0)
  {
    if n < 10 then [DigitChar(n)] else ToDecimal(n / 10) + [DigitChar(n % 10)]
  }

  /** The value of a string of decimal digits, most significant first. */
  function FromDecimal(s: string): nat
    requires AllDigits(s)
  {
    if |s| == 0 then 0 else FromDecimal(s[..|s| - 1]) * 10 + DigitValue(s[|s| - 1])
  }

  /** Reading back what `to_string` printed gives the number. */
  lemma {:induction false} DecimalRoundTrip(n: nat)
    ensures FromDecimal(ToDecimal(n)) == n
  {
    var s := ToDecimal(n);
    if n >= 10 {
      DecimalRoundTrip(n / 10);
      assert s[..|s| - 1] == ToDecimal(n / 10);
    }
  }

  /** Digits that do not start with zero denote a positive number. */
  lemma {:induction false} LeadingDigitPositive(s: string)
    requires |s| >= 1 && AllDigits(s) && s[0] != '0'
    ensures FromDecimal(s) >= 1
  {
    if |s| > 1 {
      LeadingDigitPositive(s[..|s| - 1]);
    }
  }

  /** Printing the number a canonical string denotes gives the string back. */
  lemma {:induction false} CanonicalRoundTrip(s: string)
    requires IsCanonical(s)
    ensures ToDecimal(FromDecimal(s)) == s
  {
    if |s| > 1 {
      var p := s[..|s| - 1];
      var d := DigitValue(s[|s| - 1]);
      LeadingDigitPositive(p);
      CanonicalRoundTrip(p);
      var n := FromDecimal(s);
      assert n == FromDecimal(p) * 10 + d;
      assert n / 10 == FromDecimal(p) && n % 10 == d;
      assert s == p + [s[|s| - 1]];
    }
  }

  /** Sample texts printed for the words that appear in the argument values. */
  lemma DecimalOf2147483648()
    ensures ToDecimal(2147483648) == "2147483648"
  {
    assert ToDecimal(2) == "2";
    assert ToDecimal(21) == "21";
    assert ToDecimal(214) == "214";
    assert ToDecimal(2147) == "2147";
    assert ToDecimal(21474) == "21474";
    assert ToDecimal(214748) == "214748";
    assert ToDecimal(2147483) == "2147483";
    assert ToDecimal(21474836) == "21474836";
    assert ToDecimal(214748364) == "214748364";
  }

  lemma DecimalOf2147483649()
    ensures ToDecimal(2147483649) == "2147483649"
  {
    assert ToDecimal(2) == "2";
    assert ToDecimal(21) == "21";
    assert ToDecimal(214) == "214";
    assert ToDecimal(2147) == "2147";
    assert ToDecimal(21474) == "21474";
    assert ToDecimal(214748) == "214748";
    assert ToDecimal(2147483) == "2147483";
    assert ToDecimal(21474836) == "21474836";
    assert ToDecimal(214748364) == "214748364";
  }

  lemma DecimalOf1431655765()
    ensures ToDecimal(1431655765) == "1431655765"
  {
    assert ToDecimal(1) == "1";
    assert ToDecimal(14) == "14";
    assert ToDecimal(143) == "143";
    assert ToDecimal(1431) == "1431";
    assert ToDecimal(14316) == "14316";
    assert ToDecimal(143165) == "143165";
    assert ToDecimal(1431655) == "1431655";
    assert ToDecimal(14316557) == "14316557";
    assert ToDecimal(143165576) == "143165576";
  }

  /** `[T]::join(sep)`: the items with one separator between neighbours. */
  function Join(items: seq<string>, sep: char): (s: string)
    ensures |items| == 0 ==> s == []
    ensures |items| == 1 ==> s == items[0]
  {
    if |items| == 0 then ""
    else if |items| == 1 then items[0]
    else items[0] + [sep] + Join(items[1..], sep)
  }

  /** The pieces of `s` between separators, in order; the partner of `Join`. */
  function Split(s: string, sep: char): (items: seq<string>)
    ensures |items| >= 1
    ensures forall k :: 0 <= k < |items| ==> sep !in items[k]
  {
    if |s| == 0 then [""]
    else
      var rest := Split(s[1..], sep);
      if s[0] == sep then [""] + rest
      else [[s[0]] + rest[0]] + rest[1..]
  }

  lemma {:induction false} SplitWithoutSeparator(t: string, sep: char)
    requires sep !in t
    ensures Split(t, sep) == [t]
  {
    if |t| > 0 {
      SplitWithoutSeparator(t[1..], sep);
      assert [t[0]] + t[1..] == t;
    }
  }

  lemma {:induction false} SplitAfterItem(t: string, sep: char, rest: string)
    requires sep !in t
    ensures Split(t + [sep] + rest, sep) == [t] + Split(rest, sep)
  {
    var s := t + [sep] + rest;
    if |t| == 0 {
      assert s[1..] == rest;
    } else {
      assert s[1..] == t[1..] + [sep] + rest;
      SplitAfterItem(t[1..], sep, rest);
      assert [t[0]] + t[1..] == t;
    }
  }

  /** Items free of the separator are recovered by splitting their join. */
  lemma {:induction false} SplitJoin(items: seq<string>, sep: char)
    requires |items| >= 1
    requires forall k :: 0 <= k < |items| ==> sep !in items[k]
    ensures Split(Join(items, sep), sep) == items
  {
    if |items| == 1 {
      SplitWithoutSeparator(items[0], sep);
    } else {
      SplitJoin(items[1..], sep);
      SplitAfterItem(items[0], sep, Join(items[1..], sep));
      assert [items[0]] + items[1..] == items;
    }
  }

  /** Joining the pieces of a split gives the string back. */
  lemma {:induction false} JoinSplit(s: string, sep: char)
    ensures Join(Split(s, sep), sep) == s
  {
    if |s| > 0 {
      var rest := Split(s[1..], sep);
      JoinSplit(s[1..], sep);
      if s[0] == sep {
        assert ([""] + rest)[1..] == rest;
      } else if |rest| > 1 {
        var items := [[s[0]] + rest[0]] + rest[1..];
        assert items[1..] == rest[1..];
        assert Join(rest, sep) == rest[0] + [sep] + Join(rest[1..], sep);
      }
    }
  }
}
