/**
 * The few pieces of Python's string behaviour that the pipeline relies on:
 * `int(s)` on a string, `s.split(sep)` and `s.split(".")[-1]`.
 */
module Text {
  import opened Wrappers

  /**
   * The ASCII whitespace that `int()` strips around its argument: space, tab,
   * line feed, vertical tab, form feed and carriage return.
   */
  predicate IsSpace(c: char) {
    c == ' ' || ('\t' <= c <= '\r')
  }

  predicate IsDigit(c: char) {
    '0' <= c <= '9'
  }

  /** `s` without its leading whitespace. */
  function TrimStart(s: string): (r: string)
    ensures |r| <= |s| && r == s[|s| - |r|..]
    ensures r == [] || !IsSpace(r[0])
  {
    if |s| > 0 && IsSpace(s[0]) then TrimStart(s[1..]) else s
  }

  /** `s` without its trailing whitespace. */
  function TrimEnd(s: string): (r: string)
    ensures |r| <= |s| && r == s[..|r|]
    ensures r == [] || !IsSpace(r[|r| - 1])
  {
    if |s| > 0 && IsSpace(s[|s| - 1]) then TrimEnd(s[..|s| - 1]) else s
  }

  /** `s.strip()`: a contiguous piece of `s` that neither starts nor ends with whitespace. */
  function Strip(s: string): (r: string)
    ensures exists lo, hi :: 0 <= lo <= hi <= |s| && r == s[lo..hi]
    ensures r == [] || (!IsSpace(r[0]) && !IsSpace(r[|r| - 1]))
  {
    var t := TrimStart(s);
    var r := TrimEnd(t);
    assert r == s[|s| - |t|..][..|r|] == s[|s| - |t|..|s| - |t| + |r|];
    r
  }

  /** Everything `strip` cuts off is whitespace. */
  lemma StripRemovesSpace(s: string)
    ensures forall c :: c in s ==> c in Strip(s) || IsSpace(c)
  {
    var t := TrimStart(s);
    var lo := |s| - |t|;
    TrimStartRemovesSpace(s);
    TrimEndRemovesSpace(t);
    assert forall i :: lo <= i < |s| ==> s[i] == t[i - lo];
  }

  lemma {:induction false} TrimStartRemovesSpace(s: string)
    ensures forall i :: 0 <= i < |s| - |TrimStart(s)| ==> IsSpace(s[i])
  {
    if |s| > 0 && IsSpace(s[0]) {
      TrimStartRemovesSpace(s[1..]);
    }
  }

  lemma {:induction false} TrimEndRemovesSpace(s: string)
    ensures forall i :: |TrimEnd(s)| <= i < |s| ==> IsSpace(s[i])
  {
    if |s| > 0 && IsSpace(s[|s| - 1]) {
      TrimEndRemovesSpace(s[..|s| - 1]);
    }
  }

  /** Whitespace on either side of a piece that starts and ends with something else is exactly what `strip` removes. */
  lemma {:induction false} StripPadded(pre: string, x: string, post: string)
    requires forall i :: 0 <= i < |pre| ==> IsSpace(pre[i])
    requires forall i :: 0 <= i < |post| ==> IsSpace(post[i])
    requires |x| > 0 && !IsSpace(x[0]) && !IsSpace(x[|x| - 1])
    ensures Strip(pre + x + post) == x
  {
    assert pre + x + post == pre + (x + post);
    TrimStartPadded(pre, x + post);
    TrimEndPadded(x, post);
    assert Strip(pre + x + post) == TrimEnd(TrimStart(pre + (x + post)));
  }

  /** A piece without whitespace at either end is left as it is. */
  lemma StripClean(s: string)
    requires |s| > 0 && !IsSpace(s[0]) && !IsSpace(s[|s| - 1])
    ensures Strip(s) == s
  {
    assert TrimStart(s) == s;
    assert TrimEnd(s) == s;
  }

  lemma {:induction false} TrimStartPadded(pre: string, y: string)
    requires forall i :: 0 <= i < |pre| ==> IsSpace(pre[i])
    requires |y| > 0 && !IsSpace(y[0])
    ensures TrimStart(pre + y) == y
  {
    if |pre| > 0 {
      assert (pre + y)[1..] == pre[1..] + y;
      TrimStartPadded(pre[1..], y);
    }
  }

  lemma {:induction false} TrimEndPadded(x: string, post: string)
    requires forall i :: 0 <= i < |post| ==> IsSpace(post[i])
    requires |x| > 0 && !IsSpace(x[|x| - 1])
    ensures TrimEnd(x + post) == x
  {
    if |post| > 0 {
      var n := |post|;
      assert (x + post)[..|x + post| - 1] == x + post[..n - 1];
      TrimEndPadded(x, post[..n - 1]);
    }
  }

  /**
   * The digit part that `int(s)` accepts in base 10: ASCII digits, where a
   * single underscore may separate two digits.
   */
  predicate IsDigitRun(d: string) {
    && |d| > 0 && IsDigit(d[0]) && IsDigit(d[|d| - 1])
    && (forall i :: 0 <= i < |d| ==> IsDigit(d[i]) || d[i] == '_')
    && (forall i :: 0 <= i < |d| - 1 ==> d[i] == '_' ==> d[i + 1] != '_')
  }

  /** The decimal value of the digits of `d`, underscores skipped. */
  function DigitsValue(d: string): nat
  {
    if |d| == 0 then 0
    else if IsDigit(d[|d| - 1]) then 10 * DigitsValue(d[..|d| - 1]) + (d[|d| - 1] as int - '0' as int)
    else DigitsValue(d[..|d| - 1])
  }

  /**
   * Python's `int(s)` on a string: surrounding whitespace, an optional sign,
   * then a digit run; anything else raises `ValueError`, modelled as `None`.
   */
  function ParseInt(s: string): (r: Option<int>)
    ensures r.Some? ==> exists i :: 0 <= i < |s| && IsDigit(s[i])
  {
    var t := Strip(s);
    var r := ParseSigned(t);
    assert r.Some? ==> exists c :: c in t && IsDigit(c);
    r
  }

  /**
   * What `int()` rejects: a string holding any other ASCII character than a
   * digit, whitespace, a sign or an underscore raises `ValueError`.
   */
  lemma ParseIntCharacters(s: string)
    requires ParseInt(s).Some?
    ensures OnlyIntCharacters(s)
  {
    StripRemovesSpace(s);
  }

  /** Every character is one `int()` can accept somewhere: a digit, whitespace, a sign or an underscore. */
  predicate OnlyIntCharacters(s: string)
  {
    forall c :: c in s ==> IsDigit(c) || IsSpace(c) || c == '+' || c == '-' || c == '_'
  }

  /** What `int()` accepts once the whitespace is gone: an optional sign, then a digit run. */
  function ParseSigned(t: string): (r: Option<int>)
    ensures r.Some? ==> exists i :: 0 <= i < |t| && IsDigit(t[i])
    ensures r.Some? ==> forall c :: c in t ==> IsDigit(c) || c == '+' || c == '-' || c == '_'
  {
    if |t| > 0 && (t[0] == '+' || t[0] == '-') then
      if IsDigitRun(t[1..]) then
        assert t[1..][0] == t[1];
        assert forall c :: c in t ==> c == t[0] || c in t[1..];
        var magnitude: int := DigitsValue(t[1..]);
        Some(if t[0] == '-' then -magnitude else magnitude)
      else None
    else if IsDigitRun(t) then
      Some(DigitsValue(t))
    else None
  }

  function DigitChar(n: nat): (c: char)
    requires n < 10
    ensures IsDigit(c) && c as int - '0' as int == n
  {
    ('0' as int + n) as char
  }

  /** `str(n)` for a natural number: its decimal digits, most significant first. */
  function NatToString(n: nat): (r: string)
    ensures |r| > 0
    ensures forall i :: 0 <= i < |r| ==> IsDigit(r[i])
  {
    if n < 10 then [DigitChar(n)] else NatToString(n / 10) + [DigitChar(n % 10)]
  }

  /** `str(n)` for an integer, the form in which the liveboard carries its numbers. */
  function IntToString(n: int): string
  {
    if n < 0 then "-" + NatToString(-n) else NatToString(n)
  }

  lemma {:induction false} NatToStringValue(n: nat)
    ensures IsDigitRun(NatToString(n))
    ensures DigitsValue(NatToString(n)) == n
  {
    var r := NatToString(n);
    if n >= 10 {
      NatToStringValue(n / 10);
      assert r[..|r| - 1] == NatToString(n / 10);
    }
  }

  /** `int(str(n)) == n`: every integer written in decimal parses back to itself. */
  lemma {:induction false} ParseIntRoundTrip(n: int)
    ensures ParseInt(IntToString(n)) == Some(n)
  {
    SignedDigitsOf(n);
    StripClean(IntToString(n));
  }

  /** `int(" \t" + str(n) + "\n") == n`: whitespace around the digits does not change the value. */
  lemma {:induction false} ParseIntPadded(n: int, pre: string, post: string)
    requires forall i :: 0 <= i < |pre| ==> IsSpace(pre[i])
    requires forall i :: 0 <= i < |post| ==> IsSpace(post[i])
    ensures ParseInt(pre + IntToString(n) + post) == Some(n)
  {
    SignedDigitsOf(n);
    StripPadded(pre, IntToString(n), post);
  }

  /** `int("+" + str(n)) == n`: an explicit plus sign is accepted in front of the digits. */
  lemma {:induction false} ParseIntExplicitPlus(n: nat)
    ensures ParseInt("+" + NatToString(n)) == Some(n)
  {
    PlusDigitsOf(n);
    StripClean("+" + NatToString(n));
  }

  lemma {:induction false} PlusDigitsOf(n: nat)
    ensures var s := "+" + NatToString(n); !IsSpace(s[0]) && !IsSpace(s[|s| - 1])
    ensures ParseSigned("+" + NatToString(n)) == Some(n)
  {
    var d := NatToString(n);
    var s := "+" + d;
    NatToStringValue(n);
    assert s[1..] == d;
    assert s[|s| - 1] == d[|d| - 1];
  }

  /** `str(n)` is a sign and digits `int()` reads back as `n`, with no whitespace at either end. */
  lemma {:induction false} SignedDigitsOf(n: int)
    ensures var s := IntToString(n); |s| > 0 && !IsSpace(s[0]) && !IsSpace(s[|s| - 1])
    ensures ParseSigned(IntToString(n)) == Some(n)
  {
    var s := IntToString(n);
    var m: nat := if n < 0 then -n else n;
    NatToStringValue(m);
    var d := NatToString(m);
    if n < 0 {
      assert s[0] == '-' && s[1..] == d;
    } else {
      assert s == d && s[0] != '+' && s[0] != '-';
    }
  }

  /** Python's `s.split(sep)` with a one-character separator. */
  function Split(s: string, sep: char): (parts: seq<string>)
    ensures |parts| >= 1
    ensures forall i :: 0 <= i < |parts| ==> sep !in parts[i]
  {
    if |s| == 0 then [""]
    else
      var rest := Split(s[1..], sep);
      if s[0] == sep then [""] + rest
      else [[s[0]] + rest[0]] + rest[1..]
  }

  /** Joining the pieces with the separator between them: the reference against which `Split` is proved. */
  function Join(parts: seq<string>, sep: char): string
  {
    if |parts| == 0 then ""
    else if |parts| == 1 then parts[0]
    else parts[0] + [sep] + Join(parts[1..], sep)
  }

  /** Joining the pieces of a split gives the original string back. */
  lemma {:induction false} JoinSplit(s: string, sep: char)
    ensures Join(Split(s, sep), sep) == s
  {
    if |s| > 0 {
      JoinSplit(s[1..], sep);
      var rest := Split(s[1..], sep);
      var parts := Split(s, sep);
      if s[0] == sep {
        assert parts[1..] == rest;
      } else {
        assert parts[1..] == rest[1..];
      }
    }
  }

  /** Splitting `p + t` when `p` holds no separator glues `p` onto the first piece of `t`. */
  lemma {:induction false} SplitPrefix(p: string, t: string, sep: char)
    requires sep !in p
    ensures Split(p + t, sep) == [p + Split(t, sep)[0]] + Split(t, sep)[1..]
  {
    var ts := Split(t, sep);
    if |p| > 0 {
      SplitPrefix(p[1..], t, sep);
      assert (p + t)[0] == p[0] != sep;
      assert (p + t)[1..] == p[1..] + t;
      var rest := Split(p[1..] + t, sep);
      assert rest == [p[1..] + ts[0]] + ts[1..];
      assert Split(p + t, sep) == [[p[0]] + rest[0]] + rest[1..];
      assert [p[0]] + (p[1..] + ts[0]) == p + ts[0];
    } else {
      assert p + t == t && p + ts[0] == ts[0];
      assert ts == [ts[0]] + ts[1..];
    }
  }

  /** Splitting a join of separator-free pieces gives the pieces back. */
  lemma {:induction false} SplitJoin(parts: seq<string>, sep: char)
    requires |parts| >= 1
    requires forall i :: 0 <= i < |parts| ==> sep !in parts[i]
    ensures Split(Join(parts, sep), sep) == parts
  {
    SplitPrefix(parts[0], [], sep);
    assert parts[0] + [] == parts[0];
    if |parts| > 1 {
      SplitJoin(parts[1..], sep);
      var tail := [sep] + Join(parts[1..], sep);
      assert tail[1..] == Join(parts[1..], sep);
      SplitPrefix(parts[0], tail, sep);
      assert parts[0] + tail == Join(parts, sep);
    }
  }

  /** A join of several pieces ends with the separator and the last piece. */
  lemma {:induction false} JoinLast(parts: seq<string>, sep: char)
    requires |parts| > 1
    ensures Join(parts, sep) == Join(parts[..|parts| - 1], sep) + [sep] + parts[|parts| - 1]
  {
    var n := |parts|;
    var last := parts[n - 1];
    if n > 2 {
      var tail := parts[1..];
      JoinLast(tail, sep);
      assert tail[..|tail| - 1] == parts[..n - 1][1..];
      assert tail[|tail| - 1] == last;
      calc {
        Join(parts, sep);
        parts[0] + [sep] + Join(tail, sep);
        parts[0] + [sep] + (Join(parts[..n - 1][1..], sep) + [sep] + last);
        (parts[0] + [sep] + Join(parts[..n - 1][1..], sep)) + [sep] + last;
        Join(parts[..n - 1], sep) + [sep] + last;
      }
    } else {
      assert parts[1..] == [last];
      assert parts[..1] == [parts[0]];
    }
  }

  /** `s.split(".")[-1]`: the text after the last dot of `s`, or all of `s` when it has none. */
  function LastSegment(s: string): (r: string)
    ensures '.' !in r
    ensures |r| <= |s| && r == s[|s| - |r|..]
    ensures |r| < |s| ==> s[|s| - |r| - 1] == '.'
  {
    var parts := Split(s, '.');
    JoinSplit(s, '.');
    if |parts| > 1 then
      JoinLast(parts, '.');
      parts[|parts| - 1]
    else
      parts[0]
  }
}
