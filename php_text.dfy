/** The PHP string primitives the step definitions rely on, written out:
    trim() with its default character list, substr() with non-negative
    offsets, prefix tests, and decimal rendering of integers as string
    interpolation produces it. Strings are sequences of characters; PHP works
    on bytes, which makes no difference for the ASCII markers used here. */
module PhpText {
  import opened Outcomes

  predicate HasPrefix(s: string, p: string) {
    |p| <= |s| && s[..|p|] == p
  }

  /** The rest of `msg` after `prefix`, if `msg` starts with it. */
  function AfterPrefix(prefix: string, msg: string): (r: Option<string>)
    ensures r.Some? <==> HasPrefix(msg, prefix)
    ensures r.Some? ==> msg == prefix + r.value
  {
    if HasPrefix(msg, prefix) then Some(msg[|prefix|..]) else None
  }

  lemma AfterPrefixOfConcat(prefix: string, rest: string)
    ensures AfterPrefix(prefix, prefix + rest) == Some(rest)
  {
    assert (prefix + rest)[..|prefix|] == prefix;
    assert (prefix + rest)[|prefix|..] == rest;
  }

  /** The characters trim() removes when it is given no character list:
      space, tab, line feed, carriage return, NUL and vertical tab. */
  predicate IsTrimChar(c: char) {
    c == ' ' || c == '\t' || c == '\n' || c == '\r' || c == '\0' || c == '\U{000B}'
  }

  predicate AllTrimChars(s: string) {
    forall i :: 0 <= i < |s| ==> IsTrimChar(s[i])
  }

  /** ltrim(): the longest suffix of `s` that does not start with a trim character. */
  function TrimLeft(s: string): (r: string)
    ensures |r| <= |s| && r == s[|s| - |r|..]
    ensures r == [] || !IsTrimChar(r[0])
    ensures AllTrimChars(s[..|s| - |r|])
  {
    if |s| > 0 && IsTrimChar(s[0]) then
      var r := TrimLeft(s[1..]);
      assert s[..|s| - |r|] == [s[0]] + s[1..][..|s| - 1 - |r|];
      r
    else s
  }

  /** rtrim(): the longest prefix of `s` that does not end with a trim character. */
  function TrimRight(s: string): (r: string)
    ensures |r| <= |s| && r == s[..|r|]
    ensures r == [] || !IsTrimChar(r[|r| - 1])
    ensures AllTrimChars(s[|r|..])
  {
    if |s| > 0 && IsTrimChar(s[|s| - 1]) then
      var r := TrimRight(s[..|s| - 1]);
      assert s[|r|..] == s[..|s| - 1][|r|..] + [s[|s| - 1]];
      r
    else s
  }

  /** trim(): both ends stripped. */
  function Trim(s: string): (r: string)
    ensures r == [] || (!IsTrimChar(r[0]) && !IsTrimChar(r[|r| - 1]))
    ensures var k := |s| - |TrimLeft(s)|;
      k + |r| <= |s| && r == s[k..k + |r|] && AllTrimChars(s[..k]) && AllTrimChars(s[k + |r|..])
  {
    var l := TrimLeft(s);
    var r := TrimRight(l);
    var k := |s| - |l|;
    assert r == s[k..k + |r|];
    assert s[k + |r|..] == l[|r|..];
    r
  }

  lemma {:induction false} TrimLeftOfPadding(w: string, s: string)
    requires AllTrimChars(w)
    ensures TrimLeft(w + s) == TrimLeft(s)
  {
    var ws := w + s;
    if w == [] {
      assert ws == s;
    } else {
      assert ws[0] == w[0] && IsTrimChar(w[0]);
      assert TrimLeft(ws) == TrimLeft(ws[1..]);
      assert ws[1..] == w[1..] + s;
      assert AllTrimChars(w[1..]) by {
        forall i | 0 <= i < |w[1..]| ensures IsTrimChar(w[1..][i]) { assert w[1..][i] == w[i + 1]; }
      }
      TrimLeftOfPadding(w[1..], s);
    }
  }

  lemma {:induction false} TrimRightOfPadding(s: string, w: string)
    requires AllTrimChars(w)
    ensures TrimRight(s + w) == TrimRight(s)
  {
    var sw := s + w;
    if w == [] {
      assert sw == s;
    } else {
      assert sw[|sw| - 1] == w[|w| - 1] && IsTrimChar(w[|w| - 1]);
      assert TrimRight(sw) == TrimRight(sw[..|sw| - 1]);
      assert sw[..|sw| - 1] == s + w[..|w| - 1];
      assert AllTrimChars(w[..|w| - 1]) by {
        var v := w[..|w| - 1];
        forall i | 0 <= i < |v| ensures IsTrimChar(v[i]) { assert v[i] == w[i]; }
      }
      TrimRightOfPadding(s, w[..|w| - 1]);
    }
  }

  /** ltrim() of a string followed by padding: the padding survives unless
      the whole string was padding. */
  lemma {:induction false} TrimLeftBeforePadding(s: string, w: string)
    ensures TrimLeft(s + w) == if TrimLeft(s) == [] then TrimLeft(w) else TrimLeft(s) + w
  {
    if |s| > 0 && IsTrimChar(s[0]) {
      assert (s + w)[1..] == s[1..] + w;
      TrimLeftBeforePadding(s[1..], w);
    } else if s == [] {
      assert s + w == w;
    }
  }

  lemma AllTrimCharsLeftEmpty(w: string)
    requires AllTrimChars(w)
    ensures TrimLeft(w) == []
  {
    TrimLeftOfPadding(w, []);
    assert w + [] == w;
  }

  /** trim() ignores any padding of trim characters around its argument. */
  lemma TrimIgnoresPadding(w1: string, s: string, w2: string)
    requires AllTrimChars(w1) && AllTrimChars(w2)
    ensures Trim(w1 + s + w2) == Trim(s)
  {
    assert w1 + s + w2 == w1 + (s + w2);
    TrimLeftOfPadding(w1, s + w2);
    TrimLeftBeforePadding(s, w2);
    if TrimLeft(s) == [] {
      AllTrimCharsLeftEmpty(w2);
    } else {
      TrimRightOfPadding(TrimLeft(s), w2);
    }
  }

  /** trim() is idempotent. */
  lemma TrimIdempotent(s: string)
    ensures Trim(Trim(s)) == Trim(s)
  {
    var r := Trim(s);
    if r != [] {
      assert TrimLeft(r) == r;
      assert TrimRight(r) == r;
    }
  }

  /** substr($s, $start, $length) for non-negative offset and length (PHP 8:
      an offset past the end gives the empty string). */
  function Substr(s: string, start: nat, length: nat): (r: string)
    ensures |r| <= length
    ensures start <= |s| ==> HasPrefix(s[start..], r)
    ensures start + length <= |s| ==> |r| == length
    ensures start <= |s| < start + length ==> r == s[start..]
    ensures start >= |s| ==> r == ""
  {
    if start >= |s| then ""
    else s[start..if start + length <= |s| then start + length else |s|]
  }

  /** substr($s, $start) for a non-negative offset. */
  function SubstrFrom(s: string, start: nat): (r: string)
    ensures start <= |s| ==> s == s[..start] + r
    ensures start > |s| ==> r == ""
  {
    if start >= |s| then "" else s[start..]
  }

  /** Comparing the first |p| characters with p is a prefix test. */
  lemma SubstrPrefixTest(s: string, p: string)
    ensures Substr(s, 0, |p|) == p <==> HasPrefix(s, p)
  {
    if |s| == 0 {
      assert Substr(s, 0, |p|) == "";
    }
  }

  // ---- decimal digits, as "{$id}" interpolation renders a non-negative integer ----

  predicate IsDigit(c: char) { '0' as int <= c as int <= '9' as int }

  function DigitChar(d: nat): (c: char)
    requires d < 10
    ensures IsDigit(c) && c as int - '0' as int == d
  {
    ('0' as int + d) as char
  }

  /** The decimal rendering of `n`, without leading zeros. */
  function Decimal(n: nat): (r: string)
    ensures |r| >= 1 && forall i :: 0 <= i < |r| ==> IsDigit(r[i])
    ensures r[0] == '0' ==> n == 0 && r == "0"
  {
    if n < 10 then [DigitChar(n)] else Decimal(n / 10) + [DigitChar(n % 10)]
  }

  function DigitsValue(s: string): nat
    requires forall i :: 0 <= i < |s| ==> IsDigit(s[i])
  {
    if s == [] then 0
    else
      assert IsDigit(s[|s| - 1]);
      DigitsValue(s[..|s| - 1]) * 10 + (s[|s| - 1] as int - '0' as int)
  }

  /** The integer a non-empty string of digits denotes; None for anything else. */
  function ParseDecimal(s: string): (r: Option<nat>)
    ensures r.Some? <==> |s| > 0 && forall i :: 0 <= i < |s| ==> IsDigit(s[i])
  {
    if |s| > 0 && forall i :: 0 <= i < |s| ==> IsDigit(s[i]) then Some(DigitsValue(s)) else None
  }

  lemma {:induction false} DecimalRoundTrip(n: nat)
    ensures ParseDecimal(Decimal(n)) == Some(n)
  {
    var s := Decimal(n);
    if n >= 10 {
      DecimalRoundTrip(n / 10);
      assert s[..|s| - 1] == Decimal(n / 10);
      assert DigitsValue(s) == DigitsValue(Decimal(n / 10)) * 10 + n % 10;
    } else {
      assert s[..0] == [];
      assert DigitsValue(s) == DigitsValue(s[..0]) * 10 + n;
    }
  }
}
