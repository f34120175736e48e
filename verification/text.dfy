/** String operations the ingestion step applies to country names and
    column labels, each with the meaning Python gives it. */
module Text {

  /** Python's `str.isspace()`: the characters `str.strip()` removes. */
  predicate IsSpace(c: char)
  {
    || c == ' ' || ('\t' <= c <= '\r') || ('\U{1C}' <= c <= '\U{1F}')
    || c == '\U{85}' || c == '\U{A0}' || c == '\U{1680}'
    || ('\U{2000}' <= c <= '\U{200A}') || c == '\U{2028}' || c == '\U{2029}'
    || c == '\U{202F}' || c == '\U{205F}' || c == '\U{3000}'
  }

  predicate AllSpace(s: string)
  {
    forall i :: 0 <= i < |s| ==> IsSpace(s[i])
  }

  /** Every character of `s` from `lo` up to `hi` is whitespace. */
  predicate SpaceBetween(s: string, lo: int, hi: int)
    requires 0 <= lo <= hi <= |s|
  {
    forall k :: lo <= k < hi ==> IsSpace(s[k])
  }

  /** Python's `str.lstrip()`: what is left after the longest all-space prefix. */
  function TrimLeft(s: string): (r: string)
    ensures |r| <= |s| && r == s[|s| - |r|..]
    ensures SpaceBetween(s, 0, |s| - |r|)
    ensures r == [] || !IsSpace(r[0])
  {
    if |s| > 0 && IsSpace(s[0]) then TrimLeft(s[1..]) else s
  }

  /** Python's `str.rstrip()`: what is left before the longest all-space suffix. */
  function TrimRight(s: string): (r: string)
    ensures |r| <= |s| && r == s[..|r|]
    ensures SpaceBetween(s, |r|, |s|)
    ensures r == [] || !IsSpace(r[|r| - 1])
  {
    if |s| > 0 && IsSpace(s[|s| - 1]) then TrimRight(s[..|s| - 1]) else s
  }

  lemma SpaceShift(s: string, i: int, lo: int, hi: int)
    requires 0 <= i <= |s| && 0 <= lo <= hi <= |s| - i
    requires SpaceBetween(s[i..], lo, hi)
    ensures SpaceBetween(s, i + lo, i + hi)
  {
    forall k | i + lo <= k < i + hi
      ensures IsSpace(s[k])
    {
      assert s[k] == s[i..][k - i];
    }
  }

  /** `r` sits in `s` at `i`, with only whitespace before and after it. */
  predicate Framed(s: string, r: string, i: int)
  {
    0 <= i <= i + |r| <= |s| && r == s[i..i + |r|] && SpaceBetween(s, 0, i) && SpaceBetween(s, i + |r|, |s|)
  }

  /** Python's `str.strip()` (main.py:19): the result neither starts nor
      ends with whitespace. */
  function Strip(s: string): (r: string)
    ensures |r| <= |s|
    ensures r == [] || (!IsSpace(r[0]) && !IsSpace(r[|r| - 1]))
  {
    TrimRight(TrimLeft(s))
  }

  /** What `str.strip()` keeps is a slice of the name, and what it drops
      on either side is whitespace only. */
  lemma StripFramed(s: string)
    ensures exists i :: Framed(s, Strip(s), i)
  {
    var l := TrimLeft(s);
    var r := TrimRight(l);
    var i := |s| - |l|;
    assert Strip(s) == r;
    assert l == s[i..];
    assert r == l[..|r|];
    assert r == s[i..i + |r|];
    SpaceShift(s, i, |r|, |l|);
    assert Framed(s, r, i);
  }

  lemma {:induction false} TrimLeftSkipsSpace(w: string, x: string)
    requires AllSpace(w)
    ensures TrimLeft(w + x) == TrimLeft(x)
  {
    if w == [] {
      assert w + x == x;
    } else {
      assert (w + x)[0] == w[0];
      assert (w + x)[1..] == w[1..] + x;
      TrimLeftSkipsSpace(w[1..], x);
    }
  }

  lemma {:induction false} TrimLeftAppend(s: string, t: string)
    requires !AllSpace(s)
    ensures TrimLeft(s + t) == TrimLeft(s) + t
  {
    if IsSpace(s[0]) {
      assert (s + t)[1..] == s[1..] + t;
      TrimLeftAppend(s[1..], t);
    }
  }

  lemma {:induction false} TrimRightSkipsSpace(x: string, w: string)
    requires AllSpace(w)
    ensures TrimRight(x + w) == TrimRight(x)
  {
    if w == [] {
      assert x + w == x;
    } else {
      var n := |w| - 1;
      assert (x + w)[|x + w| - 1] == w[n];
      assert (x + w)[..|x + w| - 1] == x + w[..n];
      TrimRightSkipsSpace(x, w[..n]);
    }
  }

  lemma TrimLeftAllSpace(s: string)
    requires AllSpace(s)
    ensures TrimLeft(s) == []
  {
  }

  /** Two names that differ only by surrounding whitespace strip to the same
      name, so after main.py:19 they group together (main.py:94). */
  lemma {:induction false} StripIgnoresPadding(w1: string, s: string, w2: string)
    requires AllSpace(w1) && AllSpace(w2)
    ensures Strip(w1 + s + w2) == Strip(s)
  {
    var x := s + w2;
    assert w1 + s + w2 == w1 + x;
    TrimLeftSkipsSpace(w1, x);
    if AllSpace(s) {
      TrimLeftSkipsSpace(s, w2);
      TrimLeftAllSpace(w2);
      TrimLeftAllSpace(s);
    } else {
      TrimLeftAppend(s, w2);
      TrimRightSkipsSpace(TrimLeft(s), w2);
    }
  }

  /** Stripping twice changes nothing more than stripping once. */
  lemma StripIdempotent(s: string)
    ensures Strip(Strip(s)) == Strip(s)
  {
    var r := Strip(s);
    assert TrimLeft(r) == r;
    assert TrimRight(r) == r;
  }

  predicate IsDigit(c: char)
  {
    '0' <= c <= '9'
  }

  predicate AllDigits(s: string)
  {
    forall i :: 0 <= i < |s| ==> IsDigit(s[i])
  }

  /** Python's `str.isnumeric()` (main.py:22), restricted to ASCII digits:
      a non-empty label made of digits only. */
  predicate IsNumeric(s: string)
  {
    |s| > 0 && AllDigits(s)
  }

  /** Python's `".1" in s` (main.py:26). */
  predicate HasMarker(s: string)
  {
    exists i :: 0 <= i < |s| - 1 && s[i] == '.' && s[i + 1] == '1'
  }

  /** Python's `s.replace(".1", "")` (main.py:36): every occurrence of
      ".1", found left to right without overlap, is removed. */
  function StripMarker(s: string): (r: string)
    ensures |r| <= |s|
    ensures !HasMarker(s) ==> r == s
  {
    if |s| < 2 then s
    else if s[0] == '.' && s[1] == '1' then StripMarker(s[2..])
    else
      assert !HasMarker(s) ==> !HasMarker(s[1..]) by {
        if HasMarker(s[1..]) {
          var i :| 0 <= i < |s[1..]| - 1 && s[1..][i] == '.' && s[1..][i + 1] == '1';
          assert s[i + 1] == '.' && s[i + 2] == '1';
        }
      }
      [s[0]] + StripMarker(s[1..])
  }

  /** A year label never carries the marker; the value label of a year
      (the year followed by ".1") is not numeric, carries the marker, and
      maps back to the year once the marker is removed (main.py:22, 26, 36). */
  lemma {:induction false} ValueLabelOfYear(y: string)
    requires IsNumeric(y)
    ensures !HasMarker(y)
    ensures HasMarker(y + ".1") && !IsNumeric(y + ".1")
    ensures StripMarker(y + ".1") == y
  {
    var v := y + ".1";
    assert v[|y|] == '.' && v[|y| + 1] == '1';
    assert !IsDigit(v[|y|]);
    DigitsThenMarker(y);
  }

  lemma {:induction false} DigitsThenMarker(y: string)
    requires AllDigits(y)
    ensures StripMarker(y + ".1") == y
  {
    if y == [] {
      assert y + ".1" == ".1";
      assert StripMarker(".1") == StripMarker(""[..]);
    } else {
      assert (y + ".1")[1..] == y[1..] + ".1";
      DigitsThenMarker(y[1..]);
    }
  }

  function DigitValue(c: char): (d: nat)
    requires IsDigit(c)
    ensures d < 10
  {
    (c as int) - ('0' as int)
  }

  function DigitChar(d: nat): (c: char)
    requires d < 10
    ensures IsDigit(c) && DigitValue(c) == d
  {
    ('0' as int + d) as char
  }

  /** `pd.to_numeric` on a label made of decimal digits (main.py:45). */
  function ParseDigits(s: string): nat
    requires AllDigits(s)
  {
    if s == [] then 0 else 10 * ParseDigits(s[..|s| - 1]) + DigitValue(s[|s| - 1])
  }

  /** The decimal rendering of a year, as a column label spells it. */
  function Decimal(n: nat): (s: string)
    ensures IsNumeric(s)
  {
    if n < 10 then [DigitChar(n)] else Decimal(n / 10) + [DigitChar(n % 10)]
  }

  /** Parsing a rendered year gives the year back. */
  lemma {:induction false} ParseDecimal(n: nat)
    ensures ParseDigits(Decimal(n)) == n
  {
    var s := Decimal(n);
    if n < 10 {
      assert s[..|s| - 1] == [];
    } else {
      assert s[..|s| - 1] == Decimal(n / 10);
      ParseDecimal(n / 10);
    }
  }

  /** Python's ordering of strings (used by `sorted` at main.py:76 and by
      `groupby` at main.py:94, 110): code point by code point, a proper
      prefix first. */
  predicate StrLt(a: string, b: string)
  {
    if |a| == 0 then |b| > 0
    else if |b| == 0 then false
    else if a[0] != b[0] then a[0] < b[0]
    else StrLt(a[1..], b[1..])
  }

  lemma {:induction false} StrLtIrreflexive(a: string)
    ensures !StrLt(a, a)
  {
    if |a| > 0 {
      StrLtIrreflexive(a[1..]);
    }
  }

  lemma {:induction false} StrLtTransitive(a: string, b: string, c: string)
    requires StrLt(a, b) && StrLt(b, c)
    ensures StrLt(a, c)
  {
    if |a| > 0 && a[0] == b[0] && b[0] == c[0] {
      StrLtTransitive(a[1..], b[1..], c[1..]);
    }
  }

  lemma {:induction false} StrLtTotal(a: string, b: string)
    requires a != b
    ensures StrLt(a, b) || StrLt(b, a)
  {
    if |a| > 0 && |b| > 0 && a[0] == b[0] {
      assert a == [a[0]] + a[1..] && b == [b[0]] + b[1..];
      StrLtTotal(a[1..], b[1..]);
    }
  }
}
