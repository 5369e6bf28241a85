/**
 * The few pieces of Python's `str` behaviour that the job-record routines use:
 * `replace`, ASCII `lower`, `startswith`, `lstrip` and the decimal rendering
 * behind `str(n)`, `f"{n:03d}"` and `strftime`'s zero-padded fields.
 */
module Strings {

  // ---------------------------------------------------------------------------
  // str.replace, str.lower, str.startswith, str.lstrip
  // ---------------------------------------------------------------------------

  /** `s.replace(pat, rep)` for a non-empty pattern: scan left to right and
      replace every non-overlapping occurrence of `pat`. */
  function Replace(s: string, pat: string, rep: string): string
    requires |pat| > 0
    decreases |s|
  {
    if |s| < |pat| then s
    else if s[..|pat|] == pat then rep + Replace(s[|pat|..], pat, rep)
    else [s[0]] + Replace(s[1..], pat, rep)
  }

  /** Replacing one character by another maps the string character by character. */
  lemma {:induction false} ReplaceOneChar(s: string, a: char, b: char)
    ensures |Replace(s, [a], [b])| == |s|
    ensures forall i :: 0 <= i < |s| ==> Replace(s, [a], [b])[i] == (if s[i] == a then b else s[i])
  {
    if |s| > 0 {
      ReplaceOneChar(s[1..], a, b);
    }
  }

  /** A prefix holding no `c` passes through a replacement of a pattern starting
      with `c` untouched. */
  lemma {:induction false} ReplaceSkipsPrefix(u: string, t: string, pat: string, rep: string)
    requires |pat| > 0
    requires forall i :: 0 <= i < |u| ==> u[i] != pat[0]
    ensures Replace(u + t, pat, rep) == u + Replace(t, pat, rep)
  {
    if |u| > 0 {
      var s := u + t;
      assert s[0] == u[0] != pat[0];
      assert s[1..] == u[1..] + t;
      ReplaceSkipsPrefix(u[1..], t, pat, rep);
      if |s| >= |pat| {
        assert s[..|pat|][0] != pat[0];
        calc {
          Replace(s, pat, rep);
          [s[0]] + Replace(s[1..], pat, rep);
          [u[0]] + (u[1..] + Replace(t, pat, rep));
          { assert [u[0]] + u[1..] == u; }
          u + Replace(t, pat, rep);
        }
      } else {
        assert Replace(s, pat, rep) == s;
        assert Replace(t, pat, rep) == t;
      }
    } else {
      assert u + t == t;
    }
  }

  /** ASCII lowercasing of one character: 'A'..'Z' become 'a'..'z', all else stays. */
  function LowerChar(c: char): char
  {
    if 'A' <= c <= 'Z' then (c as int + 32) as char else c
  }

  /** `s.lower()`, restricted to ASCII letters. */
  function Lower(s: string): string
  {
    seq(|s|, i requires 0 <= i < |s| => LowerChar(s[i]))
  }

  /** `s.startswith(prefix)`. */
  predicate StartsWith(s: string, prefix: string)
  {
    |prefix| <= |s| && s[..|prefix|] == prefix
  }

  /** `s.lstrip(c)` for a one-character argument. */
  function LStrip(s: string, c: char): (r: string)
    ensures |r| <= |s|
    ensures r == [] || r[0] != c
    ensures r == s[|s| - |r|..]
  {
    if |s| > 0 && s[0] == c then LStrip(s[1..], c) else s
  }

  // ---------------------------------------------------------------------------
  // Decimal rendering
  // ---------------------------------------------------------------------------

  predicate IsDigits(s: string)
  {
    forall i :: 0 <= i < |s| ==> '0' <= s[i] <= '9'
  }

  function DigitChar(d: nat): (c: char)
    requires d < 10
    ensures '0' <= c <= '9'
  {
    ('0' as int + d) as char
  }

  function DigitValue(c: char): nat
    requires '0' <= c <= '9'
  {
    c as int - '0' as int
  }

  /** `str(n)` for a natural number: its decimal digits, most significant first. */
  function NatStr(n: nat): string
    decreases n
  {
    if n < 10 then [DigitChar(n)] else NatStr(n / 10) + [DigitChar(n % 10)]
  }

  /** The number a string of decimal digits denotes. */
  function DigitsValue(s: string): nat
    requires IsDigits(s)
    decreases |s|
  {
    if s == [] then 0 else DigitsValue(s[..|s| - 1]) * 10 + DigitValue(s[|s| - 1])
  }

  /** `k` zero characters. */
  function Zeros(k: nat): (r: string)
    ensures |r| == k && IsDigits(r)
  {
    seq(k, _ => '0')
  }

  /** Left-pad with '0' up to `width` characters, as the `0` flag of a format
      width does; a longer string is left as it is. */
  function ZeroPad(s: string, width: nat): string
  {
    if |s| < width then Zeros(width - |s|) + s else s
  }

  /** `str(n)` is a non-empty digit string without a leading zero (except "0"
      itself) whose value is `n`. */
  lemma {:induction false} NatStrDigits(n: nat)
    ensures |NatStr(n)| >= 1 && IsDigits(NatStr(n))
    ensures DigitsValue(NatStr(n)) == n
    ensures n >= 1 ==> NatStr(n)[0] != '0'
    decreases n
  {
    var r := NatStr(n);
    if n >= 10 {
      NatStrDigits(n / 10);
      assert r[..|r| - 1] == NatStr(n / 10);
      assert IsDigits(r) by {
        forall i | 0 <= i < |r| ensures '0' <= r[i] <= '9' {
          if i < |r| - 1 { assert r[i] == NatStr(n / 10)[i]; }
        }
      }
      assert r[0] == NatStr(n / 10)[0];
    }
  }

  /** The width of `str(n)` by magnitude. */
  lemma NatStrLength(n: nat)
    ensures n < 10 ==> |NatStr(n)| == 1
    ensures 10 <= n < 100 ==> |NatStr(n)| == 2
    ensures 100 <= n < 1000 ==> |NatStr(n)| == 3
    ensures 1000 <= n < 10000 ==> |NatStr(n)| == 4
  {
  }

  /** Leading zeros do not change the value of a digit string. */
  lemma {:induction false} ValueIgnoresLeadingZeros(k: nat, s: string)
    requires IsDigits(s)
    ensures IsDigits(Zeros(k) + s)
    ensures DigitsValue(Zeros(k) + s) == DigitsValue(s)
    decreases |s|, k
  {
    var z := Zeros(k) + s;
    assert IsDigits(z) by {
      forall i | 0 <= i < |z| ensures '0' <= z[i] <= '9' {
        if i >= k { assert z[i] == s[i - k]; }
      }
    }
    if s == [] {
      assert z == Zeros(k);
      if k > 0 {
        assert z[..|z| - 1] == Zeros(k - 1) + [];
        ValueIgnoresLeadingZeros(k - 1, []);
      }
    } else {
      var init := s[..|s| - 1];
      assert IsDigits(init) by {
        forall i | 0 <= i < |init| ensures '0' <= init[i] <= '9' { assert init[i] == s[i]; }
      }
      assert z[..|z| - 1] == Zeros(k) + init;
      ValueIgnoresLeadingZeros(k, init);
    }
  }

  /** Zero-padding `str(n)` keeps a digit string whose value is still `n`:
      the padded rendering can be read back. */
  lemma ZeroPadValue(n: nat, width: nat)
    ensures IsDigits(ZeroPad(NatStr(n), width))
    ensures DigitsValue(ZeroPad(NatStr(n), width)) == n
    ensures |ZeroPad(NatStr(n), width)| >= width
  {
    NatStrDigits(n);
    if |NatStr(n)| < width {
      ValueIgnoresLeadingZeros(width - |NatStr(n)|, NatStr(n));
    }
  }

  /** Two naturals with the same zero-padded rendering are equal. */
  lemma ZeroPadInjective(m: nat, n: nat, width: nat)
    requires ZeroPad(NatStr(m), width) == ZeroPad(NatStr(n), width)
    ensures m == n
  {
    ZeroPadValue(m, width);
    ZeroPadValue(n, width);
  }
}
