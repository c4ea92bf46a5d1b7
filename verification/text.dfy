/** String helpers the progress bar relies on: Go's strings.Repeat,
    strings.ReplaceAll and the decimal formatting of fmt's %d verb,
    over strings modelled as sequences of characters. */
module Text {

  /** `w` is a prefix of `s`. */
  predicate IsPrefix(w: string, s: string) {
    |w| <= |s| && s[..|w|] == w
  }

  /** `w` occurs somewhere in `s` (as Go's strings.Contains). */
  predicate Contains(s: string, w: string)
    decreases |s|
  {
    IsPrefix(w, s) || (|s| > 0 && Contains(s[1..], w))
  }

  /** No character of `a` appears in `b`. */
  predicate Disjoint(a: string, b: string) {
    forall i, j :: 0 <= i < |a| && 0 <= j < |b| ==> a[i] != b[j]
  }

  /** strings.Repeat(string(c), n); Go panics on a negative count. */
  function Repeat(c: char, n: nat): (r: string)
    ensures |r| == n
    ensures forall i :: 0 <= i < n ==> r[i] == c
  {
    if n == 0 then [] else [c] + Repeat(c, n - 1)
  }

  /** strings.ReplaceAll(s, pat, rep) for a non-empty pattern `pat`: scans `s` from
      the left and replaces each non-overlapping occurrence of `pat`. */
  function ReplaceAll(s: string, pat: string, rep: string): string
    requires |pat| > 0
    decreases |s|
  {
    if s == [] then []
    else if IsPrefix(pat, s) then rep + ReplaceAll(s[|pat|..], pat, rep)
    else [s[0]] + ReplaceAll(s[1..], pat, rep)
  }

  /** A text in which `pat` does not occur is left as it is. */
  lemma {:induction false} ReplaceAllNoMatch(s: string, pat: string, rep: string)
    requires |pat| > 0
    requires !Contains(s, pat)
    ensures ReplaceAll(s, pat, rep) == s
  {
    if s != [] {
      ReplaceAllNoMatch(s[1..], pat, rep);
    }
  }

  /** When the replacement shares no character with `w`, a prefix `w` of the
      output was already a prefix of the input. */
  lemma {:induction false} PrefixOfReplaced(s: string, pat: string, rep: string, w: string)
    requires |pat| > 0 && |rep| > 0
    requires Disjoint(w, rep)
    requires IsPrefix(w, ReplaceAll(s, pat, rep))
    ensures IsPrefix(w, s)
  {
    if w != [] && s != [] {
      var r := ReplaceAll(s, pat, rep);
      assert w[0] == r[0] && w[0] != rep[0];
      // so the output did not start with the replacement
      assert !IsPrefix(pat, s);
      var rest := ReplaceAll(s[1..], pat, rep);
      assert r == [s[0]] + rest;
      assert IsPrefix(w[1..], rest) by {
        assert rest[..|w| - 1] == r[1..|w|];
      }
      PrefixOfReplaced(s[1..], pat, rep, w[1..]);
      assert s[..|w|] == [s[0]] + s[1..][..|w| - 1];
    }
  }

  /** When the replacement shares no character with `w`, ReplaceAll cannot
      create an occurrence of `w` that was not in the input. */
  lemma {:induction false} ReplaceAllKeepsAbsent(s: string, pat: string, rep: string, w: string)
    requires |pat| > 0 && |rep| > 0 && |w| > 0
    requires Disjoint(w, rep)
    requires !Contains(s, w)
    ensures !Contains(ReplaceAll(s, pat, rep), w)
  {
    if s != [] {
      var r := ReplaceAll(s, pat, rep);
      if IsPrefix(pat, s) {
        NotContainsSuffix(s, |pat|, w);
        ReplaceAllKeepsAbsent(s[|pat|..], pat, rep, w);
        NoMatchAcross(rep, ReplaceAll(s[|pat|..], pat, rep), w);
      } else {
        ReplaceAllKeepsAbsent(s[1..], pat, rep, w);
        if IsPrefix(w, r) {
          PrefixOfReplaced(s, pat, rep, w);
          assert false;
        }
      }
    }
  }

  /** After ReplaceAll with a replacement that shares no character with
      `pat`, `pat` no longer occurs. */
  lemma {:induction false} ReplaceAllRemoves(s: string, pat: string, rep: string)
    requires |pat| > 0 && |rep| > 0
    requires Disjoint(pat, rep)
    ensures !Contains(ReplaceAll(s, pat, rep), pat)
  {
    if s != [] {
      var r := ReplaceAll(s, pat, rep);
      if IsPrefix(pat, s) {
        ReplaceAllRemoves(s[|pat|..], pat, rep);
        NoMatchAcross(rep, ReplaceAll(s[|pat|..], pat, rep), pat);
      } else {
        ReplaceAllRemoves(s[1..], pat, rep);
        if IsPrefix(pat, r) {
          PrefixOfReplaced(s, pat, rep, pat);
          assert false;
        }
      }
    }
  }

  /** A leading piece that never holds the first character of the pattern
      is copied through unchanged. */
  lemma {:induction false} ReplaceAllSkip(a: string, y: string, pat: string, rep: string)
    requires |pat| > 0
    requires forall i :: 0 <= i < |a| ==> a[i] != pat[0]
    ensures ReplaceAll(a + y, pat, rep) == a + ReplaceAll(y, pat, rep)
  {
    if a != [] {
      assert (a + y)[0] == a[0] != pat[0];
      assert (a + y)[1..] == a[1..] + y;
      ReplaceAllSkip(a[1..], y, pat, rep);
    } else {
      assert a + y == y;
    }
  }

  /** A suffix of a text without `w` has no `w` either. */
  lemma {:induction false} NotContainsSuffix(s: string, k: nat, w: string)
    requires k <= |s|
    requires !Contains(s, w)
    ensures !Contains(s[k..], w)
  {
    if k > 0 {
      assert s[1..][k - 1..] == s[k..];
      NotContainsSuffix(s[1..], k - 1, w);
    }
  }

  /** A non-empty `w` sharing no character with the non-empty `a` occurs in
      `a + b` only if it occurs in `b`. */
  lemma {:induction false} NoMatchAcross(a: string, b: string, w: string)
    requires |w| > 0 && Disjoint(w, a)
    requires !Contains(b, w)
    ensures !Contains(a + b, w)
  {
    if a == [] {
      assert a + b == b;
    } else {
      assert (a + b)[0] == a[0] != w[0];
      assert (a + b)[1..] == a[1..] + b;
      NoMatchAcross(a[1..], b, w);
    }
  }

  /** The decimal digit of 0 <= d < 10. */
  function Digit(d: int): (c: char)
    requires 0 <= d < 10
    ensures '0' <= c <= '9'
  {
    "0123456789"[d]
  }

  /** fmt's %d: base-10 digits, with a leading '-' for a negative value. */
  function Decimal(n: int): (r: string)
    ensures |r| > 0
    ensures n < 0 ==> |r| > 1 && r[0] == '-' && forall i :: 1 <= i < |r| ==> '0' <= r[i] <= '9'
    ensures n >= 0 ==> forall i :: 0 <= i < |r| ==> '0' <= r[i] <= '9'
    decreases if n < 0 then 1 - n else n
  {
    if n < 0 then "-" + Decimal(-n)
    else if n < 10 then [Digit(n)]
    else Decimal(n / 10) + [Digit(n % 10)]
  }

  /** Reads a string of decimal digits back as a number. */
  function ParseDigits(s: string): int
  {
    if s == [] then 0
    else ParseDigits(s[..|s| - 1]) * 10 + DigitValue(s[|s| - 1])
  }

  function DigitValue(c: char): int {
    if '0' <= c <= '9' then c as int - '0' as int else 0
  }

  /** The digits printed for a non-negative value read back as that value,
      and they are never empty and never start with a superfluous zero. */
  lemma {:induction false} DecimalRoundTrip(n: nat)
    ensures |Decimal(n)| > 0
    ensures forall i :: 0 <= i < |Decimal(n)| ==> '0' <= Decimal(n)[i] <= '9'
    ensures ParseDigits(Decimal(n)) == n
    ensures n < 10 ==> |Decimal(n)| == 1
    ensures |Decimal(n)| > 1 ==> Decimal(n)[0] != '0'
  {
    if n >= 10 {
      DecimalRoundTrip(n / 10);
      var d := Decimal(n);
      assert d[..|d| - 1] == Decimal(n / 10);
    }
  }
}
