/** String operations the controllers rely on: Ruby's `gsub` with a literal
    pattern, the `/\d+/` match, `String#to_i` and `blank?`. */
module Text {

  import opened CmsTypes

  predicate StartsWith(t: string, p: string) {
    |p| <= |t| && t[..|p|] == p
  }

  /** `p` occurs somewhere in `t`. */
  predicate Occurs(p: string, t: string) {
    exists i :: 0 <= i <= |t| && StartsWith(t[i..], p)
  }

  /** Ruby's `t.gsub(p, r)` for a literal, non-empty pattern: scan from the left,
      replace each match and resume after it. */
  function Gsub(s: string, p: string, r: string): string
    requires |p| > 0
    decreases |s|
  {
    if |s| == 0 then ""
    else if StartsWith(s, p) then r + Gsub(s[|p|..], p, r)
    else [s[0]] + Gsub(s[1..], p, r)
  }

  /** The replacement cannot take part in a new occurrence of the pattern: it
      holds no occurrence, no tail of it starts the pattern, it does not start
      with a proper tail of the pattern, and it is not a strict infix of it. */
  predicate NoOverlap(r: string, p: string) {
    && !Occurs(p, r)
    && (forall j :: 0 <= j < |r| && |r| - j < |p| ==> !StartsWith(p, r[j..]))
    && (forall k :: 0 < k < |p| ==> !StartsWith(r, p[k..]))
    && (forall k :: 0 < k && k + |r| < |p| ==> !StartsWith(p[k..], r))
  }

  lemma StartsWithSlice(t: string, i: nat, p: string)
    requires i <= |t|
    ensures StartsWith(t[i..], p) <==> (i + |p| <= |t| && t[i..i + |p|] == p)
  {
    if i + |p| <= |t| {
      assert t[i..][..|p|] == t[i..i + |p|];
    }
  }

  /** A string that does not hold the pattern comes back unchanged. */
  lemma {:induction false} GsubWithoutMatch(s: string, p: string, r: string)
    requires |p| > 0 && !Occurs(p, s)
    ensures Gsub(s, p, r) == s
  {
    if |s| > 0 {
      assert s[0..] == s;
      assert !StartsWith(s, p);
      forall i | 0 <= i <= |s[1..]|
        ensures !StartsWith(s[1..][i..], p)
      {
        assert s[1..][i..] == s[i + 1..];
      }
      GsubWithoutMatch(s[1..], p, r);
      assert [s[0]] + s[1..] == s;
    }
  }

  /** A string shorter than the pattern cannot hold it. */
  lemma GsubShort(s: string, p: string, r: string)
    requires 0 < |p| && |s| < |p|
    ensures !Occurs(p, s) && Gsub(s, p, r) == s
  {
    GsubWithoutMatch(s, p, r);
  }

  /** Two strings whose first `m` characters differ do not start alike. */
  lemma PrefixMismatch(t: string, p: string, m: nat)
    requires m <= |p| && m <= |t| && t[..m] != p[..m]
    ensures !StartsWith(t, p)
  {
    if |p| <= |t| {
      assert t[..|p|][..m] == t[..m];
    }
  }

  /** A helper for GsubLeavesNoMatch: if `t` does not begin with the tail
      `p[k..]` of the pattern, neither does its rewriting. */
  lemma {:induction false} GsubKeepsHeadClear(t: string, p: string, r: string, k: nat)
    requires 0 < k < |p| && NoOverlap(r, p)
    requires !StartsWith(t, p[k..])
    ensures !StartsWith(Gsub(t, p, r), p[k..])
    decreases |t|
  {
    var w := p[k..];
    var g := Gsub(t, p, r);
    if |t| == 0 {
    } else if StartsWith(t, p) {
      var rest := Gsub(t[|p|..], p, r);
      assert g == r + rest;
      if |r| >= |w| {
        assert !StartsWith(r, w);
        assert g[..|w|] == r[..|w|];
        PrefixMismatch(g, w, |w|);
      } else {
        assert !StartsWith(p[k..], r);
        assert g[..|r|] == r;
        PrefixMismatch(g, w, |r|);
      }
    } else {
      var rest := Gsub(t[1..], p, r);
      assert g == [t[0]] + rest;
      assert g[..1] == t[..1] == [t[0]];
      if t[0] != w[0] {
        PrefixMismatch(g, w, 1);
      } else if k + 1 == |p| {
        assert |w| == 1;
      } else {
        var w' := p[k + 1..];
        assert w == [w[0]] + w';
        if |w| <= |t| {
          assert t[..|w|] == [t[0]] + t[1..][..|w'|];
        }
        GsubKeepsHeadClear(t[1..], p, r, k + 1);
        if |w| <= |g| {
          assert g[..|w|] == [t[0]] + rest[..|w'|];
        }
      }
    }
  }

  /** After `gsub`, the pattern no longer occurs, provided that the
      replacement cannot recreate it across a boundary. */
  lemma {:induction false} GsubLeavesNoMatch(s: string, p: string, r: string)
    requires |p| > 0 && NoOverlap(r, p)
    ensures !Occurs(p, Gsub(s, p, r))
    decreases |s|
  {
    var g := Gsub(s, p, r);
    if |s| == 0 {
      assert g == "";
    } else if StartsWith(s, p) {
      var rest := Gsub(s[|p|..], p, r);
      GsubLeavesNoMatch(s[|p|..], p, r);
      assert g == r + rest;
      forall i | 0 <= i <= |g|
        ensures !StartsWith(g[i..], p)
      {
        if i >= |r| {
          assert g[i..] == rest[i - |r|..];
        } else if i + |p| <= |r| {
          assert !StartsWith(r[i..], p);
          StartsWithSlice(g, i, p);
          StartsWithSlice(r, i, p);
          assert g[i..i + |p|] == r[i..i + |p|];
        } else {
          assert !StartsWith(p, r[i..]);
          assert g[i..][..|r| - i] == r[i..];
          PrefixMismatch(g[i..], p, |r| - i);
        }
      }
    } else {
      var rest := Gsub(s[1..], p, r);
      GsubLeavesNoMatch(s[1..], p, r);
      assert g == [s[0]] + rest;
      forall i | 0 <= i <= |g|
        ensures !StartsWith(g[i..], p)
      {
        if i >= 1 {
          assert g[i..] == rest[i - 1..];
        } else {
          assert g[0..] == g;
          assert g[..1] == s[..1] == [s[0]];
          if s[0] != p[0] {
            PrefixMismatch(g, p, 1);
          } else if |p| == 1 {
          } else {
            var w := p[1..];
            assert p == [p[0]] + w;
            if |p| <= |s| {
              assert s[..|p|] == [s[0]] + s[1..][..|w|];
            }
            GsubKeepsHeadClear(s[1..], p, r, 1);
            if |p| <= |g| {
              assert g[..|p|] == [s[0]] + rest[..|w|];
            }
          }
        }
      }
    }
  }

  predicate IsDigit(c: char) {
    '0' <= c <= '9'
  }

  /** Ruby's `s.match(/\d+/)` succeeds: the pattern is not anchored, so one
      digit anywhere is enough. */
  function MatchesDigits(s: string): (m: bool)
    ensures m <==> exists i :: 0 <= i < |s| && IsDigit(s[i])
  {
    if |s| == 0 then false
    else if IsDigit(s[0]) then true
    else
      assert forall i :: 0 < i < |s| ==> s[i] == s[1..][i - 1];
      MatchesDigits(s[1..])
  }

  function DigitsValue(s: string): (v: nat)
    requires forall i :: 0 <= i < |s| ==> IsDigit(s[i])
  {
    if |s| == 0 then 0
    else
      assert IsDigit(s[|s| - 1]);
      DigitsValue(s[..|s| - 1]) * 10 + (s[|s| - 1] as int - '0' as int)
  }

  /** The digits `to_i` reads from the start of `s`: a run of digits in which
      a single underscore may stand between two digits and is skipped. */
  function LeadingDigits(s: string): (d: string)
    ensures |d| <= |s|
    ensures forall i :: 0 <= i < |d| ==> IsDigit(d[i])
    ensures |d| > 0 <==> |s| > 0 && IsDigit(s[0])
    ensures (forall i :: 0 <= i < |s| ==> s[i] != '_') ==>
      d == s[..|d|] && (|d| < |s| ==> !IsDigit(s[|d|]))
  {
    if |s| == 0 || !IsDigit(s[0]) then ""
    else if |s| >= 3 && s[1] == '_' && IsDigit(s[2]) then [s[0]] + LeadingDigits(s[2..])
    else
      assert forall i :: 0 <= i < |s[1..]| ==> s[1..][i] == s[i + 1];
      [s[0]] + LeadingDigits(s[1..])
  }

  /** A non-empty string made of digits only: what an anchored `/\A\d+\z/`
      accepts. */
  predicate AllDigits(s: string) {
    |s| > 0 && forall i :: 0 <= i < |s| ==> IsDigit(s[i])
  }

  /** A string of digits is read by `to_i` in full. */
  lemma {:induction false} LeadingDigitsOfDigits(s: string)
    requires forall i :: 0 <= i < |s| ==> IsDigit(s[i])
    ensures LeadingDigits(s) == s
  {
    if |s| > 0 {
      assert forall i :: 0 <= i < |s[1..]| ==> s[1..][i] == s[i + 1];
      LeadingDigitsOfDigits(s[1..]);
      assert [s[0]] + s[1..] == s;
    }
  }

  /** Ruby's `String#to_i` on a string with no sign and no leading blanks: the
      value of the digits it reads, 0 when it starts with anything else. */
  function ToI(s: string): nat {
    DigitsValue(LeadingDigits(s))
  }

  /** `to_i` skips one underscore between digits, but stops at a second one
      and at a trailing one. */
  lemma ToIUnderscores()
    ensures ToI("1_2") == 12 && ToI("1__2") == 1 && ToI("12_") == 12
  {
    assert LeadingDigits("2") == "2";
    assert LeadingDigits("1_2") == "12";
    assert LeadingDigits("__2") == "";
    assert LeadingDigits("1__2") == "1";
    assert LeadingDigits("_") == "";
    assert LeadingDigits("2_") == "2";
    assert LeadingDigits("12_") == "12";
    assert DigitsValue("1") == 1;
  }

  predicate IsBlankChar(c: char) {
    c == ' ' || c == '\t' || c == '\n' || c == '\r' || c == '\U{0B}' || c == '\U{0C}'
  }

  /** Ruby's `blank?` on an optional string parameter: missing, empty or
      made of white space only. */
  predicate Blank(s: Option<string>) {
    s.None? || forall i :: 0 <= i < |s.value| ==> IsBlankChar(s.value[i])
  }
}
