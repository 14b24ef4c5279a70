/** `String.prototype.trim` of ECMA-262: it removes every leading and trailing code point that
    is WhiteSpace (section "White Space") or a LineTerminator (section "Line Terminators"). */
module Text {

  /** WhiteSpace: TAB, VT, FF, ZWNBSP and every code point of general category Zs. */
  const WhiteSpace: set<char> := {
    '\U{9}', '\U{B}', '\U{C}', '\U{FEFF}', ' ', '\U{A0}', '\U{1680}',
    '\U{2000}', '\U{2001}', '\U{2002}', '\U{2003}', '\U{2004}', '\U{2005}', '\U{2006}',
    '\U{2007}', '\U{2008}', '\U{2009}', '\U{200A}',
    '\U{202F}', '\U{205F}', '\U{3000}'
  }

  /** LineTerminator: LF, CR, LINE SEPARATOR and PARAGRAPH SEPARATOR. */
  const LineTerminators: set<char> := {'\n', '\r', '\U{2028}', '\U{2029}'}

  /** The code points that `trim` removes. */
  predicate IsTrimmable(c: char) {
    c in WhiteSpace || c in LineTerminators
  }

  predicate AllTrimmable(s: string) {
    forall i :: 0 <= i < |s| ==> IsTrimmable(s[i])
  }

  /** A string that neither starts nor ends with a trimmable code point. */
  predicate IsTrimmed(s: string) {
    s == [] || (!IsTrimmable(s[0]) && !IsTrimmable(s[|s| - 1]))
  }

  /** Removes the leading trimmable code points: the result is the longest suffix of `s`
      that does not start with one. */
  function TrimStart(s: string): (r: string)
    ensures |r| <= |s| && r == s[|s| - |r|..]
    ensures forall i :: 0 <= i < |s| - |r| ==> IsTrimmable(s[i])
    ensures r == [] || !IsTrimmable(r[0])
  {
    if |s| > 0 && IsTrimmable(s[0]) then
      var r := TrimStart(s[1..]);
      assert forall i :: 0 < i < |s| ==> s[i] == s[1..][i - 1];
      r
    else
      s
  }

  /** Removes the trailing trimmable code points: the result is the longest prefix of `s`
      that does not end with one. */
  function TrimEnd(s: string): (r: string)
    ensures |r| <= |s| && r == s[..|r|]
    ensures forall i :: |r| <= i < |s| ==> IsTrimmable(s[i])
    ensures r == [] || !IsTrimmable(r[|r| - 1])
  {
    if |s| > 0 && IsTrimmable(s[|s| - 1]) then
      var r := TrimEnd(s[..|s| - 1]);
      assert forall i :: 0 <= i < |s| - 1 ==> s[i] == s[..|s| - 1][i];
      r
    else
      s
  }

  /** `String.prototype.trim`. */
  function Trim(s: string): (r: string)
    ensures IsTrimmed(r)
  {
    var t := TrimStart(s);
    var r := TrimEnd(t);
    assert r == [] || r[0] == t[0];
    r
  }

  /** What `trim` removes: `s` is trimmable code points, then `Trim(s)`, then trimmable code
      points again. */
  lemma TrimSplits(s: string) returns (p: string, q: string)
    ensures AllTrimmable(p) && AllTrimmable(q) && s == p + Trim(s) + q
  {
    var t := TrimStart(s);
    var r := TrimEnd(t);
    p, q := s[..|s| - |t|], t[|r|..];
    LeadingTrimmable(s);
    TrailingTrimmable(t);
    Regroup(s, p, t, r, q);
  }

  /** What TrimStart cuts off is a run of trimmable code points. */
  lemma LeadingTrimmable(s: string)
    ensures AllTrimmable(s[..|s| - |TrimStart(s)|])
  {
    var p := s[..|s| - |TrimStart(s)|];
    assert forall i :: 0 <= i < |p| ==> p[i] == s[i];
  }

  /** What TrimEnd cuts off is a run of trimmable code points. */
  lemma TrailingTrimmable(t: string)
    ensures AllTrimmable(t[|TrimEnd(t)|..])
  {
    var k := |TrimEnd(t)|;
    assert forall i :: 0 <= i < |t| - k ==> t[k..][i] == t[k + i];
  }

  /** Cutting `s` before its suffix `t` and `t` after its prefix `r` leaves three parts. */
  lemma Regroup(s: string, p: string, t: string, r: string, q: string)
    requires |t| <= |s| && t == s[|s| - |t|..] && p == s[..|s| - |t|]
    requires |r| <= |t| && r == t[..|r|] && q == t[|r|..]
    ensures s == p + r + q
  {
    assert s == p + t;
    assert t == r + q;
    assert p + (r + q) == p + r + q;
  }

  /** Leading trimmable code points are exactly what TrimStart removes. */
  lemma {:induction false} TrimStartStops(p: string, r: string)
    requires AllTrimmable(p)
    requires r == [] || !IsTrimmable(r[0])
    ensures TrimStart(p + r) == r
  {
    if p != [] {
      assert (p + r)[1..] == p[1..] + r;
      TrimStartStops(p[1..], r);
    }
  }

  /** Trailing trimmable code points are exactly what TrimEnd removes. */
  lemma {:induction false} TrimEndStops(r: string, q: string)
    requires AllTrimmable(q)
    requires r == [] || !IsTrimmable(r[|r| - 1])
    ensures TrimEnd(r + q) == r
  {
    if q != [] {
      assert (r + q)[..|r + q| - 1] == r + q[..|q| - 1];
      TrimEndStops(r, q[..|q| - 1]);
    }
  }

  /** A string made of trimmable code points around an already trimmed middle trims to that
      middle: with TrimSplits this makes `Trim(s)` the unique such middle. */
  lemma TrimUnique(p: string, t: string, q: string)
    requires AllTrimmable(p) && AllTrimmable(q) && IsTrimmed(t)
    ensures Trim(p + t + q) == t
  {
    if t == [] {
      assert p + t + q == (p + q) + [];
      assert AllTrimmable(p + q);
      TrimStartStops(p + q, []);
    } else {
      assert p + t + q == p + (t + q);
      TrimStartStops(p, t + q);
      TrimEndStops(t, q);
    }
  }

  /** Trimming twice is trimming once. */
  lemma TrimIdempotent(s: string)
    ensures Trim(Trim(s)) == Trim(s)
  {
    TrimUnique([], Trim(s), []);
    assert [] + Trim(s) + [] == Trim(s);
  }
}
