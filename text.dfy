/** Python's `str.strip()` and `str.lower()` as used on cells and column names. */
module Strings {

  /** The characters Python's `str.isspace()` accepts, which `str.strip()` removes. */
  predicate IsSpace(c: char) {
    || c == ' ' || c == '\t' || c == '\n' || c == '\r'
    || c == '\U{B}' || c == '\U{C}'
    || ('\U{1C}' <= c <= '\U{1F}')
    || c == '\U{85}' || c == '\U{A0}' || c == '\U{1680}'
    || ('\U{2000}' <= c <= '\U{200A}')
    || c == '\U{2028}' || c == '\U{2029}' || c == '\U{202F}' || c == '\U{205F}' || c == '\U{3000}'
  }

  predicate AllSpace(s: string) {
    forall i :: 0 <= i < |s| ==> IsSpace(s[i])
  }

  /** Neither end of `s` is whitespace. */
  predicate IsTrimmed(s: string) {
    s != [] ==> !IsSpace(s[0]) && !IsSpace(s[|s| - 1])
  }

  function TrimLeft(s: string): (r: string)
    ensures |r| <= |s| && r == s[|s| - |r|..]
    ensures AllSpace(s[..|s| - |r|])
    ensures r != [] ==> !IsSpace(r[0])
  {
    if s != [] && IsSpace(s[0]) then TrimLeft(s[1..]) else s
  }

  function TrimRight(s: string): (r: string)
    ensures |r| <= |s| && r == s[..|r|]
    ensures AllSpace(s[|r|..])
    ensures r != [] ==> !IsSpace(r[|r| - 1])
  {
    if s != [] && IsSpace(s[|s| - 1]) then TrimRight(s[..|s| - 1]) else s
  }

  /** `str.strip()`: `s` is `r` with only whitespace added on either side, and `r` has none at its ends. */
  function Trim(s: string): (r: string)
    ensures IsTrimmed(r)
  {
    var l := TrimLeft(s);
    var r := TrimRight(l);
    assert l != [] && r != [] ==> r[0] == l[0];
    r
  }

  /** `t` sits in `s` at position `i` with only whitespace before and after it. */
  ghost predicate SurroundedAt(s: string, t: string, i: int) {
    0 <= i <= |s| - |t| && s[i..i + |t|] == t && AllSpace(s[..i]) && AllSpace(s[i + |t|..])
  }

  /** What stripping removes is whitespace on either side of the result. */
  lemma TrimInside(s: string)
    ensures exists i :: SurroundedAt(s, Trim(s), i)
  {
    var l := TrimLeft(s);
    var t := TrimRight(l);
    assert t == Trim(s);
    TrimWitness(s, l, t);
  }

  /** Stripping the left, then the right, leaves a stripped middle part of `s`. */
  lemma TrimWitness(s: string, l: string, r: string)
    requires |l| <= |s| && l == s[|s| - |l|..] && AllSpace(s[..|s| - |l|])
    requires |r| <= |l| && r == l[..|r|] && AllSpace(l[|r|..])
    ensures SurroundedAt(s, r, |s| - |l|)
  {
    var i := |s| - |l|;
    assert s[i..i + |r|] == r;
    assert s[i + |r|..] == l[|r|..];
  }

  /** Stripping removes exactly the surrounding whitespace: any split of `s` into whitespace, a
      trimmed core and whitespace has that core as its strip. */
  lemma {:induction false} TrimSplit(p: string, core: string, q: string)
    requires AllSpace(p) && AllSpace(q) && IsTrimmed(core)
    ensures Trim(p + core + q) == core
  {
    assert p + core + q == p + (core + q);
    if core == [] {
      assert AllSpace(p + q);
      TrimLeftAll(p + q);
    } else {
      TrimLeftSplit(p, core + q);
      TrimRightSplit(core, q);
    }
  }

  lemma {:induction false} TrimLeftAll(s: string)
    requires AllSpace(s)
    ensures TrimLeft(s) == []
  {
    if s != [] {
      TrimLeftAll(s[1..]);
    }
  }

  lemma {:induction false} TrimLeftSplit(p: string, t: string)
    requires AllSpace(p) && (t != [] ==> !IsSpace(t[0]))
    ensures TrimLeft(p + t) == t
  {
    if p != [] {
      assert (p + t)[1..] == p[1..] + t;
      TrimLeftSplit(p[1..], t);
    }
  }

  lemma {:induction false} TrimRightSplit(t: string, q: string)
    requires AllSpace(q) && (t != [] ==> !IsSpace(t[|t| - 1]))
    ensures TrimRight(t + q) == t
  {
    if q != [] {
      assert (t + q)[..|t + q| - 1] == t + q[..|q| - 1];
      TrimRightSplit(t, q[..|q| - 1]);
    } else {
      assert t + q == t;
    }
  }

  /** Stripping a stripped string changes nothing. */
  lemma TrimIdempotent(s: string)
    ensures Trim(Trim(s)) == Trim(s)
  {
    var r := Trim(s);
    assert [] + r + [] == r;
    TrimSplit([], r, []);
  }

  predicate IsUpper(c: char) {
    'A' <= c <= 'Z'
  }

  /** `str.lower()` on one character: an ASCII capital becomes its small letter, anything else is kept. */
  function LowerChar(c: char): (d: char)
    ensures !IsUpper(d)
    ensures IsUpper(c) ==> d == (c as int + 32) as char && 'a' <= d <= 'z'
    ensures !IsUpper(c) ==> d == c
    ensures IsSpace(d) == IsSpace(c)
  {
    if IsUpper(c) then (c as int + 32) as char else c
  }

  /** `str.lower()` on the ASCII letters: same length, no upper-case letter left, other characters kept. */
  function Lower(s: string): (r: string)
    ensures |r| == |s|
    ensures forall i :: 0 <= i < |r| ==> !IsUpper(r[i])
    ensures forall i :: 0 <= i < |s| && !IsUpper(s[i]) ==> r[i] == s[i]
    ensures forall i :: 0 <= i < |s| ==> IsSpace(r[i]) == IsSpace(s[i])
    ensures forall i :: 0 <= i < |s| ==> r[i] == LowerChar(s[i])
  {
    if s == [] then [] else [LowerChar(s[0])] + Lower(s[1..])
  }

  /** Lower-casing keeps a stripped string stripped, so strip-then-lower leaves no surrounding space. */
  lemma LowerKeepsTrimmed(s: string)
    requires IsTrimmed(s)
    ensures IsTrimmed(Lower(s))
  {
  }

  /** Lower-casing works character by character, so it distributes over concatenation. */
  lemma LowerConcat(a: string, b: string)
    ensures Lower(a + b) == Lower(a) + Lower(b)
  {
  }

  /** Stripping and lower-casing commute: lower-casing keeps whitespace where it is. */
  lemma LowerTrimCommute(s: string)
    ensures Lower(Trim(s)) == Trim(Lower(s))
  {
    var l := TrimLeft(s);
    var t := TrimRight(l);
    assert t == Trim(s);
    TrimParts(s, l, t);
    LowerAround(s[..|s| - |l|], t, l[|t|..]);
  }

  /** Stripping the left and then the right cuts `s` into whitespace, the result and whitespace. */
  lemma TrimParts(s: string, l: string, t: string)
    requires |l| <= |s| && l == s[|s| - |l|..]
    requires |t| <= |l| && t == l[..|t|]
    ensures s == s[..|s| - |l|] + t + l[|t|..]
  {
    assert l == t + l[|t|..];
    assert s == s[..|s| - |l|] + l;
  }

  /** Lower-casing a stripped core with whitespace around it and stripping gives the lower-cased core. */
  lemma LowerAround(p: string, t: string, q: string)
    requires AllSpace(p) && AllSpace(q) && IsTrimmed(t)
    ensures Trim(Lower(p + t + q)) == Lower(t)
  {
    LowerConcat(p + t, q);
    LowerConcat(p, t);
    LowerAllSpace(p);
    LowerAllSpace(q);
    LowerKeepsTrimmed(t);
    TrimSplit(Lower(p), Lower(t), Lower(q));
  }

  lemma LowerAllSpace(s: string)
    requires AllSpace(s)
    ensures AllSpace(Lower(s))
  {
  }
}
