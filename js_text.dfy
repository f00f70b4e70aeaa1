/**
 * JavaScript's `String.prototype.trim`: strips the white space and line
 * terminator characters of section 12.2 and 12.3 of ECMA-262 from both ends.
 */
module JsText {

  /** WhiteSpace or LineTerminator code points, as ECMA-262 lists them. */
  predicate IsSpace(c: char)
  {
    var n := c as int;
    n == 0x09 || n == 0x0A || n == 0x0B || n == 0x0C || n == 0x0D || n == 0x20
    || n == 0xA0 || n == 0x1680 || (0x2000 <= n <= 0x200A)
    || n == 0x2028 || n == 0x2029 || n == 0x202F || n == 0x205F
    || n == 0x3000 || n == 0xFEFF
  }

  predicate AllSpace(s: string)
  {
    forall k :: 0 <= k < |s| ==> IsSpace(s[k])
  }

  /** No white space at either end. */
  predicate Tight(s: string)
  {
    s == [] || (!IsSpace(s[0]) && !IsSpace(s[|s| - 1]))
  }

  function TrimStart(s: string): (r: string)
    ensures |r| <= |s| && r == s[|s| - |r|..]
    ensures AllSpace(s[..|s| - |r|])
    ensures r == [] || !IsSpace(r[0])
  {
    if s != [] && IsSpace(s[0]) then TrimStart(s[1..]) else s
  }

  function TrimEnd(s: string): (r: string)
    ensures |r| <= |s| && r == s[..|r|]
    ensures AllSpace(s[|r|..])
    ensures r == [] || !IsSpace(r[|r| - 1])
  {
    if s != [] && IsSpace(s[|s| - 1]) then TrimEnd(s[..|s| - 1]) else s
  }

  /** `s.trim()`: the slice of `s` left once the white space around it is cut. */
  function Trim(s: string): (r: string)
    ensures Tight(r)
    ensures exists i, j :: 0 <= i <= j <= |s| && r == s[i..j] && AllSpace(s[..i]) && AllSpace(s[j..])
  {
    var t := TrimStart(s);
    var r := TrimEnd(t);
    var i := |s| - |t|;
    assert r == s[i..i + |r|];
    assert AllSpace(s[i + |r|..]) by { assert s[i + |r|..] == t[|r|..]; }
    r
  }

  lemma {:induction false} TrimStartSkips(p: string, x: string)
    requires AllSpace(p)
    requires x == [] || !IsSpace(x[0])
    ensures TrimStart(p + x) == x
  {
    if p != [] {
      assert (p + x)[1..] == p[1..] + x;
      TrimStartSkips(p[1..], x);
    } else {
      assert p + x == x;
    }
  }

  lemma {:induction false} TrimEndSkips(x: string, p: string)
    requires AllSpace(p)
    requires x == [] || !IsSpace(x[|x| - 1])
    ensures TrimEnd(x + p) == x
  {
    if p != [] {
      assert (x + p)[..|x + p| - 1] == x + p[..|p| - 1];
      TrimEndSkips(x, p[..|p| - 1]);
    } else {
      assert x + p == x;
    }
  }

  /** Trimming gives back exactly the tight core of any padded string. */
  lemma TrimPadded(p1: string, t: string, p2: string)
    requires AllSpace(p1) && AllSpace(p2) && Tight(t)
    ensures Trim(p1 + t + p2) == t
  {
    assert p1 + t + p2 == p1 + (t + p2);
    if t == [] {
      assert AllSpace(p1 + p2);
      assert p1 + t + p2 == (p1 + p2) + [];
      TrimStartSkips(p1 + p2, []);
    } else {
      TrimStartSkips(p1, t + p2);
      TrimEndSkips(t, p2);
    }
  }
}
