/** String helpers the portal's handlers rely on: Python's `str.lower()` and
    `str.strip()`, and the SQL `LIKE` match the doctor search runs. */
module Text {

  type String = seq<char>

  predicate IsUpper(c: char) { 'A' <= c <= 'Z' }

  function LowerChar(c: char): (r: char)
    ensures IsUpper(c) ==> r as int == c as int + 32
    ensures !IsUpper(c) ==> r == c
    ensures !IsUpper(r)
  {
    if IsUpper(c) then (c as int + 32) as char else c
  }

  /** No upper-case letter occurs in `s`. */
  predicate IsLower(s: String) {
    forall i :: 0 <= i < |s| ==> !IsUpper(s[i])
  }

  /** `s.lower()`, for the ASCII letters. */
  function Lower(s: String): (r: String)
    ensures |r| == |s|
    ensures forall i :: 0 <= i < |s| ==> r[i] == LowerChar(s[i])
    ensures IsLower(r)
    ensures IsLower(s) ==> r == s
  {
    if s == [] then [] else [LowerChar(s[0])] + Lower(s[1..])
  }

  /** Python's `str.isspace()` for one character. */
  predicate IsSpace(c: char) {
    || ('\t' <= c <= '\r')
    || ('\U{1C}' <= c <= ' ')
    || c == '\U{85}' || c == '\U{A0}' || c == '\U{1680}'
    || ('\U{2000}' <= c <= '\U{200A}')
    || c == '\U{2028}' || c == '\U{2029}' || c == '\U{202F}' || c == '\U{205F}' || c == '\U{3000}'
  }

  /** The number of bytes of `s` in UTF-8. */
  function Utf8Size(s: String): (n: nat)
    ensures |s| <= n <= 4 * |s|
  {
    if s == [] then 0
    else
      var c := s[0] as int;
      (if c < 0x80 then 1 else if c < 0x800 then 2 else if c < 0x1_0000 then 3 else 4) + Utf8Size(s[1..])
  }

  /** ASCII text takes one byte per character. */
  lemma {:induction false} AsciiUtf8Size(s: String)
    requires forall i :: 0 <= i < |s| ==> s[i] as int < 0x80
    ensures Utf8Size(s) == |s|
  {
    if s != [] {
      AsciiUtf8Size(s[1..]);
    }
  }

  predicate IsBlank(s: String) {
    forall i :: 0 <= i < |s| ==> IsSpace(s[i])
  }

  function StripStart(s: String): (r: String)
    ensures |r| <= |s| && r == s[|s| - |r|..]
    ensures forall i :: 0 <= i < |s| - |r| ==> IsSpace(s[i])
    ensures r != [] ==> !IsSpace(r[0])
  {
    if s != [] && IsSpace(s[0]) then
      var r := StripStart(s[1..]);
      assert s[1..][|s| - 1 - |r|..] == s[|s| - |r|..];
      assert forall i :: 1 <= i < |s| ==> s[1..][i - 1] == s[i];
      r
    else
      s
  }

  function StripEnd(s: String): (r: String)
    ensures |r| <= |s| && r == s[..|r|]
    ensures forall i :: |r| <= i < |s| ==> IsSpace(s[i])
    ensures r != [] ==> !IsSpace(r[|r| - 1])
  {
    if s != [] && IsSpace(s[|s| - 1]) then
      var r := StripEnd(s[..|s| - 1]);
      assert s[..|s| - 1][..|r|] == s[..|r|];
      r
    else
      s
  }

  /** `s.strip()`: `s` without its leading and trailing white space. */
  function Strip(s: String): (r: String)
    ensures r != [] ==> !IsSpace(r[0]) && !IsSpace(r[|r| - 1])
    ensures |r| <= |s|
    ensures exists i, j :: 0 <= i <= j <= |s| && r == s[i..j] && IsBlank(s[..i]) && IsBlank(s[j..])
  {
    var t := StripStart(s);
    var r := StripEnd(t);
    BlankAround(s, t, r);
    r
  }

  /** A prefix `r` of a suffix `t` of `s`, with only white space cut off on
      either side, is the slice of `s` between two blank stretches. */
  lemma BlankAround(s: String, t: String, r: String)
    requires |t| <= |s| && t == s[|s| - |t|..]
    requires forall k :: 0 <= k < |s| - |t| ==> IsSpace(s[k])
    requires |r| <= |t| && r == t[..|r|]
    requires forall k :: |r| <= k < |t| ==> IsSpace(t[k])
    ensures var i := |s| - |t|; var j := i + |r|;
      && r == s[i..j] && IsBlank(s[..i]) && IsBlank(s[j..])
  {
    var i := |s| - |t|;
    var j := i + |r|;
    assert t[..|r|] == s[i..j];
    forall k | 0 <= k < i ensures IsSpace(s[..i][k]) {
      assert s[..i][k] == s[k];
    }
    forall k | 0 <= k < |s| - j ensures IsSpace(s[j..][k]) {
      assert s[j..][k] == t[|r| + k];
    }
  }

  /** Stripping leaves nothing exactly when `s` is all white space. */
  lemma StripBlank(s: String)
    ensures Strip(s) == [] <==> IsBlank(s)
  {
    var t := StripStart(s);
    if Strip(s) == [] {
      assert s[..|s|] == s;
    }
  }

  predicate IsPrefix(p: String, s: String) {
    |p| <= |s| && s[..|p|] == p
  }

  /** `q in s`: `q` occurs in `s` as a contiguous block. */
  predicate IsInfix(q: String, s: String) {
    exists i :: 0 <= i <= |s| && IsPrefix(q, s[i..])
  }

  /** SQL `s LIKE p` without an escape character: `%` matches any run of
      characters, `_` any one character, everything else itself. Both sides
      are lower-cased before the match, so case plays no part here. */
  predicate Like(s: String, p: String)
    decreases |s| + |p|
  {
    if p == [] then s == []
    else if p[0] == '%' then Like(s, p[1..]) || (s != [] && Like(s[1..], p))
    else s != [] && (p[0] == '_' || p[0] == s[0]) && Like(s[1..], p[1..])
  }

  predicate NoWildcards(q: String) {
    forall i :: 0 <= i < |q| ==> q[i] != '%' && q[i] != '_'
  }

  /** The pattern `f"%{q}%"` the doctor search builds. */
  function ContainsPattern(q: String): (p: String)
    ensures |p| == |q| + 2 && p[0] == '%' && p[|p| - 1] == '%'
    ensures p[1..|p| - 1] == q
  {
    ['%'] + q + ['%']
  }

  lemma {:induction false} LikeAnything(s: String)
    ensures Like(s, ['%'])
  {
    assert ['%'][1..] == [];
    if s != [] {
      LikeAnything(s[1..]);
    }
  }

  /** `s LIKE q || '%'` is a prefix test when `q` has no wildcard. */
  lemma {:induction false} LikePrefix(s: String, q: String)
    requires NoWildcards(q)
    ensures Like(s, q + ['%']) <==> IsPrefix(q, s)
  {
    if q == [] {
      assert q + ['%'] == ['%'];
      LikeAnything(s);
    } else {
      assert (q + ['%'])[0] == q[0];
      assert (q + ['%'])[1..] == q[1..] + ['%'];
      if s != [] {
        LikePrefix(s[1..], q[1..]);
        assert IsPrefix(q, s) <==> q[0] == s[0] && IsPrefix(q[1..], s[1..]) by {
          if q[0] == s[0] && IsPrefix(q[1..], s[1..]) {
            assert s[..|q|] == [s[0]] + s[1..][..|q| - 1];
            assert q == [q[0]] + q[1..];
          }
          if IsPrefix(q, s) {
            assert s[..|q|][0] == s[0];
            assert s[1..][..|q| - 1] == s[..|q|][1..];
          }
        }
      }
    }
  }

  /** A leading `%` lets the rest of the pattern start at any position. */
  lemma {:induction false} LikeLeadingRun(s: String, r: String)
    ensures Like(s, ['%'] + r) <==> exists i :: 0 <= i <= |s| && Like(s[i..], r)
  {
    var p := ['%'] + r;
    assert p[0] == '%' && p[1..] == r;
    assert s[0..] == s;
    if s != [] {
      LikeLeadingRun(s[1..], r);
      if exists i :: 0 <= i <= |s| && Like(s[i..], r) {
        var i :| 0 <= i <= |s| && Like(s[i..], r);
        if i > 0 {
          assert s[1..][i - 1..] == s[i..];
        }
      }
      if Like(s, p) && !Like(s, r) {
        var i :| 0 <= i <= |s| - 1 && Like(s[1..][i..], r);
        assert s[1..][i..] == s[i + 1..];
      }
    }
  }

  /** The search pattern matches exactly the strings that contain `q`, as
      long as `q` itself has no `%` or `_`. */
  lemma ContainsPatternMeansInfix(s: String, q: String)
    requires NoWildcards(q)
    ensures Like(s, ContainsPattern(q)) <==> IsInfix(q, s)
  {
    assert ContainsPattern(q) == ['%'] + (q + ['%']);
    LikeLeadingRun(s, q + ['%']);
    forall i | 0 <= i <= |s|
      ensures Like(s[i..], q + ['%']) <==> IsPrefix(q, s[i..])
    {
      LikePrefix(s[i..], q);
    }
  }
}
