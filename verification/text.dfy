/** The JavaScript string operations the application relies on:
    `trim`, `toLowerCase`, `split(sep)[0]` and the UTF-16 `length`. */
module Text {

  /** The ECMAScript WhiteSpace and LineTerminator code points: exactly the
      characters `String.prototype.trim` removes from either end. */
  predicate IsJsWhitespace(c: char)
  {
    || c == '\t' || c == '\n' || c == '\U{000B}' || c == '\U{000C}' || c == '\r'
    || c == ' ' || c == '\U{00A0}' || c == '\U{1680}'
    || ('\U{2000}' <= c <= '\U{200A}')
    || c == '\U{2028}' || c == '\U{2029}' || c == '\U{202F}' || c == '\U{205F}'
    || c == '\U{3000}' || c == '\U{FEFF}'
  }

  predicate AllWhitespace(s: string)
  {
    forall i :: 0 <= i < |s| ==> IsJsWhitespace(s[i])
  }

  /** Neither end of `s` is whitespace: what `trim` leaves behind. */
  predicate Trimmed(s: string)
  {
    s == [] || (!IsJsWhitespace(s[0]) && !IsJsWhitespace(s[|s| - 1]))
  }

  /** Drops the leading whitespace of `s`. */
  function TrimStart(s: string): (r: string)
    ensures |r| <= |s| && r == s[|s| - |r|..]
    ensures forall i :: 0 <= i < |s| - |r| ==> IsJsWhitespace(s[i])
    ensures r == [] || !IsJsWhitespace(r[0])
  {
    if |s| > 0 && IsJsWhitespace(s[0]) then TrimStart(s[1..]) else s
  }

  /** Drops the trailing whitespace of `s`. */
  function TrimEnd(s: string): (r: string)
    ensures |r| <= |s| && r == s[..|r|]
    ensures forall i :: |r| <= i < |s| ==> IsJsWhitespace(s[i])
    ensures r == [] || !IsJsWhitespace(r[|r| - 1])
  {
    if |s| > 0 && IsJsWhitespace(s[|s| - 1]) then TrimEnd(s[..|s| - 1]) else s
  }

  /** `String.prototype.trim`: `s` is the trimmed result with whitespace on both sides. */
  function Trim(s: string): (r: string)
    ensures Trimmed(r)
    ensures |r| <= |s|
  {
    TrimEnd(TrimStart(s))
  }

  /** `s` is the whitespace `Trim` drops in front, its result, and the
      whitespace it drops behind. */
  lemma TrimDecompose(s: string) returns (pre: string, post: string)
    ensures s == pre + Trim(s) + post
    ensures AllWhitespace(pre) && AllWhitespace(post)
  {
    var a := TrimStart(s);
    var m := TrimEnd(a);
    pre := s[..|s| - |a|];
    post := a[|m|..];
    ThreeParts(s, a, m);
  }

  /** A suffix `a` of `s` and a prefix `m` of `a` cut `s` in three. */
  lemma ThreeParts(s: string, a: string, m: string)
    requires |a| <= |s| && a == s[|s| - |a|..]
    requires |m| <= |a| && m == a[..|m|]
    ensures s == s[..|s| - |a|] + m + a[|m|..]
  {
    assert a == a[..|m|] + a[|m|..];
    assert s == s[..|s| - |a|] + s[|s| - |a|..];
  }

  /** What `Trim` removes is whitespace on either side of a contiguous middle. */
  lemma TrimIsInfix(s: string)
    ensures var r := Trim(s);
      exists k :: 0 <= k <= |s| - |r| && s[k..k + |r|] == r
                  && AllWhitespace(s[..k]) && AllWhitespace(s[k + |r|..])
  {
    var r := Trim(s);
    var pre, post := TrimDecompose(s);
    var k := |pre|;
    assert s[..k] == pre && s[k..k + |r|] == r && s[k + |r|..] == post;
  }

  /** The decomposition in `Trim`'s contract is unique: any way of writing `s` as
      whitespace, a trimmed middle and whitespace has `Trim(s)` as its middle. */
  lemma TrimCharacterized(p: string, m: string, q: string)
    requires AllWhitespace(p) && AllWhitespace(q) && Trimmed(m)
    ensures Trim(p + m + q) == m
  {
    var s := p + m + q;
    if m == [] {
      assert s == p + q;
      AllWhitespaceConcat(p, q);
      AllWhitespaceTrimsAway(s);
    } else {
      assert s == p + (m + q);
      TrimStartOfPrefix(p, m + q);
      assert TrimStart(s) == m + q;
      TrimEndOfSuffix(m, q);
      assert TrimEnd(m + q) == m;
    }
  }

  lemma AllWhitespaceConcat(p: string, q: string)
    requires AllWhitespace(p) && AllWhitespace(q)
    ensures AllWhitespace(p + q)
  {
    assert forall i :: |p| <= i < |p + q| ==> (p + q)[i] == q[i - |p|];
  }

  lemma AllWhitespaceTrimsAway(s: string)
    requires AllWhitespace(s)
    ensures TrimStart(s) == []
    ensures Trim(s) == []
  {
  }

  lemma {:induction false} TrimStartOfPrefix(p: string, t: string)
    requires AllWhitespace(p)
    requires t != [] && !IsJsWhitespace(t[0])
    ensures TrimStart(p + t) == t
    decreases |p|
  {
    if p != [] {
      assert (p + t)[1..] == p[1..] + t;
      TrimStartOfPrefix(p[1..], t);
    }
  }

  lemma {:induction false} TrimEndOfSuffix(t: string, q: string)
    requires AllWhitespace(q)
    requires t != [] && !IsJsWhitespace(t[|t| - 1])
    ensures TrimEnd(t + q) == t
    decreases |q|
  {
    if q != [] {
      assert (t + q)[..|t + q| - 1] == t + q[..|q| - 1];
      TrimEndOfSuffix(t, q[..|q| - 1]);
    } else {
      assert t + q == t;
    }
  }

  /** Trimming twice is trimming once. */
  lemma TrimIdempotent(s: string)
    ensures Trim(Trim(s)) == Trim(s)
  {
    var m := Trim(s);
    assert [] + m + [] == m;
    TrimCharacterized([], m, []);
  }

  /** Whitespace around a string does not change what `trim` leaves of it. */
  lemma TrimAbsorbsWhitespace(p: string, x: string, q: string)
    requires AllWhitespace(p) && AllWhitespace(q)
    ensures Trim(p + x + q) == Trim(x)
  {
    var m := Trim(x);
    var pre, post := TrimDecompose(x);
    Regroup(p, pre, m, post, q);
    AllWhitespaceConcat(p, pre);
    AllWhitespaceConcat(post, q);
    TrimCharacterized(p + pre, m, post + q);
  }

  lemma Regroup(p: string, pre: string, m: string, post: string, q: string)
    ensures p + (pre + m + post) + q == (p + pre) + m + (post + q)
  {
  }

  /** `toLowerCase` on one character; only the ASCII letters are mapped. */
  function LowerChar(c: char): char
  {
    if 'A' <= c <= 'Z' then (c as int + 32) as char else c
  }

  /** `String.prototype.toLowerCase`, character by character. */
  function ToLower(s: string): (r: string)
    ensures |r| == |s|
    ensures forall i :: 0 <= i < |s| ==> r[i] == LowerChar(s[i])
  {
    seq(|s|, i requires 0 <= i < |s| => LowerChar(s[i]))
  }

  /** No ASCII capital letter occurs in `s`. */
  predicate IsLower(s: string)
  {
    forall i :: 0 <= i < |s| ==> !('A' <= s[i] <= 'Z')
  }

  /** Lowercasing leaves no capital letter and a second lowercasing changes nothing. */
  lemma ToLowerIdempotent(s: string)
    ensures IsLower(ToLower(s))
    ensures ToLower(ToLower(s)) == ToLower(s)
  {
  }

  lemma ToLowerConcat(a: string, b: string)
    ensures ToLower(a + b) == ToLower(a) + ToLower(b)
  {
    assert forall i :: 0 <= i < |a + b| ==> ToLower(a + b)[i] == (ToLower(a) + ToLower(b))[i];
  }

  /** Whitespace has no capital letters, so lower-casing keeps it. */
  lemma ToLowerOfWhitespace(p: string)
    requires AllWhitespace(p)
    ensures ToLower(p) == p
  {
    assert forall i :: 0 <= i < |p| ==> ToLower(p)[i] == p[i];
  }

  lemma LowerCharKeepsWhitespace(c: char)
    ensures IsJsWhitespace(LowerChar(c)) <==> IsJsWhitespace(c)
  {
  }

  lemma {:induction false} TrimStartCommutesWithLower(s: string)
    ensures TrimStart(ToLower(s)) == ToLower(TrimStart(s))
    decreases |s|
  {
    if |s| > 0 {
      LowerCharKeepsWhitespace(s[0]);
      if IsJsWhitespace(s[0]) {
        assert ToLower(s)[1..] == ToLower(s[1..]);
        TrimStartCommutesWithLower(s[1..]);
      }
    }
  }

  lemma {:induction false} TrimEndCommutesWithLower(s: string)
    ensures TrimEnd(ToLower(s)) == ToLower(TrimEnd(s))
    decreases |s|
  {
    if |s| > 0 {
      var l := ToLower(s);
      var init := s[..|s| - 1];
      assert l[|l| - 1] == LowerChar(s[|s| - 1]);
      LowerCharKeepsWhitespace(s[|s| - 1]);
      if IsJsWhitespace(s[|s| - 1]) {
        assert l[..|l| - 1] == ToLower(init);
        assert TrimEnd(l) == TrimEnd(ToLower(init));
        assert TrimEnd(s) == TrimEnd(init);
        TrimEndCommutesWithLower(init);
      } else {
        assert TrimEnd(l) == l;
        assert TrimEnd(s) == s;
      }
    }
  }

  /** `s.toLowerCase().trim()` and `s.trim().toLowerCase()` agree, so the order in
      which the normalising code applies the two does not matter. */
  lemma LowerTrimCommute(s: string)
    ensures Trim(ToLower(s)) == ToLower(Trim(s))
  {
    TrimStartCommutesWithLower(s);
    TrimEndCommutesWithLower(TrimStart(s));
  }

  /** `s.split(sep)[0]`: the part of `s` before the first `sep`, or all of `s`. */
  function FirstSegment(s: string, sep: char): (r: string)
    ensures |r| <= |s| && r == s[..|r|]
    ensures sep !in r
    ensures |r| == |s| || s[|r|] == sep
  {
    if s == [] || s[0] == sep then [] else [s[0]] + FirstSegment(s[1..], sep)
  }

  /** The three properties of `FirstSegment`'s contract determine it. */
  lemma FirstSegmentUnique(s: string, sep: char, r: string)
    requires |r| <= |s| && r == s[..|r|]
    requires sep !in r
    requires |r| == |s| || s[|r|] == sep
    ensures r == FirstSegment(s, sep)
  {
  }

  /** A string with no separator is its own first segment. */
  lemma FirstSegmentNoSeparator(s: string, sep: char)
    requires sep !in s
    ensures FirstSegment(s, sep) == s
  {
    FirstSegmentUnique(s, sep, s);
  }

  /** The number of UTF-16 code units of `s`: JavaScript's `length`, in which a
      character outside the Basic Multilingual Plane counts twice. */
  function Utf16Length(s: string): (n: nat)
    ensures |s| <= n <= 2 * |s|
    ensures (forall i :: 0 <= i < |s| ==> s[i] as int <= 0xFFFF) ==> n == |s|
    ensures (forall i :: 0 <= i < |s| ==> s[i] as int > 0xFFFF) ==> n == 2 * |s|
  {
    if s == [] then 0
    else (if s[|s| - 1] as int > 0xFFFF then 2 else 1) + Utf16Length(s[..|s| - 1])
  }

  /** One character is one code unit, or two outside the Basic Multilingual Plane. */
  lemma Utf16LengthOfChar(c: char)
    ensures Utf16Length([c]) == if c as int > 0xFFFF then 2 else 1
  {
    assert [c][..0] == [];
  }

  /** The length of a concatenation is the sum of the lengths, so with
      `Utf16LengthOfChar` it is the number of characters plus the number of
      characters outside the Basic Multilingual Plane. */
  lemma {:induction false} Utf16LengthConcat(a: string, b: string)
    ensures Utf16Length(a + b) == Utf16Length(a) + Utf16Length(b)
    decreases |b|
  {
    if b == [] {
      assert a + b == a;
    } else {
      var b' := b[..|b| - 1];
      assert (a + b)[..|a + b| - 1] == a + b';
      assert (a + b)[|a + b| - 1] == b[|b| - 1];
      Utf16LengthConcat(a, b');
    }
  }
}
