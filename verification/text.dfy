/**
 * Text normalisation used by the flashcard app: JavaScript's
 * `String.prototype.trim` and `toLowerCase`, as applied when a card is saved
 * and when an answer is graded.
 */
module Text {

  /** The characters `trim` strips: the WhiteSpace and LineTerminator
      productions of ECMAScript (sections 12.2 and 12.3 of ECMA-262), with the
      Unicode Space_Separator (Zs) category written out. */
  const WhitespaceChars: set<char> := {
    '\t', '\U{000B}', '\U{000C}', ' ', '\U{00A0}', '\U{FEFF}',
    '\U{1680}', '\U{2000}', '\U{2001}', '\U{2002}', '\U{2003}', '\U{2004}',
    '\U{2005}', '\U{2006}', '\U{2007}', '\U{2008}', '\U{2009}', '\U{200A}',
    '\U{202F}', '\U{205F}', '\U{3000}',
    '\n', '\r', '\U{2028}', '\U{2029}'
  }

  predicate IsWhitespace(c: char) {
    c in WhitespaceChars
  }

  predicate AllWhitespace(s: string) {
    forall i :: 0 <= i < |s| ==> IsWhitespace(s[i])
  }

  /** Neither starts nor ends with whitespace: what `trim` returns. */
  predicate Trimmed(s: string) {
    s == [] || (!IsWhitespace(s[0]) && !IsWhitespace(s[|s| - 1]))
  }

  /** `s` without its leading whitespace: no longer than `s` and not starting
      with whitespace (`TrimStartSplit` shows only whitespace is cut). */
  function TrimStart(s: string): (r: string)
    ensures |r| <= |s|
    ensures r == [] || !IsWhitespace(r[0])
    decreases |s|
  {
    if |s| > 0 && IsWhitespace(s[0]) then TrimStart(s[1..]) else s
  }

  /** `s` without its trailing whitespace: no longer than `s`, starting like
      `s` and not ending with whitespace (`TrimEndSplit` shows only whitespace
      is cut). */
  function TrimEnd(s: string): (r: string)
    ensures |r| <= |s|
    ensures r != [] ==> r[0] == s[0]
    ensures r == [] || !IsWhitespace(r[|r| - 1])
    decreases |s|
  {
    if |s| > 0 && IsWhitespace(s[|s| - 1]) then TrimEnd(s[..|s| - 1]) else s
  }

  /** JavaScript's `s.trim()`: a slice of `s` that neither starts nor ends
      with whitespace (`TrimSplit` shows only whitespace is cut away). */
  function Trim(s: string): (r: string)
    ensures Trimmed(r)
    ensures |r| <= |s|
  {
    TrimEnd(TrimStart(s))
  }

  /** Concatenation regrouped, kept apart so that no text facts are in
      scope when it is proved. */
  lemma Regroup<T>(a: seq<T>, b: seq<T>, c: seq<T>, d: seq<T>, e: seq<T>)
    ensures a + (b + c + d) + e == (a + b) + c + (d + e)
  {
  }

  lemma Associate<T>(a: seq<T>, b: seq<T>, c: seq<T>)
    ensures a + (b + c) == (a + b) + c
  {
  }

  lemma WhitespaceCons(c: char, s: string)
    requires IsWhitespace(c) && AllWhitespace(s)
    ensures AllWhitespace([c] + s)
  {
    assert forall i :: 1 <= i < |s| + 1 ==> ([c] + s)[i] == s[i - 1];
  }

  lemma WhitespaceSnoc(s: string, c: char)
    requires IsWhitespace(c) && AllWhitespace(s)
    ensures AllWhitespace(s + [c])
  {
    assert forall i :: 0 <= i < |s| ==> (s + [c])[i] == s[i];
  }

  /** What `TrimStart` cuts away is whitespace. */
  lemma {:induction false} TrimStartSplit(s: string) returns (p: string)
    ensures AllWhitespace(p) && s == p + TrimStart(s)
    decreases |s|
  {
    if |s| > 0 && IsWhitespace(s[0]) {
      var p' := TrimStartSplit(s[1..]);
      p := [s[0]] + p';
      WhitespaceCons(s[0], p');
      assert s == [s[0]] + s[1..];
      Associate([s[0]], p', TrimStart(s[1..]));
    } else {
      p := [];
      assert [] + s == s;
    }
  }

  /** What `TrimEnd` cuts away is whitespace. */
  lemma {:induction false} TrimEndSplit(s: string) returns (q: string)
    ensures AllWhitespace(q) && s == TrimEnd(s) + q
    decreases |s|
  {
    if |s| > 0 && IsWhitespace(s[|s| - 1]) {
      var q' := TrimEndSplit(s[..|s| - 1]);
      q := q' + [s[|s| - 1]];
      WhitespaceSnoc(q', s[|s| - 1]);
      assert s == s[..|s| - 1] + [s[|s| - 1]];
      Associate(TrimEnd(s[..|s| - 1]), q', [s[|s| - 1]]);
    } else {
      q := [];
      assert s + [] == s;
    }
  }

  /** `trim` only cuts whitespace: `s` is the trimmed string with whitespace
      on either side. */
  lemma TrimSplit(s: string) returns (p: string, q: string)
    ensures AllWhitespace(p) && AllWhitespace(q)
    ensures s == p + Trim(s) + q
  {
    p := TrimStartSplit(s);
    q := TrimEndSplit(TrimStart(s));
    Associate(p, TrimEnd(TrimStart(s)), q);
  }

  lemma {:induction false} TrimStartSkipsWhitespace(p: string, t: string)
    requires AllWhitespace(p)
    ensures TrimStart(p + t) == TrimStart(t)
    decreases |p|
  {
    if p != [] {
      assert (p + t)[1..] == p[1..] + t;
      TrimStartSkipsWhitespace(p[1..], t);
    } else {
      assert p + t == t;
    }
  }

  lemma {:induction false} TrimEndSkipsWhitespace(t: string, q: string)
    requires AllWhitespace(q)
    ensures TrimEnd(t + q) == TrimEnd(t)
    decreases |q|
  {
    if q != [] {
      assert (t + q)[..|t + q| - 1] == t + q[..|q| - 1];
      TrimEndSkipsWhitespace(t, q[..|q| - 1]);
    } else {
      assert t + q == t;
    }
  }

  /** The reference characterisation of `trim`: padding a trimmed string with
      whitespace on both sides and trimming gives the string back. With
      `TrimSplit` this pins the result of `Trim` down completely. */
  lemma TrimOfPadded(p: string, m: string, q: string)
    requires AllWhitespace(p) && AllWhitespace(q) && Trimmed(m)
    ensures Trim(p + m + q) == m
  {
    assert p + m + q == p + (m + q);
    TrimStartSkipsWhitespace(p, m + q);
    if m == [] {
      assert m + q == q + [];
      TrimStartSkipsWhitespace(q, []);
      assert TrimStart(p + m + q) == [];
    } else {
      TrimEndSkipsWhitespace(m, q);
    }
  }

  /** A string without surrounding whitespace is its own trim. */
  lemma TrimOfTrimmed(s: string)
    requires Trimmed(s)
    ensures Trim(s) == s
  {
  }

  /** Trimming twice is trimming once. */
  lemma TrimIdempotent(s: string)
    ensures Trim(Trim(s)) == Trim(s)
  {
    TrimOfTrimmed(Trim(s));
  }

  lemma AllWhitespaceAppend(a: string, b: string)
    requires AllWhitespace(a) && AllWhitespace(b)
    ensures AllWhitespace(a + b)
  {
    forall i | 0 <= i < |a + b|
      ensures IsWhitespace((a + b)[i])
    {
      if i < |a| { assert (a + b)[i] == a[i]; } else { assert (a + b)[i] == b[i - |a|]; }
    }
  }

  /** Whitespace added around a string does not survive `trim`. */
  lemma TrimIgnoresPadding(p: string, s: string, q: string)
    requires AllWhitespace(p) && AllWhitespace(q)
    ensures Trim(p + s + q) == Trim(s)
  {
    var r := Trim(s);
    var a, b := TrimSplit(s);
    Regroup(p, a, r, b, q);
    AllWhitespaceAppend(p, a);
    AllWhitespaceAppend(b, q);
    TrimOfPadded(p + a, r, b + q);
  }

  predicate IsAsciiUpper(c: char) {
    'A' <= c <= 'Z'
  }

  /** `toLowerCase` on one character, for the ASCII letters. */
  function LowerChar(c: char): (d: char)
    ensures !IsAsciiUpper(d)
    ensures IsWhitespace(d) <==> IsWhitespace(c)
    ensures !IsAsciiUpper(c) ==> d == c
    ensures IsAsciiUpper(c) ==> 'a' <= d <= 'z' && d as int - 'a' as int == c as int - 'A' as int
  {
    if IsAsciiUpper(c) then (c as int + 32) as char else c
  }

  /** `s.toLowerCase()` with ASCII case mapping: each character is lowered on
      its own, so the length is kept. */
  function Lower(s: string): (r: string)
    ensures |r| == |s|
    ensures forall i :: 0 <= i < |s| ==> r[i] == LowerChar(s[i])
  {
    if s == [] then [] else [LowerChar(s[0])] + Lower(s[1..])
  }

  lemma LowerAppend(a: string, b: string)
    ensures Lower(a + b) == Lower(a) + Lower(b)
  {
    var l, r := Lower(a + b), Lower(a) + Lower(b);
    forall i | 0 <= i < |l|
      ensures l[i] == r[i]
    {
      if i < |a| {
        assert (a + b)[i] == a[i];
      } else {
        assert (a + b)[i] == b[i - |a|];
      }
    }
  }

  /** Lowering an already lower-case string changes nothing. */
  lemma LowerIdempotent(s: string)
    ensures Lower(Lower(s)) == Lower(s)
  {
  }

  lemma LowerKeepsWhitespace(s: string)
    requires AllWhitespace(s)
    ensures AllWhitespace(Lower(s))
  {
  }

  lemma LowerKeepsTrimmed(s: string)
    requires Trimmed(s)
    ensures Trimmed(Lower(s))
  {
  }

  /** Lowering does not move the trim boundaries, so JavaScript's
      `trim().toLowerCase()` equals `toLowerCase().trim()`. */
  lemma LowerTrimCommute(s: string)
    ensures Lower(Trim(s)) == Trim(Lower(s))
  {
    var r := Trim(s);
    var a, b := TrimSplit(s);
    LowerAppend(a + r, b);
    LowerAppend(a, r);
    LowerKeepsWhitespace(a);
    LowerKeepsWhitespace(b);
    LowerKeepsTrimmed(r);
    TrimOfPadded(Lower(a), Lower(r), Lower(b));
  }

  /** The comparison key of grading, `s.trim().toLowerCase()`: a trimmed
      string that lowering leaves alone. */
  function Normalize(s: string): (r: string)
    ensures Trimmed(r)
    ensures Lower(r) == r
  {
    LowerKeepsTrimmed(Trim(s));
    LowerIdempotent(Trim(s));
    Lower(Trim(s))
  }

  /** A string without surrounding whitespace only needs lowering. */
  lemma NormalizeOfTrimmed(s: string)
    requires Trimmed(s)
    ensures Normalize(s) == Lower(s)
  {
    TrimOfTrimmed(s);
  }

  /** Normalising an already normalised string changes nothing. */
  lemma NormalizeIdempotent(s: string)
    ensures Normalize(Normalize(s)) == Normalize(s)
  {
    TrimOfTrimmed(Normalize(s));
  }

  /** Normalising forgets ASCII case. */
  lemma NormalizeIgnoresCase(s: string)
    ensures Normalize(Lower(s)) == Normalize(s)
  {
    LowerTrimCommute(s);
    LowerIdempotent(Trim(s));
  }

  /** Normalising forgets surrounding whitespace. */
  lemma NormalizeIgnoresPadding(p: string, s: string, q: string)
    requires AllWhitespace(p) && AllWhitespace(q)
    ensures Normalize(p + s + q) == Normalize(s)
  {
    TrimIgnoresPadding(p, s, q);
  }
}
