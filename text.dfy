/** String primitives the search box relies on: JavaScript's
    `toLowerCase`, `trim` and `includes`, restricted to ASCII. */
module Text {

  /** The white space `String.prototype.trim` strips, ASCII part only. */
  predicate IsSpace(c: char) {
    c == ' ' || c == '\t' || c == '\n' || c == '\r' || c == '\U{000B}' || c == '\U{000C}'
  }

  predicate AllSpace(s: string) {
    forall i :: 0 <= i < |s| ==> IsSpace(s[i])
  }

  predicate IsUpper(c: char) {
    'A' <= c <= 'Z'
  }

  predicate NoUpper(s: string) {
    forall i :: 0 <= i < |s| ==> !IsUpper(s[i])
  }

  function LowerChar(c: char): char {
    if IsUpper(c) then (c as int + 32) as char else c
  }

  /** `toLowerCase` on ASCII letters; every other character is kept. */
  function ToLower(s: string): (r: string)
    ensures |r| == |s| && NoUpper(r)
    ensures forall i :: 0 <= i < |s| && IsUpper(s[i]) ==> r[i] == (s[i] as int + 32) as char
    ensures forall i :: 0 <= i < |s| && !IsUpper(s[i]) ==> r[i] == s[i]
  {
    seq(|s|, i requires 0 <= i < |s| => LowerChar(s[i]))
  }

  /** Lower-casing neither adds nor removes white space. */
  lemma ToLowerKeepsSpace(s: string, i: int)
    requires 0 <= i < |s|
    ensures IsSpace(ToLower(s)[i]) <==> IsSpace(s[i])
  {
  }

  /** A string without capitals is its own lower-case form. */
  lemma {:induction false} ToLowerOfLower(s: string)
    requires NoUpper(s)
    ensures ToLower(s) == s
  {
    assert forall i :: 0 <= i < |s| ==> ToLower(s)[i] == s[i];
  }

  /** A lower-case letter occurs in the lower-cased text only if it or its
      capital occurs in the text. */
  lemma LowerAbsent(s: string, c: char)
    requires 'a' <= c <= 'z' && c !in s && (c as int - 32) as char !in s
    ensures c !in ToLower(s)
  {
    forall i | 0 <= i < |s| ensures ToLower(s)[i] != c {
      assert s[i] != c && s[i] != (c as int - 32) as char;
    }
  }

  /** Drops the leading white space. */
  function TrimStart(s: string): (r: string)
    ensures |r| <= |s| && r == s[|s| - |r|..]
    ensures AllSpace(s[..|s| - |r|])
    ensures r == [] || !IsSpace(r[0])
  {
    if s != [] && IsSpace(s[0]) then TrimStart(s[1..]) else s
  }

  /** Drops the trailing white space. */
  function TrimEnd(s: string): (r: string)
    ensures |r| <= |s| && r == s[..|r|]
    ensures AllSpace(s[|r|..])
    ensures r == [] || !IsSpace(r[|r| - 1])
  {
    if s != [] && IsSpace(s[|s| - 1]) then TrimEnd(s[..|s| - 1]) else s
  }

  /** `r` is `s` with the white-space run of length `k` before it and the
      white-space run after it removed. */
  predicate TrimmedAt(s: string, r: string, k: int) {
    0 <= k <= |s| - |r| && r == s[k..k + |r|] && AllSpace(s[..k]) && AllSpace(s[k + |r|..])
  }

  /** `trim`: the text with the white space at both ends removed. */
  function Trim(s: string): (r: string)
    ensures r == [] || (!IsSpace(r[0]) && !IsSpace(r[|r| - 1]))
    ensures exists k :: TrimmedAt(s, r, k)
  {
    var a := TrimStart(s);
    var r := TrimEnd(a);
    TrimParts(s, a, r);
    TrimEdges(a, r);
    r
  }

  lemma TrimEdges(a: string, r: string)
    requires a == [] || !IsSpace(a[0])
    requires |r| <= |a| && r == a[..|r|]
    requires r == [] || !IsSpace(r[|r| - 1])
    ensures r == [] || (!IsSpace(r[0]) && !IsSpace(r[|r| - 1]))
  {
    if r != [] {
      assert r[0] == a[0];
    }
  }

  lemma TrimParts(s: string, a: string, r: string)
    requires |a| <= |s| && a == s[|s| - |a|..] && AllSpace(s[..|s| - |a|])
    requires |r| <= |a| && r == a[..|r|] && AllSpace(a[|r|..])
    ensures TrimmedAt(s, r, |s| - |a|)
  {
    var k := |s| - |a|;
    assert s[k..k + |r|] == a[..|r|];
    assert s[k + |r|..] == a[|r|..];
  }

  /** Trimming a trimmed text changes nothing. */
  lemma TrimIdempotent(s: string)
    ensures Trim(Trim(s)) == Trim(s)
  {
    var t := Trim(s);
    TrimmedIsFixed(t);
  }

  lemma TrimmedIsFixed(t: string)
    requires t == [] || (!IsSpace(t[0]) && !IsSpace(t[|t| - 1]))
    ensures Trim(t) == t
  {
    assert TrimStart(t) == t;
    assert TrimEnd(t) == t;
  }

  /** The text trims to nothing exactly when it is all white space. */
  lemma TrimEmpty(s: string)
    ensures Trim(s) == [] <==> AllSpace(s)
  {
    var r := Trim(s);
    var k :| TrimmedAt(s, r, k);
    if r == [] {
      assert s == s[..k] + s[k..];
      forall i | 0 <= i < |s| ensures IsSpace(s[i]) {
        if i < k {
          assert s[i] == s[..k][i];
        } else {
          assert s[i] == s[k..][i - k];
        }
      }
    } else {
      assert r[0] == s[k];
    }
  }

  /** The query normalisation of the search box: lower-case, then trim. */
  function Normalize(s: string): (r: string)
    ensures NoUpper(r)
    ensures r == [] || (!IsSpace(r[0]) && !IsSpace(r[|r| - 1]))
    ensures exists k :: TrimmedAt(ToLower(s), r, k)
  {
    Trim(ToLower(s))
  }

  /** Normalising a normalised query changes nothing. */
  lemma NormalizeIdempotent(s: string)
    ensures Normalize(Normalize(s)) == Normalize(s)
  {
    var n := Normalize(s);
    ToLowerOfLower(n);
    TrimmedIsFixed(n);
  }

  /** A query normalises to nothing exactly when it is blank. */
  lemma NormalizeBlank(s: string)
    ensures Normalize(s) == [] <==> AllSpace(s)
  {
    var l := ToLower(s);
    TrimEmpty(l);
    forall i | 0 <= i < |s| ensures IsSpace(l[i]) <==> IsSpace(s[i]) {
      ToLowerKeepsSpace(s, i);
    }
  }

  predicate IsPrefix(p: string, s: string) {
    |p| <= |s| && p == s[..|p|]
  }

  /** `q` occurs in `s` at offset `k`. */
  predicate OccursAt(s: string, q: string, k: int) {
    0 <= k <= |s| - |q| && s[k..k + |q|] == q
  }

  /** `s.includes(q)`: `q` occurs at some offset of `s`. It is computed
      by trying each suffix of `s` in turn. */
  function Contains(s: string, q: string): (r: bool)
    ensures r <==> exists k :: OccursAt(s, q, k)
    decreases |s|
  {
    OffsetStep(s, q);
    IsPrefix(q, s) || (|s| > 0 && Contains(s[1..], q))
  }

  /** An offset of `q` in `s` is either 0 or one more than an offset of `q`
      in `s` without its first character. */
  lemma OffsetStep(s: string, q: string)
    ensures (exists k :: OccursAt(s, q, k)) <==>
      IsPrefix(q, s) || (|s| > 0 && exists k :: OccursAt(s[1..], q, k))
  {
    if exists k :: OccursAt(s, q, k) {
      var k :| OccursAt(s, q, k);
      if k > 0 {
        assert s[1..][k - 1..k - 1 + |q|] == s[k..k + |q|];
        assert OccursAt(s[1..], q, k - 1);
      }
    }
    if IsPrefix(q, s) {
      assert OccursAt(s, q, 0);
    }
    if |s| > 0 && exists k :: OccursAt(s[1..], q, k) {
      var k :| OccursAt(s[1..], q, k);
      assert s[k + 1..k + 1 + |q|] == s[1..][k..k + |q|];
      assert OccursAt(s, q, k + 1);
    }
  }

  /** The empty query occurs in every text. */
  lemma ContainsEmpty(s: string)
    ensures Contains(s, [])
  {
    assert IsPrefix([], s);
  }

  /** Every piece of a text occurs in it. */
  lemma ContainsInfix(a: string, q: string, b: string)
    ensures Contains(a + q + b, q)
  {
    var s := a + q + b;
    assert s[|a|..|a| + |q|] == q;
    assert OccursAt(s, q, |a|);
  }

  /** A query occurs only in a text that has every character of it. */
  lemma {:induction false} AbsentChar(s: string, q: string, c: char)
    requires c in q && c !in s
    ensures !Contains(s, q)
    decreases |s|
  {
    if |s| > 0 {
      AbsentChar(s[1..], q, c);
    }
    var i :| 0 <= i < |q| && q[i] == c;
    if i < |s| {
      assert s[i] != c;
    }
  }

  /** A query without the separator `c` cannot straddle it: it occurs in
      `a + [c] + b` only if it occurs in `a` or in `b`. */
  lemma {:induction false} SplitAt(a: string, c: char, b: string, q: string)
    requires c !in q
    ensures Contains(a + [c] + b, q) ==> Contains(a, q) || Contains(b, q)
    decreases |a|
  {
    var s := a + [c] + b;
    if a == [] {
      assert s[1..] == b;
      if q != [] {
        assert q[0] != c;
      } else {
        assert IsPrefix(q, a);
      }
    } else {
      assert s[1..] == a[1..] + [c] + b;
      SplitAt(a[1..], c, b, q);
      if |q| <= |a| {
        assert IsPrefix(q, s) ==> IsPrefix(q, a);
      } else if |q| <= |s| {
        assert q[|a|] != c && s[|a|] == c;
      }
    }
  }

  /** The same, for a separator found at position `j` of a text. */
  lemma SplitAtIndex(s: string, j: int, q: string)
    requires 0 <= j < |s| && s[j] !in q
    ensures Contains(s, q) ==> Contains(s[..j], q) || Contains(s[j + 1..], q)
  {
    assert s == s[..j] + [s[j]] + s[j + 1..];
    SplitAt(s[..j], s[j], s[j + 1..], q);
  }

  /** A character missing from both parts of a text is missing from it. */
  lemma AbsentFromParts(s: string, j: int, c: char)
    requires 0 <= j <= |s| && c !in s[..j] && c !in s[j..]
    ensures c !in s
  {
    assert s == s[..j] + s[j..];
  }

  /** A text that occurs in `a` occurs in any extension of `a`. */
  lemma ContainsExtend(a: string, b: string, q: string)
    requires Contains(a, q)
    ensures Contains(a + b, q)
  {
    var k :| OccursAt(a, q, k);
    assert (a + b)[k..k + |q|] == a[k..k + |q|];
    assert OccursAt(a + b, q, k);
  }

  /** Words separated by single spaces. */
  function Join(words: seq<string>): string
  {
    if |words| == 0 then ""
    else if |words| == 1 then words[0]
    else Join(words[..|words| - 1]) + " " + words[|words| - 1]
  }

  /** Every word occurs in the joined text. */
  lemma {:induction false} JoinContainsWord(words: seq<string>, i: int)
    requires 0 <= i < |words|
    ensures Contains(Join(words), words[i])
  {
    var n := |words| - 1;
    if n == 0 {
      assert Join(words) == [] + words[0] + [];
      ContainsInfix([], words[0], []);
    } else if i == n {
      assert Join(words) == (Join(words[..n]) + " ") + words[n] + [];
      ContainsInfix(Join(words[..n]) + " ", words[n], []);
    } else {
      assert words[..n][i] == words[i];
      JoinContainsWord(words[..n], i);
      ContainsExtend(Join(words[..n]), " " + words[n], words[i]);
      assert Join(words[..n]) + " " + words[n] == Join(words[..n]) + (" " + words[n]);
    }
  }

  /** A non-empty query without a space occurs in joined words only if it
      occurs in one of the words. */
  lemma {:induction false} JoinOneWord(words: seq<string>, q: string)
    requires q != [] && ' ' !in q
    requires forall i :: 0 <= i < |words| ==> !Contains(words[i], q)
    ensures !Contains(Join(words), q)
  {
    var n := |words| - 1;
    if n < 0 {
      assert !IsPrefix(q, "");
    } else if n > 0 {
      var front := words[..n];
      forall i | 0 <= i < n ensures !Contains(front[i], q) {
        assert front[i] == words[i];
      }
      JoinOneWord(front, q);
      SplitAt(Join(front), ' ', words[n], q);
    }
  }
}
