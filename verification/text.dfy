/**
 * The string operations the filter relies on: `toLowerCase`, `trim` and
 * `includes`, over sequences of characters.
 */
module Text {

  /** `toLowerCase` restricted to ASCII letters. */
  function LowerChar(c: char): char {
    if 'A' <= c <= 'Z' then (c as int + 32) as char else c
  }

  /**
   * Lowercasing turns each upper-case letter into its lower-case letter, 32
   * code points on, leaves no upper-case letter and changes nothing else.
   */
  function Lower(s: string): (r: string)
    ensures |r| == |s|
    ensures forall i :: 0 <= i < |s| && 'A' <= s[i] <= 'Z' ==> r[i] as int == s[i] as int + 32
    ensures forall i :: 0 <= i < |s| ==> !('A' <= r[i] <= 'Z')
    ensures forall i :: 0 <= i < |s| && !('A' <= s[i] <= 'Z') ==> r[i] == s[i]
  {
    seq(|s|, i requires 0 <= i < |s| => LowerChar(s[i]))
  }

  /** The characters `trim` removes: white space and line terminators. */
  predicate IsSpace(c: char) {
    c == ' ' || c == '\t' || c == '\n' || c == '\r' || c == '\U{000B}' || c == '\U{000C}'
    || c == '\U{00A0}' || c == '\U{FEFF}' || c == '\U{2028}' || c == '\U{2029}'
  }

  /**
   * Dropping leading white space leaves a suffix that is empty or starts with a
   * non-space; everything dropped is white space.
   */
  function TrimStart(s: string): (r: string)
    ensures |r| <= |s| && r == s[|s| - |r|..]
    ensures AllSpace(s[..|s| - |r|])
    ensures r != [] ==> !IsSpace(r[0])
  {
    if s != [] && IsSpace(s[0]) then
      var r := TrimStart(s[1..]);
      assert forall i :: 1 <= i < |s| - |r| ==> s[i] == s[1..][..|s| - 1 - |r|][i - 1];
      r
    else s
  }

  /**
   * Dropping trailing white space leaves a prefix that is empty or ends with a
   * non-space; everything dropped is white space.
   */
  function TrimEnd(s: string): (r: string)
    ensures |r| <= |s| && r == s[..|r|]
    ensures AllSpace(s[|r|..])
    ensures r != [] ==> !IsSpace(r[|r| - 1])
  {
    if s != [] && IsSpace(s[|s| - 1]) then
      var r := TrimEnd(s[..|s| - 1]);
      assert forall i :: |r| <= i < |s| - 1 ==> s[i] == s[..|s| - 1][|r|..][i - |r|];
      r
    else s
  }


  /**
   * `trim`: a contiguous piece of `s` that neither starts nor ends with white
   * space, with only white space before and after it.
   */
  function Trim(s: string): (r: string)
    ensures exists i :: OccursAt(s, r, i) && AllSpace(s[..i]) && AllSpace(s[i + |r|..])
    ensures r != [] ==> !IsSpace(r[0]) && !IsSpace(r[|r| - 1])
  {
    var front := TrimStart(s);
    var r := TrimEnd(front);
    BetweenSpaces(s, front, r);
    r
  }

  /**
   * A prefix of a suffix, where both cuts dropped only white space, occurs in
   * the string with only white space around it.
   */
  lemma BetweenSpaces(s: string, front: string, r: string)
    requires |front| <= |s| && front == s[|s| - |front|..] && AllSpace(s[..|s| - |front|])
    requires |r| <= |front| && r == front[..|r|] && AllSpace(front[|r|..])
    ensures OccursAt(s, r, |s| - |front|)
    ensures AllSpace(s[..|s| - |front|]) && AllSpace(s[|s| - |front| + |r|..])
  {
    assert s[|s| - |front| + |r|..] == front[|r|..];
  }

  predicate AllSpace(s: string) {
    forall i :: 0 <= i < |s| ==> IsSpace(s[i])
  }

  lemma {:induction false} TrimStartBlank(s: string)
    ensures TrimStart(s) == [] <==> AllSpace(s)
  {
    if s != [] && IsSpace(s[0]) {
      TrimStartBlank(s[1..]);
      AllSpaceSplit(s, 1);
    }
  }

  lemma {:induction false} TrimEndBlank(s: string)
    ensures TrimEnd(s) == [] <==> AllSpace(s)
  {
    if s != [] && IsSpace(s[|s| - 1]) {
      TrimEndBlank(s[..|s| - 1]);
      AllSpaceSplit(s, |s| - 1);
    }
  }

  /** White space throughout is white space throughout both halves of any split. */
  lemma AllSpaceSplit(s: string, k: nat)
    requires k <= |s|
    ensures AllSpace(s) <==> AllSpace(s[..k]) && AllSpace(s[k..])
  {
    if AllSpace(s[..k]) && AllSpace(s[k..]) {
      forall i | 0 <= i < |s| ensures IsSpace(s[i]) {
        if i < k { assert s[i] == s[..k][i]; } else { assert s[i] == s[k..][i - k]; }
      }
    }
  }

  /** Trimming leaves nothing exactly when every character is white space. */
  lemma TrimBlank(s: string)
    ensures Trim(s) == [] <==> AllSpace(s)
  {
    TrimStartBlank(s);
    TrimEndBlank(TrimStart(s));
    if TrimStart(s) != [] {
      assert !AllSpace(TrimStart(s));
    }
  }

  /** Whether `t` occurs in `s` at position `i`, compared from offset `k` on. */
  function MatchAt(s: string, t: string, i: nat, k: nat): bool
    requires i + |t| <= |s| && k <= |t|
    decreases |t| - k
  {
    k == |t| || (s[i + k] == t[k] && MatchAt(s, t, i, k + 1))
  }

  /** Whether `t` occurs in `s` at some position `i` or later. */
  function ContainsFrom(s: string, t: string, i: nat): bool
    decreases |s| - i
  {
    i + |t| <= |s| && (MatchAt(s, t, i, 0) || ContainsFrom(s, t, i + 1))
  }

  /** `s.includes(t)`: `t` occurs in `s` at some index. */
  function Contains(s: string, t: string): (r: bool)
    ensures r <==> exists j :: OccursAt(s, t, j)
  {
    ContainsFromIff(s, t, 0);
    ContainsFrom(s, t, 0)
  }

  predicate OccursAt(s: string, t: string, i: int) {
    0 <= i && i + |t| <= |s| && s[i..i + |t|] == t
  }

  lemma {:induction false} MatchAtIff(s: string, t: string, i: nat, k: nat)
    requires i + |t| <= |s| && k <= |t|
    ensures MatchAt(s, t, i, k) <==> s[i + k..i + |t|] == t[k..]
    decreases |t| - k
  {
    if k < |t| {
      MatchAtIff(s, t, i, k + 1);
      assert s[i + k..i + |t|] == [s[i + k]] + s[i + k + 1..i + |t|];
      assert t[k..] == [t[k]] + t[k + 1..];
    }
  }

  lemma {:induction false} ContainsFromIff(s: string, t: string, i: nat)
    ensures ContainsFrom(s, t, i) <==> exists j :: i <= j && OccursAt(s, t, j)
    decreases |s| - i
  {
    if i + |t| <= |s| {
      MatchAtIff(s, t, i, 0);
      ContainsFromIff(s, t, i + 1);
      if MatchAt(s, t, i, 0) {
        assert OccursAt(s, t, i);
      }
      if exists j :: i <= j && OccursAt(s, t, j) {
        var j :| i <= j && OccursAt(s, t, j);
        if j == i {
          assert MatchAt(s, t, i, 0);
        } else {
          assert i + 1 <= j;
        }
      }
    } else {
      forall j | i <= j ensures !OccursAt(s, t, j) {
      }
    }
  }

  /** A term with a character the text lacks does not occur in it. */
  lemma NotContainsWithout(s: string, t: string, c: char)
    requires c in t && c !in s
    ensures !Contains(s, t)
  {
    var k :| 0 <= k < |t| && t[k] == c;
    forall j | 0 <= j && j + |t| <= |s| ensures !OccursAt(s, t, j) {
      assert s[j + k] in s;
      assert s[j..j + |t|][k] != t[k];
    }
  }

  /**
   * Splitting at a character the term lacks cannot hide an occurrence: one
   * that is in neither side is not in the whole.
   */
  lemma NotContainsJoin(a: string, c: char, b: string, t: string)
    requires c !in t && !Contains(a, t) && !Contains(b, t)
    ensures !Contains(a + [c] + b, t)
  {
    var s := a + [c] + b;
    forall j | 0 <= j && j + |t| <= |s| ensures !OccursAt(s, t, j) {
      if j + |t| <= |a| {
        SliceOfLeft(a, [c] + b, j, j + |t|);
        assert s == a + ([c] + b);
        assert !OccursAt(a, t, j);
      } else if j > |a| {
        SliceOfRight(a + [c], b, j, j + |t|);
        assert !OccursAt(b, t, j - |a| - 1);
      } else {
        assert s[j..j + |t|][|a| - j] == c;
      }
    }
  }

  lemma SliceOfLeft(x: string, y: string, i: nat, k: nat)
    requires i <= k <= |x|
    ensures (x + y)[i..k] == x[i..k]
  {
  }

  lemma SliceOfRight(x: string, y: string, i: nat, k: nat)
    requires |x| <= i <= k <= |x| + |y|
    ensures (x + y)[i..k] == y[i - |x|..k - |x|]
  {
  }

  /** A lower-case letter absent from `s` in both cases is absent from `Lower(s)`. */
  lemma LowerWithout(s: string, c: char)
    requires 'a' <= c <= 'z' && c !in s && (c as int - 32) as char !in s
    ensures c !in Lower(s)
  {
    forall i | 0 <= i < |s| ensures Lower(s)[i] != c {
      assert s[i] in s;
    }
  }

  lemma LowerAppend(a: string, b: string)
    ensures Lower(a + b) == Lower(a) + Lower(b)
  {
    assert forall i :: 0 <= i < |a| ==> (a + b)[i] == a[i];
    assert forall i :: |a| <= i < |a| + |b| ==> (a + b)[i] == b[i - |a|];
  }

  /** Case-insensitive form of `NotContainsWithout`, for a letter of the term. */
  lemma NotContainsLowerWithout(s: string, t: string, c: char)
    requires 'a' <= c <= 'z' && c in t && c !in s && (c as int - 32) as char !in s
    ensures !Contains(Lower(s), t)
  {
    LowerWithout(s, c);
    NotContainsWithout(Lower(s), t, c);
  }

  /** Case-insensitive form of `NotContainsJoin`, for a lower-case split character. */
  lemma NotContainsLowerJoin(a: string, c: char, b: string, t: string)
    requires 'a' <= c <= 'z' && c !in t && !Contains(Lower(a), t) && !Contains(Lower(b), t)
    ensures !Contains(Lower(a + [c] + b), t)
  {
    LowerAppend(a + [c], b);
    LowerAppend(a, [c]);
    assert Lower([c]) == [c];
    NotContainsJoin(Lower(a), c, Lower(b), t);
  }

  /** Text with no upper-case letter is its own lower case. */
  lemma LowerNoUpper(s: string)
    requires forall i :: 0 <= i < |s| ==> !('A' <= s[i] <= 'Z')
    ensures Lower(s) == s
  {
  }

  /** Text that neither starts nor ends with white space is its own trim. */
  lemma TrimNoSpaceEnds(s: string)
    requires s != [] && !IsSpace(s[0]) && !IsSpace(s[|s| - 1])
    ensures Trim(s) == s
  {
    assert TrimStart(s) == s;
    assert TrimEnd(s) == s;
  }

  /** A term that the lowercased text starts with is contained in it. */
  lemma ContainsLowerAtStart(s: string, t: string)
    requires |t| <= |s| && forall i :: 0 <= i < |t| ==> LowerChar(s[i]) == t[i]
    ensures Contains(Lower(s), t)
  {
    assert OccursAt(Lower(s), t, 0);
  }
}
