/**
 * The two string operations the recommendation rules rely on: Python's
 * `str.lower()` and the substring test `k in s`.
 *
 * Lower-casing is modelled for ASCII letters and the upper-case letters of
 * the Latin-1 block (U+00C0 to U+00DE except the multiplication sign), which
 * covers every letter of the French titles and of the department names.
 */
module Text {

  predicate IsUpper(c: char)
  {
    'A' <= c <= 'Z' || ('À' <= c <= 'Þ' && c != '×')
  }

  function LowerChar(c: char): (r: char)
    ensures !IsUpper(r)
    ensures !IsUpper(c) ==> r == c
  {
    if IsUpper(c) then (c as int + 32) as char else c
  }

  /** `s.lower()`: every character lower-cased, length preserved. */
  function Lower(s: string): (r: string)
    ensures |r| == |s|
    ensures forall i | 0 <= i < |s| :: r[i] == LowerChar(s[i])
  {
    seq(|s|, i requires 0 <= i < |s| => LowerChar(s[i]))
  }

  /** `k` occurs in `s` starting at position `i`. */
  predicate MatchAt(s: string, k: string, i: nat)
  {
    i + |k| <= |s| && s[i..i + |k|] == k
  }

  /** Python's `k in s` for strings. */
  predicate Contains(s: string, k: string)
  {
    exists i | 0 <= i <= |s| :: MatchAt(s, k, i)
  }

  lemma LowerAppend(a: string, b: string)
    ensures Lower(a + b) == Lower(a) + Lower(b)
  {
  }

  /** A string without upper-case letters is its own lower-case form. */
  lemma LowerOfLower(s: string)
    requires forall c | c in s :: !IsUpper(c)
    ensures Lower(s) == s
  {
  }

  /** Lower-casing a capitalised word: only the first letter changes. */
  lemma LowerCapitalised(c: char, s: string)
    requires forall x | x in s :: !IsUpper(x)
    ensures Lower([c] + s) == [LowerChar(c)] + s
  {
    LowerAppend([c], s);
    LowerOfLower(s);
  }

  /** A string contains every piece it is glued from. */
  lemma ContainsMiddle(a: string, k: string, b: string)
    ensures Contains(a + k + b, k)
  {
    assert MatchAt(a + k + b, k, |a|);
  }

  /** Any occurrence of `k` puts each of its characters into `s`. */
  lemma {:induction false} MatchAtChar(s: string, k: string, i: nat, j: nat)
    requires MatchAt(s, k, i) && j < |k|
    ensures i + j < |s| && s[i + j] == k[j]
  {
    assert s[i..i + |k|][j] == k[j];
  }

  /** A keyword with a character that `s` lacks does not occur in `s`. */
  lemma {:induction false} MissingChar(s: string, k: string, j: nat)
    requires j < |k| && k[j] !in s
    ensures !Contains(s, k)
  {
    if Contains(s, k) {
      var i :| 0 <= i <= |s| && MatchAt(s, k, i);
      MatchAtChar(s, k, i, j);
      assert false;
    }
  }

  /**
   * A character that occurs once in `s`, at position `|a|`, places any
   * occurrence of a keyword using it at a fixed offset.
   */
  lemma {:induction false} UniqueCharPosition(a: string, c: char, b: string, n: nat)
    requires c !in a && c !in b
    requires n < |a| + 1 + |b| && (a + [c] + b)[n] == c
    ensures n == |a|
  {
  }

  /**
   * When `c` occurs only once in `a + [c] + b`, a keyword whose `j`-th
   * character is `c` can only sit at offset `|a| - j`; a mismatch there
   * rules it out.
   */
  lemma {:induction false} PinnedMismatch(a: string, c: char, b: string, k: string, j: nat, m: nat)
    requires c !in a && c !in b
    requires j < |k| && k[j] == c && j <= |a|
    requires m < |k| && |a| - j + m < |a| + 1 + |b| && (a + [c] + b)[|a| - j + m] != k[m]
    ensures !Contains(a + [c] + b, k)
  {
    var s := a + [c] + b;
    if Contains(s, k) {
      var i :| 0 <= i <= |s| && MatchAt(s, k, i);
      MatchAtChar(s, k, i, j);
      UniqueCharPosition(a, c, b, i + j);
      MatchAtChar(s, k, i, m);
      assert false;
    }
  }
}
