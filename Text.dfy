/**
 * The Kotlin string operations the list state manager relies on:
 * `String.isBlank()`, `String.contains(other, ignoreCase = true)` and the
 * ordering of `String.compareTo`, which `sortedBy { it.name }` uses.
 * Case is folded on ASCII letters only.
 */
module Text {
  import opened Sorting

  /** The characters the JVM's `Char.isWhitespace` accepts. */
  predicate IsWhitespace(c: char) {
    || '\t' <= c <= '\r'
    || '\U{001C}' <= c <= '\U{001F}'
    || c == ' ' || c == '\U{00A0}' || c == '\U{1680}'
    || '\U{2000}' <= c <= '\U{200A}'
    || c == '\U{2028}' || c == '\U{2029}' || c == '\U{202F}' || c == '\U{205F}' || c == '\U{3000}'
  }

  /**
   * `isBlank()`, scanning from the first character: empty, or a whitespace
   * character followed by a blank rest.
   */
  predicate IsBlank(s: string): (b: bool)
    ensures b <==> forall i :: 0 <= i < |s| ==> IsWhitespace(s[i])
    decreases |s|
  {
    s == [] || (IsWhitespace(s[0]) && IsBlank(s[1..]))
  }

  /** Folds an ASCII upper-case letter to lower case; every other character is its own fold. */
  function Fold(c: char): (r: char)
    ensures !('A' <= r <= 'Z')
  {
    if 'A' <= c <= 'Z' then (c as int - 'A' as int + 'a' as int) as char else c
  }

  /**
   * Two characters fold alike exactly when they are equal or are the upper- and
   * lower-case forms of one ASCII letter.
   */
  lemma FoldSameIff(c: char, d: char)
    ensures Fold(c) == Fold(d) <==>
      || c == d
      || ('A' <= c <= 'Z' && d as int == c as int + 32)
      || ('A' <= d <= 'Z' && c as int == d as int + 32)
  {
    if 'A' <= c <= 'Z' {
      assert Fold(c) as int == c as int + 32;
    }
    if 'A' <= d <= 'Z' {
      assert Fold(d) as int == d as int + 32;
    }
  }

  /** `q` occurs in `s` at index `i`, ignoring case. */
  ghost predicate OccursAt(s: string, q: string, i: int) {
    0 <= i && i + |q| <= |s| && forall j :: 0 <= j < |q| ==> Fold(s[i + j]) == Fold(q[j])
  }

  /** `s` starts with `q`, ignoring case. */
  predicate StartsWithIgnoreCase(s: string, q: string) {
    |q| <= |s| && forall j :: 0 <= j < |q| ==> Fold(s[j]) == Fold(q[j])
  }

  /** `s.contains(q, ignoreCase = true)`: some suffix of `s` starts with `q`. */
  predicate ContainsIgnoreCase(s: string, q: string): (b: bool)
    ensures q == [] ==> b
    ensures b ==> |q| <= |s|
    decreases |s|
  {
    StartsWithIgnoreCase(s, q) || (s != [] && ContainsIgnoreCase(s[1..], q))
  }

  /** `ContainsIgnoreCase` holds exactly when the query occurs at some index. */
  lemma {:induction false} ContainsIgnoreCaseIff(s: string, q: string)
    ensures ContainsIgnoreCase(s, q) <==> exists i :: OccursAt(s, q, i)
    decreases |s|
  {
    if StartsWithIgnoreCase(s, q) {
      assert OccursAt(s, q, 0);
    } else if s == [] {
      assert |q| > 0;
    } else {
      ContainsIgnoreCaseIff(s[1..], q);
      if i :| OccursAt(s[1..], q, i) {
        assert OccursAt(s, q, i + 1) by {
          forall j | 0 <= j < |q| ensures Fold(s[i + 1 + j]) == Fold(q[j]) {
            assert s[1..][i + j] == s[i + 1 + j];
          }
        }
      }
      if i :| OccursAt(s, q, i) {
        assert !OccursAt(s, q, 0);
        assert OccursAt(s[1..], q, i - 1) by {
          forall j | 0 <= j < |q| ensures Fold(s[1..][i - 1 + j]) == Fold(q[j]) {
            assert s[1..][i - 1 + j] == s[i + j];
          }
        }
      }
    }
  }

  /** Replacing the query by one that differs only in letter case changes nothing. */
  lemma {:induction false} ContainsIgnoresCaseOfQuery(s: string, q: string, q': string)
    requires |q'| == |q|
    requires forall j :: 0 <= j < |q| ==> Fold(q'[j]) == Fold(q[j])
    ensures ContainsIgnoreCase(s, q') == ContainsIgnoreCase(s, q)
    decreases |s|
  {
    assert StartsWithIgnoreCase(s, q') == StartsWithIgnoreCase(s, q);
    if s != [] {
      ContainsIgnoresCaseOfQuery(s[1..], q, q');
    }
  }

  /** A query is not contained when two of its adjacent characters never stand side by side in `s`. */
  lemma {:induction false} MissingPairNotContained(s: string, q: string, j: nat)
    requires j + 1 < |q|
    requires forall k :: 0 <= k < |s| - 1 ==> Fold(s[k]) != Fold(q[j]) || Fold(s[k + 1]) != Fold(q[j + 1])
    ensures !ContainsIgnoreCase(s, q)
    decreases |s|
  {
    if |q| <= |s| {
      assert Fold(s[j]) != Fold(q[j]) || Fold(s[j + 1]) != Fold(q[j + 1]);
    }
    if s != [] {
      forall k | 0 <= k < |s[1..]| - 1
        ensures Fold(s[1..][k]) != Fold(q[j]) || Fold(s[1..][k + 1]) != Fold(q[j + 1])
      {
        assert s[1..][k] == s[k + 1] && s[1..][k + 1] == s[k + 2];
      }
      MissingPairNotContained(s[1..], q, j);
    }
  }

  /**
   * `a.compareTo(b) <= 0`: the first differing character decides,
   * and a proper prefix comes first.
   */
  predicate LexLe(a: string, b: string): (r: bool)
    ensures IsPrefix(a, b) ==> r
  {
    if a == [] then true
    else if b == [] then false
    else if a[0] != b[0] then a[0] < b[0]
    else
      assert IsPrefix(a, b) ==> IsPrefix(a[1..], b[1..]);
      LexLe(a[1..], b[1..])
  }

  /** `p` is a prefix of `s`, possibly all of it. */
  predicate IsPrefix(p: string, s: string) {
    |p| <= |s| && p == s[..|p|]
  }

  /** `a` and `b` agree before index `k`, and at `k` the character of `a` is the smaller one. */
  ghost predicate FirstDifferenceAt(a: string, b: string, k: int) {
    0 <= k < |a| && k < |b| && a[..k] == b[..k] && a[k] < b[k]
  }

  /**
   * `a.compareTo(b) <= 0` exactly when `a` is a prefix of `b`, or the first
   * character where they differ is smaller in `a`.
   */
  lemma {:induction false} LexLeIff(a: string, b: string)
    ensures LexLe(a, b) <==> IsPrefix(a, b) || exists k :: FirstDifferenceAt(a, b, k)
  {
    if a == [] {
      assert IsPrefix(a, b);
    } else if b == [] {
      assert !IsPrefix(a, b);
    } else if a[0] != b[0] {
      assert !IsPrefix(a, b) by {
        if |a| <= |b| {
          assert b[..|a|][0] == b[0];
        }
      }
      if a[0] < b[0] {
        assert FirstDifferenceAt(a, b, 0);
      }
    } else {
      LexLeIff(a[1..], b[1..]);
      PrefixDropsCommonHead(a, b);
      FirstDifferenceDropsCommonHead(a, b);
    }
  }

  /** Dropping an equal first character keeps the prefix relation. */
  lemma PrefixDropsCommonHead(a: string, b: string)
    requires a != [] && b != [] && a[0] == b[0]
    ensures IsPrefix(a, b) <==> IsPrefix(a[1..], b[1..])
  {
    if |a| <= |b| {
      assert b[..|a|] == [b[0]] + b[1..][..|a| - 1];
      assert a == [a[0]] + a[1..];
    }
  }

  /** Dropping an equal first character moves the first difference one place to the left. */
  lemma FirstDifferenceDropsCommonHead(a: string, b: string)
    requires a != [] && b != [] && a[0] == b[0]
    ensures (exists k :: FirstDifferenceAt(a, b, k)) <==> (exists k :: FirstDifferenceAt(a[1..], b[1..], k))
  {
    forall k | FirstDifferenceAt(a[1..], b[1..], k) ensures FirstDifferenceAt(a, b, k + 1) {
      assert a[..k + 1] == [a[0]] + a[1..][..k];
      assert b[..k + 1] == [b[0]] + b[1..][..k];
    }
    forall k | FirstDifferenceAt(a, b, k) ensures k >= 1 && FirstDifferenceAt(a[1..], b[1..], k - 1) {
      assert a[1..][..k - 1] == a[..k][1..];
      assert b[1..][..k - 1] == b[..k][1..];
    }
  }

  /** An equal first character does not change the order of two strings. */
  lemma LexLeCommonHead(c: char, a: string, b: string)
    ensures LexLe([c] + a, [c] + b) == LexLe(a, b)
  {
    assert ([c] + a)[1..] == a && ([c] + b)[1..] == b;
  }

  /** A non-empty prefix followed by `a` is its first character followed by the rest and `a`. */
  lemma ConcatSplitsHead(p: string, a: string)
    requires p != []
    ensures p + a == [p[0]] + (p[1..] + a)
  {
    assert p == [p[0]] + p[1..];
  }

  /** A common prefix does not change the order of two strings. */
  lemma {:induction false} LexLeCommonPrefix(p: string, a: string, b: string)
    ensures LexLe(p + a, p + b) == LexLe(a, b)
  {
    if p != [] {
      LexLeCommonPrefix(p[1..], a, b);
      LexLeCommonHead(p[0], p[1..] + a, p[1..] + b);
      ConcatSplitsHead(p, a);
      ConcatSplitsHead(p, b);
    } else {
      assert p + a == a && p + b == b;
    }
  }

  lemma {:induction false} LexLeAntisymmetric(a: string, b: string)
    requires LexLe(a, b) && LexLe(b, a)
    ensures a == b
  {
    if a != [] && b != [] {
      LexLeAntisymmetric(a[1..], b[1..]);
      assert a == [a[0]] + a[1..] && b == [b[0]] + b[1..];
    }
  }

  lemma {:induction false} LexLeTransitive(a: string, b: string, c: string)
    requires LexLe(a, b) && LexLe(b, c)
    ensures LexLe(a, c)
  {
    if a != [] && b != [] && c != [] && a[0] == b[0] && b[0] == c[0] {
      LexLeTransitive(a[1..], b[1..], c[1..]);
    }
  }

  lemma {:induction false} LexLeTotal(a: string, b: string)
    ensures LexLe(a, b) || LexLe(b, a)
  {
    if a != [] && b != [] && a[0] == b[0] {
      LexLeTotal(a[1..], b[1..]);
    }
  }

  /** The order of `String.compareTo` is a total order on strings. */
  lemma LexLeTotalOrder()
    ensures TotalOrder(LexLe)
  {
    forall a, b | LexLe(a, b) && LexLe(b, a) ensures a == b {
      LexLeAntisymmetric(a, b);
    }
    forall a, b, c | LexLe(a, b) && LexLe(b, c) ensures LexLe(a, c) {
      LexLeTransitive(a, b, c);
    }
    forall a, b ensures LexLe(a, b) || LexLe(b, a) {
      LexLeTotal(a, b);
    }
  }
}
