/**
 * SQL `LIKE` / `ILIKE` pattern matching as DuckDB evaluates it: `%` matches any
 * run of characters, `_` matches exactly one, every other character matches
 * itself. No escape character is in force.
 */
module Like {
  import opened Text

  predicate Like(s: string, p: string)
    decreases |s| + |p|
  {
    if |p| == 0 then |s| == 0
    else if p[0] == '%' then Like(s, p[1..]) || (|s| > 0 && Like(s[1..], p))
    else |s| > 0 && (p[0] == '_' || p[0] == s[0]) && Like(s[1..], p[1..])
  }

  /** `ILIKE`: LIKE after folding both sides to lower case. */
  predicate ILike(s: string, p: string) {
    Like(ToLower(s), ToLower(p))
  }

  predicate HasWildcard(t: string) {
    '%' in t || '_' in t
  }

  /** The pattern `%` alone matches every string. */
  lemma {:induction false} PercentMatchesAll(s: string)
    ensures Like(s, "%")
    decreases |s|
  {
    assert "%"[1..] == "";
    if |s| > 0 {
      PercentMatchesAll(s[1..]);
    }
  }

  /** `t%` matches exactly the strings that start with the literal `t`. */
  lemma {:induction false} PrefixPattern(s: string, t: string)
    requires !HasWildcard(t)
    ensures Like(s, t + "%") <==> IsPrefix(t, s)
    decreases |t|
  {
    if |t| == 0 {
      assert t + "%" == "%";
      PercentMatchesAll(s);
    } else {
      assert (t + "%")[0] == t[0];
      assert (t + "%")[1..] == t[1..] + "%";
      assert !HasWildcard(t[1..]) by {
        assert forall c :: c in t[1..] ==> c in t;
      }
      if |s| > 0 {
        PrefixPattern(s[1..], t[1..]);
        assert IsPrefix(t, s) <==> s[0] == t[0] && IsPrefix(t[1..], s[1..]) by {
          if s[0] == t[0] && IsPrefix(t[1..], s[1..]) {
            assert s[..|t|] == [s[0]] + s[1..][..|t| - 1];
          }
          if IsPrefix(t, s) {
            assert s[1..][..|t| - 1] == s[..|t|][1..];
          }
        }
      }
    }
  }

  /**
   * `%t%` for a wildcard-free `t` is exactly the substring test: this is why a
   * search term with no `%` or `_` behaves as "contains".
   */
  lemma {:induction false} SurroundedPatternIsContains(s: string, t: string)
    requires !HasWildcard(t)
    ensures Like(s, "%" + t + "%") <==> Contains(s, t)
    decreases |s|
  {
    var p := "%" + t + "%";
    assert p[0] == '%';
    assert p[1..] == t + "%";
    PrefixPattern(s, t);
    ContainsUnfold(s, t);
    if |s| > 0 {
      SurroundedPatternIsContains(s[1..], t);
    }
  }

  /** Case folding does not create or remove wildcards. */
  lemma {:induction false} LowerKeepsWildcards(t: string)
    ensures HasWildcard(ToLower(t)) <==> HasWildcard(t)
  {
    if '%' in t {
      var i :| 0 <= i < |t| && t[i] == '%';
      assert ToLower(t)[i] == '%';
    }
    if '_' in t {
      var i :| 0 <= i < |t| && t[i] == '_';
      assert ToLower(t)[i] == '_';
    }
  }

  /** An unescaped `_` in a search term matches any character: "_" finds every non-empty string. */
  lemma {:induction false} UnderscoreIsWildcard(s: string)
    requires |s| > 0
    ensures Like(s, "%" + "_" + "%")
  {
    var p := "%" + "_" + "%";
    assert p[1..] == "_%";
    assert "_%"[1..] == "%";
    PercentMatchesAll(s[1..]);
    assert Like(s, "_%");
  }

  lemma {:induction false} LowerSurrounded(t: string)
    ensures ToLower("%" + t + "%") == "%" + ToLower(t) + "%"
  {
    var p := "%" + t + "%";
    var q := "%" + ToLower(t) + "%";
    assert |ToLower(p)| == |q|;
    forall i | 0 <= i < |q| ensures ToLower(p)[i] == q[i] {
      if 0 < i < |q| - 1 {
        assert p[i] == t[i - 1];
      }
    }
  }

  /**
   * `ILIKE '%t%'` for a term without `%` or `_` is the case-insensitive
   * substring test.
   */
  lemma {:induction false} SurroundedILikeIsContains(s: string, t: string)
    requires !HasWildcard(t)
    ensures ILike(s, "%" + t + "%") <==> Contains(ToLower(s), ToLower(t))
  {
    LowerSurrounded(t);
    LowerKeepsWildcards(t);
    SurroundedPatternIsContains(ToLower(s), ToLower(t));
  }
}
