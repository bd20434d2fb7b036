/** SQLite's `LIKE` operator as `search_book` (src/database.rs) uses it: `%`
    matches any run of characters, `_` any single character, and every other
    pattern character matches itself, ignoring the case of ASCII letters.
    No escape character is set. */
module SqlLike {

  /** ASCII upper-case letters folded to lower case; everything else unchanged. */
  function Fold(c: char): char {
    if 'A' <= c <= 'Z' then (c as int + 32) as char else c
  }

  /** `a` equals `b` up to the case of ASCII letters. */
  predicate EqFold(a: string, b: string) {
    |a| == |b| && forall i :: 0 <= i < |a| ==> Fold(a[i]) == Fold(b[i])
  }

  predicate WildcardFree(q: string) {
    forall i :: 0 <= i < |q| ==> q[i] != '%' && q[i] != '_'
  }

  /** `s LIKE p`. */
  function Like(s: string, p: string): bool
    decreases |s| + |p|
  {
    if p == [] then s == []
    else if p[0] == '%' then Like(s, p[1..]) || (s != [] && Like(s[1..], p))
    else s != [] && (p[0] == '_' || Fold(s[0]) == Fold(p[0])) && Like(s[1..], p[1..])
  }

  /** `format!("%{}%", q)`: the pattern that asks for `q` anywhere in the text. */
  function Pattern(q: string): (p: string)
    ensures |p| == |q| + 2 && p[0] == '%' && p[|p| - 1] == '%'
  {
    "%" + q + "%"
  }

  /** `t` starts with `q`, up to the case of ASCII letters. */
  predicate StartsWithFold(t: string, q: string) {
    |q| <= |t| && EqFold(t[..|q|], q)
  }

  /** `q` occurs in `s` at some position, up to the case of ASCII letters. */
  predicate ContainsFold(s: string, q: string) {
    exists i :: 0 <= i <= |s| && StartsWithFold(s[i..], q)
  }

  /** A lone `%` matches every text. */
  lemma {:induction false} PercentMatchesAll(s: string)
    ensures Like(s, "%")
  {
    if s != [] {
      PercentMatchesAll(s[1..]);
    }
  }

  /** A wildcard-free `q` followed by `%` matches exactly the texts that start with `q`. */
  lemma {:induction false} PrefixThenPercent(s: string, q: string)
    requires WildcardFree(q)
    ensures Like(s, q + "%") <==> StartsWithFold(s, q)
  {
    if q == [] {
      assert q + "%" == "%";
      PercentMatchesAll(s);
    } else {
      assert (q + "%")[1..] == q[1..] + "%";
      if s != [] {
        PrefixThenPercent(s[1..], q[1..]);
        if |q| <= |s| {
          assert s[..|q|] == [s[0]] + s[1..][..|q| - 1];
          if EqFold(s[1..][..|q| - 1], q[1..]) && Fold(s[0]) == Fold(q[0]) {
            assert EqFold(s[..|q|], q);
          }
          if EqFold(s[..|q|], q) {
            assert Fold(s[0]) == Fold(q[0]);
            assert EqFold(s[1..][..|q| - 1], q[1..]) by {
              forall i | 0 <= i < |q| - 1
                ensures Fold(s[1..][..|q| - 1][i]) == Fold(q[1..][i])
              {
                assert s[1..][..|q| - 1][i] == s[..|q|][i + 1];
              }
            }
          }
        }
      }
    }
  }

  /** A leading `%` lets the rest of the pattern match any suffix. */
  lemma {:induction false} PercentThen(s: string, r: string)
    ensures Like(s, "%" + r) <==> exists i :: 0 <= i <= |s| && Like(s[i..], r)
  {
    assert ("%" + r)[1..] == r;
    if s == [] {
      assert s[0..] == s;
    } else {
      PercentThen(s[1..], r);
      if Like(s, "%" + r) {
        if Like(s, r) {
          assert s[0..] == s;
        } else {
          var i :| 0 <= i <= |s[1..]| && Like(s[1..][i..], r);
          assert s[1..][i..] == s[i + 1..];
        }
      } else {
        forall i | 0 <= i <= |s|
          ensures !Like(s[i..], r)
        {
          if i == 0 {
            assert s[0..] == s;
          } else {
            assert s[1..][i - 1..] == s[i..];
          }
        }
      }
    }
  }

  /** For a wildcard-free query, `LIKE '%q%'` is case-insensitive substring search. */
  lemma LikeIsSubstring(s: string, q: string)
    requires WildcardFree(q)
    ensures Like(s, Pattern(q)) <==> ContainsFold(s, q)
  {
    assert Pattern(q) == "%" + (q + "%");
    PercentThen(s, q + "%");
    forall i | 0 <= i <= |s|
      ensures Like(s[i..], q + "%") <==> StartsWithFold(s[i..], q)
    {
      PrefixThenPercent(s[i..], q);
    }
  }

  /** An empty query, `LIKE '%%'`, matches every text. */
  lemma EmptyQueryMatchesAll(s: string)
    ensures Like(s, Pattern(""))
  {
    assert Pattern("") == "%" + "%";
    PercentMatchesAll(s);
    PercentThen(s, "%");
    assert s[|s|..] == [];
    PercentMatchesAll([]);
  }
}
