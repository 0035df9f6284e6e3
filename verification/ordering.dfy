/**
  Text ordering and the `ORDER BY ... DESC` every store applies to its listings.
  Strings compare lexicographically by code point, which is how SQLite compares
  TEXT under its default binary collation.
 */
module Ordering {
  import Seqs

  /** `a <= b` in lexicographic code-point order. */
  predicate StrLe(a: string, b: string)
    decreases |a|
  {
    |a| == 0 || (|b| > 0 && (a[0] < b[0] || (a[0] == b[0] && StrLe(a[1..], b[1..]))))
  }

  lemma {:induction false} StrLeRefl(a: string)
    ensures StrLe(a, a)
  {
    if |a| > 0 {
      StrLeRefl(a[1..]);
    }
  }

  lemma {:induction false} StrLeTotal(a: string, b: string)
    ensures StrLe(a, b) || StrLe(b, a)
  {
    if |a| > 0 && |b| > 0 && a[0] == b[0] {
      StrLeTotal(a[1..], b[1..]);
    }
  }

  lemma {:induction false} StrLeTrans(a: string, b: string, c: string)
    requires StrLe(a, b) && StrLe(b, c)
    ensures StrLe(a, c)
  {
    if |a| > 0 && a[0] == b[0] && b[0] == c[0] {
      StrLeTrans(a[1..], b[1..], c[1..]);
    }
  }

  /** Every element's key is at least the key of every element after it. */
  predicate SortedDesc<T>(s: seq<T>, key: T -> string) {
    forall i, j :: 0 <= i < j < |s| ==> StrLe(key(s[j]), key(s[i]))
  }

  /** Places `x` in front of the first element whose key does not exceed its own. */
  function Insert<T(==)>(x: T, s: seq<T>, key: T -> string): (r: seq<T>)
    ensures |r| == |s| + 1
    ensures multiset(r) == multiset(s) + multiset{x}
  {
    if |s| == 0 then [x]
    else if StrLe(key(s[0]), key(x)) then [x] + s
    else
      assert s == [s[0]] + s[1..];
      [s[0]] + Insert(x, s[1..], key)
  }

  /** Inserting a key no greater than `b` into keys no greater than `b` keeps them all below `b`. */
  lemma {:induction false} InsertBelow<T>(x: T, s: seq<T>, key: T -> string, b: string)
    requires forall k :: 0 <= k < |s| ==> StrLe(key(s[k]), b)
    requires StrLe(key(x), b)
    ensures forall k :: 0 <= k < |Insert(x, s, key)| ==> StrLe(key(Insert(x, s, key)[k]), b)
  {
    if |s| > 0 && !StrLe(key(s[0]), key(x)) {
      InsertBelow(x, s[1..], key, b);
      assert Insert(x, s, key) == [s[0]] + Insert(x, s[1..], key);
    }
  }

  lemma {:induction false} InsertSorted<T>(x: T, s: seq<T>, key: T -> string)
    requires SortedDesc(s, key)
    ensures SortedDesc(Insert(x, s, key), key)
  {
    var r := Insert(x, s, key);
    if |s| == 0 {
    } else if StrLe(key(s[0]), key(x)) {
      forall i, j | 0 <= i < j < |r|
        ensures StrLe(key(r[j]), key(r[i]))
      {
        if i == 0 && j > 1 {
          StrLeTrans(key(s[j - 1]), key(s[0]), key(x));
        }
      }
    } else {
      StrLeTotal(key(s[0]), key(x));
      InsertSorted(x, s[1..], key);
      InsertBelow(x, s[1..], key, key(s[0]));
      var t := Insert(x, s[1..], key);
      assert r == [s[0]] + t;
      forall i, j | 0 <= i < j < |r|
        ensures StrLe(key(r[j]), key(r[i]))
      {
        if i > 0 {
          assert r[i] == t[i - 1] && r[j] == t[j - 1];
        }
      }
    }
  }

  /** `ORDER BY key DESC`: an insertion sort on descending keys. */
  function SortDesc<T(==)>(s: seq<T>, key: T -> string): (r: seq<T>)
    ensures multiset(r) == multiset(s)
    ensures |r| == |s|
    ensures SortedDesc(r, key)
  {
    if |s| == 0 then []
    else
      assert s == [s[0]] + s[1..];
      var rest := SortDesc(s[1..], key);
      InsertSorted(s[0], rest, key);
      Insert(s[0], rest, key)
  }

  /**
    `SELECT ... WHERE p ORDER BY key DESC`: exactly the rows satisfying `p`, each as
    often as it is stored, newest key first. Rows with equal keys come back in an
    order SQL leaves unspecified; the model fixes one.
   */
  function SelectDesc<T(==,!new)>(s: seq<T>, p: T -> bool, key: T -> string): (r: seq<T>)
    ensures multiset(r) == multiset(Seqs.Filter(s, p))
    ensures forall x :: x in r <==> x in s && p(x)
    ensures SortedDesc(r, key)
  {
    var f := Seqs.Filter(s, p);
    var r := SortDesc(f, key);
    assert forall x :: x in r <==> x in multiset(r);
    assert forall x :: x in f <==> x in multiset(f);
    r
  }
}

/** SQLite's `LIKE` operator, used by the local stores' e-mail filters. */
module SqlLike {
  import opened Text

  /**
    `s LIKE p` with no ESCAPE clause: `%` matches any run of characters, `_` any
    one character, and other characters match when equal after ASCII lower-casing
    (SQLite's default LIKE ignores case for ASCII letters only).
   */
  predicate Like(s: string, p: string)
    decreases |p|, |s|
  {
    if |p| == 0 then |s| == 0
    else if p[0] == '%' then Like(s, p[1..]) || (|s| > 0 && Like(s[1..], p))
    else if p[0] == '_' then |s| > 0 && Like(s[1..], p[1..])
    else |s| > 0 && LowerChar(s[0]) == LowerChar(p[0]) && Like(s[1..], p[1..])
  }

  predicate NoWildcards(f: string) {
    '%' !in f && '_' !in f
  }

  /** `f` is a prefix of `s` once both are lower-cased (ASCII). */
  predicate PrefixIgnoringCase(s: string, f: string)
    decreases |f|
  {
    |f| == 0 || (|s| > 0 && LowerChar(s[0]) == LowerChar(f[0]) && PrefixIgnoringCase(s[1..], f[1..]))
  }

  /** `f` occurs somewhere in `s` once both are lower-cased (ASCII). */
  predicate ContainsIgnoringCase(s: string, f: string) {
    exists i | 0 <= i <= |s| :: PrefixIgnoringCase(s[i..], f)
  }

  lemma {:induction false} LikePercent(s: string)
    ensures Like(s, "%")
  {
    assert "%"[1..] == "";
    if |s| > 0 {
      LikePercent(s[1..]);
    }
  }

  /** A literal followed by `%` matches exactly the strings it case-insensitively prefixes. */
  lemma {:induction false} LikePrefix(s: string, f: string)
    requires NoWildcards(f)
    ensures Like(s, f + "%") <==> PrefixIgnoringCase(s, f)
  {
    var p := f + "%";
    if |f| == 0 {
      assert p == "%";
      LikePercent(s);
    } else {
      assert f[0] in f;
      assert p[0] == f[0] && p[1..] == f[1..] + "%";
      assert forall c :: c in f[1..] ==> c in f;
      if |s| > 0 {
        LikePrefix(s[1..], f[1..]);
      }
    }
  }

  /** The `LIKE '%f%'` filter is a case-insensitive substring test when `f` has no wildcards. */
  lemma {:induction false} LikeContains(s: string, f: string)
    requires NoWildcards(f)
    ensures Like(s, "%" + f + "%") <==> ContainsIgnoringCase(s, f)
  {
    var p := "%" + f + "%";
    assert p[0] == '%' && p[1..] == f + "%";
    LikePrefix(s, f);
    assert s[0..] == s;
    if |s| == 0 {
      if ContainsIgnoringCase(s, f) {
        var i :| 0 <= i <= |s| && PrefixIgnoringCase(s[i..], f);
        assert i == 0;
      }
    } else {
      LikeContains(s[1..], f);
      if ContainsIgnoringCase(s, f) {
        var i :| 0 <= i <= |s| && PrefixIgnoringCase(s[i..], f);
        if i > 0 {
          assert s[1..][i - 1..] == s[i..];
        }
      }
      if Like(s, p) && !Like(s, f + "%") {
        var i :| 0 <= i <= |s[1..]| && PrefixIgnoringCase(s[1..][i..], f);
        assert s[1..][i..] == s[i + 1..];
      }
    }
  }
}
