/** Optional values: the model's stand-in for `null` / `undefined` fields. */
module Wrappers {

  datatype Option<+T> = None | Some(value: T) {

    /** Returns the value in Some, or the given default when None. */
    function GetOr(default: T): T {
      match this
      case Some(v) => v
      case None => default
    }
  }
}

/** Generic sequence helpers shared by every store: searching, filtering and counting. */
module Seqs {
  import opened Wrappers

  /** The index of the first element satisfying `p` (`Array.findIndex`, or the row `stmt.get` returns). */
  function Find<T>(s: seq<T>, p: T -> bool): (r: Option<nat>)
    ensures r.Some? ==> r.value < |s| && p(s[r.value])
    ensures r.Some? ==> forall j :: 0 <= j < r.value ==> !p(s[j])
    ensures r.None? <==> forall j :: 0 <= j < |s| ==> !p(s[j])
  {
    if |s| == 0 then None
    else if p(s[0]) then Some(0)
    else
      match Find(s[1..], p)
      case None => None
      case Some(i) => Some(i + 1)
  }

  /** The elements of `s` that satisfy `p`, in their original order (JavaScript `Array.filter`). */
  function Filter<T(==,!new)>(s: seq<T>, p: T -> bool): (r: seq<T>)
    ensures |r| <= |s|
    ensures forall x :: x in r <==> x in s && p(x)
    ensures forall i :: 0 <= i < |r| ==> p(r[i])
    ensures multiset(r) <= multiset(s)
  {
    if |s| == 0 then []
    else
      assert s == [s[0]] + s[1..];
      (if p(s[0]) then [s[0]] else []) + Filter(s[1..], p)
  }

  lemma {:induction false} FilterConcat<T(!new)>(a: seq<T>, b: seq<T>, p: T -> bool)
    ensures Filter(a + b, p) == Filter(a, p) + Filter(b, p)
  {
    if |a| == 0 {
      assert a + b == b;
    } else {
      assert (a + b)[1..] == a[1..] + b;
      FilterConcat(a[1..], b, p);
    }
  }

  /** Filtering with a predicate every element satisfies changes nothing. */
  lemma {:induction false} FilterAll<T(!new)>(s: seq<T>, p: T -> bool)
    requires forall i :: 0 <= i < |s| ==> p(s[i])
    ensures Filter(s, p) == s
  {
    if |s| > 0 {
      FilterAll(s[1..], p);
    }
  }

  /** Two positions satisfying `p` leave at least two elements after filtering. */
  lemma {:induction false} FilterAtLeastTwo<T(!new)>(s: seq<T>, p: T -> bool, i: nat, j: nat)
    requires i < j < |s| && p(s[i]) && p(s[j])
    ensures |Filter(s, p)| >= 2
  {
    assert s == [s[0]] + s[1..];
    if i == 0 {
      assert s[1..][j - 1] == s[j];
      assert Filter(s[1..], p) != [];
    } else {
      assert s[1..][i - 1] == s[i] && s[1..][j - 1] == s[j];
      FilterAtLeastTwo(s[1..], p, i - 1, j - 1);
    }
  }

  /** `Array.map` */
  function Map<T, U>(s: seq<T>, f: T -> U): (r: seq<U>)
    ensures |r| == |s|
    ensures forall i :: 0 <= i < |s| ==> r[i] == f(s[i])
  {
    seq(|s|, i requires 0 <= i < |s| => f(s[i]))
  }

  /** Every element satisfying `p` replaced by its image under `f` (an `UPDATE ... WHERE`). */
  function MapWhere<T>(s: seq<T>, p: T -> bool, f: T -> T): (r: seq<T>)
    ensures |r| == |s|
    ensures forall i :: 0 <= i < |s| ==> r[i] == if p(s[i]) then f(s[i]) else s[i]
  {
    seq(|s|, i requires 0 <= i < |s| => if p(s[i]) then f(s[i]) else s[i])
  }

  /**
    Rewriting the elements that satisfy `p` by an `f` that keeps them satisfying it,
    then filtering by `p`, is filtering first and rewriting every survivor.
   */
  lemma {:induction false} FilterMapWhere<T(!new)>(s: seq<T>, p: T -> bool, f: T -> T)
    requires forall x {:trigger f(x)} :: p(x) ==> p(f(x))
    ensures Filter(MapWhere(s, p, f), p) == Map(Filter(s, p), f)
  {
    if |s| > 0 {
      FilterMapWhere(s[1..], p, f);
      FilterMapWhereStep(s, p, f);
    }
  }

  lemma FilterMapWhereStep<T(!new)>(s: seq<T>, p: T -> bool, f: T -> T)
    requires |s| > 0 && (p(s[0]) ==> p(f(s[0])))
    requires Filter(MapWhere(s[1..], p, f), p) == Map(Filter(s[1..], p), f)
    ensures Filter(MapWhere(s, p, f), p) == Map(Filter(s, p), f)
  {
    SplitHead(s);
    MapWhereCons(s, p, f);
    if p(s[0]) {
      FilterMapWhereKeep(s[0], s[1..], MapWhere(s[1..], p, f), p, f);
    } else {
      FilterMapWhereDrop(s[0], s[1..], MapWhere(s[1..], p, f), p, f);
    }
  }

  lemma FilterMapWhereKeep<T(!new)>(x: T, tail: seq<T>, mt: seq<T>, p: T -> bool, f: T -> T)
    requires p(x) && p(f(x))
    requires Filter(mt, p) == Map(Filter(tail, p), f)
    ensures Filter([f(x)] + mt, p) == Map(Filter([x] + tail, p), f)
  {
    FilterCons(f(x), mt, p);
    FilterCons(x, tail, p);
    MapConcat([x], Filter(tail, p), f);
    assert Map([x], f) == [f(x)];
  }

  lemma FilterMapWhereDrop<T(!new)>(x: T, tail: seq<T>, mt: seq<T>, p: T -> bool, f: T -> T)
    requires !p(x)
    requires Filter(mt, p) == Map(Filter(tail, p), f)
    ensures Filter([x] + mt, p) == Map(Filter([x] + tail, p), f)
  {
    FilterCons(x, mt, p);
    FilterCons(x, tail, p);
  }

  lemma SplitHead<T>(s: seq<T>)
    requires |s| > 0
    ensures s == [s[0]] + s[1..]
  {
  }

  /** Removing element `j` commutes with putting an element in front. */
  lemma DropAfterCons<T>(x: T, t: seq<T>, j: nat)
    requires 1 <= j <= |t|
    ensures [x] + (t[..j - 1] + t[j..]) == ([x] + t)[..j] + ([x] + t)[j + 1..]
  {
    assert ([x] + t)[..j] == [x] + t[..j - 1];
    assert ([x] + t)[j + 1..] == t[j..];
  }

  lemma MapWhereCons<T>(s: seq<T>, p: T -> bool, f: T -> T)
    requires |s| > 0
    ensures MapWhere(s, p, f) == [if p(s[0]) then f(s[0]) else s[0]] + MapWhere(s[1..], p, f)
  {
    var r, rt := MapWhere(s, p, f), MapWhere(s[1..], p, f);
    forall i | 1 <= i < |s|
      ensures r[i] == rt[i - 1]
    {
      assert s[1..][i - 1] == s[i];
    }
  }

  lemma FilterCons<T(!new)>(x: T, rest: seq<T>, p: T -> bool)
    ensures Filter([x] + rest, p) == (if p(x) then [x] else []) + Filter(rest, p)
  {
    assert ([x] + rest)[1..] == rest;
  }

  lemma MapConcat<T, U>(a: seq<T>, b: seq<T>, f: T -> U)
    ensures Map(a + b, f) == Map(a, f) + Map(b, f)
  {
    assert Map(a + b, f) == Map(a, f) + Map(b, f);
  }

  /**
    The step of a loop that produces `g(xs[k], pos + k)` for every position `k`:
    the head's image in front of the tail's images.
   */
  lemma ConsIndexed<U, T>(xs: seq<U>, pos: nat, head: T, rest: seq<T>, g: (U, nat) -> T)
    requires |xs| > 0 && |rest| == |xs| - 1 && head == g(xs[0], pos)
    requires forall k :: 0 <= k < |rest| ==> rest[k] == g(xs[1..][k], pos + 1 + k)
    ensures forall k :: 0 <= k < |xs| ==> ([head] + rest)[k] == g(xs[k], pos + k)
  {
    forall k | 0 < k < |xs|
      ensures ([head] + rest)[k] == g(xs[k], pos + k)
    {
      assert xs[1..][k - 1] == xs[k];
      assert pos + 1 + (k - 1) == pos + k;
    }
  }

  /** How many elements of `s` satisfy `p` (the `.filter(...).length` idiom). */
  function Count<T(==,!new)>(s: seq<T>, p: T -> bool): (n: nat)
    ensures n <= |s|
  {
    |Filter(s, p)|
  }
}

/** Character classes and string functions that the source takes from JavaScript. */
module Text {
  import opened Wrappers
  import Seqs

  predicate IsUpper(c: char) { 'A' <= c <= 'Z' }
  predicate IsLower(c: char) { 'a' <= c <= 'z' }
  predicate IsDigit(c: char) { '0' <= c <= '9' }

  /** The class `[a-zA-Z0-9]`. */
  predicate IsAlnum(c: char) { IsUpper(c) || IsLower(c) || IsDigit(c) }

  /** The class `[a-z0-9]`. */
  predicate IsLowerAlnum(c: char) { IsLower(c) || IsDigit(c) }

  /** The characters JavaScript's `\s` and `String.prototype.trim` treat as white space. */
  predicate IsSpace(c: char) {
    || c == '\t' || c == '\n' || c == '\U{000B}' || c == '\U{000C}' || c == '\r' || c == ' '
    || c == '\U{00A0}' || c == '\U{1680}' || ('\U{2000}' <= c <= '\U{200A}')
    || c == '\U{2028}' || c == '\U{2029}' || c == '\U{202F}' || c == '\U{205F}'
    || c == '\U{3000}' || c == '\U{FEFF}'
  }

  /** The characters a regular-expression `.` refuses to match. */
  predicate IsLineTerminator(c: char) {
    c == '\n' || c == '\r' || c == '\U{2028}' || c == '\U{2029}'
  }

  /** ASCII lower-casing of one character. */
  function LowerChar(c: char): (r: char)
    ensures IsUpper(c) ==> IsLower(r)
    ensures !IsUpper(c) ==> r == c
    ensures IsAlnum(c) <==> IsAlnum(r)
    ensures IsAlnum(c) ==> IsLowerAlnum(r)
  {
    if IsUpper(c) then (c as int + 32) as char else c
  }

  function Lower(s: string): (r: string)
    ensures |r| == |s|
    ensures forall i :: 0 <= i < |s| ==> r[i] == LowerChar(s[i])
  {
    seq(|s|, i requires 0 <= i < |s| => LowerChar(s[i]))
  }

  lemma LowerConcat(a: string, b: string)
    ensures Lower(a + b) == Lower(a) + Lower(b)
  {
    assert Lower(a + b) == Lower(a) + Lower(b);
  }

  /** `s.replace(/[^a-zA-Z0-9]/g, '')` */
  function AlnumOnly(s: string): (r: string)
    ensures forall c :: c in r ==> IsAlnum(c)
  {
    Seqs.Filter(s, IsAlnum)
  }

  /** `s.replace(/[^a-z0-9]/g, '')` */
  function LowerAlnumOnly(s: string): (r: string)
    ensures forall c :: c in r ==> IsLowerAlnum(c)
  {
    Seqs.Filter(s, IsLowerAlnum)
  }

  /** `s.substring(0, n)` for a non-negative `n`. */
  function Take(s: string, n: nat): (r: string)
    ensures |r| <= n && |r| <= |s|
    ensures r == s[..|r|]
    ensures |s| <= n ==> r == s
  {
    if |s| <= n then s else s[..n]
  }

  /** Lower-casing and dropping non-alphanumerics commute. */
  lemma {:induction false} LowerAlnumOnlyOfLower(s: string)
    ensures LowerAlnumOnly(Lower(s)) == Lower(AlnumOnly(s))
  {
    if |s| > 0 {
      LowerAlnumOnlyOfLower(s[1..]);
      Seqs.SplitHead(s);
      LowerAlnumOnlyStep(s[0], s[1..]);
    }
  }

  lemma LowerAlnumOnlyStep(c: char, t: string)
    requires LowerAlnumOnly(Lower(t)) == Lower(AlnumOnly(t))
    ensures LowerAlnumOnly(Lower([c] + t)) == Lower(AlnumOnly([c] + t))
  {
    LowerConcat([c], t);
    assert Lower([c]) == [LowerChar(c)];
    Seqs.FilterCons(LowerChar(c), Lower(t), IsLowerAlnum);
    Seqs.FilterCons(c, t, IsAlnum);
    if IsAlnum(c) {
      LowerConcat([c], AlnumOnly(t));
    }
  }

  /** `pat` occurs in `s` starting at index `i`. */
  predicate OccursAt(s: string, pat: string, i: int) {
    0 <= i && i + |pat| <= |s| && s[i..i + |pat|] == pat
  }

  /** `s.includes(pat)` */
  predicate Contains(s: string, pat: string) {
    exists i | 0 <= i <= |s| - |pat| :: OccursAt(s, pat, i)
  }

  function DigitChar(d: nat): (c: char)
    requires d < 10
    ensures IsDigit(c)
  {
    (48 + d) as char
  }

  function DigitValue(c: char): (d: nat)
    requires IsDigit(c)
    ensures d < 10 && DigitChar(d) == c
  {
    c as int - 48
  }

  /** Decimal rendering of a natural number, as template literals print it. */
  function NatToDecimal(n: nat): (r: string)
    ensures |r| > 0
    ensures forall c :: c in r ==> IsDigit(c)
  {
    if n < 10 then [DigitChar(n)] else NatToDecimal(n / 10) + [DigitChar(n % 10)]
  }

  /** Decimal rendering of an integer: a `-` sign in front of negatives. */
  function IntToDecimal(n: int): (r: string)
    ensures |r| > 0
    ensures forall c :: c in r ==> IsDigit(c) || c == '-'
  {
    if n < 0 then "-" + NatToDecimal(-n) else NatToDecimal(n)
  }

  predicate AllDigits(s: string) {
    forall c :: c in s ==> IsDigit(c)
  }

  /** The value of a string of decimal digits. */
  function ParseNat(s: string): nat
    requires AllDigits(s)
  {
    if |s| == 0 then 0
    else
      assert s[|s| - 1] in s;
      ParseNat(s[..|s| - 1]) * 10 + DigitValue(s[|s| - 1])
  }

  /** The value of an optionally signed decimal literal; None for anything else. */
  function ParseInt(s: string): Option<int> {
    if |s| > 1 && s[0] == '-' && AllDigits(s[1..]) then Some(0 - ParseNat(s[1..]))
    else if |s| > 0 && AllDigits(s) then Some(ParseNat(s))
    else None
  }

  lemma {:induction false} ParseNatToDecimal(n: nat)
    ensures ParseNat(NatToDecimal(n)) == n
  {
    var s := NatToDecimal(n);
    if n >= 10 {
      assert s[..|s| - 1] == NatToDecimal(n / 10);
      ParseNatToDecimal(n / 10);
    }
  }

  /** Reading back a rendered integer yields the integer. */
  lemma ParseIntToDecimal(n: int)
    ensures ParseInt(IntToDecimal(n)) == Some(n)
  {
    var s := IntToDecimal(n);
    if n < 0 {
      assert s[1..] == NatToDecimal(-n);
      ParseNatToDecimal(-n);
    } else {
      ParseNatToDecimal(n);
      assert s[0] in s;
    }
  }

  function Base36Digit(d: nat): (c: char)
    requires d < 36
    ensures IsLowerAlnum(c)
  {
    if d < 10 then (48 + d) as char else (97 + d - 10) as char
  }

  /** `n.toString(36)` for a natural number. */
  function NatToBase36(n: nat): (r: string)
    ensures |r| > 0
    ensures forall c :: c in r ==> IsLowerAlnum(c)
  {
    if n < 36 then [Base36Digit(n)] else NatToBase36(n / 36) + [Base36Digit(n % 36)]
  }

  /** `s.split(sep)` for a one-character separator. */
  function Split(s: string, sep: char): (r: seq<string>)
    ensures |r| >= 1
  {
    if |s| == 0 then [""]
    else
      var rest := Split(s[1..], sep);
      if s[0] == sep then [""] + rest
      else [[s[0]] + rest[0]] + rest[1..]
  }

  lemma {:induction false} SplitNoSep(a: string, sep: char)
    requires sep !in a
    ensures Split(a, sep) == [a]
  {
    if |a| > 0 {
      assert a[0] in a;
      assert forall c :: c in a[1..] ==> c in a;
      SplitNoSep(a[1..], sep);
      assert [a[0]] + a[1..] == a;
    }
  }

  /** The fields joined with `sep` between neighbours (a template literal's separators). */
  function Join(fields: seq<string>, sep: char): (r: string)
    requires |fields| >= 1
    ensures |fields| >= 2 ==> |fields[0]| < |r| && r[|fields[0]|] == sep
  {
    if |fields| == 1 then fields[0] else fields[0] + [sep] + Join(fields[1..], sep)
  }

  /** Splitting on a separator no field contains recovers the fields. */
  lemma {:induction false} SplitJoinAll(fields: seq<string>, sep: char)
    requires |fields| >= 1
    requires forall i :: 0 <= i < |fields| ==> sep !in fields[i]
    ensures Split(Join(fields, sep), sep) == fields
  {
    if |fields| == 1 {
      SplitNoSep(fields[0], sep);
    } else {
      SplitJoinAll(fields[1..], sep);
      SplitJoin(fields[0], Join(fields[1..], sep), sep);
      Seqs.SplitHead(fields);
    }
  }

  lemma {:induction false} SplitJoin(a: string, b: string, sep: char)
    requires sep !in a
    ensures Split(a + [sep] + b, sep) == [a] + Split(b, sep)
  {
    var s := a + [sep] + b;
    if |a| == 0 {
      assert s[1..] == b;
    } else {
      assert a[0] in a;
      assert forall c :: c in a[1..] ==> c in a;
      assert s[1..] == a[1..] + [sep] + b;
      SplitJoin(a[1..], b, sep);
      assert [a[0]] + a[1..] == a;
    }
  }
}
