/**
 * The JavaScript built-ins that the notation layer of index.js relies on, on
 * integer-valued numbers and on strings: the `%` operator, `Math.floor` of a
 * quotient, `Array.prototype.indexOf`, and `String.prototype.replace` with a
 * string pattern (which replaces the first occurrence only).
 */
module JsBuiltins {

  function Abs(x: int): nat {
    if x < 0 then -x else x
  }

  /** The quotient that goes with JavaScript's `%`: rounded toward zero. */
  function TruncQuot(n: int, m: int): int
    requires m != 0
  {
    var q := Abs(n) / Abs(m);
    if (n < 0) == (m < 0) then q else -q
  }

  /** JavaScript's `%` on integers: the remainder of division rounded toward
      zero, so it takes the sign of the dividend. */
  function TruncRem(n: int, m: int): (r: int)
    requires m != 0
    ensures n == m * TruncQuot(n, m) + r
    ensures Abs(r) < Abs(m)
    ensures r == 0 || (r < 0 <==> n < 0)
  {
    var a := Abs(n) % Abs(m);
    var q := Abs(n) / Abs(m);
    assert Abs(n) == Abs(m) * q + a;
    if n < 0 then
      assert n == -(Abs(m) * q) - a;
      if m < 0 then
        assert m * q == -(Abs(m) * q);
        -a
      else
        assert m * -q == -(Abs(m) * q);
        -a
    else
      if m < 0 then
        assert m * -q == Abs(m) * q;
        a
      else
        a
  }

  /** `Math.floor(n / d)`: the largest integer q with q <= n / d. For d < 0
      multiplying through by d reverses the inequalities. */
  function FloorDiv(n: int, d: int): (q: int)
    requires d != 0
    ensures d > 0 ==> d * q <= n < d * q + d
    ensures d < 0 ==> d * q + d < n <= d * q
  {
    if d > 0 then n / d else (-n) / (-d)
  }

  /** Every integer q that satisfies the floor inequalities is FloorDiv(n, d). */
  lemma FloorDivUnique(n: int, d: int, q: int)
    requires d != 0
    requires d > 0 ==> d * q <= n < d * q + d
    requires d < 0 ==> d * q + d < n <= d * q
    ensures FloorDiv(n, d) == q
  {
    var f := FloorDiv(n, d);
    if f < q {
      MulMonotone(d, f + 1, q);
    } else if q < f {
      MulMonotone(d, q + 1, f);
    }
  }

  /** For a <= b, d * a and d * b are ordered as d's sign says. */
  lemma MulMonotone(d: int, a: int, b: int)
    requires a <= b
    ensures d > 0 ==> d * a <= d * b
    ensures d < 0 ==> d * b <= d * a
  {
    var k := b - a;
    assert d * b == d * a + d * k;
  }

  /** `Array.prototype.indexOf`: the first index holding x, or -1 when no
      element is x. */
  function IndexOf<T(==)>(s: seq<T>, x: T): (i: int)
    ensures -1 <= i < |s|
    ensures i == -1 ==> forall j :: 0 <= j < |s| ==> s[j] != x
    ensures 0 <= i ==> s[i] == x && forall j :: 0 <= j < i ==> s[j] != x
    decreases |s|
  {
    if s == [] then -1
    else if s[0] == x then 0
    else
      var j := IndexOf(s[1..], x);
      if j == -1 then -1 else j + 1
  }

  /** indexOf finds x exactly when x is an element. */
  lemma IndexOfMembership<T>(s: seq<T>, x: T)
    ensures IndexOf(s, x) == -1 <==> x !in s
  {
  }

  /** pat occurs in s starting at position j. */
  predicate OccursAt(s: string, pat: string, j: int) {
    0 <= j && j + |pat| <= |s| && s[j..j + |pat|] == pat
  }

  /** `String.prototype.indexOf(pat)`: the first position where pat occurs
      in s, or -1. */
  function FirstOccurrence(s: string, pat: string): (i: int)
    ensures i == -1 || 0 <= i <= |s| - |pat|
    ensures 0 <= i ==> OccursAt(s, pat, i) && forall j :: 0 <= j < i ==> !OccursAt(s, pat, j)
    ensures i == -1 ==> forall j :: !OccursAt(s, pat, j)
  {
    FirstOccurrenceFrom(s, pat, 0)
  }

  function FirstOccurrenceFrom(s: string, pat: string, from: nat): (i: int)
    ensures i == -1 || (from <= i <= |s| - |pat|)
    ensures 0 <= i ==> OccursAt(s, pat, i) && forall j :: from <= j < i ==> !OccursAt(s, pat, j)
    ensures i == -1 ==> forall j :: from <= j ==> !OccursAt(s, pat, j)
    decreases |s| - from
  {
    if from + |pat| > |s| then -1
    else if s[from..from + |pat|] == pat then from
    else FirstOccurrenceFrom(s, pat, from + 1)
  }

  /** `s.replace(pat, rep)` with a string pattern: the first occurrence of
      pat is replaced by rep; a string in which pat does not occur comes back
      unchanged. */
  function ReplaceFirst(s: string, pat: string, rep: string): (r: string)
    ensures (forall j :: !OccursAt(s, pat, j)) ==> r == s
    ensures forall i :: OccursAt(s, pat, i) && (forall j :: 0 <= j < i ==> !OccursAt(s, pat, j)) ==>
              r == s[..i] + rep + s[i + |pat|..]
  {
    var i := FirstOccurrence(s, pat);
    if i == -1 then s else s[..i] + rep + s[i + |pat|..]
  }

  /** Where a one-character pattern occurs, s holds that character. */
  lemma CharOccurrence(s: string, c: char)
    ensures forall j :: OccursAt(s, [c], j) ==> j < |s| && s[j] == c
  {
    forall j | OccursAt(s, [c], j)
      ensures j < |s| && s[j] == c
    {
      assert s[j] == s[j..j + 1][0];
    }
  }

  /** A one-character pattern that s does not contain occurs nowhere in s, so
      replacing it leaves s unchanged. */
  lemma ReplaceAbsent(s: string, c: char, rep: string)
    requires c !in s
    ensures forall j :: !OccursAt(s, [c], j)
    ensures ReplaceFirst(s, [c], rep) == s
  {
    CharOccurrence(s, c);
  }

  /** Replacing a one-character pattern whose first occurrence is at i
      rewrites exactly position i. */
  lemma ReplaceAt(s: string, i: nat, c: char, rep: string)
    requires i < |s| && s[i] == c && c !in s[..i]
    ensures ReplaceFirst(s, [c], rep) == s[..i] + rep + s[i + 1..]
  {
    CharOccurrence(s, c);
    assert OccursAt(s, [c], i) by {
      assert s[i..i + 1] == [c];
    }
    forall j | 0 <= j < i
      ensures !OccursAt(s, [c], j)
    {
      assert s[..i][j] == s[j];
    }
    assert FirstOccurrence(s, [c]) == i;
  }
}
