/**
 * The regular expression /[-]?[\d]+/ that SPNToMidiNum uses to find the
 * octave (index.js:215), and the semantics of `String.prototype.match` with
 * it: the leftmost position where a match can start, and from there an
 * optional minus sign followed by the longest run of digits.
 */
module OctavePattern {
  import opened Outcomes
  import opened Decimal

  /** A match of /[-]?[\d]+/ can start at position i: a digit, or a minus
      sign followed by a digit (a lone '-' backtracks and fails). */
  predicate StartsAt(s: string, i: int) {
    0 <= i < |s| && (IsDigit(s[i]) || (s[i] == '-' && i + 1 < |s| && IsDigit(s[i + 1])))
  }

  /** The end of the run of digits that starts at i (greedy `[\d]+`). */
  function DigitRunEnd(s: string, i: nat): (e: nat)
    requires i <= |s|
    ensures i <= e <= |s|
    ensures forall k :: i <= k < e ==> IsDigit(s[k])
    ensures e == |s| || !IsDigit(s[e])
    decreases |s| - i
  {
    if i < |s| && IsDigit(s[i]) then DigitRunEnd(s, i + 1) else i
  }

  /** The first match at or after position i, as a half-open range. */
  function FindFrom(s: string, i: nat): (m: Option<(nat, nat)>)
    requires i <= |s|
    ensures m.None? ==> forall q :: i <= q < |s| ==> !StartsAt(s, q)
    ensures m.Some? ==>
              && i <= m.value.0 && StartsAt(s, m.value.0)
              && (forall q :: i <= q < m.value.0 ==> !StartsAt(s, q))
              && m.value.1 == DigitRunEnd(s, if s[m.value.0] == '-' then m.value.0 + 1 else m.value.0)
    decreases |s| - i
  {
    if i == |s| then None
    else if StartsAt(s, i) then Some((i, DigitRunEnd(s, if s[i] == '-' then i + 1 else i)))
    else FindFrom(s, i + 1)
  }

  /** `s.match(/[-]?[\d]+/)`, as the range [p, e) of the match: there is no
      match exactly when s holds no digit; otherwise the match is an integer
      token, nothing matches further left, and the digits run to the end of
      s or to a non-digit. */
  function Find(s: string): (m: Option<(nat, nat)>)
    ensures m.None? <==> !HasDigit(s)
    ensures m.Some? ==>
              var (p, e) := m.value;
              && p < e <= |s|
              && IsIntegerToken(s[p..e])
              && StartsAt(s, p)
              && (forall q :: 0 <= q < p ==> !StartsAt(s, q))
              && (e == |s| || !IsDigit(s[e]))
  {
    var m := FindFrom(s, 0);
    if m.None? then
      assert forall k :: 0 <= k < |s| ==> !IsDigit(s[k]) by {
        forall k | 0 <= k < |s| ensures !IsDigit(s[k]) {
          assert !StartsAt(s, k);
        }
      }
      m
    else
      var (p, e) := m.value;
      var t := s[p..e];
      assert s[p] == '-' ==> t[1..] == s[p + 1..e];
      assert HasDigit(s) by {
        if s[p] == '-' { assert IsDigit(s[p + 1]); } else { assert IsDigit(s[p]); }
      }
      m
  }
}
