/**
 * The module-level constants of index.js that the 12-tone notation uses, and
 * its `mod` helper.
 */
module NEt {
  import opened JsBuiltins

  /** Notes per octave of the 12-tone tuning. */
  const NotesPerOctDefault: int := 12

  /** The 12-tone pitch classes spelled with sharps; the index of a name is
      its distance in semitones above C. */
  const PitchClassTable: seq<string> :=
    ["C", "C#", "D", "D#", "E", "F", "F#", "G", "G#", "A", "A#", "B"]

  /** Flat spellings and the sharp names they are enharmonic to. */
  const PitchClassTranslationTable: map<string, string> :=
    map["Db" := "C#", "Eb" := "D#", "Gb" := "F#", "Ab" := "G#", "Bb" := "A#"]

  /** `((n % m) + m) % m` with JavaScript's truncating `%`: the floored
      modulo, which takes the sign of the divisor, so that for m = 12 every
      integer, negative ones included, lands in 0..11. */
  function Mod(n: int, m: int): (r: int)
    requires m != 0
    ensures r == n - m * FloorDiv(n, m)
    ensures m > 0 ==> 0 <= r < m
    ensures m < 0 ==> m < r <= 0
  {
    ModIsFloored(n, m);
    TruncRem(TruncRem(n, m) + m, m)
  }

  /** Adding m before the second `%` moves the truncated remainder to the
      divisor's side of zero; the two quotients together give the floored
      quotient. */
  lemma ModIsFloored(n: int, m: int)
    requires m != 0
    ensures var r := TruncRem(TruncRem(n, m) + m, m);
            && r == n - m * FloorDiv(n, m)
            && (m > 0 ==> 0 <= r < m)
            && (m < 0 ==> m < r <= 0)
  {
    var t := TruncRem(n, m);
    var r := TruncRem(t + m, m);
    var q1 := TruncQuot(n, m);
    var q2 := TruncQuot(t + m, m);
    if m > 0 {
      assert -m < t < m;
      assert 0 <= r < m;
    } else {
      assert m < t < -m;
      assert m < r <= 0;
    }
    QuotientsAdd(m, q1, q2);
    FloorDivUnique(n, m, q1 + q2 - 1);
  }

  lemma QuotientsAdd(m: int, q1: int, q2: int)
    ensures m * (q1 + q2 - 1) == m * q1 + m * q2 - m
  {
  }

  /** No name appears twice in the pitch-class table. */
  lemma PitchClassTableDistinct()
    ensures |PitchClassTable| == NotesPerOctDefault
    ensures forall i, j :: 0 <= i < j < |PitchClassTable| ==> PitchClassTable[i] != PitchClassTable[j]
  {
  }

  /** Looking a table entry up again gives its own index back. */
  lemma IndexOfPitchClass(k: int)
    requires 0 <= k < |PitchClassTable|
    ensures IndexOf(PitchClassTable, PitchClassTable[k]) == k
  {
    PitchClassTableDistinct();
  }

  /** The shape of a sharp name: a natural C, D, E, F, G, A or B, or one of
      C, D, F, G, A followed by '#'. */
  predicate IsSharpSpelling(name: string) {
    || (|name| == 1 && name[0] in "CDEFGAB")
    || (|name| == 2 && name[0] in "CDFGA" && name[1] == '#')
  }

  /** The shape of a flat spelling of the translation table: a letter
      followed by 'b'. */
  predicate IsFlatSpelling(name: string) {
    |name| == 2 && name[0] in "DEGAB" && name[1] == 'b'
  }

  /** Every entry of the pitch-class table has the shape of a sharp name. */
  lemma PitchClassTableSpellings()
    ensures forall k :: 0 <= k < |PitchClassTable| ==> IsSharpSpelling(PitchClassTable[k])
  {
  }

  /** Every key of the translation table has the shape of a flat spelling. */
  lemma TranslationKeySpellings()
    ensures forall f :: f in PitchClassTranslationTable ==> IsFlatSpelling(f)
  {
  }

  /** Every flat spelling translates to a sharp name of the table, and no
      flat spelling is itself a table name. */
  lemma TranslationTargetsSharps()
    ensures forall f :: f in PitchClassTranslationTable ==>
              PitchClassTranslationTable[f] in PitchClassTable && f !in PitchClassTable
  {
  }

  /** Every sharp name the translation table produces has two characters. */
  lemma TranslationSharpSpellings()
    ensures forall f :: f in PitchClassTranslationTable ==>
              IsSharpSpelling(PitchClassTranslationTable[f]) && |PitchClassTranslationTable[f]| == 2
  {
  }
}
