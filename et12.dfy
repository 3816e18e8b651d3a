/**
 * The notation layer of the 12-tone equal temperament (class ET12 of
 * index.js): MIDI note numbers to octave, pitch class and Scientific Pitch
 * Notation (SPN) strings such as "A4" or "C#-2", and SPN strings back to MIDI
 * numbers. MIDI numbers are integers here, so the rounding that
 * midiNumToPitchClass applies first (quantizeMidiNum) leaves them unchanged.
 */
module ET12 {
  import opened Outcomes
  import opened JsBuiltins
  import opened Decimal
  import opened OctavePattern
  import opened NEt

  /** The Unicode sharp and flat signs accepted in pitch-class names. */
  const SharpSign: char := '\U{266F}'
  const FlatSign: char := '\U{266D}'

  /** The SPN octave of a MIDI number: floor(n / 12) - 1, so that octave k
      spans MIDI numbers 12 (k + 1) up to 12 (k + 1) + 11. */
  function MidiNumToOct(midiNum: int): (oct: int)
    ensures NotesPerOctDefault * (oct + 1) <= midiNum < NotesPerOctDefault * (oct + 1) + NotesPerOctDefault
  {
    FloorDiv(midiNum, NotesPerOctDefault) - 1
  }

  /** The pitch-class name of a MIDI number: the table entry at its floored
      remainder modulo 12. */
  function MidiNumToPitchClass(midiNum: int): (pitchClass: string)
  {
    PitchClassTable[Mod(midiNum, NotesPerOctDefault)]
  }

  /** The pitch class of a MIDI number is always a name of the table, and its
      index is how far the number lies above the C that starts its octave,
      so octave and pitch class together give the number back. */
  lemma PitchClassOfMidiNum(midiNum: int)
    ensures MidiNumToPitchClass(midiNum) in PitchClassTable
    ensures (MidiNumToOct(midiNum) + 1) * NotesPerOctDefault + IndexOf(PitchClassTable, MidiNumToPitchClass(midiNum))
         == midiNum
  {
    var k := Mod(midiNum, NotesPerOctDefault);
    IndexOfPitchClass(k);
    FloorDivUnique(midiNum, NotesPerOctDefault, MidiNumToOct(midiNum) + 1);
  }

  /** The SPN string of a MIDI number: pitch class then octave, with no
      separator. */
  function MidiNumToSPN(midiNum: int): string
  {
    MidiNumToPitchClass(midiNum) + IntToString(MidiNumToOct(midiNum))
  }

  /** SPNToMidiNum reads every string MidiNumToSPN writes back to the number
      it was written from, negative octaves included. */
  lemma MidiNumToSPNRoundTrip(midiNum: int)
    ensures SPNToMidiNum(MidiNumToSPN(midiNum)).Ok?
    ensures SPNToMidiNum(MidiNumToSPN(midiNum)).value == midiNum
  {
    var pitchClass := MidiNumToPitchClass(midiNum);
    var oct := MidiNumToOct(midiNum);
    var k := Mod(midiNum, NotesPerOctDefault);
    IndexOfPitchClass(k);
    FloorDivUnique(midiNum, NotesPerOctDefault, oct + 1);
    RecognisedNamesArePlain(pitchClass);
    SpellingIsPlain(pitchClass);
    NormalizedSpellings(pitchClass);
    SPNToMidiNumOfParts(pitchClass, oct);
  }

  predicate HasSign(s: string) {
    SharpSign in s || FlatSign in s
  }

  /** Replaces the first Unicode sharp sign by '#' and the first Unicode flat
      sign by 'b', then maps a flat spelling to its sharp equivalent; a string
      the translation table does not list passes through. */
  function NormalizePitchClass(pitchClass: string): string {
    var replaced := ReplaceFirst(ReplaceFirst(pitchClass, [SharpSign], "#"), [FlatSign], "b");
    if replaced in PitchClassTranslationTable then PitchClassTranslationTable[replaced] else replaced
  }

  /** What normalisation does to the spellings it is meant for: a sharp name
      of the table is kept, a flat spelling becomes its sharp name, and any
      other string without a Unicode sign passes through unchanged. */
  lemma NormalizedSpellings(pitchClass: string)
    ensures pitchClass in PitchClassTable ==> NormalizePitchClass(pitchClass) == pitchClass
    ensures pitchClass in PitchClassTranslationTable ==>
              NormalizePitchClass(pitchClass) == PitchClassTranslationTable[pitchClass]
    ensures !HasSign(pitchClass) && pitchClass !in PitchClassTranslationTable ==>
              NormalizePitchClass(pitchClass) == pitchClass
  {
    RecognisedNamesArePlain(pitchClass);
    if IsSharpSpelling(pitchClass) || IsFlatSpelling(pitchClass) {
      SpellingIsPlain(pitchClass);
    }
    if !HasSign(pitchClass) {
      ReplaceAbsent(pitchClass, SharpSign, "#");
      ReplaceAbsent(pitchClass, FlatSign, "b");
    }
  }

  /** The pitch-class text and the octave of an SPN string: the octave is the
      leftmost match of /[-]?[\d]+/ read as a decimal integer, and replacing
      that match's text by "" removes exactly the match. A string with no
      digit has no octave. */
  function SplitSPN(spn: string): (parts: Option<(string, int)>)
    ensures parts.None? <==> !HasDigit(spn)
    ensures parts.Some? ==>
              var (p, e) := Find(spn).value;
              parts.value == (spn[..p] + spn[e..], ParseInt(spn[p..e]))
  {
    match Find(spn)
    case None => None
    case Some((p, e)) =>
      var octStr := spn[p..e];
      ReplaceRemovesLeftmostMatch(spn, p, e);
      Some((ReplaceFirst(spn, octStr, ""), ParseInt(octStr)))
  }

  /** The MIDI number of an SPN string: (octave + 1) * 12 plus the index of
      the normalised pitch class in the table. A string without a digit has
      no octave and fails. */
  function SPNToMidiNum(spn: string): (r: Result<int>)
    ensures r.Err? <==> !HasDigit(spn)
  {
    match SplitSPN(spn)
    case None => Err(NoOctaveMatch)
    case Some((pitchClass, oct)) =>
      var pitchClassIdx := IndexOf(PitchClassTable, NormalizePitchClass(pitchClass));
      Ok((oct + 1) * NotesPerOctDefault + pitchClassIdx)
  }

  /** A recognised pitch class lands in the 12 numbers of its octave, on the
      table entry of its normalised name; an unrecognised one has index -1
      and gives (octave + 1) * 12 - 1 rather than an error. */
  lemma SPNToMidiNumValue(spn: string)
    requires HasDigit(spn)
    ensures SplitSPN(spn).Some? && SPNToMidiNum(spn).Ok?
    ensures var (pitchClass, oct) := SplitSPN(spn).value;
            var name := NormalizePitchClass(pitchClass);
            var base := (oct + 1) * NotesPerOctDefault;
            var v := SPNToMidiNum(spn).value;
            && (name in PitchClassTable ==>
                  base <= v < base + NotesPerOctDefault && PitchClassTable[v - base] == name)
            && (name !in PitchClassTable ==> v == base - 1)
  {
    var (pitchClass, oct) := SplitSPN(spn).value;
    IndexedEntry(PitchClassTable, NormalizePitchClass(pitchClass), (oct + 1) * NotesPerOctDefault);
  }

  /** Where `indexOf` puts a name relative to a base number. */
  lemma IndexedEntry(table: seq<string>, name: string, base: int)
    ensures name in table ==>
              base <= base + IndexOf(table, name) < base + |table| && table[IndexOf(table, name)] == name
    ensures name !in table ==> base + IndexOf(table, name) == base - 1
  {
  }

  /** Text that cannot take part in a match of the octave pattern when an
      integer token follows it: no digit, and no '-' at its end. */
  predicate IsPlainText(text: string) {
    !HasDigit(text) && (text == [] || text[|text| - 1] != '-')
  }

  /** Reading a pitch-class text followed by a rendered octave: as long as
      the text has no digit and does not end in '-' (which would join the
      octave's pattern), the octave is read back whole and the text is the
      pitch class. */
  lemma SPNToMidiNumOfParts(pitchClass: string, oct: int)
    requires IsPlainText(pitchClass)
    ensures SPNToMidiNum(pitchClass + IntToString(oct)).Ok?
    ensures SPNToMidiNum(pitchClass + IntToString(oct)).value
         == (oct + 1) * NotesPerOctDefault + IndexOf(PitchClassTable, NormalizePitchClass(pitchClass))
  {
    var o := IntToString(oct);
    SPNToMidiNumAround(pitchClass, o, "");
    assert pitchClass + o + "" == pitchClass + o;
    assert pitchClass + "" == pitchClass;
  }

  /** The same with the octave written first: a rendered octave followed by
      text without digits reads as that text followed by the octave. */
  lemma SPNToMidiNumOctaveFirst(pitchClass: string, oct: int)
    requires !HasDigit(pitchClass)
    ensures SPNToMidiNum(IntToString(oct) + pitchClass).Ok?
    ensures SPNToMidiNum(IntToString(oct) + pitchClass).value
         == (oct + 1) * NotesPerOctDefault + IndexOf(PitchClassTable, NormalizePitchClass(pitchClass))
  {
    var o := IntToString(oct);
    SplitSPNAround([], o, pitchClass);
    assert [] + o + pitchClass == o + pitchClass;
    assert [] + pitchClass == pitchClass;
  }

  /** The octave may stand anywhere in the string: an integer token (leading
      zeros and all) with plain text before it and no digit after it is read
      as the octave, and the text around it, joined, is the pitch class. */
  lemma SPNToMidiNumAround(before: string, token: string, after: string)
    requires IsPlainText(before) && IsIntegerToken(token) && !HasDigit(after)
    ensures SPNToMidiNum(before + token + after).Ok?
    ensures SPNToMidiNum(before + token + after).value
         == (ParseInt(token) + 1) * NotesPerOctDefault + IndexOf(PitchClassTable, NormalizePitchClass(before + after))
  {
    SplitSPNAround(before, token, after);
  }

  /** The split behind SPNToMidiNumAround: the token is the octave and
      removing it joins the text around it. */
  lemma SplitSPNAround(before: string, token: string, after: string)
    requires IsPlainText(before) && IsIntegerToken(token) && !HasDigit(after)
    ensures SplitSPN(before + token + after) == Some((before + after, ParseInt(token)))
  {
    var s := before + token + after;
    var n := |before|;
    var m := n + |token|;
    FindAroundPlainText(before, token, after);
    assert s[n..m] == token;
    assert s[..n] + s[m..] == before + after;
  }

  /** With plain text before an integer token and no digit after it, the
      octave pattern matches exactly that token. */
  lemma FindAroundPlainText(text: string, token: string, rest: string)
    requires IsPlainText(text) && IsIntegerToken(token) && !HasDigit(rest)
    ensures Find(text + token + rest) == Some((|text|, |text| + |token|))
  {
    var s := text + token + rest;
    var n := |text|;
    var m := n + |token|;
    assert StartsAt(s, n) by {
      assert s[n] == token[0];
      if token[0] == '-' {
        assert s[n + 1] == token[1] == token[1..][0];
      }
    }
    forall q | 0 <= q < n
      ensures !StartsAt(s, q)
    {
      assert s[q] == text[q];
      if text[q] == '-' {
        assert s[q + 1] == text[q + 1];
      }
    }
    forall k | n < k < m
      ensures IsDigit(s[k])
    {
      assert s[k] == token[k - n];
      if token[0] == '-' {
        assert token[1..][k - n - 1] == token[k - n];
      }
    }
    if m < |s| {
      assert s[m] == rest[0];
    }
    var (p, e) := Find(s).value;
    assert p == n;
  }

  /** A sharp name or a flat spelling is made of a letter and '#' or 'b':
      no digit, no trailing '-' and no Unicode sign. */
  lemma SpellingIsPlain(name: string)
    requires IsSharpSpelling(name) || IsFlatSpelling(name)
    ensures |name| > 0 && IsPlainText(name) && !HasSign(name)
  {
  }

  /** The names SPNToMidiNum recognises without help from the Unicode signs:
      table names are sharp spellings and no key of the translation table;
      translation keys are flat spellings. */
  lemma RecognisedNamesArePlain(name: string)
    ensures name in PitchClassTable ==>
              IsSharpSpelling(name) && !IsFlatSpelling(name) && name !in PitchClassTranslationTable
    ensures name in PitchClassTranslationTable ==> IsFlatSpelling(name)
  {
    PitchClassTableSpellings();
    TranslationKeySpellings();
  }

  /** An integer token found in s at j means the octave pattern can start a
      match at j. */
  lemma TokenOccurrenceStartsMatch(s: string, t: string, j: int)
    requires IsIntegerToken(t)
    requires OccursAt(s, t, j)
    ensures StartsAt(s, j)
  {
    assert s[j] == t[0];
    if t[0] == '-' {
      assert s[j + 1] == t[1];
      assert t[1..][0] == t[1];
    }
  }

  /** `replace(octStr, "")` with the text of the leftmost match removes that
      match itself: no earlier occurrence of the same text exists, since it
      would be an earlier match. */
  lemma ReplaceRemovesLeftmostMatch(s: string, p: nat, e: nat)
    requires p < e <= |s| && IsIntegerToken(s[p..e])
    requires forall q :: 0 <= q < p ==> !StartsAt(s, q)
    ensures ReplaceFirst(s, s[p..e], "") == s[..p] + s[e..]
  {
    var t := s[p..e];
    assert OccursAt(s, t, p);
    forall j | 0 <= j < p
      ensures !OccursAt(s, t, j)
    {
      if OccursAt(s, t, j) {
        TokenOccurrenceStartsMatch(s, t, j);
      }
    }
    assert s[..p] + "" + s[p + |t|..] == s[..p] + s[e..];
  }


}
