/**
 * Properties of the 12-tone notation layer that relate several calls:
 * periodicity of octave and pitch class, enharmonic spellings, the
 * canonical round trip from SPN strings, what an unrecognised pitch class
 * reads as, and the concrete values the test suite checks.
 */
module ET12Laws {
  import opened JsBuiltins
  import opened Decimal
  import opened NEt
  import opened ET12

  /** Twelve MIDI numbers up is exactly one octave up. */
  lemma OctaveStep(midiNum: int)
    ensures MidiNumToOct(midiNum + NotesPerOctDefault) == MidiNumToOct(midiNum) + 1
  {
  }

  /** Twelve MIDI numbers up is the same pitch class. */
  lemma PitchClassPeriodic(midiNum: int)
    ensures MidiNumToPitchClass(midiNum + NotesPerOctDefault) == MidiNumToPitchClass(midiNum)
  {
    var a := MidiNumToPitchClass(midiNum);
    var b := MidiNumToPitchClass(midiNum + NotesPerOctDefault);
    OctaveStep(midiNum);
    var i := IndexOf(PitchClassTable, a);
    assert IndexOf(PitchClassTable, b) == i;
    assert PitchClassTable[i] == a && PitchClassTable[i] == b;
  }

  /** The number at index k of octave oct is written as the k-th table name
      followed by the octave. */
  lemma MidiNumToSPNOfIndex(oct: int, k: int)
    requires 0 <= k < NotesPerOctDefault
    ensures MidiNumToOct((oct + 1) * NotesPerOctDefault + k) == oct
    ensures MidiNumToPitchClass((oct + 1) * NotesPerOctDefault + k) == PitchClassTable[k]
    ensures MidiNumToSPN((oct + 1) * NotesPerOctDefault + k) == PitchClassTable[k] + IntToString(oct)
  {
    FloorDivUnique((oct + 1) * NotesPerOctDefault + k, NotesPerOctDefault, oct + 1);
  }

  /** MIDI 60 is middle C: octave 4, written C4. */
  lemma MiddleC()
    ensures MidiNumToOct(60) == 4
    ensures MidiNumToSPN(60) == "C4"
  {
    MidiNumToSPNOfIndex(4, 0);
    assert IntToString(4) == "4";
  }

  /** MIDI 69 is the concert A, written A4. */
  lemma ConcertA()
    ensures MidiNumToSPN(69) == "A4"
  {
    MidiNumToSPNOfIndex(4, 9);
    assert IntToString(4) == "4";
  }

  /** Writing x into text at position i. */
  function Insert(text: string, i: nat, x: char): (s: string)
    requires i <= |text|
    ensures |s| == |text| + 1 && s[i] == x && s[..i] == text[..i] && s[i + 1..] == text[i..]
    ensures forall c :: c in s <==> c == x || c in text
  {
    assert text == text[..i] + text[i..];
    text[..i] + [x] + text[i..]
  }

  /** In a name without Unicode signs, a Unicode sharp sign written where the
      ASCII '#' would stand changes nothing after normalisation. */
  lemma SharpSignSpelling(text: string, i: nat)
    requires !HasSign(text) && i <= |text|
    ensures NormalizePitchClass(Insert(text, i, SharpSign)) == NormalizePitchClass(Insert(text, i, '#'))
  {
    var signed := Insert(text, i, SharpSign);
    var plain := Insert(text, i, '#');
    assert SharpSign !in signed[..i] by {
      assert signed[..i] == text[..i];
      assert forall c :: c in text[..i] ==> c in text;
    }
    ReplaceAt(signed, i, SharpSign, "#");
    assert ReplaceFirst(signed, [SharpSign], "#") == plain;
    ReplaceAbsent(plain, SharpSign, "#");
    ReplaceAbsent(plain, FlatSign, "b");
  }

  /** In a name without Unicode signs, a Unicode flat sign written where the
      ASCII 'b' would stand changes nothing after normalisation. */
  lemma FlatSignSpelling(text: string, i: nat)
    requires !HasSign(text) && i <= |text|
    ensures NormalizePitchClass(Insert(text, i, FlatSign)) == NormalizePitchClass(Insert(text, i, 'b'))
  {
    var signed := Insert(text, i, FlatSign);
    var plain := Insert(text, i, 'b');
    ReplaceAbsent(signed, SharpSign, "#");
    assert FlatSign !in signed[..i] by {
      assert signed[..i] == text[..i];
      assert forall c :: c in text[..i] ==> c in text;
    }
    ReplaceAt(signed, i, FlatSign, "b");
    assert ReplaceFirst(signed, [FlatSign], "b") == plain;
    ReplaceAbsent(plain, SharpSign, "#");
    ReplaceAbsent(plain, FlatSign, "b");
  }

  /** Every flat spelling of the translation table normalises to its sharp
      name, and the sharp name is kept. */
  lemma EnharmonicNames(flat: string)
    requires flat in PitchClassTranslationTable
    ensures NormalizePitchClass(flat) == PitchClassTranslationTable[flat]
    ensures NormalizePitchClass(PitchClassTranslationTable[flat]) == PitchClassTranslationTable[flat]
  {
    TranslationTargetsSharps();
    NormalizedSpellings(flat);
    NormalizedSpellings(PitchClassTranslationTable[flat]);
  }

  /** A flat spelling written with the Unicode flat sign normalises as the
      ASCII spelling does. */
  lemma UnicodeFlatSpelling(flat: string)
    requires IsFlatSpelling(flat)
    ensures NormalizePitchClass([flat[0], FlatSign]) == NormalizePitchClass(flat)
  {
    SpellingIsPlain(flat);
    assert !HasSign(flat[..1]);
    FlatSignSpelling(flat[..1], 1);
    assert Insert(flat[..1], 1, 'b') == flat;
    assert Insert(flat[..1], 1, FlatSign) == [flat[0], FlatSign];
  }

  /** A sharp name written with the Unicode sharp sign normalises as the
      ASCII name does. */
  lemma UnicodeSharpSpelling(sharp: string)
    requires IsSharpSpelling(sharp) && |sharp| == 2
    ensures NormalizePitchClass([sharp[0], SharpSign]) == NormalizePitchClass(sharp)
  {
    SpellingIsPlain(sharp);
    assert !HasSign(sharp[..1]);
    SharpSignSpelling(sharp[..1], 1);
    assert Insert(sharp[..1], 1, '#') == sharp;
    assert Insert(sharp[..1], 1, SharpSign) == [sharp[0], SharpSign];
  }

  /** With the Unicode signs: the letter of a flat spelling followed by the
      flat sign, and the letter of its sharp name followed by the sharp sign,
      both normalise to the sharp name. */
  lemma UnicodeEnharmonicNames(flat: string)
    requires flat in PitchClassTranslationTable
    ensures |flat| == 2 && |PitchClassTranslationTable[flat]| == 2
    ensures var sharp := PitchClassTranslationTable[flat];
            && NormalizePitchClass([flat[0], FlatSign]) == sharp
            && NormalizePitchClass([sharp[0], SharpSign]) == sharp
  {
    var sharp := PitchClassTranslationTable[flat];
    EnharmonicNames(flat);
    TranslationKeySpellings();
    TranslationSharpSpellings();
    UnicodeFlatSpelling(flat);
    UnicodeSharpSpelling(sharp);
  }

  /** Two pitch-class texts that normalise to the same name read as the same
      MIDI number in every octave. */
  lemma SameNameSameNumber(a: string, b: string, oct: int)
    requires IsPlainText(a) && IsPlainText(b)
    requires NormalizePitchClass(a) == NormalizePitchClass(b)
    ensures SPNToMidiNum(a + IntToString(oct)).Ok? && SPNToMidiNum(b + IntToString(oct)).Ok?
    ensures SPNToMidiNum(a + IntToString(oct)).value == SPNToMidiNum(b + IntToString(oct)).value
  {
    SPNToMidiNumOfParts(a, oct);
    SPNToMidiNumOfParts(b, oct);
  }

  /** A flat spelling of the translation table, ASCII or with the Unicode
      flat sign, reads as the same MIDI number as its sharp name in every
      octave. */
  lemma EnharmonicSPN(flat: string, sharp: string, oct: int)
    requires flat in PitchClassTranslationTable && PitchClassTranslationTable[flat] == sharp
    ensures |flat| == 2
    ensures SPNToMidiNum(flat + IntToString(oct)).Ok? && SPNToMidiNum(sharp + IntToString(oct)).Ok?
    ensures SPNToMidiNum(flat + IntToString(oct)).value == SPNToMidiNum(sharp + IntToString(oct)).value
    ensures SPNToMidiNum([flat[0], FlatSign] + IntToString(oct)).Ok?
    ensures SPNToMidiNum([flat[0], FlatSign] + IntToString(oct)).value == SPNToMidiNum(sharp + IntToString(oct)).value
  {
    EnharmonicNames(flat);
    TranslationKeySpellings();
    TranslationSharpSpellings();
    FlatReadsAsSharp(flat, sharp, oct);
    SignedFlatReadsAsSharp(flat, sharp, oct);
  }

  /** An ASCII flat spelling and a sharp name that normalise alike read as
      the same number in every octave. */
  lemma FlatReadsAsSharp(flat: string, sharp: string, oct: int)
    requires IsFlatSpelling(flat) && IsSharpSpelling(sharp)
    requires NormalizePitchClass(flat) == NormalizePitchClass(sharp)
    ensures SPNToMidiNum(flat + IntToString(oct)).Ok? && SPNToMidiNum(sharp + IntToString(oct)).Ok?
    ensures SPNToMidiNum(flat + IntToString(oct)).value == SPNToMidiNum(sharp + IntToString(oct)).value
  {
    SpellingIsPlain(flat);
    SpellingIsPlain(sharp);
    SameNameSameNumber(flat, sharp, oct);
  }

  /** The same for the flat spelling written with the Unicode flat sign. */
  lemma SignedFlatReadsAsSharp(flat: string, sharp: string, oct: int)
    requires IsFlatSpelling(flat) && IsSharpSpelling(sharp)
    requires NormalizePitchClass(flat) == NormalizePitchClass(sharp)
    ensures SPNToMidiNum([flat[0], FlatSign] + IntToString(oct)).Ok?
    ensures SPNToMidiNum(sharp + IntToString(oct)).Ok?
    ensures SPNToMidiNum([flat[0], FlatSign] + IntToString(oct)).value == SPNToMidiNum(sharp + IntToString(oct)).value
  {
    UnicodeFlatSpelling(flat);
    SignedFlatIsPlain(flat);
    ReadsLikeSharpName([flat[0], FlatSign], sharp, oct);
  }

  /** Plain pitch-class text that normalises as a sharp name does reads as
      that name in every octave. */
  lemma ReadsLikeSharpName(text: string, sharp: string, oct: int)
    requires IsPlainText(text) && IsSharpSpelling(sharp)
    requires NormalizePitchClass(text) == NormalizePitchClass(sharp)
    ensures SPNToMidiNum(text + IntToString(oct)).Ok? && SPNToMidiNum(sharp + IntToString(oct)).Ok?
    ensures SPNToMidiNum(text + IntToString(oct)).value == SPNToMidiNum(sharp + IntToString(oct)).value
  {
    SpellingIsPlain(sharp);
    SameNameSameNumber(text, sharp, oct);
  }

  /** A flat spelling's letter followed by the Unicode flat sign is plain
      text. */
  lemma SignedFlatIsPlain(flat: string)
    requires IsFlatSpelling(flat)
    ensures IsPlainText([flat[0], FlatSign])
  {
    var t := [flat[0], FlatSign];
    assert forall k :: 0 <= k < |t| ==> t[k] == flat[0] || t[k] == FlatSign;
  }

  /** The spellings SPNToMidiNum recognises without Unicode signs, the table
      names and the flat spellings, are plain text that normalises to a table
      name. */
  lemma RecognisedSpellings(pitchClass: string)
    requires pitchClass in PitchClassTable || pitchClass in PitchClassTranslationTable
    ensures IsPlainText(pitchClass) && NormalizePitchClass(pitchClass) in PitchClassTable
  {
    RecognisedNamesArePlain(pitchClass);
    SpellingIsPlain(pitchClass);
    NormalizedSpellings(pitchClass);
    TranslationTargetsSharps();
  }

  /** Reading a recognised pitch class with an octave and writing the number
      back gives the normalised sharp spelling with the same octave: "Db-10"
      comes back as "C#-10". */
  lemma CanonicalRoundTrip(pitchClass: string, oct: int)
    requires IsPlainText(pitchClass) && NormalizePitchClass(pitchClass) in PitchClassTable
    ensures SPNToMidiNum(pitchClass + IntToString(oct)).Ok?
    ensures MidiNumToSPN(SPNToMidiNum(pitchClass + IntToString(oct)).value)
         == NormalizePitchClass(pitchClass) + IntToString(oct)
  {
    var k := IndexOf(PitchClassTable, NormalizePitchClass(pitchClass));
    IndexOfMembership(PitchClassTable, NormalizePitchClass(pitchClass));
    CanonicalRoundTripAt(pitchClass, oct, k);
  }

  /** CanonicalRoundTrip for the pitch class whose normalised name is the
      k-th table entry. */
  lemma CanonicalRoundTripAt(pitchClass: string, oct: int, k: int)
    requires IsPlainText(pitchClass)
    requires 0 <= k < NotesPerOctDefault && PitchClassTable[k] == NormalizePitchClass(pitchClass)
    ensures SPNToMidiNum(pitchClass + IntToString(oct)).Ok?
    ensures MidiNumToSPN(SPNToMidiNum(pitchClass + IntToString(oct)).value)
         == NormalizePitchClass(pitchClass) + IntToString(oct)
  {
    SPNToMidiNumOfParts(pitchClass, oct);
    IndexOfPitchClass(k);
    MidiNumToSPNOfIndex(oct, k);
  }

  /** An unrecognised pitch class is not an error: it has index -1, so it
      reads as the B one octave below, "H4" as "B3". */
  lemma UnrecognisedPitchClass(pitchClass: string, oct: int)
    requires IsPlainText(pitchClass)
    requires NormalizePitchClass(pitchClass) !in PitchClassTable
    ensures SPNToMidiNum(pitchClass + IntToString(oct)).Ok?
    ensures SPNToMidiNum(pitchClass + IntToString(oct)).value == (oct + 1) * NotesPerOctDefault - 1
    ensures SPNToMidiNum("B" + IntToString(oct - 1)).Ok?
    ensures SPNToMidiNum(pitchClass + IntToString(oct)).value == SPNToMidiNum("B" + IntToString(oct - 1)).value
  {
    SPNToMidiNumOfParts(pitchClass, oct);
    ReadsAs("B", oct - 1, 11);
  }

  /* The values the test suite expects. Each SPN string is written as its
     pitch class followed by the rendered octave; DecimalExamples gives the
     renderings, so "C#" + IntToString(-2) is "C#-2". */

  /** "C#-2" reads as -11, and -11 is written "C#-2". */
  lemma NegativeOctaveExample()
    ensures SPNToMidiNum("C#" + IntToString(-2)).Ok? && SPNToMidiNum("C#" + IntToString(-2)).value == -11
    ensures MidiNumToSPN(-11) == "C#" + IntToString(-2)
  {
    ReadsAs("C#", -2, 1);
    MidiNumToSPNOfIndex(-2, 1);
  }

  /** "C4" reads as 60. */
  lemma MiddleCExample()
    ensures SPNToMidiNum("C" + IntToString(4)).Ok? && SPNToMidiNum("C" + IntToString(4)).value == 60
  {
    ReadsAs("C", 4, 0);
  }

  /** "C5" reads as 72. */
  lemma TenorCExample()
    ensures SPNToMidiNum("C" + IntToString(5)).Ok? && SPNToMidiNum("C" + IntToString(5)).value == 72
  {
    ReadsAs("C", 5, 0);
  }

  /** "A4" reads as 69. */
  lemma ConcertAExample()
    ensures SPNToMidiNum("A" + IntToString(4)).Ok? && SPNToMidiNum("A" + IntToString(4)).value == 69
  {
    ReadsAs("A", 4, 9);
  }

  /** "C#-2" written out as in the test suite. */
  lemma NegativeOctaveLiteral()
    ensures SPNToMidiNum("C#-2").Ok? && SPNToMidiNum("C#-2").value == -11
  {
    NegativeOctaveExample();
    DecimalExamples();
    assert "C#" + IntToString(-2) == "C#-2";
  }

  /** "C4" written out as in the test suite. */
  lemma MiddleCLiteral()
    ensures SPNToMidiNum("C4").Ok? && SPNToMidiNum("C4").value == 60
  {
    MiddleCExample();
    DecimalExamples();
    assert "C" + IntToString(4) == "C4";
  }

  /** "C5" written out as in the test suite. */
  lemma TenorCLiteral()
    ensures SPNToMidiNum("C5").Ok? && SPNToMidiNum("C5").value == 72
  {
    TenorCExample();
    DecimalExamples();
    assert "C" + IntToString(5) == "C5";
  }

  /** "A4" written out as in the test suite. */
  lemma ConcertALiteral()
    ensures SPNToMidiNum("A4").Ok? && SPNToMidiNum("A4").value == 69
  {
    ConcertAExample();
    DecimalExamples();
    assert "A" + IntToString(4) == "A4";
  }

  /** "Db-10" reads as "C#-10" does, and so do "Db" and "C#" in every other
      octave. */
  lemma EnharmonicExampleDb(oct: int)
    ensures SPNToMidiNum("C#" + IntToString(oct)).Ok? && SPNToMidiNum("Db" + IntToString(oct)).Ok?
    ensures SPNToMidiNum("C#" + IntToString(oct)).value == SPNToMidiNum("Db" + IntToString(oct)).value
  {
    EnharmonicSPN("Db", "C#", oct);
  }

  /** "Eb12" reads as "D#12" does, and so do "Eb" and "D#" in every other
      octave. */
  lemma EnharmonicExampleEb(oct: int)
    ensures SPNToMidiNum("D#" + IntToString(oct)).Ok? && SPNToMidiNum("Eb" + IntToString(oct)).Ok?
    ensures SPNToMidiNum("D#" + IntToString(oct)).value == SPNToMidiNum("Eb" + IntToString(oct)).value
  {
    EnharmonicSPN("Eb", "D#", oct);
  }

  /** An octave written with a leading zero reads as without it: "C#04"
      reads as "C#4" does. */
  lemma LeadingZeroOctave(pitchClass: string, digits: string)
    requires IsPlainText(pitchClass) && |digits| > 0 && AllDigits(digits)
    ensures SPNToMidiNum(pitchClass + "0" + digits).Ok? && SPNToMidiNum(pitchClass + digits).Ok?
    ensures SPNToMidiNum(pitchClass + "0" + digits).value == SPNToMidiNum(pitchClass + digits).value
  {
    LeadingZeroIgnored(digits);
    assert pitchClass + "0" + digits == pitchClass + ("0" + digits);
    SPNToMidiNumAround(pitchClass, "0" + digits, "");
    SPNToMidiNumAround(pitchClass, digits, "");
    assert pitchClass + ("0" + digits) + "" == pitchClass + "0" + digits;
    assert pitchClass + digits + "" == pitchClass + digits;
    assert pitchClass + "" == pitchClass;
  }

  /** The octave may also come first: a rendered octave followed by a table
      name reads as the name written before the octave does. */
  lemma OctaveFirst(name: string, oct: int, k: int)
    requires 0 <= k < |PitchClassTable| && PitchClassTable[k] == name
    ensures SPNToMidiNum(IntToString(oct) + name).Ok?
    ensures SPNToMidiNum(IntToString(oct) + name).value == (oct + 1) * NotesPerOctDefault + k
  {
    RecognisedNamesArePlain(name);
    SpellingIsPlain(name);
    NormalizedSpellings(name);
    IndexOfPitchClass(k);
    SPNToMidiNumOctaveFirst(name, oct);
  }

  /** "4C" reads as 60, as "C4" does. */
  lemma OctaveFirstLiteral()
    ensures SPNToMidiNum("4C").Ok? && SPNToMidiNum("4C").value == 60
  {
    OctaveFirst("C", 4, 0);
    DecimalExamples();
    assert IntToString(4) + "C" == "4C";
  }

  /** The renderings of the octaves the examples use. */
  lemma DecimalExamples()
    ensures IntToString(-2) == "-2" && IntToString(4) == "4" && IntToString(5) == "5"
    ensures IntToString(-10) == "-10" && IntToString(12) == "12"
  {
  }

  /** A table name followed by a rendered octave reads as that octave's
      number for the name's index. */
  lemma ReadsAs(name: string, oct: int, k: int)
    requires 0 <= k < |PitchClassTable| && PitchClassTable[k] == name
    ensures SPNToMidiNum(name + IntToString(oct)).Ok?
    ensures SPNToMidiNum(name + IntToString(oct)).value == (oct + 1) * NotesPerOctDefault + k
  {
    RecognisedNamesArePlain(name);
    SpellingIsPlain(name);
    NormalizedSpellings(name);
    IndexOfPitchClass(k);
    SPNToMidiNumOfParts(name, oct);
  }
}
