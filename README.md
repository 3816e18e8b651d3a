# n-et: the 12-tone notation layer in Dafny

This project models the naming and notation part of `index.js` in the
`n-et` library. That part converts integer MIDI note numbers to
Scientific Pitch Notation (SPN) strings such as `"A4"` or `"C#-2"`, and
converts such strings back. It consists of:

- the `mod` helper;
- the sharp pitch-class table `PITCH_CLASS_TABLE` and the flat-to-sharp
  table `PITCH_CLASS_TRANSLATION_TABLE`;
- the `ET12` methods `midiNumToOct`, `midiNumToPitchClass`, `midiNumToSPN`,
  `normalizePitchClass` and `SPNToMidiNum`.

The source is pure code: chains of arithmetic, table lookups and string
operations. So it is modelled with functions, and its properties are stated
as contracts and lemmas. The JavaScript built-ins that the code relies on
are written out with their JavaScript meaning, in module `JsBuiltins`:

- `%` truncates toward zero;
- `Math.floor` of a quotient;
- `Array.prototype.indexOf` returns -1 when the element is absent;
- `String.prototype.replace` with a string pattern replaces only the first
  occurrence.

Module `Decimal` holds the template-literal rendering of an integer and
`parseInt` of an integer token. Module `OctavePattern` holds the leftmost,
greedy match of the octave regex `/[-]?[\d]+/`.

A call to `SPN.match(octRe)[0]` with no match throws a `TypeError`. This
happens exactly when the string holds no digit, and the model returns it as
`Err(NoOctaveMatch)`. MIDI numbers are integers throughout, so
`quantizeMidiNum` (`Math.round`) is the identity and is not applied.

Files:

- `outcomes.dfy`: `Option`, `Result`, and the one error.
- `js_builtins.dfy`: JavaScript `%`, `Math.floor(n / d)`, `indexOf` and
  `replace`.
- `decimal.dfy`: integer rendering and `parseInt`.
- `octave_pattern.dfy`: the octave regular expression.
- `n_et.dfy`: the module-level constants and `mod`.
- `et12.dfy`: the `ET12` notation methods.
- `et12_laws.dfy`: laws relating several calls, and the test suite's values
  as lemmas.

## Model

| member | source | states |
|---|---|---|
| JsBuiltins.TruncRem | index.js:49 | JavaScript `%` on integers: n = m·q + r for the quotient q rounded toward zero, abs(r) < abs(m), and a nonzero r has the sign of n |
| JsBuiltins.FloorDiv | index.js:167 | `Math.floor(n / d)` is the integer q with d·q <= n < d·q + d for d > 0, with the inequalities reversed for d < 0 |
| JsBuiltins.FloorDivUnique | index.js:167 | every integer that satisfies the floor inequalities equals `Math.floor(n / d)` |
| JsBuiltins.IndexOf | index.js:222 | `indexOf` returns the first index holding x, and every earlier element differs from x; it returns -1 only when no element is x |
| JsBuiltins.IndexOfMembership | index.js:222 | `indexOf` returns -1 exactly when x is not an element |
| JsBuiltins.FirstOccurrenceFrom | index.js:220 | the search from position `from` on: the result is a position at or after `from` where the pattern occurs with no occurrence between `from` and it, and -1 means no occurrence from `from` on |
| JsBuiltins.FirstOccurrence | index.js:220 | the position of the leftmost occurrence of the pattern; -1 means the pattern occurs nowhere |
| JsBuiltins.ReplaceFirst | index.js:202 | `replace` with a string pattern: a string without the pattern comes back unchanged; otherwise only the leftmost occurrence is replaced |
| JsBuiltins.CharOccurrence | index.js:202 | where a one-character pattern occurs, the string holds that character |
| JsBuiltins.ReplaceAbsent | index.js:202 | replacing a sign that the string does not contain leaves the string unchanged |
| JsBuiltins.ReplaceAt | index.js:202 | when a sign first occurs at i, replacing it rewrites exactly position i |
| Decimal.DigitChar | index.js:191 | the digit character of d is a decimal digit whose value is d |
| Decimal.NatToString | index.js:191 | a natural number renders as digits only, with no leading zero, and the digits read back as the number |
| Decimal.IntToString | index.js:191 | `${oct}` renders an integer token with a minus sign exactly for negative numbers and no leading zero (and no "-0"); `parseInt` gives the integer back |
| Decimal.ParseInt | index.js:217 | `parseInt` of a token without a minus sign is non-negative, and a negative result comes only from a leading minus sign |
| Decimal.LeadingZeroIgnored | index.js:217 | `parseInt` ignores leading zeros: "0" followed by t reads as t |
| OctavePattern.DigitRunEnd | index.js:215 | greedy `[\d]+`: the run consists of digits only and stops at the end of the string or at a non-digit |
| OctavePattern.FindFrom | index.js:215-216 | the first position at or after i where a match can start, with no possible start before it, and the match's end after the maximal run of digits |
| OctavePattern.Find | index.js:215-216 | `match(/[-]?[\d]+/)` finds nothing exactly when the string has no digit; otherwise the match is an integer token, starts at the leftmost possible position and takes the maximal run of digits |
| NEt.Mod | index.js:42-50 | `((n % m) + m) % m` equals n − m·floor(n/m); for m > 0 it lies in 0..m−1, so every integer, negative ones included, lands in 0..11 for m = 12 |
| NEt.ModIsFloored | index.js:49 | adding m between the two truncating `%` turns the truncated remainder into the floored one |
| NEt.PitchClassTableDistinct | index.js:18-31 | the table has 12 entries and no name appears twice |
| NEt.IndexOfPitchClass | index.js:18-31 | looking up the k-th table entry with `indexOf` gives k back |
| NEt.PitchClassTableSpellings | index.js:18-31 | every table entry is a natural letter, or one of C, D, F, G, A followed by '#' |
| NEt.TranslationKeySpellings | index.js:34-40 | every key of the translation table is a letter followed by 'b' |
| NEt.TranslationTargetsSharps | index.js:34-40 | every flat spelling translates to a table name and is not itself a table name |
| NEt.TranslationSharpSpellings | index.js:34-40 | every translated name is a two-character sharp name |
| ET12.MidiNumToOct | index.js:166-170 | the octave is floor(n/12) − 1: octave k spans MIDI numbers 12(k+1) to 12(k+1)+11 |
| ET12.MidiNumToPitchClass | index.js:177-183 | the table entry at n mod 12; its contract is stated by the lemma `ET12.PitchClassOfMidiNum` (a table name whose index, added to 12·(octave + 1), gives n back) and by `ET12Laws.PitchClassPeriodic` |
| ET12.PitchClassOfMidiNum | index.js:177-183 | the pitch class of every integer n is a table name, and (octave + 1)·12 + its table index = n |
| ET12.MidiNumToSPN | index.js:190-194 | pitch class followed by the rendered octave, with no separator; its contract is stated by the lemmas `ET12.MidiNumToSPNRoundTrip` (the string reads back as n) and `ET12Laws.MidiNumToSPNOfIndex` (the k-th table name followed by the octave) |
| ET12.MidiNumToSPNRoundTrip | index.js:190-194 | reading the SPN string of any integer n gives n back, negative octaves included |
| ET12.NormalizePitchClass | index.js:201-206 | the first '♯' becomes '#', the first '♭' becomes 'b', then a flat spelling is translated and anything else passes through; its contract is stated by the lemmas `ET12.NormalizedSpellings`, `ET12Laws.EnharmonicNames` and `ET12Laws.UnicodeEnharmonicNames` |
| ET12.NormalizedSpellings | index.js:201-206 | normalisation keeps a table name, maps each flat spelling to its sharp name, and leaves every other string without a Unicode sign unchanged |
| ET12.SplitSPN | index.js:214-220 | no octave when the string has no digit; otherwise the octave is the leftmost match parsed as an integer, and the pitch class is the string with exactly that match removed |
| ET12.SPNToMidiNum | index.js:213-225 | the conversion fails (the `TypeError` of `match(...)[0]`) exactly when the string holds no digit |
| ET12.SPNToMidiNumValue | index.js:222-224 | a recognised pitch class yields a number among the 12 of its octave, at the table entry of its normalised name; an unrecognised one yields (octave + 1)·12 − 1 |
| ET12.IndexedEntry | index.js:222-224 | base + `indexOf` lies in the table's range above base for a listed name, and is base − 1 for any other name |
| ET12.SPNToMidiNumOfParts | index.js:213-225 | a pitch-class text without digits and without a trailing '-', followed by a rendered octave, reads as (octave + 1)·12 + the index of its normalised name |
| ET12.SPNToMidiNumOctaveFirst | index.js:213-225 | a rendered octave followed by a text without digits reads as (octave + 1)·12 + the index of the text's normalised name: the octave need not come last |
| ET12.SPNToMidiNumAround | index.js:213-225 | an integer token with plain text before it and no digit after it is the octave, read by `parseInt` (leading zeros allowed), and the joined text around it is the pitch class |
| ET12.SplitSPNAround | index.js:214-220 | such a string splits into the text around the token, joined, and the token's `parseInt` value |
| ET12.FindAroundPlainText | index.js:215-216 | with plain text before an integer token and no digit after it, the octave pattern matches exactly the token |
| ET12.SpellingIsPlain | index.js:18-40 | sharp names and flat spellings contain no digit, no trailing '-' and no Unicode sign |
| ET12.RecognisedNamesArePlain | index.js:18-40 | table names are sharp spellings and never keys of the translation table; the keys are flat spellings |
| ET12.TokenOccurrenceStartsMatch | index.js:215-220 | wherever an integer token occurs, the octave pattern could start a match |
| ET12.ReplaceRemovesLeftmostMatch | index.js:220 | `SPN.replace(octStr, "")` removes the leftmost match itself, since an earlier occurrence of its text would be an earlier match |
| ET12Laws.OctaveStep | index.js:166-170 | twelve MIDI numbers up is exactly one octave up |
| ET12Laws.PitchClassPeriodic | index.js:177-183 | n and n + 12 have the same pitch class |
| ET12Laws.MidiNumToSPNOfIndex | index.js:166-194 | the number at index k of octave oct has that octave and the k-th table name, and is written as that name followed by the rendered octave |
| ET12Laws.MiddleC | index.js:166-194 | MIDI 60 is octave 4 and is written "C4" |
| ET12Laws.ConcertA | test/index.test.js:32 | MIDI 69 is written "A4" |
| ET12Laws.SharpSignSpelling | index.js:202 | in a name without Unicode signs, writing '♯' where '#' would stand gives the same normalised name |
| ET12Laws.FlatSignSpelling | index.js:202 | in a name without Unicode signs, writing '♭' where 'b' would stand gives the same normalised name |
| ET12Laws.EnharmonicNames | index.js:201-206 | each flat spelling normalises to its sharp name, and that sharp name normalises to itself |
| ET12Laws.UnicodeFlatSpelling | index.js:202 | a letter followed by '♭' normalises like the same letter followed by 'b' |
| ET12Laws.UnicodeSharpSpelling | index.js:202 | a letter followed by '♯' normalises like the same letter followed by '#' |
| ET12Laws.UnicodeEnharmonicNames | index.js:201-206 | a flat spelling written with '♭' and its sharp name written with '♯' both normalise to the sharp name |
| ET12Laws.SameNameSameNumber | index.js:220-224 | two plain pitch-class texts with the same normalised name read as the same number in every octave |
| ET12Laws.EnharmonicSPN | index.js:213-225 | a flat spelling, ASCII or with '♭', reads as the same number as its sharp name in every octave |
| ET12Laws.FlatReadsAsSharp | index.js:213-225 | an ASCII flat spelling and a sharp name that normalise alike read as the same number in every octave |
| ET12Laws.SignedFlatReadsAsSharp | index.js:213-225 | the same holds for the flat spelling written with '♭' |
| ET12Laws.ReadsLikeSharpName | index.js:213-225 | plain text that normalises as a sharp name does reads as that name in every octave |
| ET12Laws.SignedFlatIsPlain | index.js:213-225 | a flat spelling's letter followed by '♭' contains no digit and does not end in '-' |
| ET12Laws.RecognisedSpellings | index.js:18-40 | table names and flat spellings are plain text that normalises to a table name |
| ET12Laws.CanonicalRoundTrip | index.js:190-225 | reading a recognised pitch class with an octave and writing the number back gives the normalised sharp spelling with the same octave ("Db-10" comes back as "C#-10") |
| ET12Laws.CanonicalRoundTripAt | index.js:190-225 | the same round trip, for the pitch class whose normalised name is the k-th table entry |
| ET12Laws.UnrecognisedPitchClass | index.js:222-224 | an unrecognised pitch class is not an error: it reads as (octave + 1)·12 − 1, the number of the B one octave below |
| ET12Laws.NegativeOctaveExample | test/index.test.js:36 | "C#" followed by the rendering of −2 reads as −11, and −11 is written that way |
| ET12Laws.MiddleCExample | test/index.test.js:37 | "C" followed by the rendering of 4 reads as 60 |
| ET12Laws.ConcertAExample | test/index.test.js:38 | "A" followed by the rendering of 4 reads as 69 |
| ET12Laws.TenorCExample | test/index.test.js:39 | "C" followed by the rendering of 5 reads as 72 |
| ET12Laws.NegativeOctaveLiteral | test/index.test.js:36 | `SPNToMidiNum("C#-2")` is −11 |
| ET12Laws.MiddleCLiteral | test/index.test.js:37 | `SPNToMidiNum("C4")` is 60 |
| ET12Laws.ConcertALiteral | test/index.test.js:38 | `SPNToMidiNum("A4")` is 69 |
| ET12Laws.TenorCLiteral | test/index.test.js:39 | `SPNToMidiNum("C5")` is 72 |
| ET12Laws.EnharmonicExampleDb | test/index.test.js:59 | "Db" and "C#" read as the same number in every octave, −10 included |
| ET12Laws.EnharmonicExampleEb | test/index.test.js:60 | "Eb" and "D#" read as the same number in every octave, 12 included |
| ET12Laws.LeadingZeroOctave | index.js:215-217 | an octave written with a leading zero reads as without it: "C#04" reads as "C#4" does |
| ET12Laws.OctaveFirst | index.js:213-225 | the k-th table name written after its rendered octave still reads as (octave + 1)·12 + k |
| ET12Laws.OctaveFirstLiteral | index.js:213-225 | `SPNToMidiNum("4C")` is 60, as for "C4" |
| ET12Laws.DecimalExamples | index.js:191 | the octaves of the examples render as "-2", "4", "5", "-10" and "12" |
| ET12Laws.ReadsAs | index.js:213-225 | the k-th table name followed by a rendered octave reads as (octave + 1)·12 + k |

## Left out

- The frequency side of `ET` (index.js:81-147): `midiNumToFreq`,
  `midiNumToFreqDetuned`, `freqToMidiNum`, `freqToMidiNumDetuned`,
  `semitonesToFreqRatio` and `freqRatioToSemitones`. These are IEEE-754
  `Math.pow`/`Math.log2` arithmetic.
- `quantizeMidiNum` (index.js:70-74) on non-integer input. MIDI numbers are
  integers in this model, so `Math.round` is the identity there.
- Fractional MIDI numbers. `midiNumToOct` floors without rounding, while
  `midiNumToPitchClass` rounds first, so 59.6 is written "C3". This only
  happens with floating-point input.
- ET12.MidiNumToOct: JavaScript numbers are doubles, and the model
  computes with unbounded integers. For |n| <= 2^53, `n / 12` rounds by less
  than 1/12, so `Math.floor(n / 12)` is exact and the model is faithful. Above
  that bound, rounding is not captured.
- ET12.MidiNumToSPN: `${oct}` switches to exponent notation from 10^21 on;
  the model always writes plain decimal digits. For n = 12·10^21 the
  octave is 10^21 - 1 in exact arithmetic but 10^21 in doubles, and the
  source writes "C1e+21".
- Decimal.IntToString: renders every integer in plain decimal digits. The
  template literal does so only for magnitudes below 10^21, where the
  exponent notation starts.
- ET12.MidiNumToSPNRoundTrip: holds for every integer here; in the source it
  holds for |n| <= 2^53. For n = 12·10^21 the string "C1e+21" matches "1"
  as the octave and "Ce+21" as the pitch class, which is unrecognised, so
  the result is 23, not n.
- ET12.SPNToMidiNum: the octave and the result are unbounded integers, so
  the precision lost past 2^53 is not captured, for example for an octave
  of more than 15 digits.
- ET12.NormalizePitchClass: the translation table is a plain object. A key
  inherited from `Object.prototype`, such as "toString", gives a
  non-string value where the model passes the text through. Both are absent
  from the pitch-class table, so `SPNToMidiNum` gives the same number either
  way.
- ET12.SPNToMidiNum: the `TypeError` thrown by `match(...)[0]` on a string
  without digits is returned as the value `Err(NoOctaveMatch)`.
- The general regular-expression engine and `parseInt` on arbitrary text.
  Only the octave pattern of index.js:215, and `parseInt` of the text it
  matches, are modelled.
- The `ET` and `ET12` constructors, class inheritance, the instance fields
  and the exported default constants. None of the notation methods reads
  them.
