# music-utils in Dafny

This project models the pure core of `js/music-utils.js`, the music helper module of the
music-foxes sketches, and proves properties of that model. It covers three parts of the module.

- **Note arithmetic.** The part covered is:
  - the sharp-spelled table of twelve pitch classes;
  - `transposePitchClass`, `getImplicitOctaveChange` and `transposeNote`;
  - the tolerant note parser `normalizeNote`, with `getOctave` and `getPitchClass`;
  - `transpose` and `simplifyNote`;
  - `getDistance`;
  - `chord`, the interval constants and the seven chord builders;
  - `invert`, `sortNotes` and `toss`.

  A note is `Note = PC(pc) | Abs(pc, octave)`. `Print` is the template string
  `` `${pitchClass}${octave}` ``. Each regular expression is modelled as the leftmost, greedy
  match a JavaScript engine finds, and the `i` flag is included. Every operation re-reads the
  strings it builds, exactly as the JavaScript does.
- **The closest-sample search.** This is `getClosestNote`, a bounded outward search, and the
  integer part of `sampleNote`.
- **The stage wrapper `makeActiveStage`.** The closures' shared state is a `Stage` value, and
  each wrapper is a function from the state before a call to the state after it. The calls that
  reach the underlying callbacks are recorded in a log.

Module layout, one file each:

| module | file |
|---|---|
| `Results` | results.dfy |
| `Decimal` | decimal.dfy |
| `Pitch` | pitch.dfy |
| `NoteText`, `NoteTextFacts` | note_text.dfy |
| `NoteTheory` | theory.dfy |
| `NoteLists` | lists.dfy |
| `Chords` | chords.dfy |
| `Inversion` | invert.dfy |
| `StableSort`, `NoteSort` | sort.dfy |
| `Toss` | toss.dfy |
| `Seqs` | seqs.dfy |
| `Sampling` | sampling.dfy |
| `Stage` | stage.dfy |

Several JavaScript failures become values of `NoteError`:
- A string with no note letter makes `normalizeNote` destructure `null` and throw. This is
  `NoLetter`.
- A lower-case letter, an upper-case `B` read as an accidental, or any other name missing from
  the upper-case index table sends `undefined`/`NaN` onward. This is `UnknownPitchClass`.
- A non-string reaching the parser, as when `invert` shifts from an empty list, is
  `NotAString`.

The theorems about round trips are stated for *canonical* notes. A canonical note is a bare
pitch class, or a note with a non-negative octave, since a printed minus sign is not part of
the note grammar.

## Model

| member | source | states |
|---|---|---|
| Pitch.IndexOfName | js/music-utils.js:575-581 | the index table maps each table name to its own position |
| Pitch.IndexOfKeys | js/music-utils.js:575-584 | a name has an index exactly when it is one of the twelve table entries |
| Pitch.IndexOfSound | js/music-utils.js:575-584 | the entry at a name's index is that name |
| Pitch.TruncRem | js/music-utils.js:585 | JavaScript's `%` keeps the sign of the dividend, stays strictly inside (-12, 12), and pairs with truncating division so that `a == b * trunc(a / b) + a % b` |
| Pitch.TruncDiv | js/music-utils.js:606 | `Number.parseInt(semitones / 12, 10)` rounds toward zero: the remainder left over has the sign of the dividend and is smaller than 12 |
| Pitch.TransposePitchClass | js/music-utils.js:583-590 | the two-branch wrap returns the table index `(pc + semitones)` reduced into [0, 12) for every integer shift |
| Pitch.TransposeWithinOctave | js/music-utils.js:583-590 | a shift that stays inside the octave is plain addition |
| Pitch.TransposePitchClassInverse | js/music-utils.js:583-590 | transposing by `n` and then by `-n` returns the starting pitch class |
| Pitch.ImplicitOctaveCrossing | js/music-utils.js:592-602 | for a shift inside one octave, twelve times the correction is exactly the part of `pc + semitones` that the wrapped pitch class loses, so the correction counts the crossings of the octave boundary |
| Pitch.TransposeNote | js/music-utils.js:604-612 | the result has the transposed pitch class and absolute pitch `12*octave + pc + semitones` |
| Pitch.TransposeNoteHeight | js/music-utils.js:606-610 | truncating octave division plus the implicit correction add up to exactly `semitones`, for every sign of the shift |
| Pitch.Shift | js/music-utils.js:583-612 | shifting keeps the note's kind, moves the pitch class mod 12 and moves an absolute note's height by the shift |
| Pitch.ShiftZero | js/music-utils.js:693 | a shift by 0 changes nothing |
| Pitch.ShiftInverse | js/music-utils.js:604-612 | shifting by `n` and then by `-n` restores the note |
| Pitch.ShiftUpCanonical | js/music-utils.js:604-612 | shifting up never makes an octave negative |
| Pitch.HeightDetermines | js/music-utils.js:604-612 | two octave-bearing notes with the same height are equal |
| Decimal.NatToString | js/music-utils.js:611 | a printed natural is a non-empty run of digits |
| Decimal.IntToStringChars | js/music-utils.js:611 | a printed octave is the digits of a non-negative one, or a minus sign followed by digits |
| Decimal.ParseNatToString | js/music-utils.js:626-631 | `parseInt` of a printed natural gives the natural back |
| Decimal.DigitRunOf | js/music-utils.js:614 | the greedy `\d*` run from a position is exactly the digits up to the first non-digit |
| NoteText.LetterFrom | js/music-utils.js:614 | the search for the first letter returns a position holding a letter |
| NoteText.AccidentalRunOf | js/music-utils.js:614 | the greedy `[#b]*` run is exactly the accidentals up to the first other character |
| NoteText.MatchTolerant | js/music-utils.js:614 | the tolerant pattern's octave group contains only digits |
| NoteText.AccidentalSumCounts | js/music-utils.js:615-625 | the accidental sum exists exactly when every accidental is `#` or `b`, and is then #sharps − #flats |
| NoteText.NormalizeMatchHeight | js/music-utils.js:620-634 | normalizing succeeds exactly on known letters and accidentals, gives an octave exactly when digits were read, keeps the spelled height `12*octave + letter + accidentals`, and without digits gives the pitch class `(letter + accidentals) mod 12` |
| NoteText.NormalizeNote | js/music-utils.js:620-622 | `normalizeNote` throws exactly when the string holds no note letter |
| NoteText.OctaveFrom | js/music-utils.js:637 | a match position of the octave pattern holds a letter, at most one accidental and a digit, and it is the leftmost such position |
| NoteText.GetOctave | js/music-utils.js:636-642 | `getOctave` returns `null` exactly when the pattern matches nowhere |
| NoteText.GetPitchClass | js/music-utils.js:644-650 | a pitch class read from text starts with the first letter of the string and is that letter, optionally followed by one accidental; it is `null` exactly when the string holds no letter |
| NoteTextFacts.NameShape | js/music-utils.js:560-573 | every table name is an upper-case letter, optionally followed by one sharp |
| NoteTextFacts.NameParts | js/music-utils.js:615-625 | a table name's letter and sharp are read back with the name's own index and sum |
| NoteTextFacts.PrintLayout | js/music-utils.js:611 | a printed note is its table name followed only by digits and minus signs |
| NoteTextFacts.MatchPrint | js/music-utils.js:614-622 | the tolerant pattern splits a printed note into its letter, its sharp and the digits of a non-negative octave |
| NoteTextFacts.NormalizePrintedMatch | js/music-utils.js:620-634 | normalizing the groups read from a canonical printed note gives the note |
| NoteTextFacts.NormalizePrint | js/music-utils.js:620-634 | `normalizeNote(print(n)) == n` for every canonical note |
| NoteTextFacts.GetOctavePrint | js/music-utils.js:636-642 | `getOctave` reads a printed note's octave exactly when it is non-negative |
| NoteTextFacts.GetPitchClassPrint | js/music-utils.js:644-650 | `getPitchClass` reads the table name back out of a printed note |
| NoteTheory.Transpose | js/music-utils.js:656-665 | `transpose` fails only on unreadable text, never on a non-string |
| NoteTheory.WithOctave | js/music-utils.js:657-664 | the start note has the normalized pitch class, an octave exactly when `getOctave` found one, and then that octave |
| NoteTheory.TransposePitchClassName | js/music-utils.js:583-590 | a name transposes exactly when it is a table name, and lands on the table name whose index is its own moved round the circle |
| NoteTheory.TransposeSpec | js/music-utils.js:656-665 | `transpose` fails where `normalizeNote` fails, or where an octave-bearing normalized note has no visible octave; otherwise it prints the normalized pitch class with the written octave, shifted |
| NoteTheory.TransposeCanonical | js/music-utils.js:656-665 | on canonical text, `transpose` prints the shifted note |
| NoteTheory.TransposeReaches | js/music-utils.js:656-665 | transposing a canonical note's text reaches the text of the note it shifts to |
| NoteTheory.TransposeRoundTrip | js/music-utils.js:656-665 | transposing by `n` and then by `-n` restores canonical text while the middle note stays canonical |
| NoteTheory.TransposeWritten | js/music-utils.js:656-664 | transposition starts from the written octave, not the normalized one |
| NoteTheory.OctaveSharpExample | js/music-utils.js:636-642 | `getOctave("B#4") == 4` |
| NoteTheory.TransposeKeepsWrittenOctave | js/music-utils.js:656-665 | `transpose("B#4", 0) == "C4"` although "B#4" normalizes to C5 |
| NoteTheory.SimplifyNote | js/music-utils.js:693 | `simplifyNote` succeeds exactly when the note normalizes and its octave is visible or absent, and then prints the normalized pitch class with the written octave |
| NoteTheory.SimplifySpelled | js/music-utils.js:693 | whatever `simplifyNote` returns is the text of a canonical note |
| NoteTheory.SimplifyIdempotent | js/music-utils.js:693 | simplifying twice is simplifying once |
| NoteTheory.ReadHeight | js/music-utils.js:701-707 | the height the distance reads equals the true height on canonical notes, and counts a hidden octave as 0 |
| NoteTheory.LocatePrint | js/music-utils.js:701-704 | the distance reads a printed note's index and its octave, or 0 when `getOctave` sees none |
| NoteTheory.BetweenReadings | js/music-utils.js:699-707 | between two normalized notes the distance is the difference of their read heights |
| NoteTheory.Distance | js/music-utils.js:695-708 | `getDistance` fails exactly when a note cannot be normalized, and is otherwise the difference of the read heights |
| NoteTheory.DistanceOfReadings | js/music-utils.js:695-708 | the distance of two texts with known normalized notes is the difference of their read heights |
| NoteTheory.DistanceCanonical | js/music-utils.js:695-708 | between canonical notes the distance is the difference of heights |
| NoteTheory.DistanceOfTranspose | js/music-utils.js:656-665 | `getDistance(note, transpose(note, n)) == n` for a canonical octave-bearing note whose result keeps a non-negative octave |
| NoteTheory.NormalizeSharpExample | js/music-utils.js:620-634 | `normalizeNote("B#4")` is C5 |
| NoteTheory.NormalizeFlatExample | js/music-utils.js:620-634 | `normalizeNote("Cb4")` is B3 |
| NoteLists.MapNotesSpec | js/music-utils.js:675 | mapping a fallible step over a list succeeds exactly when every element's step does, and the results are in order |
| NoteLists.TransposeAllSpec | js/music-utils.js:719 | transposing a list succeeds exactly when every note transposes, element by element and in order |
| NoteLists.TransposeAllIs | js/music-utils.js:719 | a list whose elements are the transposed notes is the list's transposition |
| NoteLists.TransposeAllCanonical | js/music-utils.js:719 | transposing the texts of canonical notes prints the shifted notes |
| NoteLists.ShiftAllInverse | js/music-utils.js:688 | shifting a list by `n` and then by `-n` restores it |
| Chords.TransposeEachSpec | js/music-utils.js:675 | the transposed tonics exist exactly when every interval's transposition does, and come in interval order |
| Chords.Chord | js/music-utils.js:674-675 | `chord` is the tonic unchanged, then the tonic transposed by each interval in order, so it has one note more than there are intervals; it fails exactly when one transposition fails |
| Chords.ChordOk2 | js/music-utils.js:674-675 | a chord on two intervals exists exactly when both transpositions do |
| Chords.ChordOf2 | js/music-utils.js:674-675 | a chord on two intervals is the tonic and its two transpositions |
| Chords.ChordOk3 | js/music-utils.js:674-675 | a chord on three intervals exists exactly when all three transpositions do |
| Chords.ChordOf3 | js/music-utils.js:674-675 | a chord on three intervals is the tonic and its three transpositions |
| Chords.ChordOk4 | js/music-utils.js:674-675 | a chord on four intervals exists exactly when all four transpositions do |
| Chords.ChordOf4 | js/music-utils.js:674-675 | a chord on four intervals is the tonic and its four transpositions |
| Chords.Major | js/music-utils.js:739-768 | `major(tonic)` is the tonic, its major third (4) and its perfect fifth (7), and fails exactly when one of them does |
| Chords.Minor | js/music-utils.js:737-769 | `minor(tonic)` is the tonic, its minor third (3) and its perfect fifth (7) |
| Chords.Major7th | js/music-utils.js:753-770 | `major7th(tonic)` adds the major seventh (11) to the major triad |
| Chords.Minor7th | js/music-utils.js:751-771 | `minor7th(tonic)` adds the minor seventh (10) to the minor triad |
| Chords.Dominant7th | js/music-utils.js:751-772 | `dominant7th(tonic)` adds the minor seventh (10) to the major triad |
| Chords.Major9th | js/music-utils.js:735-773 | `major9th(tonic)` adds the octave plus a whole tone (14) to the major seventh chord |
| Chords.Minor9th | js/music-utils.js:735-774 | `minor9th(tonic)` adds the octave plus a whole tone (14) to the minor seventh chord |
| Chords.ChordCanonical | js/music-utils.js:674-675 | on a canonical tonic, `chord` prints the tonic and its shifts |
| Chords.ChordDistances | js/music-utils.js:674-675 | for non-negative intervals, each chord note lies at its interval's distance from the tonic |
| Chords.MajorOfC | js/music-utils.js:731-768 | `major("C") == ["C", "E", "G"]` with M3 = 4 and P5 = 7 |
| Chords.Minor7thOfA | js/music-utils.js:731-771 | `minor7th("A") == ["A", "C", "E", "G"]` with m3 = 3, P5 = 7 and m7 = 10 |
| Inversion.RoundsUp | js/music-utils.js:677-691 | each upward round keeps the list's length |
| Inversion.RoundsDown | js/music-utils.js:677-691 | each downward round keeps the list's length |
| Inversion.Invert | js/music-utils.js:677-691 | `invert` keeps the list length when it succeeds, returns a copy for inversion 0, and fails with `NotAString` on a non-zero inversion of the empty list |
| Inversion.RoundsUpFrom | js/music-utils.js:687-689 | `k` upward rounds move the first `k` notes, transposed in order, behind the rest |
| Inversion.MapNotesSnoc | js/music-utils.js:688 | mapping over a list with one more note maps that note last |
| Inversion.MapBackAgrees | js/music-utils.js:683-689 | transposing from the back gives the same list as from the front, failing on the same inputs |
| Inversion.RoundsDownFrom | js/music-utils.js:683-689 | `k` downward rounds move the last `k` notes, transposed, in front of the rest |
| Inversion.RoundsDownAll | js/music-utils.js:683-689 | the same, for the whole list |
| Inversion.InvertNegative | js/music-utils.js:682-689 | a negative inversion runs as many downward rounds by -12 as its magnitude |
| Inversion.InvertUp | js/music-utils.js:677-691 | for `k` from 0 to the list's length, `invert(notes, k)` is `notes[k..]` followed by `notes[..k]` raised an octave |
| Inversion.InvertDown | js/music-utils.js:677-691 | `invert(notes, -k)` is the last `k` notes lowered an octave, followed by the rest |
| Inversion.InvertUpIs | js/music-utils.js:677-691 | the same, for a known raised slice |
| Inversion.InvertDownIs | js/music-utils.js:677-691 | the same, for a known lowered slice |
| Inversion.InvertUpCanonical | js/music-utils.js:677-691 | on canonical notes, an upward inversion prints the rotated notes with the moved ones shifted +12 |
| Inversion.InvertDownCanonical | js/music-utils.js:677-691 | on canonical notes, a downward inversion prints the rotated notes with the moved ones shifted -12 |
| Inversion.TransposeCanonicalSlice | js/music-utils.js:688 | transposing a slice of canonical texts prints the shifted slice |
| Inversion.RaisedCanonical | js/music-utils.js:677-691 | raising keeps canonical notes canonical |
| Inversion.LoweredCanonical | js/music-utils.js:677-691 | a lowered list stays canonical when its lowered notes are |
| Inversion.LowerRaised | js/music-utils.js:677-691 | lowering back the notes raised by a rotation restores the list |
| Inversion.RaiseLowered | js/music-utils.js:677-691 | raising back the notes lowered by a rotation restores the list |
| Inversion.InvertRoundTrip | js/music-utils.js:677-691 | `invert(invert(notes, k), -k) == notes` for canonical notes and `k` from 0 to the list's length |
| Inversion.InvertRoundTripDown | js/music-utils.js:677-691 | `invert(invert(notes, -k), k) == notes` while the lowered notes stay canonical |
| StableSort.Insert | js/music-utils.js:721-728 | insertion adds exactly the one element |
| StableSort.InsertionSort | js/music-utils.js:721-728 | the sorted list is a permutation of the input |
| StableSort.InsertSorted | js/music-utils.js:721-728 | inserting under a consistent comparator keeps a list ordered by rank |
| StableSort.InsertionSortSorted | js/music-utils.js:721-728 | a comparator consistent with a rank sorts by that rank |
| StableSort.RankedTail | js/music-utils.js:721-728 | a comparator consistent on a list is consistent on its tail |
| StableSort.RankedHead | js/music-utils.js:721-728 | the head of a consistent list compares consistently with every element of a permutation of its tail |
| StableSort.InsertionSortMap | js/music-utils.js:720-721 | sorting mapped elements under the induced comparator is mapping the sorted elements |
| StableSort.SortedUnique | js/music-utils.js:721-728 | two sorted permutations of a list whose ranks separate its elements are equal |
| NoteSort.SortedNotes | js/music-utils.js:717-729 | the sorted notes are a permutation of the input |
| NoteSort.PartsOfPrint | js/music-utils.js:720 | the parts read from a printed note are its name and its visible octave |
| NoteSort.JoinParts | js/music-utils.js:729 | joining a canonical note's parts prints the note |
| NoteSort.CompareByHeight | js/music-utils.js:721-728 | on canonical notes of one kind, the comparator says "not after" exactly when the height does not decrease |
| NoteSort.UniformRanked | js/music-utils.js:721-728 | on a list whose canonical notes all carry octaves, or all lack one, the comparator is consistent with height |
| NoteSort.SimplifyCanonical | js/music-utils.js:719 | simplifying canonical texts leaves them unchanged |
| NoteSort.PartsOfPrints | js/music-utils.js:720 | the parts of a printed list are the parts of its notes |
| NoteSort.JoinPrints | js/music-utils.js:729 | joining the parts of canonical notes prints them |
| NoteSort.SortNotesCanonical | js/music-utils.js:717-729 | on canonical notes, `sortNotes` prints the notes in `SortedNotes` order |
| NoteSort.SortedNotesOrder | js/music-utils.js:721-728 | on a uniform list the result is ordered by height, by (octave, index) for notes with octaves and by index for bare pitch classes |
| NoteSort.SortNotes | js/music-utils.js:717-729 | `sortNotes` fails exactly when one note cannot be simplified, and otherwise returns as many notes as it was given |
| NoteSort.Compare | js/music-utils.js:721-728 | between known names with octaves the comparator orders by height, between known names without octaves by table index, and it never puts a note with an octave before one without |
| NoteSort.CompareAntisymmetric | js/music-utils.js:721-728 | between parts that both carry octaves, or both lack one, swapping the arguments negates the comparison |
| NoteSort.CompareMixed | js/music-utils.js:724-727 | across kinds the comparator is not antisymmetric: "C" sorts before "B0", yet "B0" ties with "C" |
| NoteSort.SortNotesIs | js/music-utils.js:717-729 | on a uniform list, `sortNotes` returns the unique permutation ordered by height |
| Toss.TossAppend | js/music-utils.js:317-321 | the fold over a concatenation of octave lists concatenates the results |
| Toss.Toss | js/music-utils.js:317-321 | the result has one label per pair of octave and pitch class |
| Toss.TossOne | js/music-utils.js:317-321 | one octave gives its labels |
| Toss.TossTwo | js/music-utils.js:317-321 | two octaves give the first octave's labels, then the second's |
| Toss.TossAt | js/music-utils.js:317-321 | the label at place `i * n + j`, for `n` pitch classes, joins pitch class `j` to octave `i`: the octave varies slowest |
| Toss.TossNotes | js/music-utils.js:317-321 | tossing table names into non-negative octaves gives the printed notes |
| Toss.TossExample | js/music-utils.js:317-321 | `toss(["C", "E", "G"], [3, 4])` is `["C3", "E3", "G3", "C4", "E4", "G4"]` |
| Seqs.Position | js/music-utils.js:285 | `indexOf` returns -1 exactly when the value is absent, and otherwise the first position holding it |
| Sampling.GetClosestNote | js/music-utils.js:83-94 | the search returns a member within 96 semitones with no member strictly closer, preferring the one above the target on a tie, and throws exactly when no member lies within 96 |
| Sampling.ClosestUnique | js/music-utils.js:83-94 | at most one member meets that description, so the result is determined |
| Sampling.ClosestExample | js/music-utils.js:84-92 | with samples at 58 and 64, the search for 60 returns 58 |
| Sampling.Dedup | js/music-utils.js:98-104 | the set holds exactly the list's values, each once, and no more of them than the list |
| Sampling.DedupOrder | js/music-utils.js:112 | `Array.from` of the set lists the values in the order of their first occurrence |
| Sampling.DedupDistinct | js/music-utils.js:112 | without repeated values, `Array.from(new Set(xs))` is `xs` |
| Sampling.PickAsWritten | js/music-utils.js:112-113 | the pick as written takes the sample at the chosen number's place in the de-duplicated list: nothing for a number not in the list, and always some sample when there is one MIDI number per sample |
| Sampling.PickSample | js/music-utils.js:112-113 | the corrected pick takes the sample at the first place whose MIDI number is the chosen one, and finds one exactly when the number is in the list |
| Sampling.PickSampleMatches | js/music-utils.js:112-113 | the corrected pick returns a sample recorded at the chosen MIDI number |
| Sampling.PickAsWrittenDistinct | js/music-utils.js:112-113 | without two samples at one MIDI number, the pick as written is the corrected one |
| Sampling.PickAsWrittenMisses | js/music-utils.js:112-113 | samples at 60, 60 and 62 with 62 chosen: the pick as written returns a 60, the corrected pick the 62 |
| Sampling.SampleNote | js/music-utils.js:96-118 | `sampleNote` as written fails exactly when no sample lies within 96 semitones; otherwise it returns the closest MIDI number, the exponent `midi - closest + pitchShift` and a sample, which is recorded at the closest number whenever no two samples share a MIDI number |
| Sampling.SampleNoteCorrected | js/music-utils.js:96-118 | with the corrected pick, the sample returned is always recorded at the closest MIDI number, and agrees with the pick as written when no two samples share a MIDI number |
| Stage.Splice | js/music-utils.js:285 | `splice(start, 1)` removes the element at `start`, which leaves the multiset less that one element; it removes the last element for -1, and nothing past the end |
| Stage.Schedule | js/music-utils.js:268-290 | scheduling throws exactly after deactivation; otherwise it logs the warning exactly when ends are still tracked, then the call to `schedule`, and changes neither the flag nor the ended ends; a non-function end gives `noop` and is not tracked; otherwise the new wrapped end is tracked last |
| Stage.InitialValid | js/music-utils.js:264-266 | a new stage satisfies the invariant |
| Stage.ScheduleLog | js/music-utils.js:272-275 | scheduling logs no end and no deactivation |
| Stage.PushFresh | js/music-utils.js:288 | pushing a fresh end keeps the tracked list duplicate-free and complete |
| Stage.TrackNew | js/music-utils.js:288 | tracking a newly made end keeps the invariant when the log adds no end and no deactivation |
| Stage.ScheduleValid | js/music-utils.js:268-290 | scheduling preserves the invariant |
| Stage.SpliceDistinct | js/music-utils.js:285 | splicing one position out of a duplicate-free list removes exactly that value |
| Stage.End | js/music-utils.js:280-287 | a wrapped end marks itself ended; a second call changes nothing; the first logs its underlying end, removes one copy of itself from the tracked ends, and, when it is not tracked, removes the last tracked end since `indexOf` gives -1 |
| Stage.Call | js/music-utils.js:277-289 | calling `noop` changes nothing, and calling a wrapped end marks exactly that end ended |
| Stage.EndValid | js/music-utils.js:280-287 | a wrapped end removes itself from the tracked list, marks itself ended and preserves the invariant, which counts each underlying end once |
| Stage.EndOnce | js/music-utils.js:280-287 | calling a wrapped end twice is calling it once |
| Stage.PositionAfter | js/music-utils.js:285 | `indexOf` finds a value that is absent from the front at the start of the rest |
| Stage.EndFirst | js/music-utils.js:285 | ending the first of the remaining ends splices exactly it out |
| Stage.EndAt | js/music-utils.js:285 | ending the end at position `k` splices exactly position `k` out |
| Stage.CallValid | js/music-utils.js:280-289 | calling any handle preserves the invariant, and no underlying end ever runs twice |
| Stage.ForEachValid | js/music-utils.js:297 | the `forEach` over the ends preserves the invariant |
| Stage.ForEachSkip | js/music-utils.js:297 | `forEach` skips indices the shrinking array no longer reaches |
| Stage.SurvivorsPast | js/music-utils.js:297 | past the array's end the loop changes nothing |
| Stage.SurvivorsShape | js/music-utils.js:297 | the loop over a self-splicing list visits positions 0, 2, 4, … of the rest and leaves positions 1, 3, 5, … |
| Stage.EvensOddsStep | js/music-utils.js:297 | one loop step takes the first of two positions and keeps the second |
| Stage.ForEachTracks | js/music-utils.js:297 | the stage's tracked list and ended set follow the list-level loop |
| Stage.Deactivate | js/music-utils.js:292-299 | deactivating sets the flag, only adds ended ends, does nothing a second time, and the first time calls the underlying deactivate after the loop |
| Stage.DeactivateEndsEvens | js/music-utils.js:292-299 | deactivation as written preserves the invariant, ends only the ends at even positions and leaves the odd ones tracked and not ended |
| Stage.DeactivateLeavesSecond | js/music-utils.js:264-299 | with two scheduled ends, deactivating leaves the second tracked, not ended and its underlying end never called |
| Stage.ScheduleTwo | js/music-utils.js:268-290 | two schedule calls whose pieces return ends track the ends 0 and 1 and log the warning between the two calls |
| Stage.DeactivateTwo | js/music-utils.js:292-299 | deactivating a stage that tracks the ends 0 and 1 calls only end 0, then the underlying deactivate |
| Stage.EndEachAll | js/music-utils.js:297 | ending a snapshot of the tracked ends ends all of them and preserves the invariant |
| Stage.DeactivateAll | js/music-utils.js:292-299 | corrected deactivation sets the flag, does nothing a second time, and the first time marks every tracked end ended and then calls the underlying deactivate |
| Stage.DeactivateAllEnds | js/music-utils.js:292-299 | corrected deactivation preserves the invariant, ends every end ever made and calls the underlying deactivate exactly once |
| Stage.DeactivateIdempotent | js/music-utils.js:292-299 | deactivating twice is deactivating once, as written and corrected |

## Left out

- Currying and argument swapping in `transpose` and `getDistance` (667-672, 710-715) are left out. They are JavaScript plumbing, so both are modelled as binary functions.
- The Tone.js plumbing is left out: buffers, samplers, offline rendering, the render queue and the `inProgress` map. It is foreign audio objects and asynchronous coordination.
- `playbackRate` in `sampleNote` is left out because it is floating point. Only its integer exponent `midi - closestMidi + pitchShift` is kept.
- `Midi(note).toMidi()` is a foreign call. It is the parameter `toMidi`, and `SampleNote` takes the note's MIDI number as an input.
- `getRandomNumberBetween`, `pickRandomElement`, `shuffle` and `wrapActivate` are left out. They depend on `Math.random` or the global audio context.
- main.js is not part of this model. It is DOM, webcam, canvas, fetch and timer code.
- The underlying `schedule`, `end` and `deactivate` callbacks are not modelled, and neither are their return values. The stage records each call to them as a log event, and `console.warn` is the `RescheduleWarning` event. `schedule` is reduced to whether it returned a function.
- NoteSort.SortNotesIs is stated only for lists whose notes all carry octaves, or all lack one. On a mixed list the comparator is inconsistent (`null` on the left compares by index, on the right as octave 0), so the result depends on the engine's sort algorithm. The model sorts with a stable insertion sort.
- NoteTheory.Distance and related lemmas are not exact where JavaScript yields `undefined`/`NaN`. Any unknown pitch-class name is the single failure `UnknownPitchClass`, not the meaningless string or number JavaScript would carry on with.
- Inversion.InvertRoundTripDown requires the lowered notes to stay canonical. Lowering an octave-0 note prints a minus sign that `getOctave` cannot read back.
- Inversion.InvertDown checks the moved notes from the back, because `pop` takes the last note first. When several of them fail, it reports the failure of the last one.
- Integers are unbounded. JavaScript numbers lose precision past 2^53, which this model does not follow.

## Findings

| source | as written | input that shows it | evidently intended | confidence | as-written member | corrected member |
|---|---|---|---|---|---|---|
| js/music-utils.js:112-113 | the index of `closestMidi` in the de-duplicated MIDI list is used to index `sampledNotes` | samples recorded at MIDI 60, 60 and 62, target 62: index 1 of the de-duplicated list [60, 62], and `sampledNotes[1]` is a 60 | the sample recorded at `closestMidi` | not executed | Sampling.PickAsWrittenMisses | Sampling.SampleNoteCorrected |
| js/music-utils.js:297 | `endFns.forEach(end => end())` while each wrapped end splices itself out of `endFns` | two scheduled ends, then deactivate: the first end runs and shifts the second to index 0, the loop moves on to index 1, and the second end never runs | deactivation ends every tracked end | not executed | Stage.DeactivateLeavesSecond | Stage.DeactivateAllEnds |
