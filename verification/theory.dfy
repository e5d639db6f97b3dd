/** String-level note theory of js/music-utils.js: `transpose`,
    `simplifyNote`, `getDistance`, the interval constants, `chord` and its
    builders, and `invert`. Every operation reads its notes with the patterns
    of `NoteText`, exactly as the JavaScript re-parses the strings it builds. */
module NoteTheory {
  import opened Results
  import opened Decimal
  import opened Pitch
  import opened NoteText
  import opened NoteTextFacts

  /** `transposePitchClass` applied to a string: only table names are known,
      and the result is the table name whose index is `semitones` further
      round the circle. */
  function TransposePitchClassName(name: string, semitones: int): (r: Option<string>)
    ensures r.Some? <==> name in Names
    ensures r.Some? ==> IndexOf(r.value) == Some((IndexOf(name).value + semitones) % 12)
  {
    IndexOfKeys(name);
    match IndexOf(name)
    case None => None
    case Some(p) =>
      IndexOfName(TransposePitchClass(p, semitones));
      Some(Names[TransposePitchClass(p, semitones)])
  }

  /** `_transpose` (the binary form of `transpose`). The octave is read from
      the input as written, not from its normalized form, and a note whose
      octave `getOctave` cannot see is transposed as a bare pitch class. */
  function Transpose(note: string, steps: int): (r: Result<string, NoteError>)
    ensures r.Failure? ==> r.error != NotAString
  {
    var normalized :- NormalizeNote(note);
    match GetOctave(note)
    case None =>
      (match TransposePitchClassName(Print(normalized), steps)
       case None => Failure(UnknownPitchClass)
       case Some(name) => Success(name))
    case Some(octave) =>
      match GetPitchClass(Print(normalized))
      case None => Failure(UnknownPitchClass)
      case Some(pc) =>
        match IndexOf(pc)
        case None => Failure(UnknownPitchClass)
        case Some(p) => Success(Print(TransposeNote(p, octave, steps)))
  }

  /** The note `_transpose` starts from: the normalized pitch class, with the
      octave read from the text as written (or none, when `getOctave` sees
      none). */
  function WithOctave(normalized: Note, octave: Option<nat>): (r: Note)
    ensures r.pc == normalized.pc
    ensures r.Abs? <==> octave.Some?
    ensures octave.Some? ==> r.octave == octave.value
  {
    match octave
    case None => PC(normalized.pc)
    case Some(o) => Abs(normalized.pc, o)
  }

  /** What `_transpose` computes: it fails where `normalizeNote` does, and
      when an octave-bearing normalized note meets text whose octave
      `getOctave` cannot see; otherwise it prints the starting note shifted
      by `steps`. */
  lemma TransposeSpec(note: string, steps: int)
    ensures NormalizeNote(note).Failure? ==> Transpose(note, steps) == Failure(NormalizeNote(note).error)
    ensures Transpose(note, steps).Success?
            <==> NormalizeNote(note).Success? && (GetOctave(note).Some? || NormalizeNote(note).value.PC?)
    ensures Transpose(note, steps).Success? ==>
      Transpose(note, steps).value == Print(Shift(WithOctave(NormalizeNote(note).value, GetOctave(note)), steps))
  {
    if NormalizeNote(note).Success? {
      var n := NormalizeNote(note).value;
      GetPitchClassPrint(n);
      IndexOfName(n.pc);
      if n.Abs? {
        assert IndexOf(Print(n)).None? by {
          NameShape(n.pc);
          IndexOfSound(Print(n));
          assert |Print(n)| > |Names[n.pc]|;
        }
      }
    }
  }

  /** On canonical text, `transpose` is `Shift` followed by printing. */
  lemma TransposeCanonical(n: Note, steps: int)
    requires Canonical(n)
    ensures Transpose(Print(n), steps) == Success(Print(Shift(n, steps)))
  {
    NormalizePrint(n);
    GetOctavePrint(n);
    TransposeSpec(Print(n), steps);
    assert WithOctave(n, GetOctave(Print(n))) == n;
  }

  /** `TransposeCanonical` with the target note named. */
  lemma TransposeReaches(from: Note, to: Note, steps: int)
    requires Canonical(from) && Shift(from, steps) == to
    ensures Transpose(Print(from), steps) == Success(Print(to))
  {
    TransposeCanonical(from, steps);
  }

  /** Transposing canonical text by `steps` and the result back by `-steps`
      restores the text, provided the intermediate note is still canonical
      (`TransposeCanonical` gives the intermediate text). The reverse amount
      is the parameter `back`, fixed to `-steps`: written as `-steps` inside
      the call, the same goal costs the solver several times the resource
      limit. */
  lemma TransposeRoundTrip(n: Note, steps: int, back: int)
    requires Canonical(n) && Canonical(Shift(n, steps)) && back == -steps
    ensures Transpose(Print(Shift(n, steps)), back) == Success(Print(n))
  {
    ShiftInverse(n, steps);
    TransposeReaches(Shift(n, steps), n, back);
  }

  /** `simplifyNote`, which is `transpose(0)`: the normalized pitch class
      re-spelled with sharps, keeping the octave as written. */
  function SimplifyNote(note: string): (r: Result<string, NoteError>)
    ensures r.Success? <==> NormalizeNote(note).Success? && (GetOctave(note).Some? || NormalizeNote(note).value.PC?)
    ensures r.Success? ==> r.value == Print(WithOctave(NormalizeNote(note).value, GetOctave(note)))
  {
    TransposeSpec(note, 0);
    match NormalizeNote(note)
    case Failure(_) => Transpose(note, 0)
    case Success(n) =>
      ShiftZero(WithOctave(n, GetOctave(note)));
      Transpose(note, 0)
  }

  /** Whatever `simplifyNote` returns is the text of a canonical note. */
  lemma SimplifySpelled(note: string) returns (w: Note)
    requires SimplifyNote(note).Success?
    ensures Canonical(w) && SimplifyNote(note) == Success(Print(w))
  {
    TransposeSpec(note, 0);
    w := WithOctave(NormalizeNote(note).value, GetOctave(note));
    ShiftZero(w);
  }

  /** Simplifying twice is simplifying once. */
  lemma SimplifyIdempotent(note: string)
    requires SimplifyNote(note).Success?
    ensures SimplifyNote(SimplifyNote(note).value) == SimplifyNote(note)
  {
    var w := SimplifySpelled(note);
    ShiftZero(w);
    TransposeReaches(w, w, 0);
  }

  /** The pitch-class index and octave the distance computation reads from
      a normalized note; a missing octave becomes 0 in the subtraction. */
  function Locate(normalized: string): (r: Result<(PitchClass, int), NoteError>)
  {
    match GetPitchClass(normalized)
    case None => Failure(UnknownPitchClass)
    case Some(pc) =>
      match IndexOf(pc)
      case None => Failure(UnknownPitchClass)
      case Some(p) =>
        Success((p, match GetOctave(normalized) case None => 0 case Some(o) => o))
  }

  /** `_getDistance` (the binary form of `getDistance`): signed semitones
      from the first note to the second. It fails exactly when one of the
      notes cannot be normalized, and is otherwise the difference of the
      heights it reads. */
  function Distance(note1: string, note2: string): (r: Result<int, NoteError>)
    ensures r.Success? <==> NormalizeNote(note1).Success? && NormalizeNote(note2).Success?
    ensures r.Success? ==>
      r.value == ReadHeight(NormalizeNote(note2).value) - ReadHeight(NormalizeNote(note1).value)
  {
    var n1 :- NormalizeNote(note1);
    var n2 :- NormalizeNote(note2);
    BetweenReadings(n1, n2, ReadHeight(n2) - ReadHeight(n1));
    Between(n1, n2)
  }

  /** The part of `_getDistance` after both notes are normalized. */
  function Between(n1: Note, n2: Note): Result<int, NoteError>
  {
    Span(Locate(Print(n1)), Locate(Print(n2)))
  }

  /** Semitones between two located notes, or the first failure. */
  function Span(l1: Result<(PitchClass, int), NoteError>, l2: Result<(PitchClass, int), NoteError>)
    : Result<int, NoteError>
  {
    match l1
    case Failure(e) => Failure(e)
    case Success(p1) =>
      match l2
      case Failure(e) => Failure(e)
      case Success(p2) => Success((p2.0 - p1.0) + (p2.1 - p1.1) * 12)
  }

  /** Normalized notes always locate, and their distance is the difference
      of the heights read from them. */
  lemma BetweenReadings(a: Note, b: Note, d: int)
    requires d == ReadHeight(b) - ReadHeight(a)
    ensures Between(a, b) == Success(d)
  {
    var oa := if a.Abs? && a.octave >= 0 then a.octave else 0;
    var ob := if b.Abs? && b.octave >= 0 then b.octave else 0;
    assert d == (b.pc - a.pc) + (ob - oa) * 12;
    BetweenLocated(a, b, (a.pc, oa), (b.pc, ob), d);
  }

  /** `Between` reads back the pitch class and octave that `Print` wrote. */
  lemma BetweenLocated(a: Note, b: Note, p1: (PitchClass, int), p2: (PitchClass, int), d: int)
    requires p1 == (a.pc, if a.Abs? && a.octave >= 0 then a.octave else 0)
    requires p2 == (b.pc, if b.Abs? && b.octave >= 0 then b.octave else 0)
    requires d == (p2.0 - p1.0) + (p2.1 - p1.1) * 12
    ensures Between(a, b) == Success(d)
  {
    LocatePrint(a);
    LocatePrint(b);
    SpanOf(p1, p2, d);
  }

  /** Two successful locations span the difference of their heights. */
  lemma SpanOf(p1: (PitchClass, int), p2: (PitchClass, int), d: int)
    requires d == (p2.0 - p1.0) + (p2.1 - p1.1) * 12
    ensures Span(Success(p1), Success(p2)) == Success(d)
  {
  }

  /** The height `_getDistance` sees in a normalized note: a negative octave
      prints with a minus sign that `getOctave` cannot read, so it counts as
      octave 0, like a bare pitch class. */
  function ReadHeight(n: Note): (h: int)
    ensures Canonical(n) ==> h == Height(n)
    ensures 0 <= h - 12 * (if n.Abs? && n.octave >= 0 then n.octave else 0) < 12
  {
    n.pc + 12 * (if n.Abs? && n.octave >= 0 then n.octave else 0)
  }

  /** Reading a printed note back for the distance computation. */
  lemma LocatePrint(n: Note)
    ensures Locate(Print(n)) == Success((n.pc, if n.Abs? && n.octave >= 0 then n.octave else 0))
  {
    GetPitchClassPrint(n);
    GetOctavePrint(n);
    IndexOfName(n.pc);
  }

  /** The distance of two texts whose normalized notes are known. */
  lemma DistanceOfReadings(note1: string, note2: string, a: Note, b: Note, d: int)
    requires NormalizeNote(note1) == Success(a) && NormalizeNote(note2) == Success(b)
    requires d == ReadHeight(b) - ReadHeight(a)
    ensures Distance(note1, note2) == Success(d)
  {
    BetweenReadings(a, b, d);
  }

  /** Between canonical notes the distance is the difference of heights (a
      bare pitch class sits in octave 0). The difference is the parameter
      `d`: an arithmetic term inside `Success(...)` makes the goal much
      costlier for the solver. */
  lemma DistanceCanonical(a: Note, b: Note, d: int)
    requires Canonical(a) && Canonical(b) && Height(b) - Height(a) == d
    ensures Distance(Print(a), Print(b)) == Success(d)
  {
    NormalizePrint(a);
    NormalizePrint(b);
    DistanceOfReadings(Print(a), Print(b), a, b, d);
  }

  /** `getDistance(note, transpose(note, n)) == n` for an octave-bearing
      canonical note whose transposition keeps a non-negative octave. */
  lemma DistanceOfTranspose(n: Note, steps: int)
    requires n.Abs? && Canonical(n) && Canonical(Shift(n, steps))
    ensures Transpose(Print(n), steps).Success?
    ensures Distance(Print(n), Transpose(Print(n), steps).value) == Success(steps)
  {
    var m := Shift(n, steps);
    TransposeReaches(n, m, steps);
    DistanceCanonical(n, m, steps);
  }


  /** Reading "B#4": the sharp carries B4 over into the fifth octave. */
  lemma NormalizeSharpExample()
    ensures NormalizeNote("B#4") == Success(Abs(0, 5))
  {
    var s := "B#4";
    assert LetterFrom(s, 0) == Some(0);
    assert AccidentalRun(s, 1) == "#";
    assert DigitRun(s, 2) == "4";
    assert IndexOf("B") == Some(11);
  }

  /** Reading "Cb4": the flat carries C4 down into the third octave. */
  lemma NormalizeFlatExample()
    ensures NormalizeNote("Cb4") == Success(Abs(11, 3))
  {
    var s := "Cb4";
    assert LetterFrom(s, 0) == Some(0);
    assert AccidentalRun(s, 1) == "b";
    assert DigitRun(s, 2) == "4";
    assert IndexOf("C") == Some(0);
  }

  /** `transpose` keeps the octave written in the text, so "B#4" transposed
      by nothing is "C4" although it normalizes to C5. */
  lemma TransposeKeepsWrittenOctave()
    ensures Transpose("B#4", 0) == Success("C4")
  {
    NormalizeSharpExample();
    OctaveSharpExample();
    ShiftZero(Abs(0, 4));
    PrintC4();
    TransposeWritten("B#4", Abs(0, 5), 4, 0, Abs(0, 4));
  }

  /** `getOctave("B#4")` reads the digit as written. */
  lemma OctaveSharpExample()
    ensures GetOctave("B#4") == Some(4)
  {
    var s := "B#4";
    assert OctaveAt(s, 0);
    assert OctaveFrom(s, 0) == Some(0);
    assert !IsDigit(s[1]);
    assert DigitRun(s, 2) == "4";
    assert ParseDigits("4") == 4;
  }

  lemma PrintC4()
    ensures Print(Abs(0, 4)) == "C4"
  {
    assert DigitChar(4) == '4';
  }

  /** `TransposeSpec` for text whose normalized form and written octave are
      known. */
  lemma TransposeWritten(note: string, normalized: Note, octave: nat, steps: int, to: Note)
    requires NormalizeNote(note) == Success(normalized) && GetOctave(note) == Some(octave)
    requires Shift(Abs(normalized.pc, octave), steps) == to
    ensures Transpose(note, steps) == Success(Print(to))
  {
    TransposeSpec(note, steps);
  }
}
