/** The twelve-entry pitch-class table and the integer arithmetic of
    transposition: `transposePitchClass`, `getImplicitOctaveChange` and
    `transposeNote` of js/music-utils.js. */
module Pitch {
  import opened Results
  import Decimal

  /** An index into the pitch-class table. */
  type PitchClass = i: int | 0 <= i < 12

  /** The sharp-spelled table `pitchClasses`. */
  const Names: seq<string> := ["C", "C#", "D", "D#", "E", "F", "F#", "G", "G#", "A", "A#", "B"]

  /** A note as the module understands it: a bare pitch class, or a pitch
      class with an octave. Octaves can become negative by transposition. */
  datatype Note = PC(pc: PitchClass) | Abs(pc: PitchClass, octave: int)

  /** The form every operation of the module can read back: octave-less, or
      with a non-negative octave (a printed minus sign is not part of the
      note grammar). */
  predicate Canonical(n: Note) {
    n.PC? || n.octave >= 0
  }

  /** Semitones above C0; a bare pitch class counts as octave 0, as the
      distance computation does when it subtracts a missing octave. */
  function Height(n: Note): int {
    match n
    case PC(p) => p
    case Abs(p, o) => 12 * o + p
  }

  /** The template string `${pitchClass}${octave}`. */
  function Print(n: Note): string {
    match n
    case PC(p) => Names[p]
    case Abs(p, o) => Names[p] + Decimal.IntToString(o)
  }

  /** The natural letters' places in the table. */
  function LetterIndex(c: char): Option<PitchClass> {
    match c
    case 'C' => Some(0)
    case 'D' => Some(2)
    case 'E' => Some(4)
    case 'F' => Some(5)
    case 'G' => Some(7)
    case 'A' => Some(9)
    case 'B' => Some(11)
    case _ => None
  }

  /** The lookup `pitchClassIndiciesByValue[name]`, read off the name's
      characters: an upper-case natural letter, optionally followed by a
      sharp where the table has one. */
  function IndexOf(name: string): Option<PitchClass> {
    if |name| == 1 then LetterIndex(name[0])
    else if |name| == 2 && name[1] == '#' then
      match LetterIndex(name[0])
      case Some(p) => if p == 4 || p == 11 then None else Some(p + 1)
      case None => None
    else None
  }

  /** Every table name is found at its own index. */
  lemma IndexOfName(p: PitchClass)
    ensures IndexOf(Names[p]) == Some(p)
  {
  }

  /** The lookup finds a name only at the index where the table holds it. */
  lemma IndexOfSound(name: string)
    ensures IndexOf(name).Some? ==> Names[IndexOf(name).value] == name
  {
    if IndexOf(name).Some? {
      assert name == [name[0]] || name == [name[0], name[1]];
    }
  }

  /** Exactly the table names are keys of the lookup. */
  lemma IndexOfKeys(name: string)
    ensures IndexOf(name).Some? <==> name in Names
  {
    IndexOfSound(name);
    if name in Names {
      var p :| 0 <= p < 12 && Names[p] == name;
      IndexOfName(p);
    }
  }

  /** JavaScript's `%` on integers: the remainder of the quotient truncated
      toward zero, so it takes the sign of the dividend. */
  function TruncRem(a: int, b: int): (r: int)
    requires b > 0
    ensures a == b * TruncDiv(a, b) + r
    ensures -b < r < b
    ensures a >= 0 ==> r >= 0
    ensures a < 0 ==> r <= 0
  {
    if a >= 0 then a % b
    else
      assert -a == b * ((-a) / b) + (-a) % b;
      -((-a) % b)
  }

  /** `Number.parseInt(a / b, 10)` for integers: the quotient truncated
      toward zero, so that `b * q` never overshoots `a` away from zero. */
  function TruncDiv(a: int, b: int): (q: int)
    requires b > 0
    ensures a >= 0 ==> 0 <= a - b * q < b
    ensures a < 0 ==> -b < a - b * q <= 0
  {
    if a >= 0 then a / b
    else
      assert -a == b * ((-a) / b) + (-a) % b;
      -((-a) / b)
  }

  /** `transposePitchClass` on table indices: the truncating remainder,
      lifted by 12 when it is negative, lands on the Euclidean residue. */
  function TransposePitchClass(pc: PitchClass, semitones: int): (r: PitchClass)
    ensures r == (pc + semitones) % 12
  {
    var next := TruncRem(pc + semitones, 12);
    if next >= 0 then next else next + 12
  }

  lemma TransposeWithinOctave(pc: PitchClass, semitones: int)
    requires 0 <= pc + semitones < 12
    ensures TransposePitchClass(pc, semitones) == pc + semitones
  {
  }

  /** Transposing back by the same amount restores the pitch class. */
  lemma TransposePitchClassInverse(pc: PitchClass, n: int)
    ensures TransposePitchClass(TransposePitchClass(pc, n), -n) == pc
  {
    var q := (pc + n) / 12;
    assert (pc + n) % 12 - n == pc - 12 * q;
  }

  /** `getImplicitOctaveChange`: +1 when an upward transposition wrapped
      past B, -1 when a downward one wrapped past C. */
  function ImplicitOctaveChange(a: PitchClass, b: PitchClass, wasTransposedUp: bool): (r: int)
    ensures r == 1 <==> wasTransposedUp && a > b
    ensures r == -1 <==> !wasTransposedUp && a < b
    ensures -1 <= r <= 1
  {
    if wasTransposedUp && a > b then 1
    else if !wasTransposedUp && a < b then -1
    else 0
  }

  /** The wrap correction counts the octave boundary that a shift of less
      than an octave crosses: the unwrapped sum `pc + semitones` lies exactly
      `12 * change` above the wrapped pitch class. */
  lemma ImplicitOctaveCrossing(pc: PitchClass, semitones: int)
    requires -12 < semitones < 12
    ensures 12 * ImplicitOctaveChange(pc, TransposePitchClass(pc, semitones), semitones > 0)
            == pc + semitones - TransposePitchClass(pc, semitones)
  {
  }

  /** `transposeNote`: the octave moves by the truncated number of whole
      octaves plus the implicit wrap correction. The absolute pitch moves by
      exactly `semitones`, whatever its sign. */
  function TransposeNote(pc: PitchClass, octave: int, semitones: int): (r: Note)
    ensures r.Abs? && r.pc == TransposePitchClass(pc, semitones)
    ensures Height(r) == 12 * octave + pc + semitones
  {
    var next := TransposePitchClass(pc, semitones);
    var octaves := TruncDiv(semitones, 12);
    var r := Abs(next, octave + octaves + ImplicitOctaveChange(pc, next, semitones > 0));
    TransposeNoteHeight(pc, semitones);
    r
  }

  lemma TransposeNoteHeight(pc: PitchClass, semitones: int)
    ensures 12 * (TruncDiv(semitones, 12)
                  + ImplicitOctaveChange(pc, TransposePitchClass(pc, semitones), semitones > 0))
            + TransposePitchClass(pc, semitones) == pc + semitones
  {
    var next := TransposePitchClass(pc, semitones);
    if semitones >= 0 {
      var q, r := semitones / 12, semitones % 12;
      assert semitones == 12 * q + r;
      if pc + r < 12 {
        assert next == pc + r;
      } else {
        assert next == pc + r - 12;
      }
    } else {
      var q, r := (-semitones) / 12, (-semitones) % 12;
      assert -semitones == 12 * q + r;
      if pc - r >= 0 {
        assert next == pc - r;
      } else {
        assert next == pc - r + 12;
      }
    }
  }

  /** Transposition of a note value, with or without octave: the operation
      that every string-level transposition reduces to on canonical input. */
  function Shift(n: Note, semitones: int): (r: Note)
    ensures r.PC? == n.PC?
    ensures r.pc == (n.pc + semitones) % 12
    ensures n.Abs? ==> Height(r) == Height(n) + semitones
  {
    match n
    case PC(p) => PC(TransposePitchClass(p, semitones))
    case Abs(p, o) => TransposeNote(p, o, semitones)
  }

  /** Shifting by nothing changes nothing. */
  lemma ShiftZero(n: Note)
    ensures Shift(n, 0) == n
  {
    if n.Abs? {
      HeightDetermines(Shift(n, 0), n);
    }
  }

  /** Shifting a canonical note upwards keeps it canonical. */
  lemma ShiftUpCanonical(n: Note, semitones: int)
    requires Canonical(n) && semitones >= 0
    ensures Canonical(Shift(n, semitones))
  {
  }

  /** Two octave-bearing notes with the same height are the same note. */
  lemma HeightDetermines(a: Note, b: Note)
    requires a.Abs? && b.Abs? && Height(a) == Height(b)
    ensures a == b
  {
  }

  /** Shifting back by the same amount undoes a shift. */
  lemma ShiftInverse(n: Note, semitones: int)
    ensures Shift(Shift(n, semitones), -semitones) == n
  {
    TransposePitchClassInverse(n.pc, semitones);
    if n.Abs? {
      HeightDetermines(Shift(Shift(n, semitones), -semitones), n);
    }
  }
}
