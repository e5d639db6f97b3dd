/** Lists of notes: transposing every text of a list, and the note values
    behind a list of canonical texts. */
module NoteLists {
  import opened Results
  import opened Pitch
  import opened NoteText
  import opened NoteTheory

  /** `transpose` by a fixed number of steps, as a value to hand round. */
  function Transposer(steps: int): string -> Result<string, NoteError>
  {
    note => Transpose(note, steps)
  }

  /** A step applied to each element in order, giving a text each; the
      first failure stops the walk, as a throw would. */
  function MapNotes<T>(step: T -> Result<string, NoteError>, notes: seq<T>): Result<seq<string>, NoteError>
  {
    if |notes| == 0 then Success([])
    else
      var first :- step(notes[0]);
      var rest :- MapNotes(step, notes[1..]);
      Success([first] + rest)
  }

  /** The walk succeeds exactly when every text's step does, and then holds
      each text's result at its own position. */
  lemma {:induction false} MapNotesSpec<T>(step: T -> Result<string, NoteError>, notes: seq<T>)
    ensures MapNotes(step, notes).Success?
            <==> forall i :: 0 <= i < |notes| ==> step(notes[i]).Success?
    ensures MapNotes(step, notes).Success? ==>
      && |MapNotes(step, notes).value| == |notes|
      && forall i :: 0 <= i < |notes| ==> MapNotes(step, notes).value[i] == step(notes[i]).value
    decreases |notes|
  {
    if |notes| > 0 {
      MapNotesSpec(step, notes[1..]);
      if step(notes[0]).Success? && MapNotes(step, notes[1..]).Success? {
        var all := MapNotes(step, notes).value;
        forall i | 0 <= i < |notes|
          ensures all[i] == step(notes[i]).value
        {
          if i > 0 {
            assert notes[1..][i - 1] == notes[i];
          }
        }
      }
      if MapNotes(step, notes[1..]).Failure? {
        var i :| 0 <= i < |notes[1..]| && !step(notes[1..][i]).Success?;
        assert notes[1..][i] == notes[i + 1];
      }
    }
  }

  /** `transpose` applied to each text of a list. */
  function TransposeAll(notes: seq<string>, steps: int): Result<seq<string>, NoteError>
  {
    MapNotes(Transposer(steps), notes)
  }

  /** The list succeeds exactly when every text transposes, and then holds
      each text's transposition at its own position. */
  lemma TransposeAllSpec(notes: seq<string>, steps: int)
    ensures TransposeAll(notes, steps).Success?
            <==> forall i :: 0 <= i < |notes| ==> Transpose(notes[i], steps).Success?
    ensures TransposeAll(notes, steps).Success? ==>
      && |TransposeAll(notes, steps).value| == |notes|
      && forall i :: 0 <= i < |notes| ==>
           TransposeAll(notes, steps).value[i] == Transpose(notes[i], steps).value
  {
    MapNotesSpec(Transposer(steps), notes);
    assert forall i :: 0 <= i < |notes| ==> Transposer(steps)(notes[i]) == Transpose(notes[i], steps);
  }

  /** The lists agree element by element: a reference characterisation
      without the recursion. */
  lemma TransposeAllIs(notes: seq<string>, steps: int, result: seq<string>)
    requires |result| == |notes|
    requires forall i :: 0 <= i < |notes| ==> Transpose(notes[i], steps) == Success(result[i])
    ensures TransposeAll(notes, steps) == Success(result)
  {
    TransposeAllSpec(notes, steps);
    var all := TransposeAll(notes, steps).value;
    assert all == result by {
      forall i | 0 <= i < |notes|
        ensures all[i] == result[i]
      {
        assert Transpose(notes[i], steps).value == result[i];
      }
    }
  }

  /** The texts of a list of notes. */
  function Prints(ns: seq<Note>): (r: seq<string>)
    ensures |r| == |ns|
    ensures forall i :: 0 <= i < |ns| ==> r[i] == Print(ns[i])
  {
    seq(|ns|, i requires 0 <= i < |ns| => Print(ns[i]))
  }

  /** Every note of a list shifted by the same amount. */
  function ShiftAll(ns: seq<Note>, semitones: int): (r: seq<Note>)
    ensures |r| == |ns|
    ensures forall i :: 0 <= i < |ns| ==> r[i] == Shift(ns[i], semitones)
  {
    seq(|ns|, i requires 0 <= i < |ns| => Shift(ns[i], semitones))
  }

  predicate AllCanonical(ns: seq<Note>) {
    forall i :: 0 <= i < |ns| ==> Canonical(ns[i])
  }

  /** Transposing the texts of canonical notes prints the shifted notes. */
  lemma TransposeAllCanonical(ns: seq<Note>, steps: int)
    requires AllCanonical(ns)
    ensures TransposeAll(Prints(ns), steps) == Success(Prints(ShiftAll(ns, steps)))
  {
    var texts := Prints(ns);
    var shifted := Prints(ShiftAll(ns, steps));
    forall i | 0 <= i < |ns|
      ensures Transpose(texts[i], steps) == Success(shifted[i])
    {
      TransposeReaches(ns[i], Shift(ns[i], steps), steps);
    }
    TransposeAllIs(texts, steps, shifted);
  }

  /** Shifting back by the same amount undoes a shift of a whole list. */
  lemma ShiftAllInverse(ns: seq<Note>, semitones: int)
    ensures ShiftAll(ShiftAll(ns, semitones), -semitones) == ns
  {
    forall i | 0 <= i < |ns|
      ensures ShiftAll(ShiftAll(ns, semitones), -semitones)[i] == ns[i]
    {
      ShiftInverse(ns[i], semitones);
    }
  }

  /** Printing commutes with concatenation and slicing. */
  lemma PrintsAppend(a: seq<Note>, b: seq<Note>)
    ensures Prints(a + b) == Prints(a) + Prints(b)
  {
  }

  lemma PrintsSlice(ns: seq<Note>, i: nat, j: nat)
    requires i <= j <= |ns|
    ensures Prints(ns[i..j]) == Prints(ns)[i..j]
  {
  }
}
