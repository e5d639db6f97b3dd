/** `chord`, the interval constants and the chord builders. */
module Chords {
  import opened Results
  import opened Pitch
  import opened NoteText
  import opened NoteTheory
  import opened NoteLists

  /** Interval sizes in semitones, under every name the module gives them. */
  const P1: int := 0
  const d2: int := 0
  const m2: int := 1
  const A1: int := 1
  const M2: int := 2
  const d3: int := 2
  const m3: int := 3
  const A2: int := 3
  const M3: int := 4
  const d4: int := 4
  const P4: int := 5
  const A3: int := 5
  const d5: int := 6
  const A4: int := 6
  const P5: int := 7
  const d6: int := 7
  const m6: int := 8
  const A5: int := 8
  const M6: int := 9
  const d7: int := 9
  const m7: int := 10
  const A6: int := 10
  const M7: int := 11
  const d8: int := 11
  const P8: int := 12
  const A7: int := 12

  const MajorIntervals: seq<int> := [M3, P5]
  const MinorIntervals: seq<int> := [m3, P5]
  const Major7thIntervals: seq<int> := MajorIntervals + [M7]
  const Minor7thIntervals: seq<int> := MinorIntervals + [m7]
  const Dominant7thIntervals: seq<int> := MajorIntervals + [m7]
  const Major9thIntervals: seq<int> := Major7thIntervals + [P8 + M2]
  const Minor9thIntervals: seq<int> := Minor7thIntervals + [P8 + M2]

  /** One tonic transposed by each interval in order. */
  function TransposeEach(tonic: string, intervals: seq<int>): Result<seq<string>, NoteError>
  {
    MapNotes((k: int) => Transpose(tonic, k), intervals)
  }

  /** `chord`: the tonic as given, then its transposition by each interval
      in order, so one note more than there are intervals. It fails exactly
      when transposing the tonic by one of the intervals fails. */
  function Chord(tonic: string, intervals: seq<int>): (r: Result<seq<string>, NoteError>)
    ensures r.Success? <==> forall i :: 0 <= i < |intervals| ==> Transpose(tonic, intervals[i]).Success?
    ensures r.Success? ==>
      && |r.value| == 1 + |intervals|
      && r.value[0] == tonic
      && forall i :: 0 <= i < |intervals| ==> r.value[i + 1] == Transpose(tonic, intervals[i]).value
  {
    TransposeEachSpec(tonic, intervals);
    match TransposeEach(tonic, intervals)
    case Failure(e) => Failure(e)
    case Success(above) =>
      assert forall i :: 0 <= i < |intervals| ==> ([tonic] + above)[i + 1] == above[i];
      Success([tonic] + above)
  }

  /** `Chord` on two, three and four intervals, written out note by note. */
  lemma ChordOk2(tonic: string, a: int, b: int)
    ensures Chord(tonic, [a, b]).Success? <==> Transpose(tonic, a).Success? && Transpose(tonic, b).Success?
  {
    var ints := [a, b];
    assert ints[0] == a && ints[1] == b;
  }

  lemma ChordOf2(tonic: string, a: int, b: int)
    ensures Chord(tonic, [a, b]).Success? ==>
      Chord(tonic, [a, b]).value == [tonic, Transpose(tonic, a).value, Transpose(tonic, b).value]
  {
    var ints := [a, b];
    assert ints[0] == a && ints[1] == b;
    if Chord(tonic, ints).Success? {
      var v := Chord(tonic, ints).value;
      assert v[1] == Transpose(tonic, ints[0]).value;
      assert v[2] == Transpose(tonic, ints[1]).value;
    }
  }

  lemma ChordOk3(tonic: string, a: int, b: int, c: int)
    ensures Chord(tonic, [a, b, c]).Success?
            <==> Transpose(tonic, a).Success? && Transpose(tonic, b).Success? && Transpose(tonic, c).Success?
  {
    var ints := [a, b, c];
    assert ints[0] == a && ints[1] == b && ints[2] == c;
  }

  lemma ChordOf3(tonic: string, a: int, b: int, c: int)
    ensures Chord(tonic, [a, b, c]).Success? ==>
      Chord(tonic, [a, b, c]).value
      == [tonic, Transpose(tonic, a).value, Transpose(tonic, b).value, Transpose(tonic, c).value]
  {
    var ints := [a, b, c];
    assert ints[0] == a && ints[1] == b && ints[2] == c;
    if Chord(tonic, ints).Success? {
      var v := Chord(tonic, ints).value;
      assert v[1] == Transpose(tonic, ints[0]).value;
      assert v[2] == Transpose(tonic, ints[1]).value;
      assert v[3] == Transpose(tonic, ints[2]).value;
    }
  }

  lemma ChordOk4(tonic: string, a: int, b: int, c: int, d: int)
    ensures Chord(tonic, [a, b, c, d]).Success?
            <==> && Transpose(tonic, a).Success? && Transpose(tonic, b).Success?
                 && Transpose(tonic, c).Success? && Transpose(tonic, d).Success?
  {
    var ints := [a, b, c, d];
    assert ints[0] == a && ints[1] == b && ints[2] == c && ints[3] == d;
  }

  lemma ChordOf4(tonic: string, a: int, b: int, c: int, d: int)
    ensures Chord(tonic, [a, b, c, d]).Success? ==>
      Chord(tonic, [a, b, c, d]).value
      == [tonic, Transpose(tonic, a).value, Transpose(tonic, b).value,
          Transpose(tonic, c).value, Transpose(tonic, d).value]
  {
    var ints := [a, b, c, d];
    assert ints[0] == a && ints[1] == b && ints[2] == c && ints[3] == d;
    if Chord(tonic, ints).Success? {
      var v := Chord(tonic, ints).value;
      assert v[1] == Transpose(tonic, ints[0]).value;
      assert v[2] == Transpose(tonic, ints[1]).value;
      assert v[3] == Transpose(tonic, ints[2]).value;
      assert v[4] == Transpose(tonic, ints[3]).value;
    }
  }

  /** The triads: the tonic with a major or minor third and a perfect fifth. */
  function Major(tonic: string): (r: Result<seq<string>, NoteError>)
    ensures r.Success? <==> Transpose(tonic, 4).Success? && Transpose(tonic, 7).Success?
    ensures r.Success? ==> r.value == [tonic, Transpose(tonic, 4).value, Transpose(tonic, 7).value]
  {
    assert MajorIntervals == [4, 7];
    ChordOk2(tonic, 4, 7);
    ChordOf2(tonic, 4, 7);
    Chord(tonic, MajorIntervals)
  }

  function Minor(tonic: string): (r: Result<seq<string>, NoteError>)
    ensures r.Success? <==> Transpose(tonic, 3).Success? && Transpose(tonic, 7).Success?
    ensures r.Success? ==> r.value == [tonic, Transpose(tonic, 3).value, Transpose(tonic, 7).value]
  {
    assert MinorIntervals == [3, 7];
    ChordOk2(tonic, 3, 7);
    ChordOf2(tonic, 3, 7);
    Chord(tonic, MinorIntervals)
  }

  /** The seventh chords: a triad with a major or minor seventh on top. */
  function Major7th(tonic: string): (r: Result<seq<string>, NoteError>)
    ensures r.Success? <==> Transpose(tonic, 4).Success? && Transpose(tonic, 7).Success?
                            && Transpose(tonic, 11).Success?
    ensures r.Success? ==>
      r.value == [tonic, Transpose(tonic, 4).value, Transpose(tonic, 7).value, Transpose(tonic, 11).value]
  {
    assert Major7thIntervals == [4, 7, 11];
    ChordOk3(tonic, 4, 7, 11);
    ChordOf3(tonic, 4, 7, 11);
    Chord(tonic, Major7thIntervals)
  }

  function Minor7th(tonic: string): (r: Result<seq<string>, NoteError>)
    ensures r.Success? <==> Transpose(tonic, 3).Success? && Transpose(tonic, 7).Success?
                            && Transpose(tonic, 10).Success?
    ensures r.Success? ==>
      r.value == [tonic, Transpose(tonic, 3).value, Transpose(tonic, 7).value, Transpose(tonic, 10).value]
  {
    assert Minor7thIntervals == [3, 7, 10];
    ChordOk3(tonic, 3, 7, 10);
    ChordOf3(tonic, 3, 7, 10);
    Chord(tonic, Minor7thIntervals)
  }

  function Dominant7th(tonic: string): (r: Result<seq<string>, NoteError>)
    ensures r.Success? <==> Transpose(tonic, 4).Success? && Transpose(tonic, 7).Success?
                            && Transpose(tonic, 10).Success?
    ensures r.Success? ==>
      r.value == [tonic, Transpose(tonic, 4).value, Transpose(tonic, 7).value, Transpose(tonic, 10).value]
  {
    assert Dominant7thIntervals == [4, 7, 10];
    ChordOk3(tonic, 4, 7, 10);
    ChordOf3(tonic, 4, 7, 10);
    Chord(tonic, Dominant7thIntervals)
  }

  /** The ninth chords: a seventh chord with a major ninth (an octave and a
      whole tone, 14 semitones) on top. */
  function Major9th(tonic: string): (r: Result<seq<string>, NoteError>)
    ensures r.Success? <==>
      Transpose(tonic, 4).Success? && Transpose(tonic, 7).Success? && Transpose(tonic, 11).Success?
      && Transpose(tonic, 14).Success?
    ensures r.Success? ==>
      r.value == [tonic, Transpose(tonic, 4).value, Transpose(tonic, 7).value, Transpose(tonic, 11).value,
                  Transpose(tonic, 14).value]
  {
    assert Major9thIntervals == [4, 7, 11, 14];
    ChordOk4(tonic, 4, 7, 11, 14);
    ChordOf4(tonic, 4, 7, 11, 14);
    Chord(tonic, Major9thIntervals)
  }

  function Minor9th(tonic: string): (r: Result<seq<string>, NoteError>)
    ensures r.Success? <==>
      Transpose(tonic, 3).Success? && Transpose(tonic, 7).Success? && Transpose(tonic, 10).Success?
      && Transpose(tonic, 14).Success?
    ensures r.Success? ==>
      r.value == [tonic, Transpose(tonic, 3).value, Transpose(tonic, 7).value, Transpose(tonic, 10).value,
                  Transpose(tonic, 14).value]
  {
    assert Minor9thIntervals == [3, 7, 10, 14];
    ChordOk4(tonic, 3, 7, 10, 14);
    ChordOf4(tonic, 3, 7, 10, 14);
    Chord(tonic, Minor9thIntervals)
  }

  /** The transposed tonics exist exactly when every interval's
      transposition does, and come in interval order. */
  lemma TransposeEachSpec(tonic: string, intervals: seq<int>)
    ensures TransposeEach(tonic, intervals).Success?
            <==> forall i :: 0 <= i < |intervals| ==> Transpose(tonic, intervals[i]).Success?
    ensures TransposeEach(tonic, intervals).Success? ==>
      && |TransposeEach(tonic, intervals).value| == |intervals|
      && forall i :: 0 <= i < |intervals| ==>
           TransposeEach(tonic, intervals).value[i] == Transpose(tonic, intervals[i]).value
  {
    MapNotesSpec((k: int) => Transpose(tonic, k), intervals);
  }

  /** The notes of a chord on a note value. */
  function ChordNotes(tonic: Note, intervals: seq<int>): (r: seq<Note>)
    ensures |r| == 1 + |intervals| && r[0] == tonic
    ensures forall i :: 0 <= i < |intervals| ==> r[i + 1] == Shift(tonic, intervals[i])
  {
    [tonic] + seq(|intervals|, i requires 0 <= i < |intervals| => Shift(tonic, intervals[i]))
  }

  /** On a canonical tonic, a chord prints the tonic shifted by each interval. */
  lemma ChordCanonical(tonic: Note, intervals: seq<int>)
    requires Canonical(tonic)
    ensures Chord(Print(tonic), intervals) == Success(Prints(ChordNotes(tonic, intervals)))
  {
    var expected := Prints(ChordNotes(tonic, intervals));
    forall i | 0 <= i < |intervals|
      ensures Transpose(Print(tonic), intervals[i]) == Success(expected[i + 1])
    {
      TransposeReaches(tonic, Shift(tonic, intervals[i]), intervals[i]);
    }
    var r := Chord(Print(tonic), intervals).value;
    assert r == expected by {
      forall i | 0 <= i < |r|
        ensures r[i] == expected[i]
      {
        if i > 0 {
          assert Transpose(Print(tonic), intervals[i - 1]).value == expected[i];
        }
      }
    }
  }

  /** On an octave-bearing canonical tonic, every chord tone lies its
      interval above the tonic by `getDistance`. */
  lemma ChordDistances(tonic: Note, intervals: seq<int>)
    requires tonic.Abs? && Canonical(tonic)
    requires forall i :: 0 <= i < |intervals| ==> intervals[i] >= 0
    ensures Chord(Print(tonic), intervals).Success?
    ensures |Chord(Print(tonic), intervals).value| == 1 + |intervals|
    ensures forall i :: 0 <= i < |intervals| ==>
      Distance(Chord(Print(tonic), intervals).value[0], Chord(Print(tonic), intervals).value[i + 1])
        == Success(intervals[i])
  {
    ChordCanonical(tonic, intervals);
    var notes := ChordNotes(tonic, intervals);
    forall i | 0 <= i < |intervals|
      ensures Distance(Print(notes[0]), Print(notes[i + 1])) == Success(intervals[i])
    {
      DistanceCanonical(tonic, notes[i + 1], intervals[i]);
    }
  }

  /** `major('C')` is C, E, G. */
  lemma MajorOfC()
    ensures Major("C") == Success(["C", "E", "G"])
  {
    TransposeReaches(PC(0), PC(4), 4);
    TransposeReaches(PC(0), PC(7), 7);
    assert Print(PC(0)) == "C" && Print(PC(4)) == "E" && Print(PC(7)) == "G";
  }

  /** `minor7th('A')` is A, C, E, G. */
  lemma Minor7thOfA()
    ensures Minor7th("A") == Success(["A", "C", "E", "G"])
  {
    TransposeReaches(PC(9), PC(0), 3);
    TransposeReaches(PC(9), PC(4), 7);
    TransposeReaches(PC(9), PC(7), 10);
    assert Print(PC(9)) == "A" && Print(PC(0)) == "C" && Print(PC(4)) == "E" && Print(PC(7)) == "G";
  }
}
