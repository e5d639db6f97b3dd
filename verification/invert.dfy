/** `invert`: rotating a chord's notes, moving each note that goes round by
    an octave. */
module Inversion {
  import opened Results
  import opened Pitch
  import opened NoteText
  import opened NoteTheory
  import opened NoteLists

  /** `count` rounds of the loop in `invert` for a non-negative inversion,
      with `move` the octave transposition: the first note is shifted off,
      moved and pushed on the end. On an empty list the shifted value is
      `undefined`, which `transpose` cannot parse, and the call throws. */
  function RoundsUp(move: string -> Result<string, NoteError>, notes: seq<string>, count: nat)
    : (r: Result<seq<string>, NoteError>)
    ensures r.Success? ==> |r.value| == |notes|
    decreases count
  {
    if count == 0 then Success(notes)
    else if |notes| == 0 then Failure(NotAString)
    else
      var moved :- move(notes[0]);
      RoundsUp(move, notes[1..] + [moved], count - 1)
  }

  /** The rounds for a negative inversion: the last note is popped, moved
      and unshifted onto the front. */
  function RoundsDown(move: string -> Result<string, NoteError>, notes: seq<string>, count: nat)
    : (r: Result<seq<string>, NoteError>)
    ensures r.Success? ==> |r.value| == |notes|
    decreases count
  {
    if count == 0 then Success(notes)
    else if |notes| == 0 then Failure(NotAString)
    else
      var moved :- move(notes[|notes| - 1]);
      RoundsDown(move, [moved] + notes[..|notes| - 1], count - 1)
  }

  /** `invert(notes, inversion)`: a positive inversion raises the notes it
      moves by an octave, a negative one lowers them. The input list is
      copied, never changed: the result has as many notes, inverting by zero
      returns the notes as they are, and any other inversion of an empty
      list throws. */
  function Invert(notes: seq<string>, inversion: int): (r: Result<seq<string>, NoteError>)
    ensures r.Success? ==> |r.value| == |notes|
    ensures inversion == 0 ==> r == Success(notes)
    ensures |notes| == 0 && inversion != 0 ==> r == Failure(NotAString)
  {
    if inversion < 0 then RoundsDown(Transposer(-12), notes, -inversion)
    else RoundsUp(Transposer(12), notes, inversion)
  }

  /** The rounds of an upward rotation, from round `j` on: the notes not yet
      moved, then the ones already moved (`done`), come out as the unmoved
      tail, `done`, and the moved notes `j..k` in order. */
  lemma {:induction false} RoundsUpFrom(move: string -> Result<string, NoteError>, notes: seq<string>,
                                        done: seq<string>, j: nat, k: nat)
    requires j <= k <= |notes|
    ensures RoundsUp(move, notes[j..] + done, k - j)
            == match MapNotes(move, notes[j..k])
               case Success(moved) => Success(notes[k..] + done + moved)
               case Failure(e) => Failure(e)
    decreases k - j
  {
    if j < k {
      var list := notes[j..] + done;
      assert list[0] == notes[j];
      assert notes[j..k][0] == notes[j] && notes[j..k][1..] == notes[j + 1..k];
      match move(notes[j]) {
        case Failure(e) =>
        case Success(t) =>
          assert list[1..] + [t] == notes[j + 1..] + (done + [t]);
          RoundsUpFrom(move, notes, done + [t], j + 1, k);
          match MapNotes(move, notes[j + 1..k]) {
            case Failure(e) =>
            case Success(rest) =>
              assert notes[k..] + (done + [t]) + rest == notes[k..] + done + ([t] + rest);
          }
      }
    } else {
      assert notes[j..k] == [];
      assert notes[j..] + done == notes[k..] + done + [];
    }
  }

  /** Mapping a list with one more text at the end: it succeeds when the
      front and the last text do, and then ends with the last text's result. */
  lemma MapNotesSnoc(move: string -> Result<string, NoteError>, notes: seq<string>, last: string)
    ensures MapNotes(move, notes + [last]).Success?
            <==> MapNotes(move, notes).Success? && move(last).Success?
    ensures MapNotes(move, notes + [last]).Success? ==>
      MapNotes(move, notes + [last]).value == MapNotes(move, notes).value + [move(last).value]
  {
    var all := notes + [last];
    MapNotesSpec(move, all);
    MapNotesSpec(move, notes);
    assert all[|notes|] == last;
    assert forall i :: 0 <= i < |notes| ==> all[i] == notes[i];
    if MapNotes(move, all).Success? {
      var ts := MapNotes(move, all).value;
      assert ts == MapNotes(move, notes).value + [move(last).value];
    }
  }

  /** Mapping from the back, the order in which the downward rounds move
      notes: the first failure met from the end decides the error. */
  function MapBack(move: string -> Result<string, NoteError>, notes: seq<string>)
    : Result<seq<string>, NoteError>
    decreases |notes|
  {
    if |notes| == 0 then Success([])
    else
      var last :- move(notes[|notes| - 1]);
      var front :- MapBack(move, notes[..|notes| - 1]);
      Success(front + [last])
  }

  /** Mapping from the back succeeds exactly when mapping from the front
      does, and then with the same list. */
  lemma {:induction false} MapBackAgrees(move: string -> Result<string, NoteError>, notes: seq<string>)
    ensures MapBack(move, notes).Success? <==> MapNotes(move, notes).Success?
    ensures MapBack(move, notes).Success? ==> MapBack(move, notes).value == MapNotes(move, notes).value
    decreases |notes|
  {
    if |notes| > 0 {
      var front := notes[..|notes| - 1];
      var last := notes[|notes| - 1];
      MapBackAgrees(move, front);
      assert front + [last] == notes;
      MapNotesSnoc(move, front, last);
    }
  }

  /** The rounds of a downward rotation: after `k` rounds on `done`
      followed by `rest`, the last `k` notes of `rest`, moved, lead, then
      `done`, then the part of `rest` that never moved. */
  lemma {:induction false} RoundsDownFrom(move: string -> Result<string, NoteError>,
                                          done: seq<string>, rest: seq<string>, k: nat)
    requires k <= |rest|
    ensures RoundsDown(move, done + rest, k)
            == match MapBack(move, rest[|rest| - k..])
               case Success(moved) => Success(moved + done + rest[..|rest| - k])
               case Failure(e) => Failure(e)
    decreases k
  {
    if k == 0 {
      assert rest[|rest|..] == [];
      assert rest[..|rest|] == rest;
      assert done + rest == [] + done + rest[..|rest|];
    } else {
      var last := rest[|rest| - 1];
      var front := rest[..|rest| - 1];
      DownSplit(done, rest, k);
      var tail := rest[|rest| - k..];
      assert tail[|tail| - 1] == last && tail[..|tail| - 1] == front[|front| - (k - 1)..];
      var earlier := front[|front| - (k - 1)..];
      if move(last).Success? {
        var t := move(last).value;
        assert [t] + (done + front) == ([t] + done) + front;
        assert RoundsDown(move, done + rest, k) == RoundsDown(move, ([t] + done) + front, k - 1);
        assert MapBack(move, tail)
               == match MapBack(move, earlier)
                  case Success(m) => Success(m + [t])
                  case Failure(e) => Failure(e);
        RoundsDownFrom(move, [t] + done, front, k - 1);
        if MapBack(move, earlier).Success? {
          var m := MapBack(move, earlier).value;
          assert MapBack(move, tail) == Success(m + [t]);
          assert RoundsDown(move, done + rest, k) == Success(m + ([t] + done) + rest[..|rest| - k]);
          Regroup(m, [t], done, rest[..|rest| - k]);
        } else {
          assert MapBack(move, tail) == Failure(MapBack(move, earlier).error);
        }
      } else {
        assert MapBack(move, tail) == Failure(move(last).error);
      }
    }
  }

  lemma Regroup<T>(a: seq<T>, b: seq<T>, c: seq<T>, d: seq<T>)
    ensures a + (b + c) + d == (a + b) + c + d
  {
  }

  /** The list facts behind one downward round: the last element leaves,
      and the last `k` elements are the last `k - 1` of the front and then
      the last one. */
  lemma DownSplit<T>(done: seq<T>, rest: seq<T>, k: nat)
    requires 0 < k <= |rest|
    ensures var list := done + rest;
            var front := rest[..|rest| - 1];
            && list[|list| - 1] == rest[|rest| - 1]
            && list[..|list| - 1] == done + front
            && rest[|rest| - k..] == front[|front| - (k - 1)..] + [rest[|rest| - 1]]
            && front[..|front| - (k - 1)] == rest[..|rest| - k]
  {
    var list := done + rest;
    var front := rest[..|rest| - 1];
    assert list[..|list| - 1] == done + front;
    assert rest[|rest| - k..] == front[|front| - (k - 1)..] + [rest[|rest| - 1]];
  }

  /** For `0 <= k <= |notes|`, inverting by `k` gives `notes[k..]` followed
      by the first `k` notes, each raised an octave. */
  lemma InvertUp(notes: seq<string>, k: int)
    requires 0 <= k <= |notes|
    ensures Invert(notes, k)
            == match TransposeAll(notes[..k], 12)
               case Success(raised) => Success(notes[k..] + raised)
               case Failure(e) => Failure(e)
  {
    RoundsUpFrom(Transposer(12), notes, [], 0, k);
    assert notes[0..] + [] == notes;
    assert notes[0..k] == notes[..k];
    assert forall r: seq<string> :: notes[k..] + [] + r == notes[k..] + r;
  }

  /** For `0 <= k <= |notes|`, inverting by `-k` gives the last `k` notes,
      each lowered an octave, followed by the rest; the notes are lowered
      from the back, so a failure reports the last note that cannot be
      read. */
  lemma InvertDown(notes: seq<string>, k: int)
    requires 0 <= k <= |notes|
    ensures Invert(notes, -k)
            == match MapBack(Transposer(-12), notes[|notes| - k..])
               case Success(lowered) => Success(lowered + notes[..|notes| - k])
               case Failure(e) => Failure(e)
  {
    if k == 0 {
      assert notes[|notes|..] == [];
      assert [] + notes[..|notes|] == notes;
    } else {
      InvertNegative(notes, k);
      RoundsDownAll(Transposer(-12), notes, k);
    }
  }

  lemma InvertNegative(notes: seq<string>, count: nat)
    requires count > 0
    ensures Invert(notes, -(count as int)) == RoundsDown(Transposer(-12), notes, count)
  {
  }

  /** `RoundsDownFrom` with nothing moved yet. */
  lemma RoundsDownAll(move: string -> Result<string, NoteError>, notes: seq<string>, k: nat)
    requires k <= |notes|
    ensures RoundsDown(move, notes, k)
            == match MapBack(move, notes[|notes| - k..])
               case Success(moved) => Success(moved + notes[..|notes| - k])
               case Failure(e) => Failure(e)
  {
    RoundsDownFrom(move, [], notes, k);
    assert [] + notes == notes;
    assert forall moved: seq<string> :: moved + [] + notes[..|notes| - k] == moved + notes[..|notes| - k];
  }

  /** On canonical notes, inverting by `k` and then by `-k` restores the
      list, for `0 <= k <= |notes|`. */
  lemma InvertRoundTrip(ns: seq<Note>, k: int)
    requires AllCanonical(ns) && 0 <= k <= |ns|
    ensures Invert(Prints(ns), k) == Success(Prints(ns[k..] + ShiftAll(ns[..k], 12)))
    ensures Invert(Prints(ns[k..] + ShiftAll(ns[..k], 12)), -k) == Success(Prints(ns))
  {
    var ms := ns[k..] + ShiftAll(ns[..k], 12);
    InvertUpCanonical(ns, k);
    RaisedCanonical(ns, k);
    InvertDownCanonical(ms, k);
    LowerRaised(ns, k);
  }

  /** On canonical notes, inverting by `-k` and then by `k` restores the
      list, when the lowered notes stay canonical. */
  lemma InvertRoundTripDown(ns: seq<Note>, k: int)
    requires AllCanonical(ns) && 0 <= k <= |ns|
    requires AllCanonical(ShiftAll(ns[|ns| - k..], -12))
    ensures Invert(Prints(ns), -k)
            == Success(Prints(ShiftAll(ns[|ns| - k..], -12) + ns[..|ns| - k]))
    ensures Invert(Prints(ShiftAll(ns[|ns| - k..], -12) + ns[..|ns| - k]), k) == Success(Prints(ns))
  {
    var ms := ShiftAll(ns[|ns| - k..], -12) + ns[..|ns| - k];
    InvertDownCanonical(ns, k);
    LoweredCanonical(ns, k);
    InvertUpCanonical(ms, k);
    RaiseLowered(ns, k);
  }

  /** The notes an upward inversion produces stay canonical. */
  lemma RaisedCanonical(ns: seq<Note>, k: int)
    requires AllCanonical(ns) && 0 <= k <= |ns|
    ensures AllCanonical(ns[k..] + ShiftAll(ns[..k], 12))
  {
    var ms := ns[k..] + ShiftAll(ns[..k], 12);
    forall i | 0 <= i < |ms|
      ensures Canonical(ms[i])
    {
      if i < |ns| - k {
        assert ms[i] == ns[k + i];
      } else {
        ShiftUpCanonical(ns[i - (|ns| - k)], 12);
      }
    }
  }

  lemma LoweredCanonical(ns: seq<Note>, k: int)
    requires AllCanonical(ns) && 0 <= k <= |ns|
    requires AllCanonical(ShiftAll(ns[|ns| - k..], -12))
    ensures AllCanonical(ShiftAll(ns[|ns| - k..], -12) + ns[..|ns| - k])
  {
    var ms := ShiftAll(ns[|ns| - k..], -12) + ns[..|ns| - k];
    forall i | 0 <= i < |ms|
      ensures Canonical(ms[i])
    {
      if i >= k {
        assert ms[i] == ns[i - k];
      }
    }
  }

  /** Lowering what an upward rotation raised gives the notes back. */
  lemma LowerRaised(ns: seq<Note>, k: int)
    requires 0 <= k <= |ns|
    ensures var ms := ns[k..] + ShiftAll(ns[..k], 12);
            ShiftAll(ms[|ms| - k..], -12) + ms[..|ms| - k] == ns
  {
    var ms := ns[k..] + ShiftAll(ns[..k], 12);
    assert ms[|ms| - k..] == ShiftAll(ns[..k], 12);
    assert ms[..|ms| - k] == ns[k..];
    ShiftAllInverse(ns[..k], 12);
    assert ns[..k] + ns[k..] == ns;
  }

  /** Raising what a downward rotation lowered gives the notes back. */
  lemma RaiseLowered(ns: seq<Note>, k: int)
    requires 0 <= k <= |ns|
    ensures var ms := ShiftAll(ns[|ns| - k..], -12) + ns[..|ns| - k];
            ms[k..] + ShiftAll(ms[..k], 12) == ns
  {
    var ms := ShiftAll(ns[|ns| - k..], -12) + ns[..|ns| - k];
    assert ms[..k] == ShiftAll(ns[|ns| - k..], -12);
    assert ms[k..] == ns[..|ns| - k];
    ShiftAllInverse(ns[|ns| - k..], -12);
    assert ns[..|ns| - k] + ns[|ns| - k..] == ns;
  }

  /** The texts of a slice of canonical notes transpose to the texts of the
      shifted slice. */
  lemma TransposeCanonicalSlice(ns: seq<Note>, i: int, j: int, steps: int)
    requires AllCanonical(ns) && 0 <= i <= j <= |ns|
    ensures TransposeAll(Prints(ns)[i..j], steps) == Success(Prints(ShiftAll(ns[i..j], steps)))
  {
    var part := ns[i..j];
    PrintsSlice(ns, i, j);
    assert AllCanonical(part) by {
      forall m | 0 <= m < |part|
        ensures Canonical(part[m])
      {
        assert part[m] == ns[i + m];
      }
    }
    TransposeAllCanonical(part, steps);
  }

  /** `InvertUp` on the texts of canonical notes. */
  lemma InvertUpCanonical(ns: seq<Note>, k: int)
    requires AllCanonical(ns) && 0 <= k <= |ns|
    ensures Invert(Prints(ns), k) == Success(Prints(ns[k..] + ShiftAll(ns[..k], 12)))
  {
    TransposeCanonicalSlice(ns, 0, k, 12);
    assert Prints(ns)[0..k] == Prints(ns)[..k] && ns[0..k] == ns[..k];
    PrintsSlice(ns, k, |ns|);
    assert Prints(ns)[k..|ns|] == Prints(ns)[k..] && ns[k..|ns|] == ns[k..];
    InvertUpIs(Prints(ns), k, Prints(ns[k..]), Prints(ShiftAll(ns[..k], 12)));
    PrintsAppend(ns[k..], ShiftAll(ns[..k], 12));
  }

  /** `InvertDown` on the texts of canonical notes. */
  lemma InvertDownCanonical(ns: seq<Note>, k: int)
    requires AllCanonical(ns) && 0 <= k <= |ns|
    ensures Invert(Prints(ns), -k) == Success(Prints(ShiftAll(ns[|ns| - k..], -12) + ns[..|ns| - k]))
  {
    TransposeCanonicalSlice(ns, |ns| - k, |ns|, -12);
    assert Prints(ns)[|ns| - k..|ns|] == Prints(ns)[|ns| - k..] && ns[|ns| - k..|ns|] == ns[|ns| - k..];
    PrintsSlice(ns, 0, |ns| - k);
    assert Prints(ns)[0..|ns| - k] == Prints(ns)[..|ns| - k] && ns[0..|ns| - k] == ns[..|ns| - k];
    InvertDownIs(Prints(ns), k, Prints(ShiftAll(ns[|ns| - k..], -12)), Prints(ns[..|ns| - k]));
    PrintsAppend(ShiftAll(ns[|ns| - k..], -12), ns[..|ns| - k]);
  }

  /** `InvertUp` once the raised notes are known. */
  lemma InvertUpIs(notes: seq<string>, k: int, kept: seq<string>, raised: seq<string>)
    requires 0 <= k <= |notes|
    requires TransposeAll(notes[..k], 12) == Success(raised)
    requires notes[k..] == kept
    ensures Invert(notes, k) == Success(kept + raised)
  {
    InvertUp(notes, k);
  }

  /** `InvertDown` once the lowered notes are known. */
  lemma InvertDownIs(notes: seq<string>, k: int, lowered: seq<string>, kept: seq<string>)
    requires 0 <= k <= |notes|
    requires TransposeAll(notes[|notes| - k..], -12) == Success(lowered)
    requires notes[..|notes| - k] == kept
    ensures Invert(notes, -k) == Success(lowered + kept)
  {
    InvertDown(notes, k);
    var moving := notes[|notes| - k..];
    assert TransposeAll(moving, -12) == MapNotes(Transposer(-12), moving);
    MapBackAgrees(Transposer(-12), moving);
  }
}
