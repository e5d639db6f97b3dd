/** `toss`: every pitch class in every octave, octave by octave. */
module Toss {
  import opened Decimal
  import opened Pitch
  import opened NoteLists

  /** `pitchClasses.map(pc => `${pc}${octave}`)`. */
  function Label(pitchClasses: seq<string>, octave: int): (r: seq<string>)
    ensures |r| == |pitchClasses|
    ensures forall j :: 0 <= j < |pitchClasses| ==> r[j] == pitchClasses[j] + IntToString(octave)
  {
    seq(|pitchClasses|, j requires 0 <= j < |pitchClasses| => pitchClasses[j] + IntToString(octave))
  }

  /** `octaves.reduce((notes, octave) => notes.concat(...), [])`: the fold
      runs from the left, so the last octave's labels come last. */
  function Toss(pitchClasses: seq<string>, octaves: seq<int>): (r: seq<string>)
    ensures |r| == |octaves| * |pitchClasses|
    decreases |octaves|
  {
    if |octaves| == 0 then []
    else
      var n := |octaves| - 1;
      assert |octaves| * |pitchClasses| == n * |pitchClasses| + |pitchClasses|;
      Toss(pitchClasses, octaves[..n]) + Label(pitchClasses, octaves[n])
  }

  /** Tossing into a concatenation of octave lists concatenates the
      results: the fold over the octaves is a homomorphism. */
  lemma {:induction false} TossAppend(pitchClasses: seq<string>, a: seq<int>, b: seq<int>)
    ensures Toss(pitchClasses, a + b) == Toss(pitchClasses, a) + Toss(pitchClasses, b)
    decreases |b|
  {
    if |b| > 0 {
      var n := |b| - 1;
      assert (a + b)[..|a + b| - 1] == a + b[..n];
      assert (a + b)[|a + b| - 1] == b[n];
      TossAppend(pitchClasses, a, b[..n]);
    } else {
      assert a + b == a;
    }
  }

  /** One octave gives one label per pitch class. */
  lemma TossOne(pitchClasses: seq<string>, octave: int)
    ensures Toss(pitchClasses, [octave]) == Label(pitchClasses, octave)
  {
    assert [octave][..0] == [];
  }

  /** The label at place `i * |pitchClasses| + j` joins pitch class `j` to
      octave `i`: the octave varies slowest. */
  lemma {:induction false} TossAt(pitchClasses: seq<string>, octaves: seq<int>, i: int, j: int)
    requires 0 <= i < |octaves| && 0 <= j < |pitchClasses|
    ensures i * |pitchClasses| + j < |Toss(pitchClasses, octaves)|
    ensures Toss(pitchClasses, octaves)[i * |pitchClasses| + j] == pitchClasses[j] + IntToString(octaves[i])
    decreases |octaves|
  {
    var n := |octaves| - 1;
    var front := octaves[..n];
    var before := Toss(pitchClasses, front);
    var labels := Label(pitchClasses, octaves[n]);
    assert Toss(pitchClasses, octaves) == before + labels;
    var base := i * |pitchClasses|;
    if i == n {
      assert |before| == base;
      assert (before + labels)[base + j] == labels[j];
    } else {
      TossAt(pitchClasses, front, i, j);
      assert front[i] == octaves[i];
      assert base + j < |before|;
    }
  }

  /** Tossing the names of pitch classes into non-negative octaves gives the
      texts of the notes with those octaves. */
  lemma TossNotes(pcs: seq<PitchClass>, octaves: seq<nat>, i: int, j: int)
    requires 0 <= i < |octaves| && 0 <= j < |pcs|
    ensures var names := seq(|pcs|, k requires 0 <= k < |pcs| => Names[pcs[k]]);
            i * |pcs| + j < |Toss(names, octaves)|
            && Toss(names, octaves)[i * |pcs| + j] == Print(Abs(pcs[j], octaves[i]))
  {
    var names := seq(|pcs|, k requires 0 <= k < |pcs| => Names[pcs[k]]);
    TossAt(names, octaves, i, j);
  }

  /** `toss(['C', 'E', 'G'], [3, 4])`. */
  lemma TossExample()
    ensures Toss(["C", "E", "G"], [3, 4]) == ["C3", "E3", "G3", "C4", "E4", "G4"]
  {
    var pcs := ["C", "E", "G"];
    TossTwo(pcs, 3, 4);
    LabelThree(pcs, 3, "3");
    LabelThree(pcs, 4, "4");
    assert "C" + "3" == "C3" && "E" + "3" == "E3" && "G" + "3" == "G3";
    assert "C" + "4" == "C4" && "E" + "4" == "E4" && "G" + "4" == "G4";
  }

  /** Two octaves give the labels of the first, then those of the second. */
  lemma TossTwo(pitchClasses: seq<string>, a: int, b: int)
    ensures Toss(pitchClasses, [a, b]) == Label(pitchClasses, a) + Label(pitchClasses, b)
  {
    TossAppend(pitchClasses, [a], [b]);
    assert [a] + [b] == [a, b];
    TossOne(pitchClasses, a);
    TossOne(pitchClasses, b);
  }

  /** Three pitch classes labelled with an octave whose digits are known. */
  lemma LabelThree(pitchClasses: seq<string>, octave: int, digits: string)
    requires |pitchClasses| == 3 && IntToString(octave) == digits
    ensures Label(pitchClasses, octave)
            == [pitchClasses[0] + digits, pitchClasses[1] + digits, pitchClasses[2] + digits]
  {
  }
}
