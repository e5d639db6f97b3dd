/** `getClosestNote` and the integer part of `sampleNote`: finding the
    recorded sample nearest a requested MIDI number. */
module Sampling {
  import opened Results
  import opened Seqs

  /** `MAX_INTERVAL`: the search gives up beyond this many semitones. */
  const MaxInterval: nat := 96

  datatype SearchError = NoNearbySamples(targetMidi: int)

  function Dist(a: int, b: int): nat {
    if a >= b then a - b else b - a
  }

  /** `m` is what the search should return: a member of the set within
      reach, no member strictly closer, and on a tie the one above the
      target. */
  predicate ClosestIn(target: int, searched: set<int>, m: int) {
    && m in searched
    && Dist(m, target) <= MaxInterval
    && (forall x :: x in searched ==> Dist(m, target) <= Dist(x, target))
    && (m < target ==> 2 * target - m !in searched)
  }

  /** Some member of the set lies within reach of the target. */
  predicate AnyWithin(target: int, searched: set<int>) {
    exists x :: x in searched && Dist(x, target) <= MaxInterval
  }

  /** `getClosestNote({ targetMidi, searchedMidiSet })`: tries each offset
      from 0 to `MAX_INTERVAL`, above the target before below it, and
      throws when the whole range is empty. */
  method GetClosestNote(target: int, searched: set<int>) returns (r: Result<int, SearchError>)
    ensures r.Success? ==> ClosestIn(target, searched, r.value)
    ensures r.Failure? <==> !AnyWithin(target, searched)
    ensures r.Failure? ==> r.error == NoNearbySamples(target)
  {
    var interval := 0;
    while interval <= MaxInterval
      invariant 0 <= interval <= MaxInterval + 1
      invariant forall x :: x in searched ==> Dist(x, target) >= interval
    {
      if target + interval in searched {
        return Success(target + interval);
      }
      if target - interval in searched {
        return Success(target - interval);
      }
      interval := interval + 1;
    }
    return Failure(NoNearbySamples(target));
  }

  /** At most one member satisfies `ClosestIn`: the search's answer is
      determined by the set and the target alone. */
  lemma ClosestUnique(target: int, searched: set<int>, m1: int, m2: int)
    requires ClosestIn(target, searched, m1) && ClosestIn(target, searched, m2)
    ensures m1 == m2
  {
    assert Dist(m1, target) == Dist(m2, target);
  }

  /** With target 60 and samples at 58 and 64, the search picks 58. */
  method ClosestExample() returns (r: Result<int, SearchError>)
    ensures r == Success(58)
  {
    r := GetClosestNote(60, {58, 64});
    assert ClosestIn(60, {58, 64}, 58);
    ClosestUnique(60, {58, 64}, r.value, 58);
  }

  /** An entry of `sampledNotes`: a MIDI number, or a note name that the
      MIDI conversion reads. */
  datatype SampleRef = MidiNumber(midi: int) | NoteName(name: string)

  /** The MIDI number of each entry; `toMidi` stands for `Midi(note).toMidi()`. */
  function MidiOf(toMidi: string -> int, s: SampleRef): int {
    match s
    case MidiNumber(m) => m
    case NoteName(name) => toMidi(name)
  }

  function Midis(toMidi: string -> int, samples: seq<SampleRef>): (r: seq<int>)
    ensures |r| == |samples|
    ensures forall i :: 0 <= i < |samples| ==> r[i] == MidiOf(toMidi, samples[i])
  {
    seq(|samples|, i requires 0 <= i < |samples| => MidiOf(toMidi, samples[i]))
  }

  /** `Array.from(new Set(xs))`: the first occurrence of each value, in
      order of appearance. */
  function Dedup(xs: seq<int>): (r: seq<int>)
    ensures |r| <= |xs|
    ensures forall x :: x in r <==> x in xs
    ensures forall i, j :: 0 <= i < j < |r| ==> r[i] != r[j]
    decreases |xs|
  {
    if |xs| == 0 then []
    else
      var n := |xs| - 1;
      var front := Dedup(xs[..n]);
      assert xs == xs[..n] + [xs[n]];
      if xs[n] in xs[..n] then front
      else
        assert forall i :: 0 <= i < |front| ==> front[i] in xs[..n];
        front + [xs[n]]
  }

  /** The values come in the order of their first occurrences. */
  lemma {:induction false} DedupOrder(xs: seq<int>)
    ensures forall i, j :: 0 <= i < j < |Dedup(xs)| ==> Position(xs, Dedup(xs)[i]) < Position(xs, Dedup(xs)[j])
    decreases |xs|
  {
    if |xs| > 0 {
      var n := |xs| - 1;
      var front := xs[..n];
      DedupOrder(front);
      assert xs == front + [xs[n]];
      var r := Dedup(xs);
      forall i | 0 <= i < |Dedup(front)|
        ensures Position(xs, Dedup(front)[i]) == Position(front, Dedup(front)[i]) < n
      {
        PositionAppend(front, xs[n], Dedup(front)[i]);
      }
      if xs[n] !in front {
        PositionAppend(front, xs[n], xs[n]);
        assert r == Dedup(front) + [xs[n]];
      }
    }
  }

  /** Without repeated values, de-duplicating changes nothing. */
  lemma {:induction false} DedupDistinct(xs: seq<int>)
    requires forall i, j :: 0 <= i < j < |xs| ==> xs[i] != xs[j]
    ensures Dedup(xs) == xs
    decreases |xs|
  {
    if |xs| > 0 {
      var front := xs[..|xs| - 1];
      DedupDistinct(front);
      assert xs[|xs| - 1] !in front;
      assert xs == front + [xs[|xs| - 1]];
    }
  }

  /** `sampledNotes[Array.from(sampledMidiSet).indexOf(closestMidi)]`: the
      position is taken in the de-duplicated list but used in the original
      one. `None` is `undefined`. */
  function PickAsWritten(samples: seq<SampleRef>, midis: seq<int>, closest: int): (r: Option<SampleRef>)
    ensures closest !in midis ==> r.None?
    ensures |midis| == |samples| && closest in midis ==> r.Some?
    ensures r.Some? ==>
      exists i :: 0 <= i < |Dedup(midis)| && i < |samples| && Dedup(midis)[i] == closest && r.value == samples[i]
  {
    var index := Position(Dedup(midis), closest);
    if 0 <= index < |samples| then Some(samples[index]) else None
  }

  /** The sample at the first position whose own MIDI number is the one the
      search chose. */
  function PickSample(samples: seq<SampleRef>, midis: seq<int>, closest: int): (r: Option<SampleRef>)
    ensures |midis| == |samples| ==> (r.Some? <==> closest in midis)
    ensures r.Some? ==>
      exists i :: 0 <= i < |midis| && i < |samples| && midis[i] == closest && closest !in midis[..i]
                  && r.value == samples[i]
  {
    var index := Position(midis, closest);
    if 0 <= index < |samples| then Some(samples[index]) else None
  }

  /** The corrected pick always returns a sample recorded at the chosen MIDI
      number, whenever that number came from the list. */
  lemma PickSampleMatches(toMidi: string -> int, samples: seq<SampleRef>, closest: int)
    requires closest in Midis(toMidi, samples)
    ensures PickSample(samples, Midis(toMidi, samples), closest).Some?
    ensures MidiOf(toMidi, PickSample(samples, Midis(toMidi, samples), closest).value) == closest
  {
  }

  /** Without two samples at the same MIDI number, the pick as written is the
      corrected one. */
  lemma PickAsWrittenDistinct(toMidi: string -> int, samples: seq<SampleRef>, closest: int)
    requires forall i, j :: 0 <= i < j < |samples| ==> MidiOf(toMidi, samples[i]) != MidiOf(toMidi, samples[j])
    ensures PickAsWritten(samples, Midis(toMidi, samples), closest)
            == PickSample(samples, Midis(toMidi, samples), closest)
  {
    DedupDistinct(Midis(toMidi, samples));
  }

  /** Samples recorded at MIDI 60, 60 and 62: the search for 62 finds 62,
      at place 1 of the de-duplicated list, and place 1 of the samples holds
      a 60. */
  lemma PickAsWrittenMisses()
    ensures PickAsWritten([MidiNumber(60), MidiNumber(60), MidiNumber(62)], [60, 60, 62], 62)
            == Some(MidiNumber(60))
    ensures PickSample([MidiNumber(60), MidiNumber(60), MidiNumber(62)], [60, 60, 62], 62)
            == Some(MidiNumber(62))
  {
    assert [60, 60, 62][..2] == [60, 60];
    assert [60, 60][..1] == [60];
    assert [60][..0] == [];
    assert Dedup([60, 60, 62]) == [60, 62];
    assert [60, 62][1..] == [62];
    assert [60, 60, 62][1..] == [60, 62];
  }

  /** The integer outcome of `sampleNote`: the chosen sample and the number
      of semitones the playback rate is computed from. */
  datatype Sampled = Sampled(sampledNote: Option<SampleRef>, closestMidi: int, rateExponent: int)

  /** `sampleNote({ note, sampledNotes, pitchShift })` as written, with the
      note's MIDI number `midi` computed by the caller: the sample is taken
      at the chosen number's place in the de-duplicated list. Where no two
      samples share a MIDI number, it was recorded at the chosen number. */
  method SampleNote(toMidi: string -> int, midi: int, samples: seq<SampleRef>, pitchShift: int)
    returns (r: Result<Sampled, SearchError>)
    ensures r.Failure? <==> !AnyWithin(midi, set i | 0 <= i < |samples| :: MidiOf(toMidi, samples[i]))
    ensures r.Success? ==>
      && ClosestIn(midi, set i | 0 <= i < |samples| :: MidiOf(toMidi, samples[i]), r.value.closestMidi)
      && r.value.rateExponent == midi - r.value.closestMidi + pitchShift
      && r.value.sampledNote.Some?
    ensures r.Success? && (forall i, j :: 0 <= i < j < |samples| ==> MidiOf(toMidi, samples[i]) != MidiOf(toMidi, samples[j]))
            ==> MidiOf(toMidi, r.value.sampledNote.value) == r.value.closestMidi
  {
    var midis := Midis(toMidi, samples);
    var searched := set i | 0 <= i < |samples| :: MidiOf(toMidi, samples[i]);
    var found := GetClosestNote(midi, searched);
    if found.Failure? {
      return Failure(found.error);
    }
    var closest := found.value;
    var i :| 0 <= i < |samples| && MidiOf(toMidi, samples[i]) == closest;
    assert midis[i] == closest;
    PickSampleMatches(toMidi, samples, closest);
    if forall i, j :: 0 <= i < j < |samples| ==> MidiOf(toMidi, samples[i]) != MidiOf(toMidi, samples[j]) {
      PickAsWrittenDistinct(toMidi, samples, closest);
    }
    return Success(Sampled(PickAsWritten(samples, midis, closest), closest, midi - closest + pitchShift));
  }

  /** `sampleNote` with the sample picked as intended: one recorded at the
      chosen MIDI number. Where no two samples share a MIDI number, this is
      the sample the code as written picks. */
  method SampleNoteCorrected(toMidi: string -> int, midi: int, samples: seq<SampleRef>, pitchShift: int)
    returns (r: Result<Sampled, SearchError>)
    ensures r.Failure? <==> !AnyWithin(midi, set i | 0 <= i < |samples| :: MidiOf(toMidi, samples[i]))
    ensures r.Success? ==>
      && ClosestIn(midi, set i | 0 <= i < |samples| :: MidiOf(toMidi, samples[i]), r.value.closestMidi)
      && r.value.rateExponent == midi - r.value.closestMidi + pitchShift
      && r.value.sampledNote.Some?
      && MidiOf(toMidi, r.value.sampledNote.value) == r.value.closestMidi
    ensures r.Success? && (forall i, j :: 0 <= i < j < |samples| ==> MidiOf(toMidi, samples[i]) != MidiOf(toMidi, samples[j]))
            ==> r.value.sampledNote == PickAsWritten(samples, Midis(toMidi, samples), r.value.closestMidi)
  {
    var midis := Midis(toMidi, samples);
    var searched := set i | 0 <= i < |samples| :: MidiOf(toMidi, samples[i]);
    var found := GetClosestNote(midi, searched);
    if found.Failure? {
      return Failure(found.error);
    }
    var closest := found.value;
    var i :| 0 <= i < |samples| && MidiOf(toMidi, samples[i]) == closest;
    assert midis[i] == closest;
    PickSampleMatches(toMidi, samples, closest);
    if forall i, j :: 0 <= i < j < |samples| ==> MidiOf(toMidi, samples[i]) != MidiOf(toMidi, samples[j]) {
      PickAsWrittenDistinct(toMidi, samples, closest);
    }
    return Success(Sampled(PickSample(samples, midis, closest), closest, midi - closest + pitchShift));
  }
}
