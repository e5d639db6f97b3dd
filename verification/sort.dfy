/** A stable insertion sort on sequences, standing in for
    `Array.prototype.sort`, which is stable: with a comparator that orders
    its inputs consistently, every stable sort returns the same sequence. */
module StableSort {
  /** `xs.map(f)`. */
  function Map<T, U>(f: T -> U, xs: seq<T>): (r: seq<U>)
    ensures |r| == |xs|
    ensures forall i :: 0 <= i < |xs| ==> r[i] == f(xs[i])
  {
    seq(|xs|, i requires 0 <= i < |xs| => f(xs[i]))
  }

  /** Places `x` before the first element it does not compare above, so it
      stays ahead of the elements it ties with. */
  function Insert<T(==)>(x: T, sorted: seq<T>, cmp: (T, T) -> int): (r: seq<T>)
    ensures multiset(r) == multiset(sorted) + multiset{x}
  {
    if |sorted| == 0 then [x]
    else if cmp(x, sorted[0]) <= 0 then [x] + sorted
    else
      assert sorted == [sorted[0]] + sorted[1..];
      [sorted[0]] + Insert(x, sorted[1..], cmp)
  }

  /** Sorts the tail, then inserts the head: an element that ties with a
      later one stays ahead of it. */
  function InsertionSort<T(==)>(xs: seq<T>, cmp: (T, T) -> int): (r: seq<T>)
    ensures multiset(r) == multiset(xs)
  {
    if |xs| == 0 then []
    else
      assert xs == [xs[0]] + xs[1..];
      Insert(xs[0], InsertionSort(xs[1..], cmp), cmp)
  }

  /** `xs` is in non-decreasing order of `rank`. */
  predicate SortedBy<T>(xs: seq<T>, rank: T -> int) {
    forall i, j :: 0 <= i < j < |xs| ==> rank(xs[i]) <= rank(xs[j])
  }

  /** On the elements of `xs`, the comparator says "not after" exactly when
      the rank does not decrease: the comparator is consistent. */
  predicate RankedBy<T(==)>(xs: seq<T>, cmp: (T, T) -> int, rank: T -> int) {
    forall a, b :: a in multiset(xs) && b in multiset(xs) ==> (cmp(a, b) <= 0 <==> rank(a) <= rank(b))
  }

  /** `Insert` puts `x` first, or keeps the old first element first. */
  lemma InsertHead<T>(x: T, sorted: seq<T>, cmp: (T, T) -> int)
    ensures Insert(x, sorted, cmp)[0] == x || (|sorted| > 0 && Insert(x, sorted, cmp)[0] == sorted[0])
  {
  }

  /** A sorted sequence with an element in front that is not above its
      head. */
  lemma SortedCons<T>(a: T, s: seq<T>, rank: T -> int)
    requires SortedBy(s, rank)
    requires |s| > 0 ==> rank(a) <= rank(s[0])
    ensures SortedBy([a] + s, rank)
  {
    var r := [a] + s;
    forall i, j | 0 <= i < j < |r|
      ensures rank(r[i]) <= rank(r[j])
    {
      if i == 0 {
        assert r[j] == s[j - 1];
        assert rank(s[0]) <= rank(s[j - 1]) by {
          if j > 1 {
          }
        }
      } else {
        assert r[i] == s[i - 1] && r[j] == s[j - 1];
      }
    }
  }

  lemma {:induction false} InsertSorted<T>(x: T, sorted: seq<T>, cmp: (T, T) -> int, rank: T -> int)
    requires SortedBy(sorted, rank)
    requires forall k :: 0 <= k < |sorted| ==> (cmp(x, sorted[k]) <= 0 <==> rank(x) <= rank(sorted[k]))
    ensures SortedBy(Insert(x, sorted, cmp), rank)
    decreases |sorted|
  {
    if |sorted| > 0 {
      if cmp(x, sorted[0]) <= 0 {
        SortedCons(x, sorted, rank);
      } else {
        var tail := sorted[1..];
        assert SortedBy(tail, rank);
        assert forall k :: 0 <= k < |tail| ==> tail[k] == sorted[k + 1];
        InsertSorted(x, tail, cmp, rank);
        var rest := Insert(x, tail, cmp);
        InsertHead(x, tail, cmp);
        assert |tail| > 0 ==> rank(sorted[0]) <= rank(tail[0]);
        SortedCons(sorted[0], rest, rank);
      }
    }
  }

  /** With a consistent comparator the sort orders its input by rank. */
  lemma {:induction false} InsertionSortSorted<T>(xs: seq<T>, cmp: (T, T) -> int, rank: T -> int)
    requires RankedBy(xs, cmp, rank)
    ensures SortedBy(InsertionSort(xs, cmp), rank)
    decreases |xs|
  {
    if |xs| > 0 {
      var tail := xs[1..];
      RankedTail(xs, cmp, rank);
      InsertionSortSorted(tail, cmp, rank);
      var sorted := InsertionSort(tail, cmp);
      RankedHead(xs, sorted, cmp, rank);
      InsertSorted(xs[0], sorted, cmp, rank);
    }
  }

  /** Consistency on a list carries over to its tail. */
  lemma RankedTail<T>(xs: seq<T>, cmp: (T, T) -> int, rank: T -> int)
    requires RankedBy(xs, cmp, rank) && |xs| > 0
    ensures RankedBy(xs[1..], cmp, rank)
  {
    assert xs == [xs[0]] + xs[1..];
    assert forall a :: a in multiset(xs[1..]) ==> a in multiset(xs);
  }

  /** The head of a consistent list compares consistently with every element
      of a permutation of its tail. */
  lemma RankedHead<T>(xs: seq<T>, sorted: seq<T>, cmp: (T, T) -> int, rank: T -> int)
    requires RankedBy(xs, cmp, rank) && |xs| > 0 && multiset(sorted) == multiset(xs[1..])
    ensures forall k :: 0 <= k < |sorted| ==> (cmp(xs[0], sorted[k]) <= 0 <==> rank(xs[0]) <= rank(sorted[k]))
  {
    assert xs == [xs[0]] + xs[1..];
    assert xs[0] in multiset(xs);
    forall k | 0 <= k < |sorted|
      ensures cmp(xs[0], sorted[k]) <= 0 <==> rank(xs[0]) <= rank(sorted[k])
    {
      assert sorted[k] in multiset(sorted);
      assert sorted[k] in multiset(xs);
    }
  }

  /** `Map` over a non-empty sequence. */
  lemma MapCons<T, U>(f: T -> U, x: T, s: seq<T>)
    ensures Map(f, [x] + s) == [f(x)] + Map(f, s)
  {
    var l, r := Map(f, [x] + s), [f(x)] + Map(f, s);
    forall i | 0 <= i < |l|
      ensures l[i] == r[i]
    {
      if i > 0 {
        assert ([x] + s)[i] == s[i - 1];
      }
    }
    assert l == r;
  }

  /** Inserting an image is the image of inserting, when the comparators
      agree through `f`. */
  lemma {:induction false} InsertMap<T, U>(f: T -> U, x: T, sorted: seq<T>, cmpT: (T, T) -> int, cmpU: (U, U) -> int)
    requires forall a, b :: cmpT(a, b) == cmpU(f(a), f(b))
    ensures Insert(f(x), Map(f, sorted), cmpU) == Map(f, Insert(x, sorted, cmpT))
    decreases |sorted|
  {
    if |sorted| > 0 {
      var tail := sorted[1..];
      assert sorted == [sorted[0]] + tail;
      MapCons(f, sorted[0], tail);
      var images := Map(f, sorted);
      assert images[0] == f(sorted[0]) && images[1..] == Map(f, tail);
      if cmpT(x, sorted[0]) <= 0 {
        MapCons(f, x, sorted);
      } else {
        InsertMap(f, x, tail, cmpT, cmpU);
        MapCons(f, sorted[0], Insert(x, tail, cmpT));
      }
    } else {
      MapCons(f, x, []);
      assert Map(f, sorted) == [];
    }
  }

  /** Sorting images is the image of sorting, when the comparators agree
      through `f`. */
  lemma {:induction false} InsertionSortMap<T, U>(f: T -> U, xs: seq<T>, cmpT: (T, T) -> int, cmpU: (U, U) -> int)
    requires forall a, b :: cmpT(a, b) == cmpU(f(a), f(b))
    ensures InsertionSort(Map(f, xs), cmpU) == Map(f, InsertionSort(xs, cmpT))
    decreases |xs|
  {
    if |xs| > 0 {
      var tail := xs[1..];
      assert xs == [xs[0]] + tail;
      MapCons(f, xs[0], tail);
      var images := Map(f, xs);
      assert images[0] == f(xs[0]) && images[1..] == Map(f, tail);
      InsertionSortMap(f, tail, cmpT, cmpU);
      InsertMap(f, xs[0], InsertionSort(tail, cmpT), cmpT, cmpU);
    } else {
      assert Map(f, xs) == [];
    }
  }

  /** The first element of a sorted sequence has the least rank. */
  lemma SortedFirst<T>(xs: seq<T>, rank: T -> int, i: int)
    requires SortedBy(xs, rank) && 0 <= i < |xs|
    ensures rank(xs[0]) <= rank(xs[i])
  {
    if i > 0 {
    }
  }

  /** The multiset of a non-empty sequence, split at its head. */
  lemma MultisetHead<T>(xs: seq<T>)
    requires |xs| > 0
    ensures multiset(xs) == multiset{xs[0]} + multiset(xs[1..])
  {
    assert xs == [xs[0]] + xs[1..];
  }

  lemma MultisetCancel<T>(a: T, m1: multiset<T>, m2: multiset<T>)
    requires multiset{a} + m1 == multiset{a} + m2
    ensures m1 == m2
  {
    forall z
      ensures m1[z] == m2[z]
    {
      assert (multiset{a} + m1)[z] == (multiset{a} + m2)[z];
    }
  }

  /** Elements of `xs` with the same rank are equal. */
  ghost predicate Separates<T>(xs: seq<T>, rank: T -> int) {
    forall i, j :: 0 <= i < |xs| && 0 <= j < |xs| && rank(xs[i]) == rank(xs[j]) ==> xs[i] == xs[j]
  }

  lemma SeparatesTail<T>(xs: seq<T>, rank: T -> int)
    requires Separates(xs, rank) && |xs| > 0
    ensures Separates(xs[1..], rank)
  {
    assert forall i :: 0 <= i < |xs| - 1 ==> xs[1..][i] == xs[i + 1];
  }

  /** Two orderings of the same elements by a rank that tells the elements
      apart are the same sequence. */
  lemma {:induction false} SortedUnique<T>(xs: seq<T>, ys: seq<T>, rank: T -> int)
    requires multiset(xs) == multiset(ys)
    requires SortedBy(xs, rank) && SortedBy(ys, rank)
    requires Separates(xs, rank)
    ensures xs == ys
    decreases |xs|
  {
    assert |xs| == |multiset(xs)| == |ys|;
    if |xs| > 0 {
      SameHead(xs, ys, rank);
      MultisetHead(xs);
      MultisetHead(ys);
      var xt, yt := xs[1..], ys[1..];
      MultisetCancel(xs[0], multiset(xt), multiset(yt));
      SortedTail(xs, rank);
      SortedTail(ys, rank);
      SeparatesTail(xs, rank);
      SortedUnique(xt, yt, rank);
      assert xs == [xs[0]] + xt && ys == [ys[0]] + yt;
    }
  }

  lemma SortedTail<T>(xs: seq<T>, rank: T -> int)
    requires SortedBy(xs, rank) && |xs| > 0
    ensures SortedBy(xs[1..], rank)
  {
    assert forall i :: 0 <= i < |xs| - 1 ==> xs[1..][i] == xs[i + 1];
  }

  /** Two non-empty orderings of the same elements start alike. */
  lemma SameHead<T>(xs: seq<T>, ys: seq<T>, rank: T -> int)
    requires |xs| > 0 && |ys| > 0 && multiset(xs) == multiset(ys)
    requires SortedBy(xs, rank) && SortedBy(ys, rank)
    requires Separates(xs, rank)
    ensures xs[0] == ys[0]
  {
    assert xs[0] in multiset(xs) && ys[0] in multiset(ys);
    var i :| 0 <= i < |ys| && ys[i] == xs[0];
    var j :| 0 <= j < |xs| && xs[j] == ys[0];
    SortedFirst(ys, rank, i);
    SortedFirst(xs, rank, j);
  }
}

/** `sortNotes`: simplify every note, split it into pitch class and octave,
    sort the parts, and join them back. */
module NoteSort {
  import opened Results
  import opened Decimal
  import opened Pitch
  import opened NoteText
  import opened NoteTextFacts
  import opened NoteLists
  import opened NoteTheory
  import opened StableSort

  /** The pair `[getPitchClass(note), getOctave(note)]`; `None` stands for
      `null`. */
  datatype Parts = Parts(pitchClass: Option<string>, octave: Option<nat>)

  function PartsOf(note: string): Parts {
    Parts(GetPitchClass(note), GetOctave(note))
  }

  /** `parts.join('')`: a `null` part joins as the empty string. */
  function Join(p: Parts): string {
    (match p.pitchClass case Some(name) => name case None => "")
    + (match p.octave case Some(o) => NatToString(o) case None => "")
  }

  /** `pitchClassIndiciesByValue[pc]`, with no index for `null`. */
  function PartIndex(pitchClass: Option<string>): Option<PitchClass> {
    match pitchClass
    case Some(name) => IndexOf(name)
    case None => None
  }

  /** The comparator handed to `sort`. Equal octaves, or no octave on the
      left, compare by table index; a missing index makes the difference
      NaN, which `sort` reads as a tie. Otherwise the octaves are
      subtracted, a `null` on the right counting as 0. Between known names
      that both carry octaves it orders by height, between known names
      without octaves by table index, and it never puts a part with an
      octave before one without. */
  function Compare(a: Parts, b: Parts): (r: int)
    ensures a.octave.Some? && b.octave.Some? && PartIndex(a.pitchClass).Some? && PartIndex(b.pitchClass).Some? ==>
      (r <= 0 <==> 12 * a.octave.value + PartIndex(a.pitchClass).value
                   <= 12 * b.octave.value + PartIndex(b.pitchClass).value)
    ensures a.octave.None? && b.octave.None? && PartIndex(a.pitchClass).Some? && PartIndex(b.pitchClass).Some? ==>
      (r <= 0 <==> PartIndex(a.pitchClass).value <= PartIndex(b.pitchClass).value)
    ensures a.octave.Some? && b.octave.None? ==> r >= 0
  {
    if a.octave == b.octave || a.octave.None? then
      match (PartIndex(a.pitchClass), PartIndex(b.pitchClass))
      case (Some(i), Some(j)) => i - j
      case _ => 0
    else
      a.octave.value - (match b.octave case Some(o) => o case None => 0)
  }

  /** Parts of one kind compare antisymmetrically. */
  lemma CompareAntisymmetric(a: Parts, b: Parts)
    requires a.octave.Some? == b.octave.Some?
    ensures Compare(a, b) == -Compare(b, a)
  {
  }

  /** Across kinds the comparator is not antisymmetric: "C" without an
      octave sorts before "B0", while "B0" ties with "C". */
  lemma CompareMixed()
    ensures Compare(Parts(Some("C"), None), Parts(Some("B"), Some(0))) < 0
    ensures Compare(Parts(Some("B"), Some(0)), Parts(Some("C"), None)) == 0
  {
    assert IndexOf("C") == Some(0) && IndexOf("B") == Some(11);
  }

  /** `sortNotes(notes)`: `simplifyNote` is `transpose` by 0 semitones. It
      fails exactly when one of the notes cannot be simplified, and
      otherwise returns as many notes as it was given. */
  function SortNotes(notes: seq<string>): (r: Result<seq<string>, NoteError>)
    ensures r.Success? <==> forall i :: 0 <= i < |notes| ==> SimplifyNote(notes[i]).Success?
    ensures r.Success? ==> |r.value| == |notes|
  {
    TransposeAllSpec(notes, 0);
    var simplified :- TransposeAll(notes, 0);
    Success(Map(Join, InsertionSort(Map(PartsOf, simplified), Compare)))
  }

  /** The parts the comparator sees for a note's text. */
  function NoteParts(n: Note): Parts {
    Parts(Some(Names[n.pc]), if n.Abs? && n.octave >= 0 then Some(n.octave) else None)
  }

  /** The comparator, read on note values. */
  function NoteCompare(a: Note, b: Note): int {
    Compare(NoteParts(a), NoteParts(b))
  }

  /** The order `sortNotes` gives a list of notes. */
  function SortedNotes(ns: seq<Note>): (r: seq<Note>)
    ensures multiset(r) == multiset(ns)
  {
    InsertionSort(ns, NoteCompare)
  }

  /** Splitting a printed note gives its name and visible octave. */
  lemma PartsOfPrint(n: Note)
    ensures PartsOf(Print(n)) == NoteParts(n)
  {
    GetPitchClassPrint(n);
    GetOctavePrint(n);
  }

  /** Joining the parts of a canonical note prints it. */
  lemma JoinParts(n: Note)
    requires Canonical(n)
    ensures Join(NoteParts(n)) == Print(n)
  {
    if n.Abs? {
      IntToStringChars(n.octave);
    }
  }

  /** Two canonical notes that both carry an octave, or both lack one,
      compare as their heights do. */
  lemma CompareByHeight(a: Note, b: Note)
    requires Canonical(a) && Canonical(b) && a.Abs? == b.Abs?
    ensures NoteCompare(a, b) <= 0 <==> Height(a) <= Height(b)
  {
    IndexOfName(a.pc);
    IndexOfName(b.pc);
  }

  /** All notes carry an octave, or none does. */
  predicate Uniform(ns: seq<Note>) {
    AllCanonical(ns) && ((forall i :: 0 <= i < |ns| ==> ns[i].Abs?) || (forall i :: 0 <= i < |ns| ==> ns[i].PC?))
  }

  /** On a uniform list, the comparator is consistent with height. */
  lemma UniformRanked(ns: seq<Note>)
    requires Uniform(ns)
    ensures RankedBy(ns, NoteCompare, Height)
  {
    forall a, b | a in multiset(ns) && b in multiset(ns)
      ensures NoteCompare(a, b) <= 0 <==> Height(a) <= Height(b)
    {
      var i :| 0 <= i < |ns| && ns[i] == a;
      var j :| 0 <= j < |ns| && ns[j] == b;
      CompareByHeight(a, b);
    }
  }

  /** Sorting the texts of canonical notes prints the sorted notes. */
  lemma SortNotesCanonical(ns: seq<Note>)
    requires AllCanonical(ns)
    ensures SortNotes(Prints(ns)) == Success(Prints(SortedNotes(ns)))
  {
    SimplifyCanonical(ns);
    PartsOfPrints(ns);
    InsertionSortMap(NoteParts, ns, NoteCompare, Compare);
    var sorted := SortedNotes(ns);
    assert AllCanonical(sorted) by {
      forall i | 0 <= i < |sorted|
        ensures Canonical(sorted[i])
      {
        assert sorted[i] in multiset(ns);
      }
    }
    JoinPrints(sorted);
  }

  /** `simplifyNote` leaves the texts of canonical notes as they are. */
  lemma SimplifyCanonical(ns: seq<Note>)
    requires AllCanonical(ns)
    ensures TransposeAll(Prints(ns), 0) == Success(Prints(ns))
  {
    TransposeAllCanonical(ns, 0);
    assert ShiftAll(ns, 0) == ns by {
      forall i | 0 <= i < |ns|
        ensures ShiftAll(ns, 0)[i] == ns[i]
      {
        ShiftZero(ns[i]);
      }
    }
  }

  lemma PartsOfPrints(ns: seq<Note>)
    ensures Map(PartsOf, Prints(ns)) == Map(NoteParts, ns)
  {
    forall i | 0 <= i < |ns|
      ensures PartsOf(Prints(ns)[i]) == NoteParts(ns[i])
    {
      PartsOfPrint(ns[i]);
    }
  }

  lemma JoinPrints(ns: seq<Note>)
    requires AllCanonical(ns)
    ensures Map(Join, Map(NoteParts, ns)) == Prints(ns)
  {
    forall i | 0 <= i < |ns|
      ensures Join(NoteParts(ns[i])) == Print(ns[i])
    {
      JoinParts(ns[i]);
    }
  }

  /** The sorted notes of a uniform list rise in height: by octave, then by
      pitch class within an octave, or by pitch class alone when no note
      has an octave. */
  lemma SortedNotesOrder(ns: seq<Note>)
    requires Uniform(ns)
    ensures SortedBy(SortedNotes(ns), Height)
    ensures forall i, j :: 0 <= i < j < |SortedNotes(ns)| && SortedNotes(ns)[i].Abs? && SortedNotes(ns)[j].Abs? ==>
              SortedNotes(ns)[i].octave < SortedNotes(ns)[j].octave
              || (SortedNotes(ns)[i].octave == SortedNotes(ns)[j].octave && SortedNotes(ns)[i].pc <= SortedNotes(ns)[j].pc)
    ensures forall i, j :: 0 <= i < j < |SortedNotes(ns)| && SortedNotes(ns)[i].PC? && SortedNotes(ns)[j].PC? ==>
              SortedNotes(ns)[i].pc <= SortedNotes(ns)[j].pc
  {
    UniformRanked(ns);
    InsertionSortSorted(ns, NoteCompare, Height);
    var s := SortedNotes(ns);
    assert |s| == |ns| by {
      assert |multiset(s)| == |multiset(ns)|;
    }
  }

  /** A uniform list sorts to the one ordering of its notes by height: any
      permutation of the notes that rises in height is what `sortNotes`
      prints. */
  lemma SortNotesIs(ns: seq<Note>, ms: seq<Note>)
    requires Uniform(ns)
    requires multiset(ms) == multiset(ns) && SortedBy(ms, Height)
    ensures SortNotes(Prints(ns)) == Success(Prints(ms))
  {
    SortNotesCanonical(ns);
    SortedNotesOrder(ns);
    var s := SortedNotes(ns);
    forall i, j | 0 <= i < |s| && 0 <= j < |s| && Height(s[i]) == Height(s[j])
      ensures s[i] == s[j]
    {
      assert s[i] in multiset(ns) && s[j] in multiset(ns);
      if s[i].Abs? {
        HeightDetermines(s[i], s[j]);
      }
    }
    SortedUnique(SortedNotes(ns), ms, Height);
  }
}
