/** Reading notes out of text: the case-insensitive regular expressions of
    `normalizeNote`, `getOctave` and `getPitchClass`, each modelled as the
    leftmost, greedy match a JavaScript engine finds. Searches walk a
    position forward through the string, as the engine does. */
module NoteText {
  import opened Results
  import opened Decimal
  import opened Pitch

  /** Why a note string cannot be read.
      NoLetter: the tolerant pattern does not match, so destructuring the
        `null` match throws a TypeError.
      UnknownPitchClass: the letter or the accidentals read by the pattern are
        not keys of the upper-case tables, and the code carries on with
        `undefined`/`NaN` into a meaningless string.
      NotAString: a value that is not a string reaches the parser (as when
        `invert` transposes what `shift` or `pop` returned for an empty list). */
  datatype NoteError = NoLetter | UnknownPitchClass | NotAString

  /** `[abcdefg]` under the `i` flag. */
  predicate IsLetter(c: char) {
    ('a' <= c <= 'g') || ('A' <= c <= 'G')
  }

  /** `[#b]` under the `i` flag: the upper-case `B` matches too. */
  predicate IsAccidental(c: char) {
    c == '#' || c == 'b' || c == 'B'
  }

  /** The first letter at or after position `i`: where every one of the
      three patterns starts its match. */
  function LetterFrom(s: string, i: nat): (r: Option<nat>)
    requires i <= |s|
    ensures r.Some? ==> i <= r.value < |s| && IsLetter(s[r.value])
    decreases |s| - i
  {
    if i == |s| then None
    else if IsLetter(s[i]) then Some(i)
    else LetterFrom(s, i + 1)
  }

  /** The greedy `[#b]*` run starting at position `i`. */
  function AccidentalRun(s: string, i: nat): (r: string)
    requires i <= |s|
    ensures |r| <= |s| - i
    decreases |s| - i
  {
    if i < |s| && IsAccidental(s[i]) then [s[i]] + AccidentalRun(s, i + 1) else []
  }

  /** The three capture groups of `/([abcdefg])([#b]*)(\d*)/i`. */
  datatype TolerantMatch = TolerantMatch(letter: char, accidentals: string, octave: string)

  /** The leftmost match of the tolerant pattern: the first letter, the
      accidentals right after it, and the digits right after those. */
  function MatchTolerant(s: string): (r: Option<TolerantMatch>)
    ensures r.Some? ==> AllDigits(r.value.octave)
  {
    match LetterFrom(s, 0)
    case None => None
    case Some(i) =>
      var accidentals := AccidentalRun(s, i + 1);
      Some(TolerantMatch(s[i], accidentals, DigitRun(s, i + 1 + |accidentals|)))
  }

  /** An accidental run ending the string, or followed by another
      character, is taken whole. */
  lemma {:induction false} AccidentalRunOf(s: string, i: nat, e: nat)
    requires i <= e <= |s|
    requires forall k :: i <= k < e ==> IsAccidental(s[k])
    requires e == |s| || !IsAccidental(s[e])
    ensures AccidentalRun(s, i) == s[i..e]
    decreases e - i
  {
    if i < e {
      AccidentalRunOf(s, i + 1, e);
      assert s[i..e] == [s[i]] + s[i + 1..e];
    }
  }

  /** The sum of `accidentalValues` over the accidentals: `#` is +1, `b` is
      -1, and an upper-case `B` has no value. */
  function AccidentalSum(accidentals: string): Option<int>
  {
    if |accidentals| == 0 then Some(0)
    else
      var value := if accidentals[0] == '#' then Some(1) else if accidentals[0] == 'b' then Some(-1) else None;
      match (value, AccidentalSum(accidentals[1..]))
      case (Some(v), Some(rest)) => Some(v + rest)
      case _ => None
  }

  /** The sum exists exactly when every accidental is `#` or `b`, and is the
      number of sharps minus the number of flats. */
  lemma {:induction false} AccidentalSumCounts(accidentals: string)
    ensures AccidentalSum(accidentals).Some?
            <==> forall i :: 0 <= i < |accidentals| ==> accidentals[i] in "#b"
    ensures AccidentalSum(accidentals).Some? ==>
      AccidentalSum(accidentals).value
        == multiset(accidentals)['#'] as int - multiset(accidentals)['b'] as int
    decreases |accidentals|
  {
    if |accidentals| > 0 {
      AccidentalSumCounts(accidentals[1..]);
      assert accidentals == [accidentals[0]] + accidentals[1..];
      assert multiset(accidentals) == multiset{accidentals[0]} + multiset(accidentals[1..]);
    }
  }

  /** `normalizeNote`: the letter transposed by the accidentals' sum, as an
      octave-bearing note when digits follow and as a pitch class otherwise.
      It throws exactly when the string has no note letter. */
  function NormalizeNote(s: string): (r: Result<Note, NoteError>)
    ensures r == Failure(NoLetter) <==> forall j :: 0 <= j < |s| ==> !IsLetter(s[j])
  {
    LetterFromNone(s, 0);
    match MatchTolerant(s)
    case None => Failure(NoLetter)
    case Some(m) => NormalizeMatch(m)
  }

  /** The arithmetic half of `normalizeNote`, on the pattern's three groups. */
  function NormalizeMatch(m: TolerantMatch): Result<Note, NoteError>
    requires AllDigits(m.octave)
  {
    match (IndexOf([m.letter]), AccidentalSum(m.accidentals))
    case (Some(letter), Some(sum)) =>
      if |m.octave| > 0 then Success(TransposeNote(letter, ParseDigits(m.octave), sum))
      else Success(PC(TransposePitchClass(letter, sum)))
    case _ => Failure(UnknownPitchClass)
  }

  /** Normalizing keeps the height the text spells: twelve per octave digit
      value, plus the letter, plus the accidentals. */
  lemma NormalizeMatchHeight(m: TolerantMatch)
    requires AllDigits(m.octave)
    ensures NormalizeMatch(m).Success?
            <==> IndexOf([m.letter]).Some? && AccidentalSum(m.accidentals).Some?
    ensures NormalizeMatch(m).Success? ==> (NormalizeMatch(m).value.Abs? <==> |m.octave| > 0)
    ensures NormalizeMatch(m).Success? && |m.octave| > 0 ==>
      Height(NormalizeMatch(m).value)
        == 12 * ParseDigits(m.octave) + IndexOf([m.letter]).value + AccidentalSum(m.accidentals).value
    ensures NormalizeMatch(m).Success? && |m.octave| == 0 ==>
      NormalizeMatch(m).value.pc == (IndexOf([m.letter]).value + AccidentalSum(m.accidentals).value) % 12
  {
  }

  lemma {:induction false} LetterFromNone(s: string, i: nat)
    requires i <= |s|
    ensures LetterFrom(s, i).None? <==> forall j :: i <= j < |s| ==> !IsLetter(s[j])
    ensures LetterFrom(s, i).Some? ==> forall j :: i <= j < LetterFrom(s, i).value ==> !IsLetter(s[j])
    decreases |s| - i
  {
    if i < |s| && !IsLetter(s[i]) {
      LetterFromNone(s, i + 1);
    }
  }

  /** Where `/[abcdefg][#b]?(\d+)/i` can match: a letter followed by digits,
      possibly with one accidental in between. */
  predicate OctaveAt(s: string, i: nat) {
    && i < |s| && IsLetter(s[i])
    && ((i + 1 < |s| && IsDigit(s[i + 1]))
        || (i + 2 < |s| && IsAccidental(s[i + 1]) && IsDigit(s[i + 2])))
  }

  /** The leftmost position at or after `i` where that pattern matches. */
  function OctaveFrom(s: string, i: nat): (r: Option<nat>)
    requires i <= |s|
    ensures r.Some? ==> i <= r.value && OctaveAt(s, r.value)
    ensures r.Some? ==> forall j :: i <= j < r.value ==> !OctaveAt(s, j)
    decreases |s| - i
  {
    if i == |s| then None
    else if OctaveAt(s, i) then Some(i)
    else OctaveFrom(s, i + 1)
  }

  /** `getOctave`: the digits after the leftmost letter that has at most one
      accidental before them, or `null` exactly when the pattern matches
      nowhere. */
  function GetOctave(s: string): (r: Option<nat>)
    ensures r.None? <==> forall i :: 0 <= i < |s| ==> !OctaveAt(s, i)
  {
    OctaveFromNone(s, 0);
    match OctaveFrom(s, 0)
    case None => None
    case Some(i) =>
      var d := if IsDigit(s[i + 1]) then i + 1 else i + 2;
      Some(ParseDigits(DigitRun(s, d)))
  }

  lemma {:induction false} OctaveFromNone(s: string, i: nat)
    requires i <= |s|
    ensures OctaveFrom(s, i).None? <==> forall j :: i <= j < |s| ==> !OctaveAt(s, j)
    decreases |s| - i
  {
    if i < |s| && !OctaveAt(s, i) {
      OctaveFromNone(s, i + 1);
    }
  }

  /** `getPitchClass`: the leftmost letter with at most one accidental after
      it (`/([abcdefg][#b]?)\d*` with the `i` flag), or `null`. */
  function GetPitchClass(s: string): (r: Option<string>)
    ensures r.Some? ==> 1 <= |r.value| <= 2 && IsLetter(r.value[0])
    ensures r.Some? && |r.value| == 2 ==> IsAccidental(r.value[1])
    ensures r.None? <==> LetterFrom(s, 0).None?
    ensures r.Some? ==> r.value[0] == s[LetterFrom(s, 0).value]
  {
    match LetterFrom(s, 0)
    case None => None
    case Some(i) =>
      if i + 1 < |s| && IsAccidental(s[i + 1]) then Some([s[i], s[i + 1]]) else Some([s[i]])
  }
}

/** How the patterns read the strings that `Print` produces. */
module NoteTextFacts {
  import opened Results
  import opened Decimal
  import opened Pitch
  import opened NoteText

  /** Each table name is an upper-case natural letter, optionally followed
      by one sharp. */
  lemma NameShape(p: PitchClass)
    ensures 1 <= |Names[p]| <= 2
    ensures IsLetter(Names[p][0])
    ensures |Names[p]| == 2 ==> Names[p][1] == '#'
    ensures IndexOf([Names[p][0]]) == Some(p - (|Names[p]| - 1))
  {
    IndexOfName(p - (|Names[p]| - 1));
    assert [Names[p][0]] == Names[p - (|Names[p]| - 1)];
  }

  /** The text after a table name in a printed note: the octave, if any. */
  function OctaveText(n: Note): string {
    if n.Abs? then IntToString(n.octave) else ""
  }

  /** The digits the tolerant pattern captures from a printed note. */
  function OctaveDigits(n: Note): string {
    if n.Abs? && n.octave >= 0 then NatToString(n.octave) else ""
  }

  function PrintedMatch(n: Note): TolerantMatch {
    TolerantMatch(Names[n.pc][0], Names[n.pc][1..], OctaveDigits(n))
  }

  /** The character layout of a printed note: the table name, then only
      digits and minus signs. */
  lemma PrintLayout(n: Note)
    ensures Print(n) == Names[n.pc] + OctaveText(n)
    ensures forall k :: |Names[n.pc]| <= k < |Print(n)| ==>
      !IsLetter(Print(n)[k]) && !IsAccidental(Print(n)[k])
    ensures |Print(n)| > |Names[n.pc]| ==>
      (IsDigit(Print(n)[|Names[n.pc]|]) <==> n.Abs? && n.octave >= 0)
  {
    var s := Print(n);
    var name := Names[n.pc];
    assert s == name + OctaveText(n);
    if n.Abs? {
      IntToStringChars(n.octave);
    }
    if n.Abs? && n.octave >= 0 {
      assert OctaveText(n) == NatToString(n.octave);
    }
    forall k | |name| <= k < |s|
      ensures !IsLetter(s[k]) && !IsAccidental(s[k])
    {
      assert s[k] == OctaveText(n)[k - |name|];
    }
  }

  /** The tolerant pattern splits a printed note into its table name's
      letter, its sharp (if any) and the digits of a non-negative octave. */
  lemma MatchPrint(n: Note)
    ensures MatchTolerant(Print(n)) == Some(PrintedMatch(n))
  {
    var name := Names[n.pc];
    NameShape(n.pc);
    PrintLayout(n);
    PrintedLetter(n);
    PrintedSharp(n);
    PrintedDigits(n);
    MatchFrom(Print(n), name[0], name[1..], OctaveDigits(n));
  }

  /** A text whose first character is a letter, read through the tolerant
      pattern. */
  lemma MatchFrom(s: string, letter: char, accidentals: string, digits: string)
    requires LetterFrom(s, 0) == Some(0) && s[0] == letter
    requires AccidentalRun(s, 1) == accidentals
    requires DigitRun(s, 1 + |accidentals|) == digits
    ensures MatchTolerant(s) == Some(TolerantMatch(letter, accidentals, digits))
  {
  }

  lemma PrintedLetter(n: Note)
    ensures LetterFrom(Print(n), 0) == Some(0) && Print(n)[0] == Names[n.pc][0]
  {
    NameShape(n.pc);
    PrintLayout(n);
  }

  lemma PrintedSharp(n: Note)
    ensures AccidentalRun(Print(n), 1) == Names[n.pc][1..]
  {
    var s := Print(n);
    var name := Names[n.pc];
    NameShape(n.pc);
    PrintLayout(n);
    AccidentalRunOf(s, 1, |name|);
    assert s[1..|name|] == name[1..];
  }

  lemma PrintedDigits(n: Note)
    ensures |Names[n.pc]| <= |Print(n)|
    ensures DigitRun(Print(n), |Names[n.pc]|) == OctaveDigits(n)
  {
    var s := Print(n);
    var name := Names[n.pc];
    PrintLayout(n);
    if n.Abs? && n.octave >= 0 {
      DigitRunOf(s, |name|, |s|);
      assert s[|name|..|s|] == NatToString(n.octave);
    } else {
      DigitRunOf(s, |name|, |name|);
    }
  }

  /** The letter and accidentals of a table name, as `normalizeNote` reads them. */
  lemma NameParts(p: PitchClass)
    ensures AccidentalSum(Names[p][1..]) == Some(|Names[p]| - 1)
    ensures IndexOf([Names[p][0]]) == Some(p - (|Names[p]| - 1))
  {
    NameShape(p);
    if |Names[p]| == 2 {
      assert Names[p][1..] == "#";
    }
  }

  lemma NormalizePrintedMatch(n: Note)
    requires Canonical(n)
    ensures NormalizeMatch(PrintedMatch(n)) == Success(n)
  {
    NameParts(n.pc);
    var shift := |Names[n.pc]| - 1;
    var m := PrintedMatch(n);
    if n.Abs? {
      ParseNatToString(n.octave);
      var t := TransposeNote(n.pc - shift, n.octave, shift);
      HeightDetermines(t, n);
      assert NormalizeMatch(m) == Success(t);
    } else {
      TransposeWithinOctave(n.pc - shift, shift);
      assert NormalizeMatch(m) == Success(PC(n.pc));
    }
  }

  /** Printing a canonical note and normalizing the text gives the note back. */
  lemma NormalizePrint(n: Note)
    requires Canonical(n)
    ensures NormalizeNote(Print(n)) == Success(n)
  {
    MatchPrint(n);
    NormalizePrintedMatch(n);
  }

  /** `getOctave` finds the octave of a printed note exactly when it is
      non-negative: a printed minus sign hides it. */
  lemma GetOctavePrint(n: Note)
    ensures GetOctave(Print(n)) == if n.Abs? && n.octave >= 0 then Some(n.octave) else None
  {
    if n.Abs? && n.octave >= 0 {
      GetOctavePrintDigits(n);
    } else {
      GetOctavePrintHidden(n);
    }
  }

  lemma GetOctavePrintDigits(n: Note)
    requires n.Abs? && n.octave >= 0
    ensures GetOctave(Print(n)) == Some(n.octave)
  {
    var s := Print(n);
    var name := Names[n.pc];
    NameShape(n.pc);
    PrintLayout(n);
    assert OctaveAt(s, 0);
    assert OctaveFrom(s, 0) == Some(0);
    DigitRunOf(s, |name|, |s|);
    assert s[|name|..|s|] == NatToString(n.octave);
    ParseNatToString(n.octave);
  }

  lemma GetOctavePrintHidden(n: Note)
    requires !(n.Abs? && n.octave >= 0)
    ensures GetOctave(Print(n)).None?
  {
    var s := Print(n);
    var name := Names[n.pc];
    NameShape(n.pc);
    PrintLayout(n);
    forall i | 0 <= i < |s|
      ensures !OctaveAt(s, i)
    {
      if 0 < i < |name| {
        assert s[i] == '#';
      }
    }
  }

  /** `getPitchClass` reads the table name back out of a printed note. */
  lemma GetPitchClassPrint(n: Note)
    ensures GetPitchClass(Print(n)) == Some(Names[n.pc])
  {
    var s := Print(n);
    var name := Names[n.pc];
    NameShape(n.pc);
    PrintLayout(n);
    assert LetterFrom(s, 0) == Some(0);
    if |name| == 2 {
      assert [s[0], s[1]] == name;
    } else {
      assert [s[0]] == name;
    }
  }
}
