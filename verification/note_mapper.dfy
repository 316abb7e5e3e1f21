/**
  The note mapper, from the rounded MIDI note number on: the pitch-class index,
  the octave and the printed label.

  The rounded number is a 32-bit signed integer. It is turned into an index by a
  cast to a 64-bit unsigned integer followed by `% 12`, and into an octave by
  Rust's truncating division; both are written out here, so negative numbers get
  exactly the index and octave the program computes.
 */
module NoteMapper {
  import opened Wrappers
  import Decimal

  /** The twelve pitch-class names, from C, in the program's order and spelling. The
      sharp and flat signs are spelled as the program's literals spell them: the three
      characters U+201A U+00F4 U+00D8 for the sharp and U+201A U+00F4 U+2260 for the flat,
      so every accidental name is four characters long. */
  const PitchNames: seq<string> :=
    ["C", "C\U{201A}\U{00F4}\U{00D8}", "D", "E\U{201A}\U{00F4}\U{2260}", "E", "F",
     "F\U{201A}\U{00F4}\U{00D8}", "G", "G\U{201A}\U{00F4}\U{00D8}", "A", "B\U{201A}\U{00F4}\U{2260}", "B"]

  const I32Min: int := -0x8000_0000
  const I32Max: int := 0x7FFF_FFFF
  const UsizeModulus: int := 0x1_0000_0000_0000_0000

  /** The width the name is left-aligned and space-padded to in the label. */
  const NameWidth: nat := 2

  predicate IsI32(x: int)
  {
    I32Min <= x <= I32Max
  }

  /** `r as usize` for an `i32`: the residue of `r` modulo 2^64. */
  function AsUsize(r: int): (u: nat)
    requires IsI32(r)
    ensures u < UsizeModulus && (u - r) % UsizeModulus == 0
  {
    if r >= 0 then r else r + UsizeModulus
  }

  /** Rust's integer `/`: the quotient truncated toward zero, so the remainder takes the
      sign of the dividend. */
  function TruncDiv(a: int, b: int): (q: int)
    requires b > 0
    ensures a >= 0 ==> 0 <= a - q * b < b
    ensures a < 0 ==> -b < a - q * b <= 0
  {
    if a >= 0 then a / b else -((-a) / b)
  }

  /** `rounded_pitch as usize % 12`. */
  function NameIndex(r: int): (i: nat)
    requires IsI32(r)
    ensures i < |PitchNames|
  {
    AsUsize(r) % |PitchNames|
  }

  /** `rounded_pitch / 12 - 1`. */
  function Octave(r: int): int
    requires IsI32(r)
  {
    TruncDiv(r, |PitchNames|) - 1
  }

  function PitchName(r: int): string
    requires IsI32(r)
  {
    PitchNames[NameIndex(r)]
  }

  /** `format!("{: <w}", s)`: `s` left-aligned, filled with spaces up to `width` characters. */
  function PadRight(s: string, width: nat): (p: string)
    ensures |p| == if |s| < width then width else |s|
    ensures p[..|s|] == s
    ensures forall i :: |s| <= i < |p| ==> p[i] == ' '
  {
    if |s| < width then s + seq(width - |s|, _ => ' ') else s
  }

  /** The label `hz_to_pitch` returns: the padded name followed by the octave. */
  function Label(r: int): string
    requires IsI32(r)
  {
    PadRight(PitchName(r), NameWidth) + Decimal.IntToString(Octave(r))
  }

  /** For a non-negative number the index and octave are the Euclidean remainder and
      quotient by 12, less one octave, so together they give the number back. */
  lemma PitchDecomposition(r: int)
    requires 0 <= r <= I32Max
    ensures NameIndex(r) == r % 12
    ensures Octave(r) == r / 12 - 1
    ensures 12 * (Octave(r) + 1) + NameIndex(r) == r
  {
  }

  /** Twelve semitones up: the same name, one octave higher. */
  lemma OctaveShift(r: int)
    requires 0 <= r && r + 12 <= I32Max
    ensures PitchName(r + 12) == PitchName(r)
    ensures Octave(r + 12) == Octave(r) + 1
  {
    PitchDecomposition(r);
    PitchDecomposition(r + 12);
  }

  /** The name of pitch class `i` as it appears in a label. */
  function PaddedName(i: nat): string
    requires i < |PitchNames|
  {
    PadRight(PitchNames[i], NameWidth)
  }

  /** A natural name is one character and is followed by one space; an accidental name is
      four characters and is not padded. The octave's decimal text follows the name. */
  lemma LabelLayout(r: int)
    requires IsI32(r)
    ensures var name := PitchName(r); var text := Label(r);
      && (|name| == 1 || |name| == 4)
      && text[..|name|] == name
      && (|name| == 1 ==> |text| > 2 && text[1] == ' ' && text[2..] == Decimal.IntToString(Octave(r)))
      && (|name| == 4 ==> text[4..] == Decimal.IntToString(Octave(r)))
  {
    var name := PitchName(r);
    var padded := PadRight(name, NameWidth);
    var text := Label(r);
    assert text[..|padded|] == padded;
    assert text[|padded|..] == Decimal.IntToString(Octave(r));
  }

  /** The first pitch class, from `i` on, whose label form is a prefix of `text`. */
  function FindName(text: string, i: nat): (r: Option<nat>)
    requires i <= |PitchNames|
    ensures r.Some? ==> i <= r.value < |PitchNames| && PaddedName(r.value) <= text
    ensures r.None? ==> forall k :: i <= k < |PitchNames| ==> !(PaddedName(k) <= text)
    decreases |PitchNames| - i
  {
    if i == |PitchNames| then None
    else if PaddedName(i) <= text then Some(i)
    else FindName(text, i + 1)
  }

  /** Reads a label back into the rounded MIDI number it was made from, as
      `12 * (octave + 1) + index`. */
  function DecodeLabel(text: string): Option<int>
  {
    match FindName(text, 0)
    case None => None
    case Some(i) =>
      match Decimal.ParseInt(text[|PaddedName(i)|..])
      case None => None
      case Some(octave) => Some(12 * (octave + 1) + i)
  }

  /** The label forms of the names differ in their first two characters, so a label
      starting with the form of pitch class `i` is found as `i`. */
  lemma FindOwnName(i: nat, rest: string)
    requires i < |PitchNames|
    ensures FindName(PaddedName(i) + rest, 0) == Some(i)
  {
    var keys := ["C ", "C\U{201A}", "D ", "E\U{201A}", "E ", "F ", "F\U{201A}", "G ", "G\U{201A}", "A ", "B\U{201A}", "B "];
    forall j | 0 <= j < |PitchNames|
      ensures |PaddedName(j)| >= 2 && PaddedName(j)[..2] == keys[j]
    {
    }
    var text := PaddedName(i) + rest;
    assert text[..2] == keys[i];
    forall k | 0 <= k < i
      ensures !(PaddedName(k) <= text)
    {
      PrefixKeepsHead(PaddedName(k), text);
    }
    FindNameInTable(text, i, 0);
  }

  lemma PrefixKeepsHead(a: string, b: string)
    requires |a| >= 2
    ensures a <= b ==> a[..2] == b[..2]
  {
  }

  lemma {:induction false} FindNameInTable(text: string, i: nat, j: nat)
    requires j <= i < |PitchNames|
    requires PaddedName(i) <= text
    requires forall k :: j <= k < i ==> !(PaddedName(k) <= text)
    ensures FindName(text, j) == Some(i)
    decreases i - j
  {
    if j < i {
      FindNameInTable(text, i, j + 1);
    }
  }

  /** Every label of a non-negative number reads back as that number: the label loses
      nothing. */
  lemma LabelRoundTrip(r: int)
    requires 0 <= r <= I32Max
    ensures DecodeLabel(Label(r)) == Some(r)
  {
    PitchDecomposition(r);
    var i := NameIndex(r);
    var octave := Decimal.IntToString(Octave(r));
    FindOwnName(i, octave);
    Decimal.IntRoundTrip(Octave(r));
    assert Label(r) == PaddedName(i) + octave;
    assert Label(r)[|PaddedName(i)|..] == octave;
  }

  /** MIDI 69 is A in octave 4, labelled "A 4". */
  lemma ConcertPitch()
    ensures PitchName(69) == "A" && Octave(69) == 4
    ensures Label(69) == "A 4"
  {
    assert NameIndex(69) == 9;
    assert PadRight("A", NameWidth) == "A ";
    assert Decimal.IntToString(4) == "4";
  }

  /** MIDI 60 is C in octave 4, labelled "C 4". */
  lemma MiddleC()
    ensures PitchName(60) == "C" && Octave(60) == 4
    ensures Label(60) == "C 4"
  {
    assert NameIndex(60) == 0;
    assert PadRight("C", NameWidth) == "C ";
    assert Decimal.IntToString(4) == "4";
  }

  /** MIDI 61 is C-sharp in octave 4; its four-character name is wider than the padding
      width and is not padded. */
  lemma AccidentalNameUnpadded()
    ensures PitchName(61) == "C\U{201A}\U{00F4}\U{00D8}" && Octave(61) == 4
    ensures Label(61) == "C\U{201A}\U{00F4}\U{00D8}4"
  {
    assert NameIndex(61) == 1;
    assert PadRight("C\U{201A}\U{00F4}\U{00D8}", NameWidth) == "C\U{201A}\U{00F4}\U{00D8}";
    assert Decimal.IntToString(4) == "4";
  }

  /** For negative numbers the program does not take the non-negative remainder and the
      floor quotient: MIDI -1 (musically B in octave -2) is labelled E-flat in octave -1,
      and the label does not read back as -1. */
  lemma NegativePitchMislabelled()
    ensures NameIndex(-1) == 3 && Octave(-1) == -1
    ensures -1 % 12 == 11 && -1 / 12 - 1 == -2
    ensures DecodeLabel(Label(-1)) == Some(3)
  {
    var octave := Decimal.IntToString(-1);
    FindOwnName(3, octave);
    Decimal.IntRoundTrip(-1);
    assert Label(-1) == PaddedName(3) + octave;
    assert Label(-1)[|PaddedName(3)|..] == octave;
  }
}
