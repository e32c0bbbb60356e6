/** The binding-name parser (`midi.py`): names such as `Ch07.CC.064` or
    `Ch05.Note.C#3` are split into channel, event, number and note name.
    The Python string helpers it relies on (`split`, `strip`, `upper`,
    `int`, `int(_, 16)` and the note-name regular expression) are modelled
    here for the ASCII text the names are made of.
 */
module Midi {
  import opened Wrappers

  // ---------------------------------------------------------------------------
  // str.split(sep)

  /** `s.split(sep)`: the pieces between separators, always at least one. */
  function Split(s: string, sep: char): (parts: seq<string>)
    ensures |parts| >= 1
    decreases |s|
  {
    if s == [] then [[]]
    else
      var rest := Split(s[1..], sep);
      if s[0] == sep then [[]] + rest
      else [[s[0]] + rest[0]] + rest[1..]
  }

  /** `sep.join(parts)`. */
  function Join(parts: seq<string>, sep: char): (s: string)
    requires |parts| >= 1
    decreases |parts|
  {
    if |parts| == 1 then parts[0] else parts[0] + [sep] + Join(parts[1..], sep)
  }

  /** Joining the pieces of a split gives back the string. */
  lemma {:induction false} JoinSplit(s: string, sep: char)
    ensures Join(Split(s, sep), sep) == s
    decreases |s|
  {
    if s != [] {
      JoinSplit(s[1..], sep);
      var rest := Split(s[1..], sep);
      if s[0] != sep {
        if |rest| > 1 {
          assert Join(rest, sep) == rest[0] + [sep] + Join(rest[1..], sep);
          assert s == [s[0]] + s[1..];
        }
      } else {
        assert s == [sep] + s[1..];
      }
    }
  }

  /** A piece without the separator, then the separator, splits off as the
      first piece. */
  lemma {:induction false} SplitCons(a: string, sep: char, s: string)
    requires sep !in a
    ensures Split(a + [sep] + s, sep) == [a] + Split(s, sep)
    decreases |a|
  {
    if a == [] {
      assert ([] + [sep] + s)[1..] == s;
    } else {
      SplitCons(a[1..], sep, s);
      assert (a + [sep] + s)[1..] == a[1..] + [sep] + s;
      assert [a[0]] + a[1..] == a;
    }
  }

  /** A string without the separator is a single piece. */
  lemma {:induction false} SplitNone(s: string, sep: char)
    requires sep !in s
    ensures Split(s, sep) == [s]
    decreases |s|
  {
    if s != [] {
      SplitNone(s[1..], sep);
      assert [s[0]] + s[1..] == s;
    }
  }

  /** Splitting pieces that hold no separator, once joined, gives the pieces
      back. */
  lemma {:induction false} SplitJoin(parts: seq<string>, sep: char)
    requires |parts| >= 1
    requires forall i :: 0 <= i < |parts| ==> sep !in parts[i]
    ensures Split(Join(parts, sep), sep) == parts
    decreases |parts|
  {
    if |parts| == 1 {
      SplitNone(parts[0], sep);
    } else {
      SplitJoin(parts[1..], sep);
      SplitCons(parts[0], sep, Join(parts[1..], sep));
    }
  }

  // ---------------------------------------------------------------------------
  // str.strip() and str.upper()

  /** `str.isspace` for one character: the ASCII separators and the Unicode
      white space characters. */
  predicate IsSpace(c: char) {
    var u := c as int;
    || u == 0x20 || (0x09 <= u <= 0x0D) || (0x1C <= u <= 0x1F)
    || u == 0x85 || u == 0xA0 || u == 0x1680
    || (0x2000 <= u <= 0x200A) || u == 0x2028 || u == 0x2029
    || u == 0x202F || u == 0x205F || u == 0x3000
  }

  /** White space removed from the front. */
  function TrimLeft(s: string): (r: string)
    ensures |r| <= |s|
  {
    if s != [] && IsSpace(s[0]) then TrimLeft(s[1..]) else s
  }

  /** White space removed from the back. */
  function TrimRight(s: string): (r: string)
    ensures |r| <= |s|
  {
    if s != [] && IsSpace(s[|s| - 1]) then TrimRight(s[..|s| - 1]) else s
  }

  /** `s.strip()`. */
  function Strip(s: string): (r: string)
    ensures |r| <= |s|
  {
    TrimRight(TrimLeft(s))
  }

  /** What `TrimLeft` removes is white space, and what it keeps is the rest
      of the string, starting at a character that is not white space. */
  lemma {:induction false} TrimLeftSpec(s: string)
    ensures var r := TrimLeft(s);
            && r == s[|s| - |r|..]
            && (forall k :: 0 <= k < |s| - |r| ==> IsSpace(s[k]))
            && (r == [] || !IsSpace(r[0]))
  {
    if s != [] && IsSpace(s[0]) {
      TrimLeftSpec(s[1..]);
    }
  }

  /** What `TrimRight` removes is white space, and what it keeps is the
      front of the string, ending at a character that is not white space. */
  lemma {:induction false} TrimRightSpec(s: string)
    ensures var r := TrimRight(s);
            && r == s[..|r|]
            && (forall k :: |r| <= k < |s| ==> IsSpace(s[k]))
            && (r == [] || !IsSpace(r[|r| - 1]))
  {
    if s != [] && IsSpace(s[|s| - 1]) {
      TrimRightSpec(s[..|s| - 1]);
    }
  }

  /** `strip` keeps a contiguous middle part of the string, removes only
      white space around it, and the part it keeps neither starts nor ends
      with white space. */
  lemma StripSpec(s: string)
    ensures var r := Strip(s);
            && (exists i {:trigger s[i..]} :: 0 <= i <= |s| - |r| && s[i..i + |r|] == r
                  && (forall k :: 0 <= k < i ==> IsSpace(s[k]))
                  && (forall k :: i + |r| <= k < |s| ==> IsSpace(s[k])))
            && (r == [] || (!IsSpace(r[0]) && !IsSpace(r[|r| - 1])))
  {
    var l := TrimLeft(s);
    TrimLeftSpec(s);
    TrimRightSpec(l);
    var r := TrimRight(l);
    var i := |s| - |l|;
    assert s[i..i + |r|] == r;
    assert s[i..] == l;
    forall k | i + |r| <= k < |s|
      ensures IsSpace(s[k])
    {
      assert s[k] == l[k - i];
    }
  }

  /** Text that neither starts nor ends with white space strips to itself. */
  lemma StripUnchanged(s: string)
    requires s == [] || (!IsSpace(s[0]) && !IsSpace(s[|s| - 1]))
    ensures Strip(s) == s
  {
    assert TrimLeft(s) == s;
  }

  /** Stripping twice is stripping once. */
  lemma StripIdempotent(s: string)
    ensures Strip(Strip(s)) == Strip(s)
  {
    StripSpec(s);
    StripUnchanged(Strip(s));
  }

  function UpperChar(c: char): char {
    if 'a' <= c <= 'z' then (c as int - 32) as char else c
  }

  /** `s.upper()` on ASCII letters. */
  function Upper(s: string): (r: string)
    ensures |r| == |s|
    ensures forall i :: 0 <= i < |s| ==> r[i] == UpperChar(s[i])
  {
    seq(|s|, i requires 0 <= i < |s| => UpperChar(s[i]))
  }

  // ---------------------------------------------------------------------------
  // int(s) and int(s, 16)

  /** The value of a digit in base 16 or below, -1 for any other character. */
  function DigitValue(c: char): (v: int)
    ensures -1 <= v < 16
  {
    if '0' <= c <= '9' then c as int - '0' as int
    else if 'a' <= c <= 'f' then c as int - 'a' as int + 10
    else if 'A' <= c <= 'F' then c as int - 'A' as int + 10
    else -1
  }

  predicate IsDigitIn(c: char, base: nat) {
    0 <= DigitValue(c) < base
  }

  predicate AllDigitsIn(s: string, base: nat) {
    forall i :: 0 <= i < |s| ==> IsDigitIn(s[i], base)
  }

  /** The number a digit string spells, most significant digit first. */
  function DigitsValue(s: string, base: nat): nat
    requires AllDigitsIn(s, base)
  {
    if s == [] then 0 else DigitsValue(s[..|s| - 1], base) * base + DigitValue(s[|s| - 1])
  }

  /** The text `int(s, base)` accepts: an optional sign, then one or more digits. */
  predicate IsIntText(t: string, base: nat) {
    if t != [] && (t[0] == '+' || t[0] == '-') then |t| > 1 && AllDigitsIn(t[1..], base)
    else t != [] && AllDigitsIn(t, base)
  }

  /** `int(s, base)` for base 10 or 16: white space around the number is
      ignored, an optional sign is followed by at least one digit; any other
      text raises `ValueError`, modelled as None. */
  function ParseInt(s: string, base: nat): (r: Option<int>)
    requires base == 10 || base == 16
    ensures r.Some? <==> IsIntText(Strip(s), base)
  {
    var t := Strip(s);
    if t != [] && (t[0] == '+' || t[0] == '-') then
      if |t| > 1 && AllDigitsIn(t[1..], base) then
        Some(if t[0] == '-' then -(DigitsValue(t[1..], base) as int) else DigitsValue(t[1..], base))
      else None
    else if t != [] && AllDigitsIn(t, base) then Some(DigitsValue(t, base))
    else None
  }

  /** The digit character for a value below 16 (upper-case for hex). */
  function DigitChar(d: nat): (c: char)
    requires d < 16
    ensures DigitValue(c) == d
  {
    if d < 10 then ('0' as int + d) as char else ('A' as int + d - 10) as char
  }

  /** The digits of `n` in `base`, most significant first, without leading zeros. */
  function ShowNat(n: nat, base: nat): (s: string)
    requires base == 10 || base == 16
    ensures |s| >= 1
    decreases n
  {
    if n < base then [DigitChar(n)] else ShowNat(n / base, base) + [DigitChar(n % base)]
  }

  /** `str(n)`: decimal with a leading minus sign for negatives. */
  function ShowInt(n: int): (s: string)
    ensures |s| >= 1
  {
    if n < 0 then "-" + ShowNat(-n, 10) else ShowNat(n, 10)
  }

  /** A character `ShowNat` prints. */
  predicate IsPrintedDigit(c: char) {
    '0' <= c <= '9' || 'A' <= c <= 'F'
  }

  /** The printed digits are digits of the base. */
  lemma {:induction false} ShowNatDigits(n: nat, base: nat)
    requires base == 10 || base == 16
    ensures AllDigitsIn(ShowNat(n, base), base)
    ensures forall i :: 0 <= i < |ShowNat(n, base)| ==> IsPrintedDigit(ShowNat(n, base)[i])
    decreases n
  {
    if n >= base {
      ShowNatDigits(n / base, base);
    }
  }

  /** The printed digits spell `n`. */
  lemma {:induction false} ShowNatValue(n: nat, base: nat)
    requires base == 10 || base == 16
    ensures AllDigitsIn(ShowNat(n, base), base)
    ensures DigitsValue(ShowNat(n, base), base) == n
    decreases n
  {
    ShowNatDigits(n, base);
    if n >= base {
      ShowNatValue(n / base, base);
      var s := ShowNat(n, base);
      assert s[..|s| - 1] == ShowNat(n / base, base);
    }
  }

  /** Printing a number and reading it back gives the number, in base 10 and
      in base 16. */
  lemma ParseShowNat(n: nat, base: nat)
    requires base == 10 || base == 16
    ensures ParseInt(ShowNat(n, base), base) == Some(n)
  {
    var s := ShowNat(n, base);
    ShowNatValue(n, base);
    ShowNatDigits(n, base);
    assert IsPrintedDigit(s[0]) && IsPrintedDigit(s[|s| - 1]);
    StripUnchanged(s);
  }

  /** What a printed integer looks like: no dot, no white space at either
      end, no final newline, no accidental in front; it is an octave text
      and an integer text for the number. */
  lemma ShowIntFacts(n: int)
    ensures var s := ShowInt(n);
            && '.' !in s && !IsSpace(s[0]) && !IsSpace(s[|s| - 1]) && s[|s| - 1] != '\n'
            && !IsAccidental(s[0]) && s[0] != '+'
            && IsOctaveText(s) && OctaveValue(s) == n
  {
    var s := ShowInt(n);
    var m := if n < 0 then -n else n;
    ShowNatValue(m, 10);
    ShowNatDigits(m, 10);
    var d := ShowNat(m, 10);
    assert IsPrintedDigit(d[0]) && IsPrintedDigit(d[|d| - 1]);
    if n < 0 {
      assert s[1..] == d;
    }
    assert forall i :: 0 <= i < |s| ==> s[i] == '-' || IsPrintedDigit(s[i]);
  }

  lemma ParseShowInt(n: int)
    ensures ParseInt(ShowInt(n), 10) == Some(n)
  {
    var s := ShowInt(n);
    ShowIntFacts(n);
    StripUnchanged(s);
  }

  // ---------------------------------------------------------------------------
  // Note names

  /** `_SEMITONE`: semitones above C for the natural, sharp and flat names;
      E#, Fb, B# and Cb are not listed. */
  const SemitoneTable: map<string, int> := map[
    "C" := 0, "C#" := 1, "Db" := 1,
    "D" := 2, "D#" := 3, "Eb" := 3,
    "E" := 4,
    "F" := 5, "F#" := 6, "Gb" := 6,
    "G" := 7, "G#" := 8, "Ab" := 8,
    "A" := 9, "A#" := 10, "Bb" := 10,
    "B" := 11
  ]

  /** Semitones above C of a natural note letter, -1 for any other character. */
  function NaturalSemitone(c: char): int {
    if c == 'C' then 0 else if c == 'D' then 2 else if c == 'E' then 4 else if c == 'F' then 5
    else if c == 'G' then 7 else if c == 'A' then 9 else if c == 'B' then 11 else -1
  }

  /** The table lookup written by letter and accidental: a sharp raises the
      natural by one except on E and B, a flat lowers it by one except on C
      and F. */
  function Semitone(key: string): (r: Option<int>)
    ensures r.Some? ==> 0 <= r.value < 12
  {
    if |key| == 0 || |key| > 2 || NaturalSemitone(key[0]) < 0 then None
    else if |key| == 1 then Some(NaturalSemitone(key[0]))
    else if key[1] == '#' && key[0] != 'E' && key[0] != 'B' then Some(NaturalSemitone(key[0]) + 1)
    else if key[1] == 'b' && key[0] != 'C' && key[0] != 'F' then Some(NaturalSemitone(key[0]) - 1)
    else None
  }

  /** The letter-and-accidental rule is exactly the table. */
  lemma SemitoneIsTable(key: string)
    ensures Semitone(key) == (if key in SemitoneTable then Some(SemitoneTable[key]) else None)
  {
    if Semitone(key).Some? {
      if |key| == 1 {
        assert key == [key[0]];
      } else {
        assert key == [key[0], key[1]];
      }
    }
  }

  predicate IsNoteLetter(c: char) {
    'A' <= c <= 'G' || 'a' <= c <= 'g'
  }

  predicate IsAccidental(c: char) {
    c == '#' || c == 'b'
  }

  /** The octave group `-?\d+`. */
  predicate IsOctaveText(t: string) {
    if t != [] && t[0] == '-' then |t| > 1 && AllDigitsIn(t[1..], 10)
    else t != [] && AllDigitsIn(t, 10)
  }

  function OctaveValue(t: string): int
    requires IsOctaveText(t)
  {
    if t[0] == '-' then -(DigitsValue(t[1..], 10) as int) else DigitsValue(t, 10)
  }

  /** `_note_name_to_number`: a letter A-G in either case, an optional `#`
      or `b`, and a possibly negative octave, anchored at both ends (`$` also
      matches before one final newline). The number is
      `(octave + 1) * 12 + semitone`, so C-1 is 0. A name whose letter and
      accidental are not in the semitone table gives None. */
  function NoteNameToNumber(name: string): (r: Option<int>)
  {
    var t := if name != [] && name[|name| - 1] == '\n' then name[..|name| - 1] else name;
    if |t| < 2 || !IsNoteLetter(t[0]) then None
    else if IsAccidental(t[1]) then NoteValue([UpperChar(t[0]), t[1]], t[2..])
    else NoteValue([UpperChar(t[0])], t[1..])
  }

  /** The number for a table key and an octave text. */
  function NoteValue(key: string, octave: string): (r: Option<int>)
  {
    if !IsOctaveText(octave) then None
    else
      match Semitone(key)
      case None => None
      case Some(semi) => Some((OctaveValue(octave) + 1) * 12 + semi)
  }

  /** Any table key written with any octave converts by the formula. */
  lemma NoteNameFormula(letter: char, acc: string, octave: int)
    requires IsNoteLetter(letter)
    requires acc == [] || (|acc| == 1 && IsAccidental(acc[0]))
    requires Semitone([UpperChar(letter)] + acc).Some?
    ensures NoteNameToNumber([letter] + acc + ShowInt(octave))
         == Some((octave + 1) * 12 + Semitone([UpperChar(letter)] + acc).value)
  {
    var o := ShowInt(octave);
    var name := [letter] + acc + o;
    ShowIntFacts(octave);
    assert name[|name| - 1] == o[|o| - 1];
    assert name[0] == letter;
    if acc == [] {
      assert name[1] == o[0];
      assert name[1..] == o;
    } else {
      assert name[1] == acc[0];
      assert name[2..] == o;
      assert [UpperChar(letter), acc[0]] == [UpperChar(letter)] + acc;
    }
  }

  /** E#, B#, Cb and Fb are not in the table, so no octave makes them convert. */
  lemma NoteNameMissingKeys(letter: char, accidental: char, octave: string)
    requires || ((UpperChar(letter) == 'E' || UpperChar(letter) == 'B') && accidental == '#')
             || ((UpperChar(letter) == 'C' || UpperChar(letter) == 'F') && accidental == 'b')
    ensures NoteNameToNumber([letter, accidental] + octave) == None
  {
    var name := [letter, accidental] + octave;
    var t := if name[|name| - 1] == '\n' then name[..|name| - 1] else name;
    assert |t| >= 2 ==> t[..2] == [letter, accidental];
  }

  const SharpNames: seq<string> := ["C", "C#", "D", "D#", "E", "F", "F#", "G", "G#", "A", "A#", "B"]

  /** The sharp-spelled name of a MIDI number, with C-1 at 0. */
  function SharpName(n: int): (s: string)
    ensures |s| >= 2
  {
    SharpNames[n % 12] + ShowInt(n / 12 - 1)
  }

  /** The j-th sharp name is an upper-case letter, possibly followed by a
      sharp, and the table gives it j semitones. */
  lemma SharpNameKey(j: nat)
    requires j < 12
    ensures var k := SharpNames[j];
            && |k| >= 1 && IsNoteLetter(k[0]) && UpperChar(k[0]) == k[0]
            && (k[1..] == [] || (|k[1..]| == 1 && IsAccidental(k[1])))
            && Semitone(k) == Some(j)
            && '.' !in k && !IsSpace(k[0])
  {
  }

  /** A sharp name has no dot and no white space at either end. */
  lemma SharpNameFacts(n: int)
    ensures '.' !in SharpName(n) && !IsSpace(SharpName(n)[0]) && !IsSpace(SharpName(n)[|SharpName(n)| - 1])
  {
    SharpNameKey(n % 12);
    ShowIntFacts(n / 12 - 1);
    var s := SharpName(n);
    var o := ShowInt(n / 12 - 1);
    assert s[|s| - 1] == o[|o| - 1];
  }

  /** Naming a number and converting the name back gives the number, for
      every integer, negative octaves included. */
  lemma NoteNameRoundTrip(n: int)
    ensures NoteNameToNumber(SharpName(n)) == Some(n)
  {
    var k := SharpNames[n % 12];
    SharpNameKey(n % 12);
    var letter := k[0];
    var acc := k[1..];
    assert k == [letter] + acc;
    assert [UpperChar(letter)] + acc == k;
    NoteNameFormula(letter, acc, n / 12 - 1);
  }

  /** The examples from the note-name documentation. */
  lemma NoteNameExamples()
    ensures NoteNameToNumber("C-1") == Some(0)
    ensures NoteNameToNumber("G-1") == Some(7)
    ensures NoteNameToNumber("C#3") == Some(49)
  {
    assert ShowInt(-1) == "-1";
    NoteNameFormula('C', [], -1);
    NoteNameFormula('G', [], -1);
    assert ShowInt(3) == "3";
    NoteNameFormula('C', "#", 3);
  }

  // ---------------------------------------------------------------------------
  // Binding names

  /** `(channel, event, number, note_name)`. */
  datatype Binding = Binding(channel: Option<int>, event: Option<string>, number: Option<int>, noteName: Option<string>)

  const NoBinding: Binding := Binding(None, None, None, None)

  predicate StartsWithCh(s: string) {
    |s| >= 2 && s[0] == 'C' && s[1] == 'h'
  }

  /** `parts[0][2:]`, with Python's clamping. */
  function DropTwo(s: string): string {
    if |s| >= 2 then s[2..] else []
  }

  /** The NOTE tail: a musical name, else decimal, else hex, else the tail as
      text. */
  function NoteTail(ch: Option<int>, tail: string): (b: Binding)
    ensures b.channel == ch && b.event == Some("NOTE")
    ensures NoteNameToNumber(tail).Some? ==> b.number == NoteNameToNumber(tail) && b.noteName == Some(tail)
    ensures NoteNameToNumber(tail).None? && ParseInt(tail, 10).Some? ==> b.number == ParseInt(tail, 10) && b.noteName == None
    ensures NoteNameToNumber(tail).None? && ParseInt(tail, 10).None? ==>
              b.number == ParseInt(tail, 16) && b.noteName == (if b.number.None? then Some(tail) else None)
  {
    match NoteNameToNumber(tail)
    case Some(n) => Binding(ch, Some("NOTE"), Some(n), Some(tail))
    case None =>
      match ParseInt(tail, 10)
      case Some(n) => Binding(ch, Some("NOTE"), Some(n), None)
      case None =>
        match ParseInt(tail, 16)
        case Some(n) => Binding(ch, Some("NOTE"), Some(n), None)
        case None => Binding(ch, Some("NOTE"), None, Some(tail))
  }

  /** Any other tail: decimal, else hex, else the tail as text; the event is
      always "CC". */
  function CcTail(ch: Option<int>, tail: string): (b: Binding)
    ensures b.channel == ch && b.event == Some("CC")
    ensures ParseInt(tail, 10).Some? ==> b.number == ParseInt(tail, 10) && b.noteName == None
    ensures ParseInt(tail, 10).None? ==>
              b.number == ParseInt(tail, 16) && b.noteName == (if b.number.None? then Some(tail) else None)
  {
    match ParseInt(tail, 10)
    case Some(n) => Binding(ch, Some("CC"), Some(n), None)
    case None =>
      match ParseInt(tail, 16)
      case Some(n) => Binding(ch, Some("CC"), Some(n), None)
      case None => Binding(ch, Some("CC"), None, Some(tail))
  }

  /** The decode of the first three segments of a name. */
  function FromSegments(first: string, second: string, third: string): (b: Binding)
    ensures b.channel == ParseInt(DropTwo(first), 10)
    ensures b.event == Some("NOTE") <==> Upper(Strip(second)) == "NOTE"
    ensures b.event == Some("NOTE") || b.event == Some("CC")
  {
    var ch := ParseInt(DropTwo(first), 10);
    var eventRaw := Upper(Strip(second));
    var event := if eventRaw == "NOTE" then "NOTE"
                 else if eventRaw == "CC" || eventRaw == "CONTROL" then "CC"
                 else eventRaw;
    var tail := Strip(third);
    if event == "NOTE" then NoteTail(ch, tail) else CcTail(ch, tail)
  }

  /** `parse_binding_name`. A missing or empty name, one not starting with
      "Ch", or one with fewer than three dot-separated segments gives all
      None; otherwise the first three segments are decoded: the channel is
      the integer after "Ch" (None when that is not an integer), the event is
      "NOTE" exactly when the second segment, stripped and upper-cased, is
      "NOTE", and "CC" in every other case. */
  function ParseBindingName(name: Option<string>): (b: Binding)
    ensures name.None? || !StartsWithCh(name.value) ==> b == NoBinding
    ensures name.Some? && StartsWithCh(name.value) && |Split(name.value, '.')| < 3 ==> b == NoBinding
    ensures name.Some? && StartsWithCh(name.value) && |Split(name.value, '.')| >= 3 ==>
              b == FromSegments(Split(name.value, '.')[0], Split(name.value, '.')[1], Split(name.value, '.')[2])
  {
    if name.None? || name.value == [] || !StartsWithCh(name.value) then NoBinding
    else
      var parts := Split(name.value, '.');
      if |parts| < 3 then NoBinding
      else FromSegments(parts[0], parts[1], parts[2])
  }

  /** Only the first three segments matter. */
  lemma ExtraSegmentsIgnored(a: string, b: string, c: string, more: string)
    requires '.' !in a && '.' !in b && '.' !in c
    ensures ParseBindingName(Some(a + "." + b + "." + c + "." + more))
         == ParseBindingName(Some(a + "." + b + "." + c))
  {
    var long := a + "." + b + "." + c + "." + more;
    var short := a + "." + b + "." + c;
    assert long == a + ['.'] + (b + ['.'] + (c + ['.'] + more));
    SplitCons(a, '.', b + ['.'] + (c + ['.'] + more));
    SplitCons(b, '.', c + ['.'] + more);
    SplitCons(c, '.', more);
    var parts := Split(long, '.');
    assert parts[..3] == [a, b, c];
    if StartsWithCh(a) {
      ThreeSegments(a, b, c);
      assert long[..2] == a[..2];
    } else {
      assert !StartsWithCh(long) && !StartsWithCh(short) by {
        if |a| >= 2 {
          assert long[..2] == a[..2] && short[..2] == a[..2];
        } else if a == "C" {
          assert long[1] == '.' && short[1] == '.';
        } else if |a| == 1 {
          assert long[0] == a[0] && short[0] == a[0];
        } else {
          assert long[0] == '.' && short[0] == '.';
        }
      }
    }
  }

  /** The text of a three-segment name. */
  function BindingText(ch: int, event: string, tail: string): string {
    "Ch" + ShowInt(ch) + "." + event + "." + tail
  }

  /** A name made of three dot-free segments, the first starting with "Ch",
      decodes as those three segments. */
  lemma ThreeSegments(first: string, second: string, third: string)
    requires StartsWithCh(first) && '.' !in first && '.' !in second && '.' !in third
    ensures ParseBindingName(Some(first + "." + second + "." + third)) == FromSegments(first, second, third)
  {
    var text := first + "." + second + "." + third;
    assert text == first + ['.'] + (second + ['.'] + third);
    SplitCons(first, '.', second + ['.'] + third);
    SplitCons(second, '.', third);
    SplitNone(third, '.');
    var parts := Split(text, '.');
    assert parts == [first, second, third];
    assert text[..2] == first[..2];
    assert StartsWithCh(text);
  }

  /** Where the three segments of a printed name lie. */
  lemma BindingTextSplit(ch: int, event: string, tail: string)
    requires '.' !in event && '.' !in tail
    ensures ParseBindingName(Some(BindingText(ch, event, tail))) == FromSegments("Ch" + ShowInt(ch), event, tail)
  {
    ShowIntFacts(ch);
    assert '.' !in "Ch" + ShowInt(ch);
    ThreeSegments("Ch" + ShowInt(ch), event, tail);
  }

  /** The decode of three segments once the channel and the stripped tail are known. */
  lemma FromSegmentsWith(first: string, second: string, third: string, ch: Option<int>, tail: string)
    requires ParseInt(DropTwo(first), 10) == ch && Strip(third) == tail
    ensures FromSegments(first, second, third)
         == if Upper(Strip(second)) == "NOTE" then NoteTail(ch, tail) else CcTail(ch, tail)
  {
  }

  /** A printed control-change name reads back as its channel and number. */
  lemma CcNameRoundTrip(ch: int, n: int)
    ensures ParseBindingName(Some(BindingText(ch, "CC", ShowInt(n))))
         == Binding(Some(ch), Some("CC"), Some(n), None)
  {
    ShowIntFacts(n);
    BindingTextSplit(ch, "CC", ShowInt(n));
    assert DropTwo("Ch" + ShowInt(ch)) == ShowInt(ch);
    ParseShowInt(ch);
    ParseShowInt(n);
    StripUnchanged("CC");
    StripUnchanged(ShowInt(n));
    assert Upper("CC") == "CC";
    FromSegmentsWith("Ch" + ShowInt(ch), "CC", ShowInt(n), Some(ch), ShowInt(n));
  }

  /** A printed note name reads back as its channel, its number and the name. */
  lemma NoteNameBindingRoundTrip(ch: int, n: int)
    ensures ParseBindingName(Some(BindingText(ch, "Note", SharpName(n))))
         == Binding(Some(ch), Some("NOTE"), Some(n), Some(SharpName(n)))
  {
    SharpNameFacts(n);
    BindingTextSplit(ch, "Note", SharpName(n));
    assert FromSegments("Ch" + ShowInt(ch), "Note", SharpName(n)) == NoteTail(Some(ch), SharpName(n)) by {
      assert DropTwo("Ch" + ShowInt(ch)) == ShowInt(ch);
      ParseShowInt(ch);
      StripUnchanged(SharpName(n));
      ExampleSegments();
      FromSegmentsWith("Ch" + ShowInt(ch), "Note", SharpName(n), Some(ch), SharpName(n));
    }
    NoteNameRoundTrip(n);
  }

  /** The segment texts of the documented examples, stripped, upper-cased
      and read as numbers. */
  lemma ExampleSegments()
    ensures DropTwo("Ch07") == "07" && DropTwo("Ch05") == "05" && DropTwo("Ch01") == "01"
    ensures Upper(Strip("CC")) == "CC" && Upper(Strip("Note")) == "NOTE"
    ensures Strip("064") == "064" && Strip("C#3") == "C#3" && Strip("0B") == "0B"
  {
    StripUnchanged("CC");
    StripUnchanged("Note");
    StripUnchanged("064");
    StripUnchanged("C#3");
    StripUnchanged("0B");
  }

  lemma ExampleChannels()
    ensures ParseInt("07", 10) == Some(7) && ParseInt("05", 10) == Some(5) && ParseInt("01", 10) == Some(1)
  {
    StripUnchanged("07");
    assert DigitsValue("07", 10) == 7 by { assert "07"[..1] == "0"; }
    StripUnchanged("05");
    assert DigitsValue("05", 10) == 5 by { assert "05"[..1] == "0"; }
    StripUnchanged("01");
    assert DigitsValue("01", 10) == 1 by { assert "01"[..1] == "0"; }
  }

  lemma ExampleNumbers()
    ensures ParseInt("064", 10) == Some(64)
  {
    StripUnchanged("064");
    assert DigitsValue("064", 10) == 64 by {
      assert "064"[..2] == "06";
      assert "06"[..1] == "0";
    }
  }

  lemma ExampleHex()
    ensures NoteNameToNumber("0B") == None && ParseInt("0B", 10) == None && ParseInt("0B", 16) == Some(11)
  {
    StripUnchanged("0B");
    assert !IsNoteLetter("0B"[0]);
    assert !IsDigitIn("0B"[1], 10);
    assert DigitsValue("0B", 16) == 11 by { assert "0B"[..1] == "0"; }
  }

  /** `Ch07.CC.064` reads as channel 7, CC 64: the leading zero is ignored. */
  lemma CcExample()
    ensures ParseBindingName(Some("Ch07" + "." + "CC" + "." + "064")) == Binding(Some(7), Some("CC"), Some(64), None)
  {
    ThreeSegments("Ch07", "CC", "064");
    ExampleSegments();
    ExampleChannels();
    ExampleNumbers();
    FromSegmentsWith("Ch07", "CC", "064", Some(7), "064");
  }

  /** `Ch05.Note.C#3` reads as channel 5, note 49, keeping the name. */
  lemma NoteExample()
    ensures ParseBindingName(Some("Ch05" + "." + "Note" + "." + "C#3")) == Binding(Some(5), Some("NOTE"), Some(49), Some("C#3"))
  {
    ThreeSegments("Ch05", "Note", "C#3");
    ExampleSegments();
    ExampleChannels();
    ExampleNumbers();
    NoteNameExamples();
    FromSegmentsWith("Ch05", "Note", "C#3", Some(5), "C#3");
  }

  /** `Ch01.Note.0B` is no note name and no decimal, so it reads as hex 11. */
  lemma HexNoteExample()
    ensures ParseBindingName(Some("Ch01" + "." + "Note" + "." + "0B")) == Binding(Some(1), Some("NOTE"), Some(11), None)
  {
    ThreeSegments("Ch01", "Note", "0B");
    ExampleSegments();
    ExampleChannels();
    ExampleNumbers();
    ExampleHex();
    FromSegmentsWith("Ch01", "Note", "0B", Some(1), "0B");
  }
}
