/**
 * The tuning-table builder (generate_freq_table.py): note labels for MIDI numbers, the
 * reading of a cents file, and the loop that writes one frequency for every MIDI note
 * from G-1 (7) to C8 (108).
 *
 * The numerics stay abstract: `2 ** x` is `math.exp2`, and scipy's PCHIP interpolant is
 * the parameter `pchip`, applied to the nine octave anchors and their stretch ratios.
 */
module TableBuilder {
  import opened Wrappers
  import opened Numerics
  import opened Text

  const NoteNames: seq<string> := ["C", "C#", "D", "D#", "E", "F", "F#", "G", "G#", "A", "Bb", "H"]

  /** The table runs from MIDI 7 (G-1) up to, not including, 109: C8 is its last note. */
  const FirstMidi: int := 7
  const EndMidi: int := 109

  /** The MIDI numbers at which the stretch curve is given: A0, then C1 to C8. */
  const StretchAnchors: seq<int> := [21, 24, 36, 48, 60, 72, 84, 96, 108]

  /** `PchipInterpolator(xs, ys, extrapolate=True)` evaluated at one MIDI number. */
  type Pchip = (seq<int>, seq<real>, int) -> real

  /** The three tuning inputs: the reference A4, nine stretch ratios, the temperament ratios. */
  datatype Tuning = Tuning(a4: real, stretchRatios: seq<real>, temperRatios: seq<real>)

  /** One line of the output file: a label and its frequency. */
  datatype Entry = Entry(note: string, freq: real)

  // ---------------------------------------------------------------------------------
  // midi_to_name

  /** `midi // 12 - 1`. Python's `//` floors; so does Dafny's `/` by a positive divisor. */
  function Octave(m: int): (o: int)
    ensures 12 * (o + 1) <= m < 12 * (o + 1) + 12
  {
    m / 12 - 1
  }

  /** `midi % 12`, never negative in Python, nor in Dafny. */
  function PitchClass(m: int): (pc: nat)
    ensures pc < 12 && m == 12 * (Octave(m) + 1) + pc
  {
    m % 12
  }

  /** `midi_to_name`: the pitch-class name followed by the decimal octave, e.g. "C#4", "G-1". */
  function MidiToName(m: int): (name: string)
    ensures |name| > |NoteNames[PitchClass(m)]|
  {
    NoteNames[PitchClass(m)] + IntToString(Octave(m))
  }

  /** A note name is one or two characters; a second character is '#' or 'b'. */
  lemma NameShape(pc: nat)
    requires pc < 12
    ensures 1 <= |NoteNames[pc]| <= 2
    ensures |NoteNames[pc]| == 2 ==> NoteNames[pc][1] == '#' || NoteNames[pc][1] == 'b'
  {
  }

  lemma NamesHaveNoSpace(pc: nat)
    requires pc < 12
    ensures NoSpace(NoteNames[pc])
  {
  }

  /** A label contains no whitespace, so it is one token of the table file. */
  lemma MidiToNameHasNoSpace(m: int)
    ensures NoSpace(MidiToName(m))
  {
    var name, digits := NoteNames[PitchClass(m)], IntToString(Octave(m));
    NamesHaveNoSpace(PitchClass(m));
    IntToStringHasNoSpace(Octave(m));
    var s := MidiToName(m);
    forall k | 0 <= k < |s|
      ensures !IsSpace(s[k])
    {
      if k < |name| {
        assert s[k] == name[k];
      } else {
        assert s[k] == digits[k - |name|];
      }
    }
  }

  /** The first position from `i` on at which `name` occurs in `NoteNames`, if any. */
  function PitchClassFrom(name: string, i: nat): (pc: Option<nat>)
    requires i <= |NoteNames|
    ensures pc.Some? ==> i <= pc.value < |NoteNames| && NoteNames[pc.value] == name
    decreases |NoteNames| - i
  {
    if i == |NoteNames| then None
    else if NoteNames[i] == name then Some(i)
    else PitchClassFrom(name, i + 1)
  }

  /** `NOTE_NAMES.index(name)`, or nothing when `name` is not a note name. */
  function PitchClassOf(name: string): Option<nat> {
    PitchClassFrom(name, 0)
  }

  /**
   * The inverse of `MidiToName`: a note name, two characters long when its second
   * character is '#' or 'b', then a decimal octave.
   */
  function ParseLabel(s: string): Option<int> {
    var n := NameLength(s);
    if |s| < n then None else LabelValue(PitchClassOf(s[..n]), ParseInt(s[n..]))
  }

  /** How many characters of a label the note name takes. */
  function NameLength(s: string): nat {
    if |s| >= 2 && (s[1] == '#' || s[1] == 'b') then 2 else 1
  }

  /** The MIDI number of a pitch class and an octave, when both were read. */
  function LabelValue(pc: Option<nat>, o: Option<int>): Option<int> {
    if pc.Some? && o.Some? then Some(12 * (o.value + 1) + pc.value) else None
  }

  /** Each note name is found at its own pitch class: the twelve names are distinct. */
  lemma NameIndex(pc: nat)
    requires pc < 12
    ensures PitchClassOf(NoteNames[pc]) == Some(pc)
  {
    NameIndexFrom(pc, 0);
  }

  lemma {:induction false} NameIndexFrom(pc: nat, i: nat)
    requires i <= pc < 12
    ensures PitchClassFrom(NoteNames[pc], i) == Some(pc)
    decreases 12 - i
  {
    if i < pc {
      assert NoteNames[i] != NoteNames[pc];
      NameIndexFrom(pc, i + 1);
    }
  }

  /** Round trip: the label of every MIDI number reads back as that MIDI number. */
  lemma {:induction false} MidiToNameRoundTrip(m: int)
    ensures ParseLabel(MidiToName(m)) == Some(m)
  {
    LabelRoundTrip(m, PitchClass(m), Octave(m), MidiToName(m));
  }

  /** A pitch-class name followed by a decimal octave reads back as that note. */
  lemma {:induction false} LabelRoundTrip(m: int, pc: nat, o: int, text: string)
    requires pc < 12 && m == 12 * (o + 1) + pc && text == NoteNames[pc] + IntToString(o)
    ensures ParseLabel(text) == Some(m)
  {
    NameShape(pc);
    NameIndex(pc);
    IntToStringRoundTrip(o);
    ReadLabel(m, pc, o, NoteNames[pc], text);
  }

  /** A name found at position `pc`, followed by a decimal octave, reads back as its note. */
  lemma {:induction false} ReadLabel(m: int, pc: nat, o: int, name: string, text: string)
    requires 1 <= |name| <= 2 && (|name| == 2 ==> name[1] == '#' || name[1] == 'b')
    requires PitchClassOf(name) == Some(pc)
    requires ParseInt(IntToString(o)) == Some(o)
    requires m == 12 * (o + 1) + pc && text == name + IntToString(o)
    ensures ParseLabel(text) == Some(m)
  {
    var digits := IntToString(o);
    var n := |name|;
    NameLengthOfLabel(name, digits);
    Halves(name, digits);
  }

  /** The note name of a label ends where the octave begins. */
  lemma NameLengthOfLabel(name: string, digits: string)
    requires 1 <= |name| <= 2 && (|name| == 2 ==> name[1] == '#' || name[1] == 'b')
    requires digits != [] && (digits[0] == '-' || '0' <= digits[0] <= '9')
    ensures NameLength(name + digits) == |name|
  {
    var text := name + digits;
    if |name| == 1 {
      // The octave starts with '-' or a digit, never with '#' or 'b'.
      assert text[1] == digits[0];
    } else {
      assert text[1] == name[1];
    }
  }

  lemma Halves(a: string, b: string)
    ensures (a + b)[..|a|] == a && (a + b)[|a|..] == b
  {
  }

  /** Distinct MIDI numbers get distinct labels. */
  lemma MidiToNameInjective(m1: int, m2: int)
    requires MidiToName(m1) == MidiToName(m2)
    ensures m1 == m2
  {
    MidiToNameRoundTrip(m1);
    MidiToNameRoundTrip(m2);
  }

  /** The labels at the ends of the table and at the reference note. */
  lemma MidiToNameExamples()
    ensures MidiToName(7) == "G-1"
    ensures MidiToName(60) == "C4"
    ensures MidiToName(69) == "A4"
    ensures MidiToName(108) == "C8"
  {
    assert PitchClass(7) == 7 && Octave(7) == -1 && IntToString(-1) == "-1";
    assert PitchClass(60) == 0 && Octave(60) == 4 && IntToString(4) == "4";
    assert PitchClass(69) == 9;
    assert PitchClass(108) == 0 && Octave(108) == 8 && IntToString(8) == "8";
  }

  // ---------------------------------------------------------------------------------
  // cent_to_ratio and load_cent_file

  /** `cent_to_ratio`: `2 ** (cents / 1200)`. */
  function CentToRatio(cents: real, math: Math): (ratio: real)
    ensures Laws(math) ==> ratio > 0.0
  {
    math.exp2(cents / 1200.0)
  }

  lemma CentToRatioExamples(math: Math)
    requires Laws(math)
    ensures CentToRatio(0.0, math) == 1.0
    ensures CentToRatio(1200.0, math) == 2.0
  {
  }

  /** Two runs of the comprehension, one after the other: the ratios of both, or the error. */
  function Concat(x: Result<seq<real>>, y: Result<seq<real>>): Result<seq<real>> {
    if x.Raised? then x else if y.Raised? then y else Ok(x.value + y.value)
  }

  /** What one line of a cents file contributes: nothing if blank, else its ratio or ValueError. */
  function LineRatio(line: string, parse: string -> Option<real>, math: Math): Result<seq<real>> {
    var text := Strip(line);
    if text == [] then Ok([])
    else match parse(text)
      case None => Raised(ValueError)
      case Some(cents) => Ok([CentToRatio(cents, math)])
  }

  /**
   * `load_cent_file` over the lines of the file: `float(line.strip())` converted to a
   * ratio for every line that is not blank, in file order. `parse` is Python's `float()`
   * on a stripped line; `None` means it raised ValueError, which ends the whole call.
   */
  function LoadCentFile(lines: seq<string>, parse: string -> Option<real>, math: Math): (r: Result<seq<real>>)
    ensures r.Raised? ==> r.error == ValueError
    ensures r.Ok? ==> |r.value| <= |lines|
  {
    if lines == [] then Ok([])
    else Concat(LineRatio(lines[0], parse, math), LoadCentFile(lines[1..], parse, math))
  }

  /** The stripped text of a non-blank line, or nothing: the filter of the comprehension. */
  function NonBlank(line: string): (r: seq<string>)
    ensures |r| <= 1
  {
    var text := Strip(line);
    if text == [] then [] else [text]
  }

  /** The stripped lines that are not blank, in file order. */
  function NonBlankLines(lines: seq<string>): (r: seq<string>)
    ensures |r| <= |lines|
  {
    if lines == [] then [] else NonBlank(lines[0]) + NonBlankLines(lines[1..])
  }

  /** `float()` succeeds on every one of `texts`. */
  predicate AllParse(texts: seq<string>, parse: string -> Option<real>) {
    forall i :: 0 <= i < |texts| ==> parse(texts[i]).Some?
  }

  /** The ratios of `texts`, all of which parse. */
  function Ratios(texts: seq<string>, parse: string -> Option<real>, math: Math): (r: seq<real>)
    requires AllParse(texts, parse)
    ensures |r| == |texts|
    ensures forall i :: 0 <= i < |texts| ==> r[i] == CentToRatio(parse(texts[i]).value, math)
  {
    seq(|texts|, i requires 0 <= i < |texts| && AllParse(texts, parse) => CentToRatio(parse(texts[i]).value, math))
  }

  /** One line's contribution: nothing if blank, else its ratio, or ValueError. */
  lemma LineRatioValue(line: string, parse: string -> Option<real>, math: Math)
    ensures var texts := NonBlank(line);
      LineRatio(line, parse, math) == if AllParse(texts, parse) then Ok(Ratios(texts, parse, math)) else Raised(ValueError)
  {
    var text := Strip(line);
    if text != [] {
      assert NonBlank(line) == [text];
      if parse(text).Some? {
        assert Ratios([text], parse, math) == [CentToRatio(parse(text).value, math)];
      } else {
        assert [text][0] == text && parse([text][0]).None?;
        assert !AllParse([text], parse);
      }
    }
  }

  /**
   * What `load_cent_file` yields: it raises exactly when some non-blank line is not a
   * number, and otherwise gives one ratio per non-blank line, in file order.
   */
  lemma {:induction false} LoadCentFileValues(lines: seq<string>, parse: string -> Option<real>, math: Math)
    ensures var texts := NonBlankLines(lines);
      LoadCentFile(lines, parse, math) == if AllParse(texts, parse) then Ok(Ratios(texts, parse, math)) else Raised(ValueError)
  {
    if lines != [] {
      LoadCentFileValues(lines[1..], parse, math);
      LineRatioValue(lines[0], parse, math);
      var first := NonBlank(lines[0]);
      var tail := NonBlankLines(lines[1..]);
      assert NonBlankLines(lines) == first + tail;
      RatiosAppend(first, tail, parse, math);
    }
  }

  /** `float()` succeeds on all of `a + b` when it does on both parts; the ratios concatenate. */
  lemma RatiosAppend(a: seq<string>, b: seq<string>, parse: string -> Option<real>, math: Math)
    ensures AllParse(a + b, parse) <==> AllParse(a, parse) && AllParse(b, parse)
    ensures AllParse(a + b, parse) ==> Ratios(a + b, parse, math) == Ratios(a, parse, math) + Ratios(b, parse, math)
  {
    if AllParse(a, parse) && AllParse(b, parse) {
      assert forall i :: 0 <= i < |a + b| ==> (a + b)[i] == if i < |a| then a[i] else b[i - |a|];
    }
    if AllParse(a + b, parse) {
      assert forall i :: 0 <= i < |a| ==> a[i] == (a + b)[i];
      assert forall i :: 0 <= i < |b| ==> b[i] == (a + b)[i + |a|];
    }
  }

  lemma ConcatAssociative(x: Result<seq<real>>, y: Result<seq<real>>, z: Result<seq<real>>)
    ensures Concat(x, Concat(y, z)) == Concat(Concat(x, y), z)
  {
    if x.Ok? && y.Ok? && z.Ok? {
      assert x.value + (y.value + z.value) == (x.value + y.value) + z.value;
    }
  }

  /** Reading a file in two parts gives what reading it whole gives. */
  lemma {:induction false} LoadCentFileAppend(a: seq<string>, b: seq<string>, parse: string -> Option<real>, math: Math)
    ensures LoadCentFile(a + b, parse, math) == Concat(LoadCentFile(a, parse, math), LoadCentFile(b, parse, math))
  {
    var z := LoadCentFile(b, parse, math);
    if a == [] {
      assert a + b == b;
      assert z.Ok? ==> [] + z.value == z.value;
    } else {
      assert (a + b)[0] == a[0];
      assert (a + b)[1..] == a[1..] + b;
      LoadCentFileAppend(a[1..], b, parse, math);
      var x := LineRatio(a[0], parse, math);
      var y := LoadCentFile(a[1..], parse, math);
      calc {
        LoadCentFile(a + b, parse, math);
        Concat(LineRatio((a + b)[0], parse, math), LoadCentFile((a + b)[1..], parse, math));
        Concat(x, Concat(y, z));
        { ConcatAssociative(x, y, z); }
        Concat(Concat(x, y), z);
      }
    }
  }

  /** A whitespace-only line contributes nothing, wherever it stands in the file. */
  lemma LoadCentFileSkipsBlankLine(a: seq<string>, blank: string, b: seq<string>, parse: string -> Option<real>, math: Math)
    requires AllSpace(blank)
    ensures LoadCentFile(a + [blank] + b, parse, math) == LoadCentFile(a + b, parse, math)
  {
    StripBlank(blank);
    LoadCentFileAppend(a + [blank], b, parse, math);
    LoadCentFileAppend(a, [blank], parse, math);
    LoadCentFileAppend(a, b, parse, math);
    assert LoadCentFile([blank], parse, math) == Ok([]) by {
      assert [blank][1..] == [];
    }
    assert LoadCentFile(a, parse, math).Ok? ==> LoadCentFile(a, parse, math).value + [] == LoadCentFile(a, parse, math).value;
  }

  /** With the exact `2 ** x`, every ratio read from a cents file is positive. */
  lemma LoadCentFilePositive(lines: seq<string>, parse: string -> Option<real>, math: Math)
    requires Laws(math)
    requires LoadCentFile(lines, parse, math).Ok?
    ensures forall x :: x in LoadCentFile(lines, parse, math).value ==> x > 0.0
  {
    LoadCentFileValues(lines, parse, math);
    var texts := NonBlankLines(lines);
    var rs := LoadCentFile(lines, parse, math).value;
    forall x | x in rs ensures x > 0.0 {
      var i :| 0 <= i < |rs| && rs[i] == x;
      assert x == CentToRatio(parse(texts[i]).value, math);
    }
  }

  // ---------------------------------------------------------------------------------
  // generate_frequency_table

  /** `a4_freq * 2 ** ((midi - 69) / 12)`: equal temperament relative to A4 = MIDI 69. */
  function BaseFrequency(a4: real, m: int, math: Math): real {
    a4 * math.exp2((m - 69) as real / 12.0)
  }

  /** The frequency the builder writes for MIDI `m`: base, times stretch, times temperament. */
  function NoteFrequency(t: Tuning, m: int, math: Math, pchip: Pchip): real
    requires PitchClass(m) < |t.temperRatios|
  {
    BaseFrequency(t.a4, m, math) * pchip(StretchAnchors, t.stretchRatios, m) * t.temperRatios[PitchClass(m)]
  }

  /**
   * One past the last MIDI number the loop writes before `temper_ratios[midi % 12]` raises
   * IndexError: the first MIDI number of the range whose pitch class has no ratio, or 109.
   */
  function WrittenEnd(tempers: nat): (e: int)
    ensures FirstMidi <= e <= EndMidi
    ensures forall m :: FirstMidi <= m < e ==> PitchClass(m) < tempers
    ensures e < EndMidi ==> PitchClass(e) >= tempers
  {
    if tempers >= 12 then EndMidi else if tempers <= 7 then FirstMidi else tempers
  }

  /** The entries for MIDI numbers 7 up to, not including, `end`. */
  function Rows(t: Tuning, math: Math, pchip: Pchip, end: int): (rows: seq<Entry>)
    requires FirstMidi <= end <= EndMidi
    requires forall m :: FirstMidi <= m < end ==> PitchClass(m) < |t.temperRatios|
  {
    seq(end - FirstMidi, i requires 0 <= i < end - FirstMidi =>
      Entry(MidiToName(FirstMidi + i), NoteFrequency(t, FirstMidi + i, math, pchip)))
  }

  lemma RowsExtend(t: Tuning, math: Math, pchip: Pchip, end: int)
    requires FirstMidi <= end < EndMidi
    requires forall m :: FirstMidi <= m <= end ==> PitchClass(m) < |t.temperRatios|
    ensures Rows(t, math, pchip, end + 1)
         == Rows(t, math, pchip, end) + [Entry(MidiToName(end), NoteFrequency(t, end, math, pchip))]
  {
  }

  /**
   * The entries in the output file after a run: none when the PCHIP constructor raises,
   * otherwise those for MIDI 7 up to where the write loop stops.
   */
  function WrittenEntries(t: Tuning, math: Math, pchip: Pchip): seq<Entry> {
    if |t.stretchRatios| != |StretchAnchors| then []
    else Rows(t, math, pchip, WrittenEnd(|t.temperRatios|))
  }

  /**
   * `generate_frequency_table`, with the output file as the sequence of entries written.
   * The PCHIP constructor raises ValueError before the file is opened unless there are
   * exactly nine stretch ratios. Then the loop writes MIDI 7..108 in order; a temperament
   * list shorter than twelve makes `temper_ratios[midi % 12]` raise IndexError part way,
   * after the entries already written.
   */
  method GenerateFrequencyTable(t: Tuning, math: Math, pchip: Pchip) returns (written: seq<Entry>, outcome: Result<()>)
    ensures |t.stretchRatios| != |StretchAnchors| ==> written == [] && outcome == Raised(ValueError)
    ensures |t.stretchRatios| == |StretchAnchors| ==>
      && written == Rows(t, math, pchip, WrittenEnd(|t.temperRatios|))
      && outcome == if |t.temperRatios| >= 12 then Ok(()) else Raised(IndexError)
    ensures written == WrittenEntries(t, math, pchip)
  {
    if |t.stretchRatios| != |StretchAnchors| {
      return [], Raised(ValueError);
    }
    written := [];
    var midi := FirstMidi;
    while midi < EndMidi
      invariant FirstMidi <= midi <= EndMidi
      invariant forall m :: FirstMidi <= m < midi ==> PitchClass(m) < |t.temperRatios|
      invariant written == Rows(t, math, pchip, midi)
    {
      var note := MidiToName(midi);
      var baseFreq := t.a4 * math.exp2((midi - 69) as real / 12.0);
      var stretchFactor := pchip(StretchAnchors, t.stretchRatios, midi);
      if midi % 12 >= |t.temperRatios| {
        return written, Raised(IndexError);
      }
      var temperFactor := t.temperRatios[midi % 12];
      var finalFreq := baseFreq * stretchFactor * temperFactor;
      assert finalFreq == NoteFrequency(t, midi, math, pchip);
      RowsExtend(t, math, pchip, midi);
      written := written + [Entry(note, finalFreq)];
      midi := midi + 1;
    }
    outcome := Ok(());
  }

  /** Entry `i` is labelled with the name of MIDI number `7 + i`, so no label occurs twice. */
  lemma RowsLabelled(t: Tuning, math: Math, pchip: Pchip, end: int)
    requires FirstMidi <= end <= EndMidi
    requires forall m :: FirstMidi <= m < end ==> PitchClass(m) < |t.temperRatios|
    ensures var rows := Rows(t, math, pchip, end);
      && (forall i :: 0 <= i < |rows| ==> rows[i].note == MidiToName(FirstMidi + i))
      && (forall i, j :: 0 <= i < j < |rows| ==> rows[i].note != rows[j].note)
  {
    forall m1, m2 | MidiToName(m1) == MidiToName(m2)
      ensures m1 == m2
    {
      MidiToNameInjective(m1, m2);
    }
    InjectiveLabelsDistinct(Rows(t, math, pchip, end), MidiToName);
  }

  /** Entries labelled by an injective labelling of consecutive MIDI numbers carry distinct labels. */
  lemma InjectiveLabelsDistinct(rows: seq<Entry>, nameOf: int -> string)
    requires forall i :: 0 <= i < |rows| ==> rows[i].note == nameOf(FirstMidi + i)
    requires forall m1, m2 :: nameOf(m1) == nameOf(m2) ==> m1 == m2
    ensures forall i, j :: 0 <= i < j < |rows| ==> rows[i].note != rows[j].note
  {
  }

  /**
   * A complete table has 102 entries, one per MIDI number 7..108 in ascending order, and
   * no label occurs twice.
   */
  lemma CompleteTable(t: Tuning, math: Math, pchip: Pchip)
    requires |t.temperRatios| >= 12
    ensures var rows := Rows(t, math, pchip, EndMidi);
      && |rows| == 102
      && (forall i :: 0 <= i < |rows| ==> ParseLabel(rows[i].note) == Some(FirstMidi + i))
      && (forall i, j :: 0 <= i < j < |rows| ==> rows[i].note != rows[j].note)
  {
    var rows := Rows(t, math, pchip, EndMidi);
    RowsLabelled(t, math, pchip, EndMidi);
    forall i | 0 <= i < |rows|
      ensures ParseLabel(rows[i].note) == Some(FirstMidi + i)
    {
      MidiToNameRoundTrip(FirstMidi + i);
    }
  }

  /** The temperament index is a pitch class, so ratios past the twelfth are never read. */
  lemma OnlyTwelveTemperamentsRead(t: Tuning, math: Math, pchip: Pchip)
    requires |t.temperRatios| >= 12
    ensures Rows(t, math, pchip, EndMidi) == Rows(t.(temperRatios := t.temperRatios[..12]), math, pchip, EndMidi)
  {
    var t12 := t.(temperRatios := t.temperRatios[..12]);
    var rows, rows12 := Rows(t, math, pchip, EndMidi), Rows(t12, math, pchip, EndMidi);
    forall i | 0 <= i < |rows|
      ensures rows[i] == rows12[i]
    {
      var m := FirstMidi + i;
      assert t.temperRatios[PitchClass(m)] == t12.temperRatios[PitchClass(m)];
      assert NoteFrequency(t, m, math, pchip) == NoteFrequency(t12, m, math, pchip);
      assert rows[i] == Entry(MidiToName(m), NoteFrequency(t, m, math, pchip));
      assert rows12[i] == Entry(MidiToName(m), NoteFrequency(t12, m, math, pchip));
    }
  }

  /** MIDI 69 is the reference: its equal-tempered factor is exactly `a4` (exponent 0). */
  lemma ReferenceNote(t: Tuning, math: Math, pchip: Pchip)
    requires Laws(math)
    requires |t.temperRatios| >= 12
    ensures Rows(t, math, pchip, EndMidi)[69 - FirstMidi]
         == Entry("A4", t.a4 * pchip(StretchAnchors, t.stretchRatios, 69) * t.temperRatios[9])
  {
    var rows := Rows(t, math, pchip, EndMidi);
    assert rows[69 - FirstMidi] == Entry(MidiToName(69), NoteFrequency(t, 69, math, pchip));
    assert (69 - 69) as real / 12.0 == 0.0;
    assert BaseFrequency(t.a4, 69, math) == t.a4;
    MidiToNameExamples();
  }

  /**
   * Notes twelve apart share their temperament ratio, so where the stretch curve takes
   * the same value at both, the upper note is exactly twice the lower one.
   */
  lemma OctaveIsDouble(t: Tuning, m: int, math: Math, pchip: Pchip)
    requires Laws(math)
    requires PitchClass(m) < |t.temperRatios|
    requires pchip(StretchAnchors, t.stretchRatios, m + 12) == pchip(StretchAnchors, t.stretchRatios, m)
    ensures PitchClass(m + 12) == PitchClass(m)
    ensures NoteFrequency(t, m + 12, math, pchip) == 2.0 * NoteFrequency(t, m, math, pchip)
  {
    var x := (m - 69) as real / 12.0;
    assert (m + 12 - 69) as real / 12.0 == x + 1.0;
    assert BaseFrequency(t.a4, m + 12, math) == 2.0 * BaseFrequency(t.a4, m, math);
  }
}
