/**
 * The note matcher of pitch_detector_en.py: `load_freq_table`, which reads a table file
 * into a dict from note label to frequency, and `find_closest_note`, which picks the
 * table entry nearest in cents to a detected frequency.
 *
 * Frequencies are `Float`s, because `float()` accepts "inf" and "nan" in the table file
 * and the detector may hand over a non-finite estimate. `math.log2` stands for numpy's.
 */
module NoteMatcher {
  import opened Wrappers
  import opened Numerics
  import opened Text
  import opened FreqDict

  /** The dict `load_freq_table` returns: note label to frequency, in insertion order. */
  type FreqTable = Dict<Float>

  // ---------------------------------------------------------------------------------
  // load_freq_table

  /** The (note, number text) of a line whose `strip().split()` has exactly two tokens. */
  function TableLine(line: string): (r: Option<(string, string)>)
    ensures r.Some? <==> |Split(Strip(line))| == 2
    ensures r.Some? ==> Split(Strip(line)) == [r.value.0, r.value.1]
  {
    var parts := Split(Strip(line));
    if |parts| != 2 then None else Some((parts[0], parts[1]))
  }

  /** A parsed line: `Some((note, text))` for a line of two tokens, `None` for one that is skipped. */
  type Row = Option<(string, string)>

  /** The parsed lines of the file, in order. */
  function ParsedLines(lines: seq<string>): (rows: seq<Row>)
    ensures |rows| == |lines|
    ensures forall i :: 0 <= i < |lines| ==> rows[i] == TableLine(lines[i])
  {
    seq(|lines|, i requires 0 <= i < |lines| => TableLine(lines[i]))
  }

  /** The note of parsed line `i`, if that line is not skipped. */
  function NoteAt(rows: seq<Row>, i: nat): Option<string>
    requires i < |rows|
  {
    if rows[i].None? then None else Some(rows[i].value.0)
  }

  /**
   * What `load_freq_table` returns after reading the parsed lines `rows` in order: a
   * skipped line changes nothing, every other line stores `float(text)` under its note,
   * and a text `float()` rejects raises ValueError. `parse` is Python's `float()`.
   */
  function ReadRows(rows: seq<Row>, parse: string -> Option<Float>): (r: Result<FreqTable>)
    ensures r.Raised? ==> r.error == ValueError
  {
    if rows == [] then Ok(Empty())
    else
      var before := ReadRows(rows[..|rows| - 1], parse);
      var row := rows[|rows| - 1];
      if row.None? || before.Raised? then before
      else match parse(row.value.1)
        case None => Raised(ValueError)
        case Some(v) => Ok(before.value.Put(row.value.0, v))
  }

  /** A successful load is a well-formed dict: the order lists each of its keys once. */
  lemma {:induction false} ReadRowsValid(rows: seq<Row>, parse: string -> Option<Float>)
    ensures ReadRows(rows, parse).Ok? ==> ReadRows(rows, parse).value.Valid()
  {
    if rows != [] {
      var init := rows[..|rows| - 1];
      ReadRowsValid(init, parse);
      var before := ReadRows(init, parse);
      var row := rows[|rows| - 1];
      if row.Some? && before.Ok? && parse(row.value.1).Some? {
        PutKeepsValid(before.value, row.value.0, parse(row.value.1).value);
      }
    }
  }

  /** `load_freq_table` as a function of the lines of the file. */
  function ReadTable(lines: seq<string>, parse: string -> Option<Float>): Result<FreqTable> {
    ReadRows(ParsedLines(lines), parse)
  }

  /** `load_freq_table` over the lines of the file, filling `freq_map` one line at a time. */
  method LoadFreqTable(lines: seq<string>, parse: string -> Option<Float>) returns (r: Result<FreqTable>)
    ensures r == ReadTable(lines, parse)
    ensures r.Ok? ==> r.value.Valid()
  {
    ghost var rows := ParsedLines(lines);
    var freqMap: FreqTable := Empty();
    var i := 0;
    while i < |lines|
      invariant 0 <= i <= |lines|
      invariant ReadRows(rows[..i], parse) == Ok(freqMap)
    {
      assert rows[..i + 1][..i] == rows[..i];
      var parts := Split(Strip(lines[i]));
      assert rows[i] == TableLine(lines[i]);
      if |parts| == 2 {
        var note, text := parts[0], parts[1];
        match parse(text)
        case None =>
          ReadRowsRaisedPersists(rows, parse, i + 1);
          return Raised(ValueError);
        case Some(v) =>
          freqMap := freqMap.Put(note, v);
      }
      i := i + 1;
    }
    assert rows[..i] == rows;
    ReadRowsValid(rows, parse);
    r := Ok(freqMap);
  }

  /** Once a line has raised, the rest of the file cannot undo it. */
  lemma {:induction false} ReadRowsRaisedPersists(rows: seq<Row>, parse: string -> Option<Float>, k: nat)
    requires k <= |rows|
    requires ReadRows(rows[..k], parse).Raised?
    ensures ReadRows(rows, parse).Raised?
    decreases |rows| - k
  {
    if k < |rows| {
      assert rows[..k + 1][..k] == rows[..k];
      ReadRowsRaisedPersists(rows, parse, k + 1);
    } else {
      assert rows[..k] == rows;
    }
  }

  /** A line `load_freq_table` gets through: skipped, or its number is one `float()` accepts. */
  predicate RowParses(row: Row, parse: string -> Option<Float>) {
    row.None? || parse(row.value.1).Some?
  }

  /** Reading one more line succeeds exactly when the lines before it were read and it parses. */
  lemma {:induction false} ReadRowsOkStep(rows: seq<Row>, parse: string -> Option<Float>)
    requires rows != []
    ensures ReadRows(rows, parse).Ok? <==>
      ReadRows(rows[..|rows| - 1], parse).Ok? && RowParses(rows[|rows| - 1], parse)
  {
  }

  /** The load raises ValueError exactly when some well-formed line has an unreadable number. */
  lemma {:induction false} ReadRowsOk(rows: seq<Row>, parse: string -> Option<Float>)
    ensures ReadRows(rows, parse).Ok? <==> forall i :: 0 <= i < |rows| ==> RowParses(rows[i], parse)
  {
    if rows != [] {
      var init := rows[..|rows| - 1];
      ReadRowsOk(init, parse);
      if ReadRows(rows, parse).Ok? {
        assert ReadRows(init, parse).Ok?;
        assert RowParses(rows[|rows| - 1], parse);
        forall i | 0 <= i < |rows|
          ensures RowParses(rows[i], parse)
        {
          if i < |init| {
            assert rows[i] == init[i];
          }
        }
      } else {
        if ReadRows(init, parse).Ok? {
          assert !RowParses(rows[|rows| - 1], parse);
        } else {
          var i :| 0 <= i < |init| && !RowParses(init[i], parse);
          assert rows[i] == init[i];
        }
      }
    }
  }

  /** The keys of the loaded table are exactly the notes of the well-formed lines. */
  lemma {:induction false} ReadRowsKeys(rows: seq<Row>, parse: string -> Option<Float>)
    requires ReadRows(rows, parse).Ok?
    ensures var d := ReadRows(rows, parse).value;
      forall k :: k in d.values <==> exists i :: 0 <= i < |rows| && NoteAt(rows, i) == Some(k)
  {
    if rows != [] {
      var init := rows[..|rows| - 1];
      var last := |rows| - 1;
      assert ReadRows(init, parse).Ok?;
      ReadRowsKeys(init, parse);
      var before := ReadRows(init, parse).value;
      var d := ReadRows(rows, parse).value;
      forall k
        ensures k in d.values <==> exists i :: 0 <= i < |rows| && NoteAt(rows, i) == Some(k)
      {
        if k in d.values && k !in before.values {
          assert NoteAt(rows, last) == Some(k);
        }
        if k in before.values {
          var i :| 0 <= i < |init| && NoteAt(init, i) == Some(k);
          assert NoteAt(rows, i) == Some(k);
        }
        if exists i :: 0 <= i < |rows| && NoteAt(rows, i) == Some(k) {
          var i :| 0 <= i < |rows| && NoteAt(rows, i) == Some(k);
          if i < last {
            assert NoteAt(init, i) == Some(k);
          }
        }
      }
    }
  }

  /** The value stored under a note is the number of the LAST line that names that note. */
  lemma {:induction false} ReadRowsLastWins(rows: seq<Row>, parse: string -> Option<Float>,
                                            i: nat, note: string, text: string)
    requires ReadRows(rows, parse).Ok?
    requires i < |rows| && rows[i] == Some((note, text))
    requires forall j :: i < j < |rows| ==> NoteAt(rows, j) != Some(note)
    ensures parse(text).Some?
    ensures var d := ReadRows(rows, parse).value;
      note in d.values && d.values[note] == parse(text).value
  {
    var init := rows[..|rows| - 1];
    var last := |rows| - 1;
    assert ReadRows(init, parse).Ok?;
    if i < last {
      assert init[i] == rows[i];
      forall j | i < j < |init|
        ensures NoteAt(init, j) != Some(note)
      {
        assert NoteAt(rows, j) != Some(note);
      }
      ReadRowsLastWins(init, parse, i, note, text);
      assert NoteAt(rows, last) != Some(note);
    }
  }

  /** The notes of the lines, when no line is skipped. */
  function Notes(rows: seq<Row>): (notes: seq<string>)
    requires forall i :: 0 <= i < |rows| ==> rows[i].Some?
    ensures |notes| == |rows|
    ensures forall i :: 0 <= i < |rows| ==> Some(notes[i]) == NoteAt(rows, i)
  {
    seq(|rows|, i requires 0 <= i < |rows| => rows[i].value.0)
  }

  /**
   * The notes of the kept lines in order of first appearance, each once: the order in
   * which a dict filled line by line iterates.
   */
  function FirstNotes(rows: seq<Row>): seq<string> {
    if rows == [] then []
    else
      var before := FirstNotes(rows[..|rows| - 1]);
      var row := rows[|rows| - 1];
      if row.None? || row.value.0 in before then before else before + [row.value.0]
  }

  /**
   * The keys of a loaded table are the notes of the kept lines in order of first
   * appearance: a note named again later keeps its first place.
   */
  lemma {:induction false} ReadRowsKeyOrder(rows: seq<Row>, parse: string -> Option<Float>)
    requires ReadRows(rows, parse).Ok?
    ensures ReadRows(rows, parse).value.keys == FirstNotes(rows)
  {
    if rows != [] {
      var init := rows[..|rows| - 1];
      assert ReadRows(init, parse).Ok?;
      ReadRowsKeyOrder(init, parse);
      ReadRowsValid(init, parse);
    }
  }

  /** Lines A, B, A load as keys A then B, with A holding the number of its last line. */
  lemma RepeatedNoteExample(parse: string -> Option<Float>)
    requires parse("1").Some? && parse("2").Some? && parse("3").Some?
    ensures var r := ReadRows([Some(("A", "1")), Some(("B", "2")), Some(("A", "3"))], parse);
      && r.Ok? && r.value.keys == ["A", "B"]
      && "A" in r.value.values && r.value.values["A"] == parse("3").value
  {
    var rows: seq<Row> := [Some(("A", "1")), Some(("B", "2")), Some(("A", "3"))];
    var a, b, c := parse("1").value, parse("2").value, parse("3").value;
    var r1, r2 := rows[..1], rows[..2];
    assert r1[..0] == [] && r2[..1] == r1 && rows[..2] == r2;
    var d0: FreqTable := Empty();
    var d1 := d0.Put("A", a);
    assert ReadRows(r1, parse) == Ok(d1);
    var d2 := d1.Put("B", b);
    assert ReadRows(r2, parse) == Ok(d2);
    assert d1.keys == ["A"] && d2.keys == ["A", "B"];
    var d3 := d2.Put("A", c);
    assert ReadRows(rows, parse) == Ok(d3);
  }

  /** When no line is skipped and no note repeats, the keys are the notes in file order. */
  lemma {:induction false} ReadRowsKeysInOrder(rows: seq<Row>, parse: string -> Option<Float>)
    requires forall i :: 0 <= i < |rows| ==> rows[i].Some?
    requires forall i, j :: 0 <= i < j < |rows| ==> NoteAt(rows, i) != NoteAt(rows, j)
    requires ReadRows(rows, parse).Ok?
    ensures |ReadRows(rows, parse).value.keys| == |rows|
    ensures forall i :: 0 <= i < |rows| ==> Some(ReadRows(rows, parse).value.keys[i]) == NoteAt(rows, i)
  {
    if rows != [] {
      var init := rows[..|rows| - 1];
      var last := |rows| - 1;
      assert forall i :: 0 <= i < |init| ==> init[i] == rows[i];
      forall i, j | 0 <= i < j < |init|
        ensures NoteAt(init, i) != NoteAt(init, j)
      {
        assert NoteAt(rows, i) != NoteAt(rows, j);
      }
      assert ReadRows(init, parse).Ok?;
      ReadRowsKeysInOrder(init, parse);
      ReadRowsValid(init, parse);
      var before := ReadRows(init, parse).value;
      var note := rows[last].value.0;
      assert note !in before.keys by {
        forall i | 0 <= i < |before.keys|
          ensures before.keys[i] != note
        {
          assert NoteAt(rows, i) != NoteAt(rows, last);
        }
      }
    }
  }

  /**
   * A file of well-formed lines with distinct notes and readable numbers loads into a
   * table whose iteration order is the order of the lines, each note holding its number.
   */
  lemma ReadRowsInOrder(rows: seq<Row>, parse: string -> Option<Float>)
    requires forall i :: 0 <= i < |rows| ==> rows[i].Some? && parse(rows[i].value.1).Some?
    requires forall i, j :: 0 <= i < j < |rows| ==> NoteAt(rows, i) != NoteAt(rows, j)
    ensures ReadRows(rows, parse).Ok?
    ensures ReadRows(rows, parse).value.keys == Notes(rows)
    ensures forall i :: 0 <= i < |rows| ==>
      && rows[i].value.0 in ReadRows(rows, parse).value.values
      && ReadRows(rows, parse).value.values[rows[i].value.0] == parse(rows[i].value.1).value
  {
    ReadRowsOk(rows, parse);
    ReadRowsKeysInOrder(rows, parse);
    assert ReadRows(rows, parse).value.keys == Notes(rows);
    forall i | 0 <= i < |rows|
      ensures rows[i].value.0 in ReadRows(rows, parse).value.values
      ensures ReadRows(rows, parse).value.values[rows[i].value.0] == parse(rows[i].value.1).value
    {
      forall j | i < j < |rows|
        ensures NoteAt(rows, j) != Some(rows[i].value.0)
      {
        assert NoteAt(rows, i) != NoteAt(rows, j);
      }
      ReadRowsLastWins(rows, parse, i, rows[i].value.0, rows[i].value.1);
    }
  }

  /** A line whose `strip().split()` does not give exactly two tokens leaves the table as it was. */
  lemma SkipsMalformedLine(lines: seq<string>, line: string, parse: string -> Option<Float>)
    requires |Split(Strip(line))| != 2
    ensures ReadTable(lines + [line], parse) == ReadTable(lines, parse)
  {
    assert ParsedLines(lines + [line])[..|lines|] == ParsedLines(lines);
  }

  // ---------------------------------------------------------------------------------
  // find_closest_note

  /** What `find_closest_note` returns: `(None, None, None)` or `(note, freq_table[note], cents)`. */
  datatype Match = NoMatch | Match(note: string, target: real, cents: real)

  /** `1200 * np.log2(freq / target_freq)`: how far `freq` lies above `target`, in cents. */
  function Cents(freq: real, target: real, math: Math): real
    requires target > 0.0
  {
    1200.0 * math.log2(freq / target)
  }

  /** The cents of `freq` against a table entry the second loop does not skip. */
  function CentsTo(freq: real, target: Float, math: Math): (c: Float)
    requires target.Finite? ==> target.value > 0.0
    ensures c.Finite? <==> target.Finite?
  {
    if target.Finite? then Finite(Cents(freq, target.value, math)) else NonFinite
  }

  /**
   * `abs(cents) < abs(min_diff)`, where `min_diff` starts as `float('inf')`: a non-finite
   * cents value (from an infinite or NaN table entry) never wins.
   */
  predicate CloserThan(cents: Float, minDiff: Float) {
    cents.Finite? && (minDiff.NonFinite? || Abs(cents.value) < Abs(minDiff.value))
  }

  /**
   * The position in `items` of the note the second loop has settled on after its first
   * `n` iterations: the first entry with the smallest absolute cents among the entries
   * holding a positive finite frequency.
   */
  function BestIndex(items: seq<(string, Float)>, freq: real, math: Math, n: nat): (k: Option<nat>)
    requires n <= |items|
    ensures k.Some? ==> k.value < n && IsPositiveFinite(items[k.value].1)
  {
    if n == 0 then None
    else
      var k := BestIndex(items, freq, math, n - 1);
      var t := items[n - 1].1;
      if IsPositiveFinite(t)
         && (k.None? || Abs(Cents(freq, t.value, math)) < Abs(Cents(freq, items[k.value].1.value, math)))
      then Some(n - 1)
      else k
  }

  /** The specification of `find_closest_note`. */
  function ClosestNote(freq: Option<Float>, table: FreqTable, math: Math): Match
    requires table.Valid()
  {
    if freq.None? || !IsPositiveFinite(freq.value) then NoMatch
    else
      var items := table.Items();
      match BestIndex(items, freq.value.value, math, |items|)
      case None => NoMatch
      case Some(k) =>
        Match(items[k].0, items[k].1.value, Cents(freq.value.value, items[k].1.value, math))
  }

  /** The state of the second loop after `n` iterations, against `BestIndex`. */
  predicate Settled(items: seq<(string, Float)>, freq: real, math: Math, n: nat,
                    minNote: Option<string>, minDiff: Float)
    requires n <= |items|
  {
    match BestIndex(items, freq, math, n)
    case None => minNote.None? && minDiff.NonFinite?
    case Some(k) => minNote == Some(items[k].0) && minDiff == Finite(Cents(freq, items[k].1.value, math))
  }

  /**
   * `find_closest_note(freq, freq_table)`. `freq` is `None` when no pitch was detected.
   * The first loop of the source only decides whether to `continue`, so it changes nothing.
   */
  method FindClosestNote(freq: Option<Float>, freqTable: FreqTable, math: Math) returns (r: Match)
    requires freqTable.Valid()
    ensures r == ClosestNote(freq, freqTable, math)
  {
    if freq.None? {
      return NoMatch;
    }
    var x := freq.value;
    var minNote: Option<string> := None;
    var minDiff: Float := NonFinite;
    var items := freqTable.Items();

    for i := 0 to |items| {
      var targetFreq := items[i].1;
      if targetFreq.Finite? && targetFreq.value <= 0.0 {
        continue;
      }
    }

    for i := 0 to |items|
      invariant !IsPositiveFinite(x) ==> minNote.None? && minDiff.NonFinite?
      invariant IsPositiveFinite(x) ==> Settled(items, x.value, math, i, minNote, minDiff)
    {
      var (note, targetFreq) := items[i];
      if (targetFreq.Finite? && targetFreq.value <= 0.0) || !IsPositiveFinite(x) {
        continue;
      }
      var cents := CentsTo(x.value, targetFreq, math);
      if CloserThan(cents, minDiff) {
        minDiff := cents;
        minNote := Some(note);
      }
    }

    if minNote.None? {
      return NoMatch;
    }
    var target := freqTable.values[minNote.value];
    return Match(minNote.value, target.value, minDiff.value);
  }

  /** The loop settles on no note exactly when none of the first `n` entries is positive and finite. */
  lemma {:induction false} BestIndexNone(items: seq<(string, Float)>, freq: real, math: Math, n: nat)
    requires n <= |items|
    ensures BestIndex(items, freq, math, n).None? <==> forall i :: 0 <= i < n ==> !IsPositiveFinite(items[i].1)
  {
    if n > 0 {
      BestIndexNone(items, freq, math, n - 1);
    }
  }

  /**
   * The entry the loop settles on is at least as close as every positive finite entry
   * among the first `n`, and strictly closer than every such entry before it.
   */
  lemma {:induction false} BestIndexNearest(items: seq<(string, Float)>, freq: real, math: Math, n: nat)
    requires n <= |items|
    requires BestIndex(items, freq, math, n).Some?
    ensures var k := BestIndex(items, freq, math, n).value;
      forall i :: 0 <= i < n && IsPositiveFinite(items[i].1) ==>
        && Abs(Cents(freq, items[k].1.value, math)) <= Abs(Cents(freq, items[i].1.value, math))
        && (i < k ==> Abs(Cents(freq, items[k].1.value, math)) < Abs(Cents(freq, items[i].1.value, math)))
  {
    var prev := BestIndex(items, freq, math, n - 1);
    if prev.Some? {
      BestIndexNearest(items, freq, math, n - 1);
    } else {
      BestIndexNone(items, freq, math, n - 1);
    }
  }

  /**
   * There is no match exactly when no frequency was given, the frequency is not positive
   * and finite, or no entry of the table holds a positive finite frequency.
   */
  lemma ClosestNoteAbsent(freq: Option<Float>, table: FreqTable, math: Math)
    requires table.Valid()
    ensures ClosestNote(freq, table, math).NoMatch? <==>
      || freq.None?
      || !IsPositiveFinite(freq.value)
      || forall k :: k in table.values ==> !IsPositiveFinite(table.values[k])
  {
    if freq.Some? && IsPositiveFinite(freq.value) {
      var items := table.Items();
      BestIndexNone(items, freq.value.value, math, |items|);
      if exists k :: k in table.values && IsPositiveFinite(table.values[k]) {
        var k :| k in table.values && IsPositiveFinite(table.values[k]);
        var i :| 0 <= i < |table.keys| && table.keys[i] == k;
        assert IsPositiveFinite(items[i].1);
      }
    }
  }

  /** A match names a note of the table, its positive finite frequency, and the cents from it. */
  lemma ClosestNoteSound(freq: Option<Float>, table: FreqTable, math: Math)
    requires table.Valid()
    requires ClosestNote(freq, table, math).Match?
    ensures var m := ClosestNote(freq, table, math);
      && freq.Some? && IsPositiveFinite(freq.value)
      && m.note in table.values
      && table.values[m.note] == Finite(m.target)
      && m.target > 0.0
      && m.cents == Cents(freq.value.value, m.target, math)
  {
  }

  /**
   * A match is the nearest entry in cents: no positive finite entry is closer, and every
   * positive finite entry before it in the table's order is strictly farther.
   */
  lemma ClosestNoteNearest(freq: Option<Float>, table: FreqTable, math: Math)
    requires table.Valid()
    requires ClosestNote(freq, table, math).Match?
    ensures var m := ClosestNote(freq, table, math);
      && (forall k :: k in table.values && IsPositiveFinite(table.values[k]) ==>
            Abs(m.cents) <= Abs(Cents(freq.value.value, table.values[k].value, math)))
      && (forall i, j ::
            (0 <= i < j < |table.keys| && table.keys[j] == m.note && IsPositiveFinite(table.values[table.keys[i]]))
            ==> Abs(m.cents) < Abs(Cents(freq.value.value, table.values[table.keys[i]].value, math)))
  {
    var f := freq.value.value;
    var items := table.Items();
    var k := BestIndex(items, f, math, |items|).value;
    BestIndexNearest(items, f, math, |items|);
    forall key | key in table.values && IsPositiveFinite(table.values[key])
      ensures Abs(Cents(f, items[k].1.value, math)) <= Abs(Cents(f, table.values[key].value, math))
    {
      var i :| 0 <= i < |table.keys| && table.keys[i] == key;
      assert items[i].1 == table.values[key];
    }
    forall i, j | 0 <= i < j < |table.keys| && table.keys[j] == items[k].0
        && IsPositiveFinite(table.values[table.keys[i]])
      ensures Abs(Cents(f, items[k].1.value, math)) < Abs(Cents(f, table.values[table.keys[i]].value, math))
    {
      if j != k {
        KeysDistinct(table, if j < k then j else k, if j < k then k else j);
      }
      assert items[i].1 == table.values[table.keys[i]];
    }
  }

  /**
   * Conversely, the first entry in the table's order whose distance in cents no entry
   * beats is the one returned.
   */
  lemma ClosestNoteIsFirstNearest(freq: Option<Float>, table: FreqTable, math: Math, j: nat)
    requires table.Valid()
    requires freq.Some? && IsPositiveFinite(freq.value)
    requires j < |table.keys| && IsPositiveFinite(table.values[table.keys[j]])
    requires forall i :: 0 <= i < |table.keys| && IsPositiveFinite(table.values[table.keys[i]]) ==>
      var here := Abs(Cents(freq.value.value, table.values[table.keys[j]].value, math));
      var there := Abs(Cents(freq.value.value, table.values[table.keys[i]].value, math));
      here <= there && (i < j ==> here < there)
    ensures ClosestNote(freq, table, math).Match?
    ensures ClosestNote(freq, table, math).note == table.keys[j]
  {
    var f := freq.value.value;
    var items := table.Items();
    BestIndexNone(items, f, math, |items|);
    assert IsPositiveFinite(items[j].1);
    var k := BestIndex(items, f, math, |items|).value;
    BestIndexNearest(items, f, math, |items|);
    assert items[k].1 == table.values[table.keys[k]];
    if k < j {
      assert false;
    } else if j < k {
      assert false;
    }
  }

  /** A frequency that equals a table entry is matched with a deviation of zero cents. */
  lemma ExactFrequencyHasNoDeviation(freq: real, table: FreqTable, math: Math, note: string)
    requires table.Valid() && Laws(math)
    requires freq > 0.0 && note in table.values && table.values[note] == Finite(freq)
    ensures ClosestNote(Some(Finite(freq)), table, math).Match?
    ensures ClosestNote(Some(Finite(freq)), table, math).cents == 0.0
  {
    var f := Some(Finite(freq));
    assert IsPositiveFinite(table.values[note]);
    ClosestNoteAbsent(f, table, math);
    var m := ClosestNote(f, table, math);
    assert Cents(freq, freq, math) == 0.0 by {
      assert freq / freq == 1.0;
    }
    ClosestNoteNearest(f, table, math);
    assert Abs(m.cents) <= Abs(Cents(freq, table.values[note].value, math));
  }

  /** The table {"A4": 440.0} and the frequency 440.0 give ("A4", 440.0, 0.0). */
  lemma SingleEntryExample(math: Math)
    requires Laws(math)
    ensures ClosestNote(Some(Finite(440.0)), Dict(["A4"], map["A4" := Finite(440.0)]), math)
         == Match("A4", 440.0, 0.0)
  {
    var table := Dict(["A4"], map["A4" := Finite(440.0)]);
    assert table.Items() == [("A4", Finite(440.0))];
    assert 440.0 / 440.0 == 1.0;
  }
}
