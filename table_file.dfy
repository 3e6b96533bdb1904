/**
 * The file output_freqs.txt that connects the two programs: generate_freq_table.py
 * writes one line `f"{note}\t{final_freq:.6f}\n"` per entry, and `load_freq_table` of
 * pitch_detector_en.py reads it back. The `.6f` formatting and `float()` are
 * parameters: `format` and `parse`.
 */
module TableFile {
  import opened Wrappers
  import opened Numerics
  import opened Text
  import opened TableBuilder
  import opened NoteMatcher

  /** The line written for one entry. */
  function EntryLine(e: Entry, format: real -> string): string {
    e.note + "\t" + format(e.freq) + "\n"
  }

  /** The lines of the file, in the order they are written. */
  function FileLines(entries: seq<Entry>, format: real -> string): (lines: seq<string>)
    ensures |lines| == |entries|
    ensures forall i :: 0 <= i < |entries| ==> lines[i] == EntryLine(entries[i], format)
  {
    seq(|entries|, i requires 0 <= i < |entries| => EntryLine(entries[i], format))
  }

  /** What `format` must do for the file to be readable: one token without whitespace. */
  predicate IsToken(s: string) {
    s != [] && NoSpace(s)
  }

  /** A label, a tab and a number, then a newline, split into the label and the number. */
  lemma TabSeparatedSplits(note: string, num: string)
    requires IsToken(note) && IsToken(num)
    ensures Split(note + "\t" + num + "\n") == [note, num]
  {
    var joined := Join([note, num], '\t');
    assert [note, num][1..] == [num];
    assert Join([num], '\t') == num;
    assert joined == note + "\t" + num;
    assert note + "\t" + num + "\n" == joined + "\n";
    SplitIgnoresTrailingSpace(joined, "\n");
    SplitJoin([note, num], '\t');
  }

  /** A written line parses back into its label and its formatted number. */
  lemma EntryLineParses(e: Entry, format: real -> string)
    requires IsToken(e.note) && IsToken(format(e.freq))
    ensures TableLine(EntryLine(e, format)) == Some((e.note, format(e.freq)))
  {
    var line := EntryLine(e, format);
    SplitOfStrip(line);
    TabSeparatedSplits(e.note, format(e.freq));
  }

  /** Every written line parses back into its entry's label and formatted number. */
  lemma FileLinesParse(entries: seq<Entry>, format: real -> string)
    requires forall i :: 0 <= i < |entries| ==> IsToken(entries[i].note) && IsToken(format(entries[i].freq))
    ensures var rows := ParsedLines(FileLines(entries, format));
      forall i :: 0 <= i < |entries| ==> rows[i] == Some((entries[i].note, format(entries[i].freq)))
  {
    var lines := FileLines(entries, format);
    forall i | 0 <= i < |entries|
      ensures TableLine(lines[i]) == Some((entries[i].note, format(entries[i].freq)))
    {
      EntryLineParses(entries[i], format);
    }
  }

  /** The labels of the entries, in the order written. */
  function Labels(entries: seq<Entry>): (labels: seq<string>)
    ensures |labels| == |entries|
    ensures forall i :: 0 <= i < |entries| ==> labels[i] == entries[i].note
  {
    seq(|entries|, i requires 0 <= i < |entries| => entries[i].note)
  }

  /**
   * Entries with distinct labels and readable numbers load back into a table whose keys
   * are the labels in the order written, each holding its number as `float()` reads it.
   */
  lemma WrittenEntriesLoad(entries: seq<Entry>, format: real -> string, parse: string -> Option<Float>)
    requires forall i :: 0 <= i < |entries| ==> IsToken(entries[i].note) && IsToken(format(entries[i].freq))
    requires forall i :: 0 <= i < |entries| ==> parse(format(entries[i].freq)).Some?
    requires forall i, j :: 0 <= i < j < |entries| ==> entries[i].note != entries[j].note
    ensures var loaded := ReadTable(FileLines(entries, format), parse);
      && loaded.Ok?
      && loaded.value.keys == Labels(entries)
      && (forall i :: 0 <= i < |entries| ==>
            && entries[i].note in loaded.value.values
            && loaded.value.values[entries[i].note] == parse(format(entries[i].freq)).value)
  {
    var rows := ParsedLines(FileLines(entries, format));
    FileLinesParse(entries, format);
    forall i | 0 <= i < |rows|
      ensures rows[i].Some? && parse(rows[i].value.1).Some?
    {
    }
    forall i, j | 0 <= i < j < |rows|
      ensures NoteAt(rows, i) != NoteAt(rows, j)
    {
      assert NoteAt(rows, i) == Some(entries[i].note);
      assert NoteAt(rows, j) == Some(entries[j].note);
    }
    ReadRowsInOrder(rows, parse);
    assert Notes(rows) == Labels(entries);
  }

  /**
   * Whatever the generator writes, nothing, a complete table or one cut short by
   * IndexError, loads back into a table whose keys are the labels of MIDI 7 upwards in
   * order, each holding the value its formatted number reads back as.
   */
  lemma GeneratedTableLoads(t: Tuning, math: Math, pchip: Pchip,
                            format: real -> string, parse: string -> Option<Float>)
    requires forall x :: IsToken(format(x)) && parse(format(x)).Some?
    ensures var entries := WrittenEntries(t, math, pchip);
      var loaded := ReadTable(FileLines(entries, format), parse);
      && loaded.Ok?
      && |loaded.value.keys| == |entries|
      && (forall i :: 0 <= i < |entries| ==>
            && loaded.value.keys[i] == MidiToName(FirstMidi + i)
            && MidiToName(FirstMidi + i) in loaded.value.values
            && loaded.value.values[MidiToName(FirstMidi + i)] == parse(format(entries[i].freq)).value)
  {
    var entries := WrittenEntries(t, math, pchip);
    if |t.stretchRatios| == |StretchAnchors| {
      RowsLabelled(t, math, pchip, WrittenEnd(|t.temperRatios|));
    }
    forall i | 0 <= i < |entries|
      ensures IsToken(entries[i].note)
    {
      LabelIsToken(entries[i].note, FirstMidi + i);
    }
    WrittenEntriesLoad(entries, format, parse);
  }

  /** A label is one token of the table file. */
  lemma LabelIsToken(name: string, m: int)
    requires name == MidiToName(m)
    ensures IsToken(name)
  {
    MidiToNameHasNoSpace(m);
  }
}
