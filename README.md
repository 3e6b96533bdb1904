# Piano tuner: a Dafny model

The piano tuner is two Python scripts that share one text file.

- **generate_freq_table.py** builds the tuning table `output_freqs.txt`. It writes one
  line `label<TAB>frequency` for every MIDI note from G-1 (7) to C8 (108). The frequency
  is the product of three factors:
  - the equal-tempered frequency relative to A4;
  - a stretch factor, interpolated by PCHIP through nine octave anchors;
  - the temperament ratio of the note's pitch class.

  Stretch and temperament come from two files of cents values.
- **pitch_detector_en.py** reads that table back. It estimates the pitch of an audio
  frame from the peak of its autocorrelation, refines the peak with a parabola, and
  reports the table note that is nearest in cents.

The model covers the discrete logic of both scripts:

- note labels and their round trip to MIDI numbers;
- the blank-line filter of the cents files;
- the write loop of the table builder, including how it stops part way;
- the whitespace tokenising and dict overwrite of the table loader;
- the nearest-note scan with its tie-breaking;
- the zero-padding, lag window, first-maximum and noise-floor steps of the pitch
  detector, and its parabolic refinement.

The transcendental functions are left abstract: `log2`, `2 ** x` and scipy's PCHIP. So
are `float()` and the `.6f` formatting. Each is a function value passed to the model.
A 64-bit float is `Finite(real)` or `NonFinite`. NaN, +inf and -inf behave alike in
every branch of `load_freq_table` and `find_closest_note`, so one tag stands for all
three there. The final division of `detect_pitch` does tell them apart: an infinite
lag gives pitch 0.0 and a NaN lag gives NaN. The model keeps those cases apart as
`Lag = LagAt | LagInfinite | LagNaN`.

Modules, one per file:

- `Wrappers`: `Option` and `Result`.
- `Numerics`: `Float`, the abstract `Math` and the identities some lemmas rely on.
- `Text`: Python's `isspace`, `strip`, `split()` and `str(int)`.
- `FreqDict`: a Python dict, which iterates in first-insertion order.
- `TableBuilder`: generate_freq_table.py.
- `NoteMatcher`: `load_freq_table` and `find_closest_note`.
- `PitchEstimator`: `parabolic_interpolation` and the peak search of `detect_pitch`.
- `TableFile`: the table file as the builder writes it and the loader reads it.

Each method that loops in the source is a Dafny method with a loop, proved equal to a
specification function. The properties are proved about those functions:
`GenerateFrequencyTable`, `LoadFreqTable`, `FindClosestNote`, `DetectPitch` and
`FirstArgMax`.

Where the code and its documentation disagree, the model follows the code.

- The table is not written all-or-nothing. With fewer than twelve temperament ratios
  the loop writes entries until `temper_ratios[midi % 12]` raises IndexError, and those
  entries stay in the file.
- The temperament list need not hold exactly twelve ratios. Only the first twelve are
  read, and a longer list is accepted.
- scipy's PCHIP constructor raises ValueError unless there are exactly nine stretch
  ratios, one per anchor. That happens before the output file is opened.

Two properties of the pitch detector are easy to miss.

- The search window is `corr_padded[lag_min:lag_max*8]`, and the padded buffer holds
  the real correlation up to `len(corr)`. So lags up to eight times `sample_rate / fmin`
  are searched. `PitchBelowFMin` shows a 12.25 Hz result.
- A sample rate above -5000 and at most -24 makes `lag_max` negative while `lag_min`
  is 0. Python then counts the slice end from the back of the buffer, and the window can
  be non-empty: at -100 Hz over 10 lags it is slots 0 to 47 of 80
  (`NegativeRateCountsFromTheEnd`). Every other negative rate gives an empty window and
  so no pitch (`NegativeRateWithoutWindow`). Whenever the window is not empty, it starts
  exactly at `lag_min` (`RegionStartsAtLagMin`). So the `+ lag_min` offset of the peak
  is always right.

## Model

| member | source | states |
|---|---|---|
| Numerics.Abs | pitch_detector_en.py:40 | `abs` is non-negative and equals `x` or `-x` |
| Text.StripLeftKeepsSuffix | pitch_detector_en.py:17 | `lstrip` removes only a whitespace prefix and leaves text that does not start with whitespace |
| Text.StripRightKeepsPrefix | pitch_detector_en.py:17 | `rstrip` removes only a whitespace suffix and leaves text that does not end with whitespace |
| Text.StripBlank | pitch_detector_en.py:17 | `strip()` is empty exactly when the line is all whitespace |
| Text.SplitTokens | pitch_detector_en.py:17 | every token of `split()` is non-empty and contains no whitespace |
| Text.SplitOfStrip | pitch_detector_en.py:17 | `line.strip().split()` equals `line.split()` |
| Text.SplitIgnoresTrailingSpace | pitch_detector_en.py:16-17 | a trailing newline or other whitespace does not change the tokens |
| Text.SplitWordSep | pitch_detector_en.py:17 | a word followed by one whitespace character and more text splits off as the first token |
| Text.SplitJoin | pitch_detector_en.py:17 | tokens joined by one whitespace character split back into the same tokens |
| Text.IntToString | generate_freq_table.py:10 | the decimal octave is non-empty and starts with `-` or a digit |
| Text.IntToStringHasNoSpace | generate_freq_table.py:10 | the decimal octave contains no whitespace |
| Text.IntToStringRoundTrip | generate_freq_table.py:10 | the decimal form of every integer reads back as that integer |
| FreqDict.Dict.Put | pitch_detector_en.py:21 | `d[k] = v` maps `k` to `v` and leaves every other key's value; an existing key keeps its place in the order, a new key goes last |
| FreqDict.PutKeepsValid | pitch_detector_en.py:21 | after `d[k] = v` the order still lists every key of the dict exactly once |
| FreqDict.KeysDistinct | pitch_detector_en.py:21 | no key occurs twice in a dict's iteration order |
| FreqDict.Dict.Items | pitch_detector_en.py:36 | `items()` gives every key with its value, in insertion order |
| FreqDict.Empty | pitch_detector_en.py:14 | `{}` has no keys |
| TableBuilder.Octave | generate_freq_table.py:8 | `midi // 12 - 1` is the floor octave: `12*(o+1) <= m < 12*(o+1) + 12`, negative MIDI numbers included |
| TableBuilder.PitchClass | generate_freq_table.py:9 | `midi % 12` is below 12 and `m == 12*(octave+1) + pc` |
| TableBuilder.NameShape | generate_freq_table.py:5 | each note name is one or two characters; a second character is `#` or `b` |
| TableBuilder.NamesHaveNoSpace | generate_freq_table.py:5 | no note name contains whitespace |
| TableBuilder.NameIndex | generate_freq_table.py:5 | the twelve note names are distinct: each is found at its own pitch class |
| TableBuilder.MidiToName | generate_freq_table.py:7-10 | a label is longer than its note name: the octave follows it |
| TableBuilder.MidiToNameHasNoSpace | generate_freq_table.py:7-10 | a label contains no whitespace, so it is one token of the table file |
| TableBuilder.MidiToNameRoundTrip | generate_freq_table.py:5-10 | the label of every MIDI number reads back as that MIDI number |
| TableBuilder.LabelRoundTrip | generate_freq_table.py:10 | a note name followed by the decimal octave reads back as `12 * (octave + 1) + pitch class` |
| TableBuilder.ReadLabel | generate_freq_table.py:10 | the name part of a label ends where the octave begins, so both read back |
| TableBuilder.NameLengthOfLabel | generate_freq_table.py:10 | the octave never starts with `#` or `b`, so the name length of a label is that of its note name |
| TableBuilder.MidiToNameInjective | generate_freq_table.py:7-10 | distinct MIDI numbers get distinct labels |
| TableBuilder.MidiToNameExamples | generate_freq_table.py:7-10 | 7 is "G-1", 60 is "C4", 69 is "A4" and 108 is "C8" |
| TableBuilder.CentToRatio | generate_freq_table.py:12-13 | with the exact `2 ** x`, every ratio is positive |
| TableBuilder.CentToRatioExamples | generate_freq_table.py:12-13 | 0 cents is ratio 1 and 1200 cents is ratio 2 |
| TableBuilder.LoadCentFile | generate_freq_table.py:15-17 | the only error the model raises is ValueError, and there is at most one ratio per line |
| TableBuilder.LoadCentFileValues | generate_freq_table.py:15-17 | the result is the ratios of the stripped non-blank lines in file order if `float()` accepts all of them, and ValueError otherwise |
| TableBuilder.LoadCentFileAppend | generate_freq_table.py:17 | reading a file in two parts gives what reading it whole gives |
| TableBuilder.LoadCentFileSkipsBlankLine | generate_freq_table.py:17 | a whitespace-only line contributes nothing wherever it stands |
| TableBuilder.LoadCentFilePositive | generate_freq_table.py:12-17 | with the exact `2 ** x`, every ratio read is positive |
| TableBuilder.WrittenEnd | generate_freq_table.py:28-32 | the write loop reaches exactly the MIDI numbers whose pitch class indexes the temperament list, and stops at the first that does not |
| TableBuilder.GenerateFrequencyTable | generate_freq_table.py:19-34 | without nine stretch ratios nothing is written and ValueError is raised; otherwise the entries for MIDI 7 upwards are written in order, `base * stretch * temper` each, up to 108 or up to the IndexError that a short temperament list raises; what it writes is `WrittenEntries` |
| TableBuilder.RowsLabelled | generate_freq_table.py:28-34 | entry `i` carries the label of MIDI `7 + i`, and no label occurs twice |
| TableBuilder.CompleteTable | generate_freq_table.py:28-34 | a complete table has 102 entries whose labels read back as 7, 8, ..., 108 and are pairwise distinct |
| TableBuilder.OnlyTwelveTemperamentsRead | generate_freq_table.py:32 | ratios after the twelfth never change the table |
| TableBuilder.ReferenceNote | generate_freq_table.py:30-33 | the entry for MIDI 69 is "A4" with frequency `a4 * stretch(69) * temper[9]`, its equal-tempered factor exactly 1 |
| TableBuilder.OctaveIsDouble | generate_freq_table.py:30-33 | notes twelve apart share the temperament ratio, and where the stretch factor agrees the upper one is exactly twice the lower one |
| NoteMatcher.TableLine | pitch_detector_en.py:17-20 | a line is kept exactly when `strip().split()` gives two tokens, and then it yields them as (note, number) |
| NoteMatcher.ReadRows | pitch_detector_en.py:13-22 | the only error the load raises is ValueError |
| NoteMatcher.ReadRowsValid | pitch_detector_en.py:13-22 | a successful load is a well-formed dict: each key once in the order |
| NoteMatcher.LoadFreqTable | pitch_detector_en.py:13-22 | the loop returns what the line-by-line specification `ReadTable` gives, and a table it returns is a well-formed dict |
| NoteMatcher.ReadRowsRaisedPersists | pitch_detector_en.py:21 | once `float()` has raised, the rest of the file cannot change the outcome |
| NoteMatcher.ReadRowsOkStep | pitch_detector_en.py:16-21 | reading one more line succeeds exactly when the lines before it were read and the new line is skipped or its number parses |
| NoteMatcher.ReadRowsOk | pitch_detector_en.py:16-21 | the load succeeds exactly when `float()` accepts the number on every kept line |
| NoteMatcher.ReadRowsKeys | pitch_detector_en.py:17-21 | the keys are exactly the notes of the kept lines |
| NoteMatcher.ReadRowsLastWins | pitch_detector_en.py:21 | a note's value comes from the last line that names it |
| NoteMatcher.ReadRowsKeyOrder | pitch_detector_en.py:14-21 | the keys are the notes of the kept lines in order of first appearance; a note named again keeps its first place |
| NoteMatcher.RepeatedNoteExample | pitch_detector_en.py:14-21 | lines A, B, A load as keys A then B, with A holding the number of the last A line |
| NoteMatcher.ReadRowsKeysInOrder | pitch_detector_en.py:14-21 | with no line skipped and no note repeated, key `i` is the note of line `i` |
| NoteMatcher.ReadRowsInOrder | pitch_detector_en.py:14-21 | kept lines with distinct notes load in file order, each note holding its own number |
| NoteMatcher.SkipsMalformedLine | pitch_detector_en.py:18-19 | a line without exactly two tokens leaves the table as it was |
| NoteMatcher.CentsTo | pitch_detector_en.py:39 | the cents are finite exactly when the table frequency is |
| NoteMatcher.BestIndex | pitch_detector_en.py:36-42 | the note the scan settles on lies among the entries seen so far and has a positive finite frequency |
| NoteMatcher.FindClosestNote | pitch_detector_en.py:25-47 | the two loops return what `ClosestNote` gives; the first loop changes nothing |
| NoteMatcher.BestIndexNone | pitch_detector_en.py:36-45 | the scan finds nothing exactly when no entry is positive and finite |
| NoteMatcher.BestIndexNearest | pitch_detector_en.py:36-42 | the chosen entry is at least as close as every candidate and strictly closer than every earlier one |
| NoteMatcher.ClosestNoteAbsent | pitch_detector_en.py:26-45 | there is no match exactly when the frequency is None, not positive, or not finite, or when no table entry is positive and finite; an empty table is a special case |
| NoteMatcher.ClosestNoteSound | pitch_detector_en.py:37-47 | a match is a note of the table, returned with `freq_table[note]` (positive and finite) and the signed cents from it |
| NoteMatcher.ClosestNoteNearest | pitch_detector_en.py:36-42 | no positive entry is nearer in absolute cents, and every positive entry earlier in the dict's order is strictly farther |
| NoteMatcher.ClosestNoteIsFirstNearest | pitch_detector_en.py:36-42 | conversely, the first entry that no entry beats is the one returned |
| NoteMatcher.ExactFrequencyHasNoDeviation | pitch_detector_en.py:39-47 | a frequency equal to a table entry matches with 0 cents |
| NoteMatcher.SingleEntryExample | pitch_detector_en.py:25-47 | {"A4": 440.0} and 440.0 give ("A4", 440.0, 0.0) |
| PitchEstimator.TruncDiv | pitch_detector_en.py:89-90 | `int(a / b)` keeps the sign of `a` |
| PitchEstimator.TruncDivBounds | pitch_detector_en.py:89-90 | `int(a / b)` is the quotient rounded toward zero, for either sign of `a` |
| PitchEstimator.SliceIndex | pitch_detector_en.py:94 | a slice bound is normalised as Python does: negative bounds count from the end, and bounds are clipped to the buffer |
| PitchEstimator.Padded | pitch_detector_en.py:85-87 | the padded buffer is `8 * len(corr)` long |
| PitchEstimator.PaddedAt | pitch_detector_en.py:85-87 | the padded buffer holds `corr` in front and zeros after it |
| PitchEstimator.LagMax | pitch_detector_en.py:90-92 | after the clamp, `lag_max <= len(corr) - 1` |
| PitchEstimator.ArgMaxIsFirstMaximum | pitch_detector_en.py:99 | `np.argmax` is the first position of the maximum |
| PitchEstimator.ArgMaxStep | pitch_detector_en.py:99 | one more element moves the first maximum to it exactly when it is strictly larger |
| PitchEstimator.PeakIndex | pitch_detector_en.py:94-99 | there is a peak exactly when the window is not empty, and then it lies inside the window |
| PitchEstimator.RegionStartsAtLagMin | pitch_detector_en.py:94-99 | a non-empty window starts exactly at `lag_min`, so adding `lag_min` to the argmax gives a position in the buffer |
| PitchEstimator.PeakIndexFromRegion | pitch_detector_en.py:94-99 | a non-empty window gives `lag_min` plus the argmax of the window |
| PitchEstimator.PitchFromLag | pitch_detector_en.py:106 | `sample_rate / lag` for a non-zero lag; an infinite lag gives 0.0, and NaN or zero gives a non-finite pitch |
| PitchEstimator.FirstArgMax | pitch_detector_en.py:99 | the scan over the array slice returns the first maximum |
| PitchEstimator.PadCorrelation | pitch_detector_en.py:85-87 | the freshly allocated buffer holds `corr` padded with zeros |
| PitchEstimator.LagWindow | pitch_detector_en.py:89-94 | the clamped lag bounds land on the slice positions `RegionStart` and `RegionStop` |
| PitchEstimator.DetectPitch | pitch_detector_en.py:85-107 | the method returns what the specification `Pitch` gives: None for an empty window or a peak below 1e-6, and otherwise the pitch of the refined peak |
| PitchEstimator.DefaultRateWindow | pitch_detector_en.py:89-94 | at 11025 Hz the lags run from 2 to 459 and the window is slots 2 to 3671 |
| PitchEstimator.PeakWithinWindow | pitch_detector_en.py:89-99 | for a non-negative rate, `lag_min <= peak < 8 * lag_max <= len(corr_padded) - 8` |
| PitchEstimator.PeakIsInterior | pitch_detector_en.py:89-99 | for a rate of at least `fmax`, `lag_min >= 1`, so the peak always has two neighbours |
| PitchEstimator.PeakIsFirstMaximum | pitch_detector_en.py:94-99 | the peak is the first maximum of the window |
| PitchEstimator.SliceMaximum | pitch_detector_en.py:99 | the argmax of a slice, offset by where the slice starts, is the first maximum of that part of the buffer |
| PitchEstimator.QuietCorrelationGivesNone | pitch_detector_en.py:101-102 | a correlation below 1e-6 everywhere, an all-zero one included, gives None |
| PitchEstimator.PeakWithinCorrelation | pitch_detector_en.py:85-102 | a detected pitch comes from a lag inside `corr`, never from the padding, and that lag reaches the noise floor |
| PitchEstimator.NegativeRateCountsFromTheEnd | pitch_detector_en.py:89-94 | at -100 Hz over 10 lags, the window is slots 0 to 47 of 80 |
| PitchEstimator.NegativeRateWithoutWindow | pitch_detector_en.py:89-99 | a rate above -24 Hz or at most -5000 Hz, below zero, gives an empty window, so no peak and no pitch |
| PitchEstimator.PitchBelowFMin | pitch_detector_en.py:89-107 | a single correlation peak at lag 900 is reported as 12.25 Hz, below `fmin` |
| PitchEstimator.EdgePeakUnchanged | pitch_detector_en.py:50-58 | at either end of the spectrum, or outside it, the peak index is returned unchanged |
| PitchEstimator.SymmetricPeakUnchanged | pitch_detector_en.py:50-56 | equal neighbours put the vertex on the peak itself |
| PitchEstimator.VertexOfParabola | pitch_detector_en.py:50-56 | three samples of any parabola put the refined position exactly at its vertex |
| PitchEstimator.LocalMaximumWithinHalfSample | pitch_detector_en.py:50-56 | at a local maximum the refined position is within half a sample of the peak, and only a flat top gives NaN |
| PitchEstimator.PitchNearPeakLag | pitch_detector_en.py:99-107 | when the peak has both neighbours in the window, a positive rate gives a non-finite pitch or one between `rate / (peak + 0.5)` and `rate / (peak - 0.5)` |
| TableFile.TabSeparatedSplits | pitch_detector_en.py:17 | `label\tnumber\n` splits into the label and the number |
| TableFile.EntryLineParses | generate_freq_table.py:34 | every line the builder writes is one the loader keeps, with the entry's label and formatted number |
| TableFile.WrittenEntriesLoad | pitch_detector_en.py:13-22 | entries with distinct labels load back with the labels as keys in writing order |
| TableFile.GeneratedTableLoads | generate_freq_table.py:19-34 | what `GenerateFrequencyTable` writes (nothing without nine stretch ratios, else a complete table or one cut short) loads back with the labels of MIDI 7 upwards as keys in order, each holding its formatted number as read back |

## Left out

- The low-pass filter, Hann window, mean removal and `np.correlate`
  (pitch_detector_en.py:61-83). They are floating-point numerics over numpy; the
  autocorrelation `corr` is an input to the model.
- Audio capture, printing, the endless read loop with its sleep and KeyboardInterrupt,
  and command-line handling (pitch_detector_en.py:109-145,
  generate_freq_table.py:36-52). These are device and console I/O.
- Opening, reading and writing files. A file is the sequence of its lines, or of the
  entries written to it.
- `np.log2`, `2 ** x` and scipy's `PchipInterpolator`. They are function values
  (`Math`, `Pchip`). The lemmas that need exact values rely only on the identities in
  `Numerics.Laws`.
- `float()` parsing and `.6f` formatting. They are the parameters `parse` and `format`.
- TableBuilder.LoadCentFile: its `parse` returns a real, so a cents file containing
  "inf" or "nan" is not modelled. The power `2 ** (cent / 1200)` is exact, so the
  OverflowError that Python's float power raises for a cents value of 1228800 or more
  is not modelled either; the only error the model raises is ValueError.
- Floating-point rounding, overflow and underflow. Arithmetic is exact over reals.
  - A ratio `freq / target` small enough to underflow to 0 would give -inf cents in
    Python, which never wins; the model's cents stay finite there.
  - `PitchEstimator.TruncDiv` matches `int(a / b)` only while the rounded double
    quotient never crosses an integer that the exact quotient does not reach. That
    holds for a sample rate of magnitude below 2^53.
- NaN inside the correlation. `np.argmax` would pick the first NaN; the model's
  samples are reals.
