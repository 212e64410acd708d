# LAS well reader — Dafny model

This project models the reading side of `Read_Plot_CPI.py`, a script that loads a
well's computer-processed interpretation (CPI) from a LAS file. It covers:

- `read_las`. It walks the lines of the file up to the first line holding `~A`, the
  data-section marker. Each line is taken as `readlines()` returns it, so every line
  but possibly the last ends with its `"\n"`. On every earlier line it tries thirteen attribute keywords
  (START, STOP, STEP, NULL, DATE, NAME, FIELD, LONG, LATI, XCOORD, YCOORD, KB, GL).
  When a keyword is one of the line's upper-cased whitespace-separated words, it
  reads the raw value: the stripped text between the first `.` and the first `:`.
  A numeric attribute gets the float of that text, or else the float of its last
  word, or else NaN; when the raw value is blank it gets nothing, and an earlier
  entry stays. DATE, NAME and FIELD keep the text as it is, blank or not. The
  curve names are the words of the marker line after `~A`.
- The `Well` object. It starts with its two names and -999 everywhere else (DATE is
  1900-01-01).
- The script at the end of the file. It builds the well from NAME and FIELD, copies
  every other attribute onto it with `setattr`, and replaces the NULL value in the
  log table with NaN.
- The depth-interval correction that `petrophysics_by_depth` and `plot_cpi_by_depth`
  apply to a requested top and bottom.

Modules:

- `PyStr` (`pystr.dfy`): the Python string operations the reader uses. These are
  `in`, `find`, slicing with negative and out-of-range bounds, `strip`, `split` and
  `upper`.
- `PyFloat` (`pyfloat.dfy`): floats with NaN and Python's comparisons. It also holds
  `float()` on decimal literals.
- `LasReader` (`las_reader.dfy`): `read_las` as a method over the file's lines,
  proved against the functions `HeaderOf`, `StartLogIndex` and `LogNames`.
- `LasProperties` (`las_properties.dfy`): what the header pass guarantees.
- `LasLines` (`las_lines.dfy`): lines of the usual `MNEM.UNIT VALUE : DESCRIPTION`
  shape, for all contents.
- `WellModel` (`well.dfy`): the `Well` class, the `setattr` loop, the NULL
  replacement and the script that ties them together.
- `Interval` (`interval.dfy`): the top and bottom correction.

Behaviour a reader of LAS files might expect that the code does not have:

- A line is selected when the keyword is any word of the upper-cased line, not when
  its description matches a label. So `FLD . WILDCAT : FIELD NAME` sets both FIELD
  and NAME (`LasLines.FieldNameLine`).
- The raw value ends at the first `:`, not the last one.
- Without a `:`, Python's `find` returns -1, so the slice drops the line's last
  character. For a line ending in `"\n"` that character is the newline and the whole
  value is kept (`LasLines.NewlineNoColon`); only an unterminated last line loses a
  real character (`LasLines.NoColonDropsLastChar`).
- A file without `~A` is not an error. The data section is taken to start at line 0,
  and every line is scanned for attributes (`LasReader.NoDataLine`). An empty file
  fails with an IndexError. Any other file, with or without `~A`, fails with a
  ValueError when the curve names taken from the marker line (line 0 when there is
  none) do not match the table's column count (Read_Plot_CPI.py:72-75).
- DATE is not parsed into a date. The raw text replaces the well's default
  `datetime(1900, 1, 1)`.
- NULL replacement is done by the script on the table `read_csv` returns. No separate
  raw copy is kept.

## Model

| member | source | states |
|---|---|---|
| PyStr.FindFirst | Read_Plot_CPI.py:54 | `find` gives the index of the first occurrence, and -1 exactly when the character is absent |
| PyStr.ContainsOccurs | Read_Plot_CPI.py:47 | `"~A" in line` holds exactly when the marker occurs at some position of the line |
| PyStr.StripParts | Read_Plot_CPI.py:54 | `strip` removes exactly the leading and trailing whitespace; what remains is empty or starts and ends with a non-space |
| PyStr.UpperAppend | Read_Plot_CPI.py:53 | `upper` works character by character, so it distributes over concatenation |
| PyStr.TokensAreWords | Read_Plot_CPI.py:53 | every word `split` returns is non-empty and holds no whitespace |
| PyStr.TokensEmptyIff | Read_Plot_CPI.py:61 | `split` returns no words exactly when the text is all whitespace |
| PyStr.TokensAppend | Read_Plot_CPI.py:53 | texts joined at whitespace split into the words of the first followed by the words of the second |
| PyStr.TokensOfStrip | Read_Plot_CPI.py:54 | stripping a text does not change its words |
| PyStr.TokensOfWord | Read_Plot_CPI.py:63 | a non-empty run without whitespace is its own single word |
| PyStr.TokensJoin | Read_Plot_CPI.py:72 | a word followed by a blank is the first word of the split |
| PyFloat.ParsedIsOneToken | Read_Plot_CPI.py:58-64 | text `float` accepts is exactly one word, so trying the whole text first never differs from trying its last word |
| PyFloat.ParseFloatDecimal | Read_Plot_CPI.py:58 | `float("ddd.ddd")` is the decimal value of the digits |
| PyFloat.ParseDigits | Read_Plot_CPI.py:58 | `float` of a run of digits is the value of the digits |
| PyFloat.ParseFloatNat | Read_Plot_CPI.py:58 | every natural number written in decimal reads back as itself |
| PyFloat.ParseFloatNegative | Read_Plot_CPI.py:58 | a minus sign before the digits gives the negated value |
| PyFloat.NatStringValue | Read_Plot_CPI.py:58 | the digits written for a number have that number as their value |
| LasReader.LineValue | Read_Plot_CPI.py:52-69 | a line stores a value for an attribute only if the keyword is a word of the upper-cased line, and the value is a number exactly for the ten numeric attributes |
| LasReader.FirstDataLine | Read_Plot_CPI.py:45-50 | the first line holding `~A`: it holds the marker and no earlier line does; None exactly when no line holds it |
| LasReader.FirstDataLineUnique | Read_Plot_CPI.py:45-50 | a line holding the marker with none before it is the data-section start |
| LasReader.LogNames | Read_Plot_CPI.py:72 | the curve names are the words of the marker line after its first: one fewer than the words, none when there are no words, each non-empty and free of whitespace |
| LasReader.ReadLas | Read_Plot_CPI.py:34-76 | an empty file fails with IndexError; otherwise the data-section index is in range; the result is the dictionary of the header lines and the curve names, or ValueError when the table's column count differs |
| LasReader.ScanHeader | Read_Plot_CPI.py:43-69 | the header loop returns the dictionary of the lines before the first marker line, and that line's index, 0 when there is none |
| LasReader.ReadAttributes | Read_Plot_CPI.py:52-69 | trying all thirteen keywords in order on one line gives the dictionary `ApplyLine` describes |
| LasReader.ReadAttribute | Read_Plot_CPI.py:53-69 | one keyword either stores what `LineValue` gives or leaves the dictionary alone |
| LasReader.RawValue | Read_Plot_CPI.py:54 | the raw value of a non-empty line is shorter than the line, that of an empty line is empty, and it neither starts nor ends with whitespace |
| LasReader.NumericValue | Read_Plot_CPI.py:56-67 | the `try`/`except` cascade stores nothing exactly when the raw value has no word |
| LasReader.StartLogIndex | Read_Plot_CPI.py:43-50 | the data-section index is in range for a non-empty file; it is the first line holding `~A` when there is one, and 0 when there is none |
| LasReader.HeaderOf | Read_Plot_CPI.py:43-69 | the dictionary of the header lines holds numbers exactly for the ten numeric attributes |
| PyFloat.ParseFloat | Read_Plot_CPI.py:58 | text `float` accepts is non-empty once stripped and made only of digits, signs and points |
| LasProperties.AssignAt | Read_Plot_CPI.py:52-69 | trying a list of keywords on a line changes an attribute only if it is listed and the line stores it, and then to that value |
| LasProperties.ApplyLineAt | Read_Plot_CPI.py:52-69 | one header line replaces an attribute exactly when it stores a value for it |
| LasProperties.EveryAttributeTried | Read_Plot_CPI.py:40-41 | each of the thirteen attributes is in the keyword list |
| LasProperties.ColumnAt | Read_Plot_CPI.py:52-69 | the column of an attribute lists what each line stores for it, line by line |
| LasProperties.ScanLastWins | Read_Plot_CPI.py:45-69 | after a run of lines an attribute holds what the last line storing it stored, or its old entry if none did |
| LasProperties.HeaderValue | Read_Plot_CPI.py:45-69 | an attribute is in the returned dictionary exactly when a line before the marker stores it, with the value of the last such line |
| LasProperties.LinesAfterMarkerIgnored | Read_Plot_CPI.py:47-50 | replacing everything after the marker line changes neither the dictionary, nor the data-section index, nor the marker line |
| LasReader.NoDataLine | Read_Plot_CPI.py:43-50 | without a marker line the index stays 0 and every line is scanned |
| LasProperties.HeaderWellTyped | Read_Plot_CPI.py:56-69 | in the returned dictionary the numeric attributes hold floats and DATE, NAME, FIELD hold text |
| LasProperties.NumericFallback | Read_Plot_CPI.py:56-67 | a numeric attribute gets the float of the raw value's last word, NaN when that word is not a float, and nothing exactly when the raw value is blank |
| LasProperties.NumericLineValue | Read_Plot_CPI.py:53-67 | a selected numeric attribute gets the float of the last word of the raw value, NaN when that word is not a float, nothing when the raw value has no word |
| LasProperties.RawValueBetween | Read_Plot_CPI.py:54 | the raw value is the stripped text after the first `.` (or from the start) up to the first `:` (or the last character, which is dropped); it is empty when the `:` is not after the `.` |
| LasProperties.RawValueIs | Read_Plot_CPI.py:54 | when the text between the first `.` and the slice end is known, the raw value is that text stripped |
| LasLines.StandardLineRaw | Read_Plot_CPI.py:54 | on a line `MNEM.rest:description` the raw value is `rest` stripped, unit included |
| LasLines.NoColonDropsLastChar | Read_Plot_CPI.py:54 | on an unterminated line `MNEM.rest` without a `:` the raw value loses the last character of `rest` |
| LasLines.NewlineNoColon | Read_Plot_CPI.py:45-54 | on a line `MNEM.rest` without a `:` that ends in its newline, the raw value is all of `rest`, stripped |
| LasLines.UpperTokensAppend | Read_Plot_CPI.py:53 | the words of an upper-cased line are those of the part before a blank followed by those after it |
| LasLines.DescriptionKeyword | Read_Plot_CPI.py:53 | a keyword that is a word of the description selects the attribute, whatever the mnemonic |
| LasLines.StandardNumericLine | Read_Plot_CPI.py:54-67 | on a standard line a selected numeric attribute gets the float of the last word before the `:`, NaN, or nothing when there is no word |
| LasLines.UnitThenValue | Read_Plot_CPI.py:54-64 | on `MNEM.UNIT VALUE : DESCRIPTION` with a keyword in the description, the attribute is the float of VALUE |
| LasLines.StandardTextLine | Read_Plot_CPI.py:68-69 | on a standard line DATE, NAME and FIELD get the stripped text before the `:`, not upper-cased |
| LasLines.FieldNameLine | Read_Plot_CPI.py:52-69 | a line whose words include FIELD and NAME stores the same text under both |
| LasLines.MarkerLineNames | Read_Plot_CPI.py:72 | after the marker word, the words of the marker line are the curve names |
| WellModel.Default | Read_Plot_CPI.py:19-29 | a new well holds 1900-01-01 for DATE and -999 for every other attribute |
| WellModel.Well.constructor | Read_Plot_CPI.py:16-30 | a new well holds the given names, the defaults and an empty log table |
| WellModel.Well.SetAttr | Read_Plot_CPI.py:241 | `setattr` sets one attribute and changes nothing else |
| WellModel.AssignAttributes | Read_Plot_CPI.py:239-241 | every dictionary key other than NAME and FIELD is copied onto the well; every other attribute is unchanged |
| WellModel.NullToMissing | Read_Plot_CPI.py:243 | a replaced cell is the cell or NaN and never equals NULL; only a cell equal to NULL changes |
| WellModel.NullToMissingSettles | Read_Plot_CPI.py:243 | no replaced cell equals NULL, and replacing again changes nothing |
| WellModel.ReplaceNull | Read_Plot_CPI.py:243 | every cell of the table is replaced in place as `NullToMissing` says |
| WellModel.LoadWell | Read_Plot_CPI.py:235-246 | the load fails with IndexError on an empty file, with ValueError when the curve names do not fit the table, and otherwise with KeyError on NAME, then FIELD, when missing; it succeeds exactly when none of these happens; the well then holds each attribute the file gives and the default otherwise, NULL is a number, and the table has NULL replaced; on failure the table is untouched |
| WellModel.BuildWell | Read_Plot_CPI.py:237-246 | KeyError on NAME, then FIELD, when missing; otherwise a fresh well holding each attribute of the dictionary and the default for the rest, with NULL replaced in the table |
| Interval.ClampTop | Read_Plot_CPI.py:82-83 | the corrected top is the request or START, never above START, and -999 remains only when it is START |
| Interval.ClampBottom | Read_Plot_CPI.py:84-85 | the corrected bottom is the request or STOP, never below STOP, and -999 remains only when it is STOP |
| Interval.ClampInterval | Read_Plot_CPI.py:82-85 | each end is the request or the well's limit; the top is not less than START and the bottom not greater than STOP |
| Interval.DefaultIsWholeRange | Read_Plot_CPI.py:80-85 | the default arguments give START..STOP |
| Interval.InsideRangeKept | Read_Plot_CPI.py:82-85 | a request within START..STOP, neither end -999, is kept |
| Interval.ClampIdempotent | Read_Plot_CPI.py:82-85 | correcting a corrected interval changes nothing |
| Interval.ClampWithinRange | Read_Plot_CPI.py:82-85 | with finite values the top ends at least at START and the bottom at most at STOP |

`plot_cpi_by_depth` repeats the same correction at Read_Plot_CPI.py:108-111. It is
modelled once, by the `Interval` functions.

## Left out

- File access: opening and reading the file twice (Read_Plot_CPI.py:37, 71). The
  file is given as its sequence of lines.
- The numeric table load with `pd.read_csv` (Read_Plot_CPI.py:74). Its cells are
  given to `LoadWell` as a grid of floats, and its column count is given to
  `ReadLas`. Rows the CSV reader would reject are not modelled.
- `set_index(keys="DEPTH")` (Read_Plot_CPI.py:245) is not modelled, nor the KeyError
  it raises when no curve is named DEPTH. `print(vars(my_well))` is output only.
- The pay and reservoir statistics (Read_Plot_CPI.py:87-102) and all plotting
  (Read_Plot_CPI.py:113-231). They are floating-point averages over pandas filters
  and matplotlib drawing.
- PyFloat.ParseFloat: only decimal literals of ASCII digits are read. These are
  surrounding whitespace, an optional sign, digits and at most one point. Python's
  `float()` also takes exponents, `inf`, `nan`, underscores between digits and
  non-ASCII decimal digits (`float('١٢')` is 12.0). Such text is treated as not a
  float here, so a raw value like `1e3` or `١٢` yields NaN in the model.
- PyStr.Upper: only ASCII letters are upper-cased, one character for one. Python's
  `upper` also maps some non-ASCII letters to ASCII ones (U+017F `ſ` to `S`, U+0131
  `ı` to `I`, U+FB01 `ﬁ` to `FI`), so a line word `ſtart` selects START in Python
  but not in the model. It can also lengthen text (`ß` to `SS`), which the model's
  `|r| == |s|` rules out. These mappings are not modelled.
- The order of `well_props.keys()` is not modelled: each key sets a different
  attribute, so the order cannot change the outcome.
- `Start_log_readings = True` (Read_Plot_CPI.py:48) assigns a variable nothing
  reads, and `start_log_type` (Read_Plot_CPI.py:39) is never used. Neither appears
  in the model.
- The `Field` base class (Read_Plot_CPI.py:9-11) is folded into `Well`: its one
  attribute is the well's `field`.
- pandas `replace` matches NaN cells when NULL is itself NaN. Replacing NaN by NaN
  leaves the same table, so comparing with Python's `==` gives the same result.
- Python's `int` -999 defaults and `float` values are both modelled as reals; -999
  and -999.0 compare equal in Python as well.
