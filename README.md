# raw-to-csv: METAR records to CSV rows, modelled in Dafny

`raw-to-csv` turns a station's raw METAR record lines into one CSV file. Each
line holds a 12-character `YYYYMMDDHHmm` timestamp, one separator character and
the METAR report, usually closed by `=`. The tool does the following:

- It skips lines that mention `NIL`.
- It splits each remaining line into timestamp and report. Lines are read
  with `readlines()`, so a line keeps its newline. That newline stays at the
  end of the report part handed to the decoder (`ParseLineOfReadLine`).
- It hands both to an external METAR decoder.
- It flattens the decoded report into one comma-joined row under a fixed
  30-column header. Missing numbers become `null`. Numbers get one decimal,
  except pressure, which gets two. Weather and cloud categories are abbreviated
  to their METAR codes (code form FM 15 of WMO-No. 306). The weather list is
  flattened to 4 columns and the cloud list to 4 slots of 3 columns.

The model covers the text layer of `src/to_csv.py` and the per-line loop of
`src/__main__.py`. It has six modules:

- `Options`: Python `Optional[str]` values. It covers how an f-string prints
  them (`None` prints as `None`) and Python truthiness.
- `CsvText`: `",".join` and `str.split(",")`. It includes comma counting and
  the split/join round trip that lines a row up against the header.
- `Decimal`: `str(int)`, and the `.1f`/`.2f` format specs as round-half-even
  on the exact value. Each comes with a read-back lemma.
- `LineSplitter`: `parse_line`.
- `RowFormatter`:
  - `num_to_str`, the four weather maps, `process_weather` (a method with a
    loop), `cavok_to_bin`, `process_cover`, `process_cloud_layer`,
    `process_clouds` (a method with a loop) and `metar_to_csv` (a method built
    by straight-line appends);
  - the header;
  - lemmas that compare a row with the header.
- `Driver`: the NIL filter and the write loop. The decoder is a function
  parameter.

The loops are methods proved equal to pure specification functions. The
properties are then proved about those functions.

## Where the row and the header differ

The header list (src/to_csv.py:22-55) announces one weather group of four
columns (`Weather_intensity` … `Weather_obscuration`) and four cloud layers of
three columns each (`Sky_layer1_cover` … `Sky_layer4_cloud`). The row the code
writes differs from that header in two ways. The model follows the code.

- **Weather columns.** There is one weather group in the header, but the
  report may hold several. `process_weather` overwrites its four variables on
  each of up to three iterations (src/to_csv.py:111-119). The columns
  therefore come from entry `min(n, 3) - 1`, the last of the first three
  entries, not from the first (`WeatherColumns`, `WeatherFromOneEntry`).
  Entries from the fourth on are never read (`WeatherIgnoresLaterEntries`).
- **Cloud columns.** The header has twelve cloud columns whatever the number
  of layers. `process_clouds` puts a comma after each present layer but none
  after a `null,null,null` pad (src/to_csv.py:159-164), so adjacent pads fuse
  (`nullnull`). When no station code, weather word or cloud type holds a
  comma, a row with `k` layers has `26 + min(k, 4)` commas. It then lines up
  with the 30-column header only when `k == 3` (`RowCommas`,
  `RowMatchesHeader`, `NoLayersBlock`). Layers from the fifth on are never
  read (`CloudsIgnoreLaterLayers`).

Some values print as `None` rather than `null`. The weather maps return Python
`None` unchanged, and the f-string prints it as `None` (src/to_csv.py:121).
`process_cover` returns `None` for an unknown phrase and for the `null`
placeholder that replaces an absent cover, so the cover column then reads
`None` (src/to_csv.py:132-153; `CoverColumn`).

## Model

| member | source | states |
|---|---|---|
| LineSplitter.RemoveEquals | src/to_csv.py:9 | the cleaned line holds no `=` and is no longer than the input |
| LineSplitter.RemoveEqualsKeeps | src/to_csv.py:9 | a line without `=` is left unchanged, so cleaning is idempotent |
| LineSplitter.RemoveEqualsCounts | src/to_csv.py:9 | every character other than `=` survives as many times as it occurred |
| LineSplitter.ParseLine | src/to_csv.py:8-14 | neither the timestamp nor the report part contains `=` |
| LineSplitter.ParseLineSlices | src/to_csv.py:8-14 | the parts are the clamped slices `[0:12]` and `[13:]` of the cleaned line; the timestamp has 12 characters exactly when the cleaned line has at least 12; the report is empty when the cleaned line has at most 13 |
| LineSplitter.ParseLineReassembles | src/to_csv.py:11-12 | when the cleaned line has at least 13 characters, timestamp + dropped separator + report give back the cleaned line |
| LineSplitter.ParseLineOfRecord | src/to_csv.py:8-14 | a record `stamp + sep + report + "="` splits into `stamp` and the report with its `=` removed |
| LineSplitter.ParseLineOfReadLine | src/to_csv.py:8-14 | a record line as `readlines()` yields it, `stamp + sep + report + "=\n"`, splits into `stamp` and the cleaned report with the newline still at its end |
| Decimal.NatToString | src/to_csv.py:172-176 | `str(n)` is a non-empty digit string with no leading zero unless `n == 0` |
| Decimal.NatToStringRoundTrip | src/to_csv.py:172-176 | the digits of `str(n)` read back as `n` |
| Decimal.IntToStringRoundTrip | src/to_csv.py:172-176 | `str(i)` is well-formed integer text with no comma and reads back as `i` |
| Decimal.RoundHalfEven | src/to_csv.py:62-63 | the result is within 0.5 of the input, and a tie goes to the even neighbour |
| Decimal.FormatFixed | src/to_csv.py:62-63 | the text is `[-]digits.digits` with exactly `d` digits after the point; it starts with `-` exactly when the value is negative (so `-0.04` prints as `-0.0`), and its whole part has no leading zero |
| Decimal.FormatFixedValue | src/to_csv.py:62-63 | the printed text reads back as the value rounded half-even to `d` decimals |
| Decimal.RoundedToError | src/to_csv.py:62-63 | the printed value is within half a unit of the last printed digit of the input |
| Decimal.FixedTextPlain | src/to_csv.py:62-63 | fixed-point text holds no comma and is never the word `null` |
| RowFormatter.NumToStr | src/to_csv.py:58-63 | the text holds no comma, and it is `null` exactly when the number is absent |
| RowFormatter.NumToStrValue | src/to_csv.py:58-63 | a present number prints with 1 decimal when `sig == 1` and 2 otherwise, and reads back as the value rounded half-even to that many decimals |
| RowFormatter.ProcessIntensity | src/to_csv.py:66-71 | equals the lookup in the table `nearby`→`VC`; anything else, `None` included, is returned unchanged |
| RowFormatter.ProcessDescription | src/to_csv.py:74-81 | equals the lookup in `thunderstorm`→`TS`, `showers`→`SH`, with pass-through otherwise |
| RowFormatter.ProcessPrecipitation | src/to_csv.py:84-91 | equals the lookup in `rain`→`RA`, `drizzle`→`DZ`, with pass-through otherwise |
| RowFormatter.ProcessObscuration | src/to_csv.py:94-101 | equals the lookup in `fog`→`FG`, `mist`→`BR`, with pass-through otherwise |
| RowFormatter.AbbreviateIdempotent | src/to_csv.py:66-101 | a pass-through table none of whose codes is a key is idempotent |
| RowFormatter.WeatherMapsIdempotent | src/to_csv.py:66-101 | applying any of the four weather maps twice is the same as applying it once |
| RowFormatter.ProcessWeather | src/to_csv.py:104-123 | the result is the comma-join of the weather columns; an empty list gives exactly `null,null,null,null` |
| RowFormatter.WeatherFromOneEntry | src/to_csv.py:111-119 | for a non-empty list the columns are the mapped fields of entry `min(n, 3) - 1` alone |
| RowFormatter.WeatherIgnoresLaterEntries | src/to_csv.py:111 | lists that agree on their first three entries give the same columns |
| RowFormatter.WeatherFields | src/to_csv.py:121 | with comma-free weather words, a CSV reader sees exactly the four weather columns |
| RowFormatter.CavokToBin | src/to_csv.py:126-129 | the text is `1` exactly when CAVOK is set and `0` exactly when it is not |
| RowFormatter.ProcessCover | src/to_csv.py:132-145 | the result is present exactly for the six cover phrases, and then it is that phrase's code |
| RowFormatter.CoverColumn | src/to_csv.py:148-153 | the cover column is the code of a truthy known phrase, and `None` otherwise (absent, empty or unknown) |
| RowFormatter.HeightAndTypeColumns | src/to_csv.py:148-153 | the height column is `null` exactly when the height is absent; the type column is the type when it is truthy and `null` otherwise |
| RowFormatter.ProcessCloudLayer | src/to_csv.py:148-153 | the layer text is the comma-join of the layer's three column values (`CloudValues`: cover code, height, type) |
| RowFormatter.CloudLayerFields | src/to_csv.py:148-153 | with a comma-free type, a reader sees exactly cover, height and type; the layer text has two commas plus any in the type |
| RowFormatter.ProcessClouds | src/to_csv.py:156-166 | the result is the concatenation of the four slots over the layers' texts |
| RowFormatter.SlotsLayout | src/to_csv.py:159-164 | `n` slots are the first `min(n, k)` layer texts in order, each followed by a comma, then one pad per missing layer |
| RowFormatter.CloudLayout | src/to_csv.py:156-166 | the cloud block is the first `min(k, 4)` layers in original order, then `4 - min(k, 4)` pads |
| RowFormatter.CloudsIgnoreLaterLayers | src/to_csv.py:159-160 | layer lists that agree on their first four layers give the same cloud block |
| RowFormatter.PadFields | src/to_csv.py:164 | one pad alone reads as three `null` fields with two commas |
| RowFormatter.FusedPads | src/to_csv.py:164 | two adjacent pads read as five fields, the middle one `nullnull` |
| RowFormatter.NoLayersBlock | src/to_csv.py:159-164 | with no layers the block is four pads written back to back: 8 commas, so a reader sees 9 fields instead of 12 |
| RowFormatter.CloudCommas | src/to_csv.py:156-166 | with comma-free cloud types the block has `8 + min(k, 4)` commas |
| RowFormatter.CloudFieldsThreeLayers | src/to_csv.py:156-166 | with exactly three layers the block splits into the three layers' columns in order, then `null,null,null` |
| RowFormatter.MetarToCsv | src/to_csv.py:169-190 | the row is the comma-join of the sixteen pieces (time, station, wind, visibility, CAVOK, weather block, cloud block, temperature, dewpoint, pressure with 2 decimals), ended by a newline |
| RowFormatter.RowSplit | src/to_csv.py:169-190 | a reader of a comma-free report's row sees the eleven leading values, the four weather columns, the fields of the cloud block and the three trailing values, in that order |
| RowFormatter.RowCommas | src/to_csv.py:169-190 | when no station code, weather word or cloud type holds a comma, with `k` layers the row has `26 + min(k, 4)` commas and `27 + min(k, 4)` fields |
| RowFormatter.HeaderColumnsThreeLayers | src/to_csv.py:24-55 | with three layers the header's cloud columns are the three layers' values, then one `null` triple |
| RowFormatter.RowMatchesHeaderThreeLayers | src/to_csv.py:169-190 | with three layers and comma-free text, the row's fields are the thirty values the header announces, in order |
| RowFormatter.RowMatchesHeader | src/to_csv.py:24-55 | when no station code, weather word or cloud type holds a comma, the row's fields equal the thirty values the header announces, column by column, exactly when there are three cloud layers |
| Driver.HasNil | src/__main__.py:64 | true exactly when `NIL` occurs somewhere in the line |
| Driver.HeaderPlain | src/to_csv.py:24-55 | no header name holds a comma |
| Driver.HeaderLineFields | src/__main__.py:55 | the header line splits back into the thirty names and has 29 commas |
| Driver.WriteCsv | src/__main__.py:55-69 | the output is the header line, then the rows of the reports the run wrote; the completion flag is the run's |
| Driver.ProcessStep | src/__main__.py:64-69 | one more line is skipped when it mentions `NIL`, and otherwise is written or stops the run |
| Driver.ProcessStaysStopped | src/__main__.py:68 | once a line fails to decode, later lines change nothing |
| Driver.ProcessKept | src/__main__.py:64-65 | the run over all lines equals the run over the lines without `NIL` |
| Driver.ProcessCompletes | src/__main__.py:64-69 | the run completes exactly when every line without `NIL` decodes |
| Driver.ProcessReports | src/__main__.py:64-69 | the reports written are those of the kept lines, in order, up to the first rejected line; a completed run writes one per kept line |

## Left out

- `create_metar` (src/to_csv.py:17-21) is not part of this model. It parses the
  date with `datetime.strptime` and the report with the external `aeromet_py`
  decoder. `Driver` takes decoding as a function parameter that returns `None`
  where the decoder raises.
- The decoder's unit conversions (knots, feet, metres, degrees Celsius, inHg)
  are not modelled. The `Report` datatype holds the converted values.
- Floats are modelled as exact reals. NaN, infinities, negative zero and
  binary rounding of the stored value are not modelled.
- The CLI glue in src/__main__.py is not modelled: the typer commands, the
  version callback, the `glob` and sort of the data files, the file handles
  and the progress bar. `Driver.WriteCsv` takes the lines of all data files
  already read, in sorted file order, each line with the newline `readlines()`
  keeps, and returns the file's text.
- Driver.WriteCsv: a decoder exception is modelled as ending the run with the
  rows written so far and a completion flag. The exception itself and its
  propagation to the caller are not modelled.
