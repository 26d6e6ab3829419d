# resoy record formatter, modelled in Dafny

resoy is a command-line DNS lookup tool. For each resource record in an
answer, its `RecordFormatter` prints one line. The line holds the record
type right-aligned to five characters, the owner name, the time to live
right-aligned to twelve characters, and the record data, separated by
single spaces. The TTL is printed either as bare seconds or as a compact
duration such as `1h01m01s`. When colour is on, the padded type field is
wrapped in a foreground-colour escape chosen by the record type, and the
name in palette index 75.

The project models that formatter as pure functions and proves what it
writes.

- `options.dfy` (`Options`): the optional value, used for the record data
  and by the duration reader.
- `records.dfy` (`Records`): the inputs. A `Record` has a record-type tag,
  the owner name as text, a 32-bit TTL and the data as optional text.
  `OutputConfig` holds `format_seconds` and `ansi`. `Mnemonic` gives the
  text a type tag displays as.
- `text.dfy` (`Text`): the parts of Rust's `format!` the formatter relies
  on. `{}` of an unsigned integer is `Decimal`, `{:02}` is `Pad2` and
  `{:>w}` is `PadLeft`. It also has a reader for numerals (`Value`), used
  to state round trips.
- `duration.dfy` (`Duration`): `format_duration`.
  - The four branches, with the same thresholds, divisions and padding.
  - The day/hour/minute/second split as a normal decomposition.
  - A reader for compact durations, with the proof that reading a compact
    duration back gives the TTL.
  - The exact shape of each branch.
  - Example renderings for each branch, the largest TTL and the raw count.
- `format.dfy` (`Format`): `get_record_color`, the two `format!`
  templates of `format`, and a small terminal model. Escapes are tokens:
  `Fg(index)` and `FgReset`. `Paint` gives every character shown its
  foreground colour, and `Visible` drops the escapes. The proofs say where
  each field sits, which characters are coloured and in what colour, that
  colour never changes the text, and that the colour table tells its arms
  apart.

For an A record of `example.com.` with TTL 300, the code writes eight
spaces between the name and `5m00s`. That is one separator, then the seven
spaces `{:>12}` puts in front of `5m00s`. `Format.ExampleLine` proves the
whole line.

Two details of the colour table as the code has it: CNAME has no arm, so
it gets the catch-all index 37, and MX gets 38, not the 16 its place in the
table would suggest.

## Model

| member | source | states |
|---|---|---|
| Text.Decimal | src/format.rs:99 | `{}` of a TTL is a non-empty string of decimal digits with no leading zero unless it is `0` |
| Text.ValueOfDecimal | src/format.rs:99 | reading the decimal rendering back gives the number |
| Text.DecimalInjective | src/format.rs:99 | different numbers are rendered differently |
| Text.DecimalLength | src/format.rs:99 | a number below 10^k is rendered in at most k digits |
| Text.PadLeft | src/format.rs:43 | `{:>w}` yields max(w, len) characters that end with the text and are spaces before it |
| Text.Pad2 | src/format.rs:105 | `{:02}` yields digits whose value is the number, exactly two of them below 100, and the plain rendering from 10 on |
| Duration.Split | src/format.rs:113-121 | the days, hours, minutes and seconds the day branch computes have hours < 24, minutes < 60, seconds < 60, and add up to the TTL |
| Duration.SplitUnique | src/format.rs:113-121 | that decomposition is the only one with those bounds |
| Duration.FormatDuration | src/format.rs:95-122 | the TTL text is never empty, and it is all digits exactly when `format_seconds` is off |
| Duration.RawSeconds | src/format.rs:98-100 | without `format_seconds` the text is the decimal TTL: its digits read back as the TTL, with no leading zero and at most ten digits |
| Duration.ExampleRaw | src/format.rs:98-100 | 90061 seconds print as `90061` without `format_seconds` |
| Duration.ExampleSeconds | src/format.rs:102-103 | 0 and 59 seconds print as `0s` and `59s` |
| Duration.ExampleMinutes | src/format.rs:104-105 | 60 and 300 seconds print as `1m00s` and `5m00s` |
| Duration.ExampleHours | src/format.rs:106-112 | 3661 seconds print as `1h01m01s` |
| Duration.ExampleDays | src/format.rs:113-121 | 90061 seconds print as `1d1h01m01s` (hours unpadded after days) |
| Duration.ExampleWidest | src/format.rs:113-121 | the largest TTL prints as `49710d6h28m15s`, fourteen characters, wider than the TTL column |
| Duration.CompactFields | src/format.rs:102-121 | the compact duration reads as number-unit groups that write it back exactly, with units `s`, `ms`, `hms` or `dhms` by the minute, hour and day thresholds; the numbers are the trailing components of the decomposition; the first is unpadded, later minutes and seconds are two digits, and hours are never padded |
| Duration.ParseFormattedDuration | src/format.rs:102-121 | reading the compact duration back, with `d`, `h`, `m` and `s` weighted 86400, 3600, 60 and 1, gives the TTL |
| Duration.CompactWidth | src/format.rs:102-121 | a compact duration under 100 days is at most twelve characters |
| Format.RecordColor | src/format.rs:124-166 | the type colour is a 256-colour index, never the name colour 75; every `Unknown` code gets 35; a type gets 37 exactly when the table has no arm of its own for it |
| Format.ColorTableInverse | src/format.rs:128-165 | reading the table back from an index yields the arm of the type that got it |
| Format.ColorIdentifiesArm | src/format.rs:128-165 | two types share a colour exactly when they fall into the same arm: each listed type has its own index, all `Unknown` codes share one, all other types share another |
| Format.Payload | src/format.rs:87-93 | no contract of its own: `Format.PlainLineData` shows it is the record data's text, or empty without data, at the end of the line |
| Format.Line | src/format.rs:42-48 | no contract of its own: `Format.LineHead` and `Format.LineTail` give the position of every field of the colourless template |
| Format.ColouredLine | src/format.rs:55-61 | with the escapes left out, the coloured template is the colourless one; `Format.ColouredPaint` gives each character's colour |
| Format.PlainLine | src/format.rs:41-48 | no contract of its own: the colourless line of a record, laid out by `Format.LineHead`, `Format.LineTail`, `Format.PlainLineData` and `Format.TtlColumnWidth` |
| Format.FormatRecord | src/format.rs:39-63 | the line is never empty and holds an escape exactly when colour is on; `Format.VisibleIgnoresAnsi` shows its text is the plain line either way, and `Format.AnsiColouring` and `Format.PlainHasNoColour` give its colours |
| Format.LineHead | src/format.rs:42-47 | in the colourless line the type is right-aligned in max(5, len) columns, then one space, the name and one space |
| Format.LineTail | src/format.rs:42-47 | after the name and its space, the TTL is right-aligned in max(12, len) columns, then one space, then the data up to the end of the line |
| Format.PlainLineData | src/format.rs:87-93 | a record's data field is its data's text, or empty when the record has none |
| Format.TtlColumnWidth | src/format.rs:43 | the TTL column is exactly twelve wide for bare seconds and for compact durations under 100 days |
| Format.PlainHasNoColour | src/format.rs:41-48 | with colour off the line carries no escape and is shown in the default colour |
| Format.ColouredPaint | src/format.rs:50-61 | the coloured template shows the characters of the colourless one, the padded type in the type colour, the name in colour 75, everything else in the default colour, and leaves the default set |
| Format.AnsiColouring | src/format.rs:50-61 | the same for a record: the type field, including its padding, in `get_record_color`'s colour; the name in 75; separators, TTL and data uncoloured |
| Format.VisibleIgnoresAnsi | src/format.rs:39-63 | with colour on or off, the text shown is the same plain line |
| Format.ExampleLine | src/format.rs:41-48 | an A record for `example.com.`, TTL 300 and data `93.184.216.34` prints as `    A example.com.        5m00s 93.184.216.34` |

## Left out

- The Windows `format` (src/format.rs:65-77) is not modelled. It refers to fields the formatter does not have and prints instead of returning a string.
- src/main.rs is not part of this model: argument parsing, building `OutputConfig` from the flags, the de-duplication of requested types, the network client and queries, and error messages.
- termion's escape bytes are modelled as the tokens `Fg(index)` and `FgReset`, not as byte sequences.
- The DNS library's display of owner names and record data is not modelled. The record carries them as text already.
- Records.Mnemonic: the library's display of record types is modelled as each variant's mnemonic. `Unknown(code)` is assumed to display as `Unknown`, and every variant the colour table does not name except CNAME is folded into `Other`, which carries its own text.
- `RecordFormatter::new` and `OutputConfig::new` only package their arguments. They are the datatype constructors here, and the formatter's functions take the record and the configuration directly.
- Rust's unsigned 32-bit arithmetic in `format_duration` is modelled with unbounded integers. No product or quotient there can exceed 32 bits.
- Widths are counted in characters, as Rust's `{:>w}` counts them. Terminal display width of wide characters is not modelled.
- Running the formatter twice gives the same line because the functions are pure. No lemma states this.
