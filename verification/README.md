# ripwc in Dafny

A model of `ripwc`, a rewrite of the Unix `wc` tool, whose whole program is
`src/main.rs`. The model covers what `main` does once the command line has
been parsed:

- **Collection** (`collect.dfy`, module `Collect`). The directory walk is given
  as a sequence of walk items, each either an entry (is it a regular file, and
  its path) or an error. The loop keeps the paths of regular files in walk
  order. It reports every walk error met on the way. Without `--recursive` it
  stops right after the first regular file.
- **Counting** (`counting.dfy`, module `Counting`). For one file, a single loop
  over its bytes keeps four counters:
  - bytes;
  - chars: the ASCII bytes, those at most 0x7F;
  - words: the ASCII white-space bytes, space, tab, LF, FF and CR, but not VT (0x0B);
  - newlines: the 0x0A bytes.

  Before each byte the default rule runs: when none of `--bytes`, `--lines`
  and `--words` is set, all three are switched on. The loop is proved equal
  to one pass with the defaults applied once beforehand. It is also proved
  that the rule fires only when at least one byte is read.
- **Formatting** (`format.dfy`, module `Format`). The result string has one
  field `<name>: <count>` for each non-zero counter, in the order bytes,
  chars, words, newlines. The first field is appended without a leading
  space and the others with one, and the string is then trimmed as
  `str::trim` does. The result string is proved to read back to the counts it
  came from.
- **The run** (`wc.dfy`, module `Wc`). Each collected file gets its own
  freshly parsed flags, is counted and prints one line: its path in the
  `{:?}` form (escaped, between double quotes), a space, and its result
  string. A file that cannot be opened counts as empty.
- **The counter width** (`overflow.dfy`, module `Overflow`). Nothing fixes the
  counters' type, so Rust makes them `i32`. This module models that width and
  shows the bug it causes (see Findings).

Facts of the code that the model keeps, each with the lines it comes from:

- the character counter counts the bytes at most 0x7F, the ASCII bytes (src/main.rs:77);
- white space for the word counter is 0x20, 0x09, 0x0A, 0x0C and 0x0D; 0x0B is outside it (src/main.rs:83);
- a printed line is the `{:?}` form of the path, a space, then the fields in the order bytes, chars, words, newlines (src/main.rs:95-100);
- the default rule tests only the bytes, lines and words flags, so `--chars` alone still switches the three on (src/main.rs:70);
- the default rule is re-evaluated before every byte, which the model proves equivalent to applying it once (src/main.rs:67-74);
- the byte count is a counter raised once per byte read (src/main.rs:76);
- no total line is printed, and the maximum line length code is commented out (src/main.rs:54, 86-92, 99);
- the word counter adds one per white-space byte, so `"hello world\n"` counts two words, for the space and the line feed (src/main.rs:83-85, `Wc.HelloWorldReport`).

## Model

| member | source | states |
|---|---|---|
| `Counting.IsAscii` | src/main.rs:77 | The byte class of the character counter: the bytes at most 0x7F. |
| `Counting.IsNewline` | src/main.rs:80 | The byte class of the newline counter: the byte 0x0A. |
| `Counting.IsAsciiWhitespace` | src/main.rs:83 | The byte class of the word counter: 0x20, 0x09, 0x0A, 0x0C and 0x0D, each of them ASCII; the line feed is among them. |
| `Counting.NoneSelected` | src/main.rs:70 | The test of the default rule: none of the bytes, lines and words flags is set. |
| `Counting.ApplyDefaults` | src/main.rs:69-74 | At least one of bytes, lines and words is on afterwards. With none of them set, all three are switched on; otherwise the flags are unchanged. No set flag is cleared, and chars, max-line-length, recursive, verbose and the path are never touched. |
| `Counting.CountWhere` | src/main.rs:77-85 | A class count never exceeds the content length. |
| `Counting.CountsFor` | src/main.rs:59-85 | The four counters after a scan with fixed flags: bytes is the length, chars the ASCII bytes, words the ASCII white-space bytes and newlines the 0x0A bytes, each zero when its flag is off. None exceeds the length, and an empty content leaves all four at their initial zero, whatever the flags. |
| `Counting.CountFile` | src/main.rs:58-94 | The per-byte loop, with the default rule re-run before every byte. A file that cannot be opened gives all-zero counts. Otherwise each counter is zero when its flag is off after defaulting, and otherwise counts its byte class over the whole content (bytes counts every byte). The flags end up defaulted only if at least one byte was read. |
| `Counting.CountsForStep` | src/main.rs:76-85 | One more byte adds one to the byte counter when bytes is on, to chars when chars is on and the byte is ASCII, to words when words is on and the byte is ASCII white space, and to newlines when lines is on and the byte is 0x0A. |
| `Counting.CountWhereStep` | src/main.rs:77-85 | One more byte raises a class count by one exactly when that byte is in the class. |
| `Counting.CountWhereIsPositionCount` | src/main.rs:77-85 | A class count is the number of positions holding a byte of that class. |
| `Counting.CountWhereAppend` | src/main.rs:67 | Counting over two consecutive pieces of the byte stream adds up, so the count does not depend on how the reader buffers. |
| `Counting.CountWhereMonotone` | src/main.rs:80-85 | A class contained in another never counts more bytes. |
| `Counting.CountWhereComplement` | src/main.rs:77 | The bytes in a class plus the bytes outside it make up the content length. |
| `Counting.CountWhereEqualIsMultiplicity` | src/main.rs:80 | Counting the bytes equal to one value gives that value's multiplicity in the content. |
| `Counting.NewlineCountIsMultiplicity` | src/main.rs:80-82 | The newline count is the number of 0x0A bytes. |
| `Counting.WordCountIsWhitespaceMultiplicity` | src/main.rs:83-85 | The word count is the number of bytes 0x20, 0x09, 0x0A, 0x0C and 0x0D. It counts white-space bytes rather than words, and 0x0B is excluded. |
| `Counting.CharCountExcludesHighBytes` | src/main.rs:77-79 | The char count is the content length minus the bytes above 0x7F. |
| `Counting.CountWhereSamePredicate` | src/main.rs:77-85 | Two classes that agree on every byte give the same count. |
| `Counting.CountsOrdered` | src/main.rs:76-85 | No counter exceeds the content length. With lines and words both on, newlines never exceed words, since every line feed is white space. With words and bytes both on, words never exceed bytes. |
| `Counting.DefaultCountsOrdered` | src/main.rs:69-85 | Under the default flags, newlines <= words <= bytes, bytes equals the content length, and chars stays zero unless `--chars` was given. |
| `Counting.CountsInClosedForm` | src/main.rs:58-94 | Each counter of a file in terms of the flags as given. bytes is the length when bytes or the default is on. chars is the length minus the high bytes when chars is on. words is the multiplicity of the five white-space bytes and newlines that of 0x0A, each when its flag or the default is on. A counter that is off is zero. |
| `Counting.ApplyDefaultsIdempotent` | src/main.rs:70-74 | Running the default rule again after it has run changes nothing, which is why re-running it per byte is harmless. |
| `Format.FieldText` | src/main.rs:95-98 | The text `format!` gives one field: its name, a colon, a space and the count in decimal. |
| `Format.FieldIfPositive` | src/main.rs:95-98 | The `> 0` guard of one append: the field when its count is positive, nothing otherwise. |
| `Format.Present` | src/main.rs:95-98 | The fields the four conditional appends produce: at most four, and none exactly when every counter is zero. |
| `Format.Report` | src/main.rs:95-100 | The result string: the texts of the shown fields joined by single spaces. |
| `Format.Decimal` | src/main.rs:95-98 | `{}` renders a count as a non-empty string of decimal digits with no leading zero. |
| `Format.DecimalRoundTrip` | src/main.rs:95-98 | Reading a rendered count back gives the count. |
| `Format.IsWhiteSpace` | src/main.rs:100 | The characters `str::trim` strips: tab to carriage return, space, and the other Unicode White_Space code points. |
| `Format.TrimStart` | src/main.rs:100 | Removes exactly the leading white space: the result is a suffix, everything dropped is white space, and the result does not start with white space. |
| `Format.TrimEnd` | src/main.rs:100 | Removes exactly the trailing white space: the result is a prefix, everything dropped is white space, and the result does not end with white space. |
| `Format.Trim` | src/main.rs:100 | The trimmed result is a window `s[i..j]` of the input: everything dropped before `i` and from `j` on is white space, and neither end of the window is white space. |
| `Format.TrimClean` | src/main.rs:100 | Trimming a string whose ends are not white space returns it unchanged, even after a leading space. |
| `Format.PresentFields` | src/main.rs:95-98 | Every shown field has one of the four names and a positive count. A counter is shown exactly when it is non-zero. |
| `Format.PresentOrdered` | src/main.rs:95-98 | The shown fields follow the order bytes, chars, words, newlines. |
| `Format.ReportShape` | src/main.rs:95-100 | The result string is empty exactly when every counter is zero. Otherwise neither of its ends is white space. |
| `Format.FormatResult` | src/main.rs:95-100 | The four conditional appends followed by the trim give exactly the fields of the non-zero counters, joined by single spaces. |
| `Format.AppendsArePushes` | src/main.rs:95-98 | The appended string is the first field (bytes) followed by each later non-zero field with a leading space. |
| `Format.AppendStep` | src/main.rs:96-98 | One later append adds a space and its field when its count is non-zero, and nothing otherwise. |
| `Format.ReportAsPushes` | src/main.rs:95-100 | Trimming the appended string gives the space-joined fields. The leading space left behind when bytes is zero is what the trim removes. |
| `Format.TrimPushes` | src/main.rs:100 | Trimming a first part followed by space-prefixed later parts gives the join of all parts, when that join is clean. |
| `Format.JoinIsHeadThenPushed` | src/main.rs:95-98 | Joining parts with spaces is the first part followed by each later part with a leading space. |
| `Format.PushedAppend` | src/main.rs:96-98 | Space-prefixed appends of two runs of parts concatenate. |
| `Format.JoinEnds` | src/main.rs:100 | A join of non-empty parts starts with its first part's first character and ends with its last part's last character. |
| `Format.FieldTextClean` | src/main.rs:95-98 | A field's text starts with a letter of its name and ends with a digit. |
| `Format.SplitJoin` | src/main.rs:95-98 | Splitting at spaces undoes joining with spaces, when no part contains a space. |
| `Format.JoinTextsIsJoinTokens` | src/main.rs:95-98 | The joined field texts are the same string as the joined words: each name with its colon, then each count. |
| `Format.TokensHaveNoSpace` | src/main.rs:95-98 | No word of the result string contains a space. |
| `Format.ParsePresent` | src/main.rs:95-98 | Reading the words of the shown fields back gives the counts, with zero for every field not shown. |
| `Format.ReportRoundTrip` | src/main.rs:95-100 | The result string determines the counts: reading it back gives them exactly, including all zeros for the empty string. |
| `Collect.IsFile` | src/main.rs:43-44 | A walk item is kept exactly when it is an entry (not an error) whose path is a regular file. |
| `Collect.FilePaths` | src/main.rs:41-51 | The paths of the regular files of a walk, in walk order; never more than the walk has items. |
| `Collect.Errors` | src/main.rs:41-51 | The messages of the walk errors, in walk order; never more than the walk has items. |
| `Collect.FirstFileEnd` | src/main.rs:41-51 | The number of walk items a non-recursive walk visits: all of them when there is no regular file, otherwise up to and including the first regular file, with none before it. |
| `Collect.FirstOnly` | src/main.rs:46 | At most one path is kept. It is the first path, and it exists exactly when there is a path. |
| `Collect.CollectFiles` | src/main.rs:38-51 | With recursion on, the files are every regular-file path in walk order. With it off, only the first one, or none. The errors reported are the walk errors met before the loop stops. |
| `Collect.CollectStep` | src/main.rs:42-50 | One more walk item adds its path when it is a regular file and its message when it is an error. |
| `Collect.FirstFileIsFirstPath` | src/main.rs:44-46 | When no regular file came before item `i` and item `i` is one, its path is the first of all regular-file paths. |
| `Collect.FirstFileEndStep` | src/main.rs:46 | From item `i`, a non-recursive walk stops right after it when it is a regular file, and otherwise goes on. |
| `Collect.FilePathsAppend` | src/main.rs:41-51 | The paths of two consecutive stretches of the walk concatenate. |
| `Collect.NoFileNoPaths` | src/main.rs:44 | A walk with no regular file yields no path. |
| `Collect.FilePathsMembership` | src/main.rs:43-48 | A path is collected exactly when some walk entry is a regular file with that path. |
| `Collect.ErrorsDoNotContribute` | src/main.rs:49 | Removing a walk error from the walk leaves the collected paths unchanged. |
| `Wc.Open` | src/main.rs:65 | Opening a path gives its content exactly when the path is present in the file system, and nothing otherwise. |
| `Wc.FileCounts` | src/main.rs:58-94 | The counts of one file under freshly parsed flags: the defaulted scan of its content, and all zero when it cannot be opened or is empty. |
| `Wc.EscapeChar` | src/main.rs:100 | How `{:?}` writes one character, for the modelled escapes: itself, or a backslash and one more character. |
| `Wc.DebugEscape` | src/main.rs:100 | The escaped form of a path is never shorter than the path. |
| `Wc.Quoted` | src/main.rs:100 | The `{:?}` form of a path: at least two characters longer than the path, with a double quote at each end. |
| `Wc.LineShape` | src/main.rs:100 | A printed line splits back into the quoted path, one space and the result string. |
| `Wc.EscapeRoundTrip` | src/main.rs:100 | The `{:?}` escaping loses nothing: reading the escaped body back gives the path. |
| `Wc.PlainPathUnescaped` | src/main.rs:100 | A path made of printable ASCII characters (0x20 to 0x7E) other than the double quote and the backslash is printed as itself between the quotes. |
| `Wc.Collected` | src/main.rs:38-51 | The files the walk hands to the counting stage: every regular-file path with recursion on, only the first one with it off. |
| `Wc.FileLine` | src/main.rs:55-100 | The line printed for one file: its quoted path, a space, and the result string of its counts. |
| `Wc.Lines` | src/main.rs:55-101 | The printed lines of the collected files, one per file, in order. |
| `Wc.ReportFile` | src/main.rs:55-100 | The work for one file: its printed line is the quoted path, a space, and the result string of the file's counts. |
| `Wc.LinesAt` | src/main.rs:55-101 | Line `k` of the run is the printed line of file `k`. |
| `Wc.ReportAll` | src/main.rs:55-101 | The counting stage prints one line per collected file, in order. |
| `Wc.Run` | src/main.rs:36-101 | One line per collected file, in collection order. Line `k` is the quoted path of file `k`, a space, and the result string of that file's counts under the parsed flags. A file that cannot be opened gives the all-zero counts. The reported errors are those of the collection loop. |
| `Wc.NothingToReport` | src/main.rs:65-100 | A file that cannot be opened, or an empty file, prints its quoted path and a space, with no field. |
| `Wc.AtMostOneWithoutRecursion` | src/main.rs:46 | Without recursion at most one file is counted: the first regular file of the walk. |
| `Wc.HelloWorldCounts` | src/main.rs:69-85 | `"hello world\n"` under the default flags counts 12 bytes, 0 chars, 2 words and 1 newline. |
| `Wc.HelloWorldReport` | src/main.rs:95-100 | The result string for `"hello world\n"` under the default flags is `bytes: 12 words: 2 newlines: 1`. |
| `Overflow.WrapI32` | src/main.rs:59-62 | The release-build value of an `i32` counter: in [-2^31, 2^31) and congruent to the unbounded count modulo 2^32. |
| `Overflow.WrapI32Increment` | src/main.rs:76 | Incrementing a wrapped counter and wrapping again is wrapping the unbounded successor. |
| `Overflow.CountBytesAsWritten` | src/main.rs:59-76 | The `i32` byte counter as written ends at the content length wrapped to 32 bits. |
| `Overflow.ByteFieldLostAt2GiB` | src/main.rs:76-95 | For a non-empty file of 2^31 bytes the counter ends at -2^31, so `byte_count > 0` fails and the bytes field is dropped. |

## Left out

- Command-line parsing by clap (src/main.rs:8-37, 56): the flags arrive as an `Args` value. Re-parsing per file is modelled by handing every file the same parsed value.
- The directory walk of `WalkDir` and the `is_file` test: the walk is an input sequence of items.
- rayon's parallel `for_each`: files are processed one after the other in collection order. Concurrent runs print whole lines in no fixed order, which the model does not capture.
- Reading files through `BufReader`: a file is its content as a sequence of bytes, or absent when it cannot be opened.
- `Counting.CountFile`: read errors in mid-file are not modelled. A read error panics in `unwrap` when chars, lines or words is on (src/main.rs:77, 80, 83). With bytes on and chars, lines and words all off, the default rule does not fire and no `unwrap` runs, so the error item is counted as one byte (src/main.rs:70, 76) and `bytes` then exceeds the content length. Neither path is modelled.
- The `--verbose` printing of each path and byte, and the `eprintln!` formatting of walk errors: an error is kept as its message.
- `max_line_length`: its code is commented out in the source. The flag is carried in `Args` and has no effect.
- `Wc.EscapeChar`: other control characters, DEL (0x7F) and grapheme-extending characters are written by `{:?}` as `\u{…}` escapes, longer than two characters (0x07 becomes `\u{7}`). The model writes them as themselves.
- `Wc.DebugEscape`: only the escapes `\0`, `\t`, `\r`, `\n`, `\\` and `\"` are modelled. The `\u{…}` escapes Rust writes for other non-printable or grapheme-extending characters are not.
- `Format.IsWhiteSpace` uses the Unicode White_Space list that `str::trim` strips. It is stated by code point, not derived from the Unicode tables.
- `Counting.CountFile`: counters are unbounded. The `i32` wrap of the code as written is modelled separately in module `Overflow`.

## Findings

| source | as written | input that shows it | evidently intended | confidence | as-written member | corrected member |
|---|---|---|---|---|---|---|
| src/main.rs:59-62 | The counters start as untyped `0`, so Rust types them `i32`. `byte_count += 1` then wraps in a release build and panics in a debug build. | A file of 2^31 bytes: `byte_count` ends at -2^31, `byte_count > 0` fails, and the line carries no bytes field although the file is not empty. | Counters wide enough for any file, with the byte count equal to the file length. | not executed | `Overflow.ByteFieldLostAt2GiB` | `Counting.CountFile` |
