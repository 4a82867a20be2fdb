/**
 * One run of `ripwc` (src/main.rs), taken one file at a time: collect the
 * files from the walk, then for each file count its bytes under the flags as
 * parsed from the command line and print its path followed by its result string.
 */
module Wc {
  import opened Wrappers
  import opened Counting
  import opened Format
  import opened Collect

  /** Opening `path` in the file system `fs`: its content, or None when it cannot be opened. */
  function Open(fs: map<string, seq<Byte>>, path: string): (r: Option<seq<Byte>>)
    ensures r.Some? <==> path in fs
    ensures r.Some? ==> r.value == fs[path]
  {
    if path in fs then Some(fs[path]) else None
  }

  /** The counts of a file under the flags `app`: all zero when it cannot be opened. */
  function FileCounts(app: Args, file: Option<seq<Byte>>): (r: Counts)
    ensures file.None? || file.value == [] ==> r == Zero
  {
    match file
    case None => Zero
    case Some(s) => CountsFor(ApplyDefaults(app), s)
  }

  /** How the `{:?}` format writes one character of a string. */
  function EscapeChar(c: char): (r: string)
    ensures 1 <= |r| <= 2
    ensures |r| == 2 <==> r[0] == '\\'
    ensures |r| == 1 ==> r[0] == c
  {
    match c
    case '\0' => "\\0"
    case '\t' => "\\t"
    case '\r' => "\\r"
    case '\n' => "\\n"
    case '\\' => "\\\\"
    case '"' => "\\\""
    case _ => [c]
  }

  /** The escaped body of a string as the `{:?}` format writes it. */
  function DebugEscape(s: string): (r: string)
    ensures |r| >= |s|
  {
    if s == [] then "" else EscapeChar(s[0]) + DebugEscape(s[1..])
  }

  /** Reading an escaped body back: a backslash and the character after it stand for one character. */
  function Unescape(s: string): string {
    if s == [] then ""
    else if s[0] == '\\' && |s| >= 2 then
      var c := match s[1]
        case '0' => '\0'
        case 't' => '\t'
        case 'r' => '\r'
        case 'n' => '\n'
        case _ => s[1];
      [c] + Unescape(s[2..])
    else [s[0]] + Unescape(s[1..])
  }

  /** A path as the `{:?}` format prints it: escaped and between double quotes. */
  function Quoted(path: string): (r: string)
    ensures |r| >= |path| + 2
    ensures r[0] == '"' && r[|r| - 1] == '"'
  {
    "\"" + DebugEscape(path) + "\""
  }

  /** The printed line of a file: its quoted path, a space, then its result string. */
  function Line(path: string, result: string): (r: string)
  {
    Quoted(path) + " " + result
  }

  /** A printed line splits back into the quoted path, one space and the result string. */
  lemma LineShape(path: string, result: string)
    ensures |Line(path, result)| == |Quoted(path)| + 1 + |result|
    ensures Line(path, result)[..|Quoted(path)|] == Quoted(path)
    ensures Line(path, result)[|Quoted(path)|] == ' '
    ensures Line(path, result)[|Quoted(path)| + 1..] == result
  {
  }

  /** The files a walk yields to the counting stage. */
  function Collected(entries: seq<WalkEntry>, recursive: bool): seq<string> {
    if recursive then FilePaths(entries) else FirstOnly(FilePaths(entries))
  }

  /** The printed line of the file at `path`: its path and the result string of its counts. */
  function FileLine(app: Args, fs: map<string, seq<Byte>>, path: string): string {
    Line(path, Report(FileCounts(app, Open(fs, path))))
  }

  /** The printed lines of `files`, one per file, in order. */
  function Lines(app: Args, fs: map<string, seq<Byte>>, files: seq<string>): (r: seq<string>)
    ensures |r| == |files|
  {
    if files == [] then [] else Lines(app, fs, files[..|files| - 1]) + [FileLine(app, fs, files[|files| - 1])]
  }

  /** Line `k` of the run is the printed line of file `k`. */
  lemma {:induction false} LinesAt(app: Args, fs: map<string, seq<Byte>>, files: seq<string>, k: nat)
    requires k < |files|
    ensures Lines(app, fs, files)[k] == FileLine(app, fs, files[k])
  {
    if k < |files| - 1 {
      LinesAt(app, fs, files[..|files| - 1], k);
    }
  }

  lemma LinesStep(app: Args, fs: map<string, seq<Byte>>, files: seq<string>, k: nat)
    requires k < |files|
    ensures Lines(app, fs, files[..k + 1]) == Lines(app, fs, files[..k]) + [FileLine(app, fs, files[k])]
  {
    assert files[..k + 1][..k] == files[..k];
  }

  /** The work done for one collected file: open it, count its bytes, format and print one line. */
  method ReportFile(app: Args, fs: map<string, seq<Byte>>, path: string) returns (printed: string)
    ensures printed == FileLine(app, fs, path)
  {
    var file := Open(fs, path);
    var counts, flags := CountFile(app, file);
    var result := FormatResult(counts);
    printed := Line(path, result);
  }

  /** The counting stage over the collected files: one printed line per file, in order. */
  method ReportAll(app: Args, fs: map<string, seq<Byte>>, files: seq<string>) returns (out: seq<string>)
    ensures out == Lines(app, fs, files)
  {
    out := [];
    for k := 0 to |files|
      invariant out == Lines(app, fs, files[..k])
    {
      var printed := ReportFile(app, fs, files[k]);
      LinesStep(app, fs, files, k);
      out := out + [printed];
    }
    assert files[..|files|] == files;
  }

  /**
   * The run, one file at a time in collection order. Every file is counted
   * with the flags as parsed, so the default rule applied while counting one
   * file never carries over to the next, and each line depends only on its
   * own file.
   */
  method Run(app: Args, entries: seq<WalkEntry>, fs: map<string, seq<Byte>>) returns (out: seq<string>, errors: seq<string>)
    ensures |out| == |Collected(entries, app.recursive)|
    ensures forall k :: 0 <= k < |out| ==> out[k] == FileLine(app, fs, Collected(entries, app.recursive)[k])
    ensures errors == Errors(entries[..if app.recursive then |entries| else FirstFileEnd(entries)])
  {
    var files;
    files, errors := CollectFiles(entries, app.recursive);
    out := ReportAll(app, fs, files);
    forall k | 0 <= k < |out|
      ensures out[k] == FileLine(app, fs, files[k])
    {
      LinesAt(app, fs, files, k);
    }
  }

  /** The escaping loses nothing: reading the escaped body back gives the path. */
  lemma {:induction false} EscapeRoundTrip(s: string)
    ensures Unescape(DebugEscape(s)) == s
  {
    if s != [] {
      EscapeRoundTrip(s[1..]);
      UnescapeAfterChar(s[0], DebugEscape(s[1..]));
      assert s == [s[0]] + s[1..];
    }
  }

  lemma UnescapeAfterChar(c: char, rest: string)
    ensures Unescape(EscapeChar(c) + rest) == [c] + Unescape(rest)
  {
    var e := EscapeChar(c) + rest;
    if |EscapeChar(c)| == 2 {
      assert e[2..] == rest;
    } else {
      assert e[1..] == rest;
    }
  }

  /** A path of printable ASCII characters other than the quote and the backslash is printed as itself between quotes. */
  lemma {:induction false} PlainPathUnescaped(s: string)
    requires forall i :: 0 <= i < |s| ==> ' ' <= s[i] <= '~' && s[i] != '\\' && s[i] != '"'
    ensures DebugEscape(s) == s
  {
    if s != [] {
      PlainPathUnescaped(s[1..]);
      assert s == [s[0]] + s[1..];
    }
  }

  /** A file that cannot be opened, or an empty one, prints its path and a space with no field at all. */
  lemma NothingToReport(app: Args, fs: map<string, seq<Byte>>, path: string)
    requires path !in fs || fs[path] == []
    ensures Line(path, Report(FileCounts(app, Open(fs, path)))) == Quoted(path) + " "
  {
    ReportShape(Zero);
  }

  /** Without recursion, at most one file is counted, and it is the first regular file of the walk. */
  lemma AtMostOneWithoutRecursion(entries: seq<WalkEntry>)
    ensures |Collected(entries, false)| <= 1
    ensures Collected(entries, false) != [] ==> Collected(entries, false)[0] == FilePaths(entries)[0]
  {
  }

  /** The content "hello world\n" under the default flags. */
  const HelloWorld: seq<Byte> := [0x68, 0x65, 0x6C, 0x6C, 0x6F, 0x20, 0x77, 0x6F, 0x72, 0x6C, 0x64, 0x0A]

  /** Both the space and the line feed are whitespace bytes, so "hello world\n" counts two words. */
  lemma HelloWorldCounts(app: Args)
    requires NoneSelected(app) && !app.chars
    ensures FileCounts(app, Some(HelloWorld)) == Counts(12, 0, 2, 1)
  {
    var hello: seq<Byte>, world: seq<Byte> := [0x68, 0x65, 0x6C, 0x6C, 0x6F], [0x77, 0x6F, 0x72, 0x6C, 0x64];
    assert HelloWorld == hello + [0x20] + world + [0x0A];
    NoWhitespace(hello);
    NoWhitespace(world);
    CountWhereAppend(hello + [0x20] + world, [0x0A], IsAsciiWhitespace);
    CountWhereAppend(hello + [0x20], world, IsAsciiWhitespace);
    CountWhereAppend(hello, [0x20], IsAsciiWhitespace);
    CountWhereAppend(hello + [0x20] + world, [0x0A], IsNewline);
    CountWhereAppend(hello + [0x20], world, IsNewline);
    CountWhereAppend(hello, [0x20], IsNewline);
  }

  /** A run of bytes none of which is white space counts no word boundary and no newline. */
  lemma {:induction false} NoWhitespace(s: seq<Byte>)
    requires forall i :: 0 <= i < |s| ==> !IsAsciiWhitespace(s[i])
    ensures CountWhere(s, IsAsciiWhitespace) == 0 && CountWhere(s, IsNewline) == 0
  {
    if s != [] {
      NoWhitespace(s[..|s| - 1]);
    }
  }

  /** The line printed for "hello world\n" under the default flags. */
  lemma HelloWorldReport(app: Args)
    requires NoneSelected(app) && !app.chars
    ensures Report(FileCounts(app, Some(HelloWorld))) == "bytes: 12 words: 2 newlines: 1"
  {
    HelloWorldCounts(app);
    HelloWorldTexts();
    assert Report(Counts(12, 0, 2, 1)) == Join(["bytes: 12", "words: 2", "newlines: 1"]);
    JoinThree("bytes: 12", "words: 2", "newlines: 1");
    HelloWorldLine();
  }

  /** The example's result string, its three fields joined, spelled out character by character; a step for the solver. */
  lemma HelloWorldLine()
    ensures "bytes: 12" + " " + "words: 2" + " " + "newlines: 1" == "bytes: 12 words: 2 newlines: 1"
  {
    var x, y := "bytes: 12" + " " + "words: 2" + " " + "newlines: 1", "bytes: 12 words: 2 newlines: 1";
    assert |x| == |y|;
    forall i | 0 <= i < |x| ensures x[i] == y[i] {
    }
  }

  lemma HelloWorldTexts()
    ensures Texts(Present(Counts(12, 0, 2, 1))) == ["bytes: 12", "words: 2", "newlines: 1"]
  {
    var b, w, nl := Field("bytes", 12), Field("words", 2), Field("newlines", 1);
    assert Present(Counts(12, 0, 2, 1)) == [b, w, nl];
    assert Texts([b, w, nl]) == [FieldText(b), FieldText(w), FieldText(nl)];
    assert Decimal(12) == "12" && Decimal(2) == "2" && Decimal(1) == "1";
    assert FieldText(b) == "bytes: 12";
    assert FieldText(w) == "words: 2";
    assert FieldText(nl) == "newlines: 1";
  }

  lemma JoinThree(x: string, y: string, z: string)
    ensures Join([x, y, z]) == x + " " + y + " " + z
  {
    assert [x, y, z] == [x] + [y, z];
    assert [y, z] == [y] + [z];
    JoinCons(x, [y, z]);
    JoinCons(y, [z]);
  }
}
