/**
 * The per-file counting pass of `ripwc` (src/main.rs): the command-line flag
 * record, the byte classifications the counters use, the default-flag rule and
 * the single loop over a file's bytes that keeps the four counters.
 */
module Counting {
  import opened Wrappers

  /** One value yielded by the reader's byte iterator (a Rust `u8`). */
  type Byte = b: int | 0 <= b < 0x100

  /** The command-line flags; `file` is the root path given on the command line. */
  datatype Args = Args(
    file: string,
    bytes: bool,
    words: bool,
    lines: bool,
    chars: bool,
    maxLineLength: bool,
    recursive: bool,
    verbose: bool)

  /** The four per-file counters. */
  datatype Counts = Counts(bytes: nat, chars: nat, words: nat, newlines: nat)

  const Zero := Counts(0, 0, 0, 0)

  /** `u8::is_ascii`: the byte is at most 0x7F. */
  predicate IsAscii(b: Byte) { b <= 0x7F }

  /** The line-feed byte 0x0A. */
  predicate IsNewline(b: Byte) { b == 0x0A }

  /**
   * `u8::is_ascii_whitespace`: space, horizontal tab, line feed, form feed and
   * carriage return. The vertical tab 0x0B is not among them.
   */
  predicate IsAsciiWhitespace(b: Byte)
    ensures IsAsciiWhitespace(b) ==> IsAscii(b)
    ensures IsNewline(b) ==> IsAsciiWhitespace(b)
  {
    b == 0x20 || b == 0x09 || b == 0x0A || b == 0x0C || b == 0x0D
  }

  /** The number of bytes of `s` that satisfy `p`. */
  function CountWhere(s: seq<Byte>, p: Byte -> bool): (n: nat)
    ensures n <= |s|
  {
    if s == [] then 0
    else CountWhere(s[..|s| - 1], p) + (if p(s[|s| - 1]) then 1 else 0)
  }

  /** The positions of `s` whose byte satisfies `p`: an independent reading of CountWhere. */
  ghost function PositionsWhere(s: seq<Byte>, p: Byte -> bool): set<int> {
    set i | 0 <= i < |s| && p(s[i])
  }

  /** True when none of the three default statistics is selected. */
  predicate NoneSelected(app: Args) { !app.bytes && !app.lines && !app.words }

  /**
   * The default-flag rule: when none of bytes, lines and words is selected, all
   * three are switched on. No other flag is touched; `chars` in particular is
   * never switched on by it.
   */
  function ApplyDefaults(app: Args): (r: Args)
    ensures r.bytes || r.lines || r.words
    ensures !NoneSelected(app) ==> r == app
    ensures NoneSelected(app) ==> r.bytes && r.lines && r.words
    ensures app.bytes ==> r.bytes
    ensures app.lines ==> r.lines
    ensures app.words ==> r.words
    ensures r.chars == app.chars && r.maxLineLength == app.maxLineLength
    ensures r.recursive == app.recursive && r.verbose == app.verbose && r.file == app.file
  {
    if NoneSelected(app) then app.(bytes := true, lines := true, words := true) else app
  }

  /**
   * What the counters hold after scanning `s` with the flags `flags` fixed for
   * the whole scan: each enabled counter is the number of bytes satisfying its
   * classification, each disabled one is zero.
   */
  function CountsFor(flags: Args, s: seq<Byte>): (r: Counts)
    ensures r.bytes <= |s| && r.chars <= |s| && r.words <= |s| && r.newlines <= |s|
    ensures s == [] ==> r == Zero
  {
    Counts(
      if flags.bytes then |s| else 0,
      if flags.chars then CountWhere(s, IsAscii) else 0,
      if flags.words then CountWhere(s, IsAsciiWhitespace) else 0,
      if flags.lines then CountWhere(s, IsNewline) else 0)
  }

  /**
   * The per-file loop. `file` is the file's content, or None when it could not
   * be opened. The default-flag rule is re-evaluated before every byte, as the
   * source does; the result is the same as applying it once before the loop,
   * and the returned flags show that it fires only when at least one byte was
   * read.
   */
  method CountFile(app: Args, file: Option<seq<Byte>>) returns (counts: Counts, flags: Args)
    ensures file.None? ==> counts == Zero
    ensures file.Some? ==> counts == CountsFor(ApplyDefaults(app), file.value)
    ensures flags == if file.Some? && file.value != [] then ApplyDefaults(app) else app
  {
    flags := app;
    var byteCount, charCount, wordCount, newlineCount := 0, 0, 0, 0;
    if file.Some? {
      var content := file.value;
      ghost var f := ApplyDefaults(app);
      for i := 0 to |content|
        invariant flags == if i == 0 then app else f
        invariant Counts(byteCount, charCount, wordCount, newlineCount) == CountsFor(f, content[..i])
      {
        var b := content[i];
        if !flags.bytes && !flags.lines && !flags.words {
          flags := flags.(bytes := true, lines := true, words := true);
        }
        if flags.bytes { byteCount := byteCount + 1; }
        if flags.chars && IsAscii(b) { charCount := charCount + 1; }
        if flags.lines && b == 0x0A { newlineCount := newlineCount + 1; }
        if flags.words && IsAsciiWhitespace(b) { wordCount := wordCount + 1; }
        CountsForStep(f, content, i);
      }
      assert content[..|content|] == content;
    }
    counts := Counts(byteCount, charCount, wordCount, newlineCount);
  }

  /** Counting one more byte of `s` adds one exactly when that byte satisfies the predicate. */
  lemma CountWhereStep(s: seq<Byte>, i: nat, p: Byte -> bool)
    requires i < |s|
    ensures CountWhere(s[..i + 1], p) == CountWhere(s[..i], p) + (if p(s[i]) then 1 else 0)
  {
    assert s[..i + 1][..i] == s[..i];
  }

  /** Counting one more byte adds one to each selected counter whose class the byte belongs to. */
  lemma CountsForStep(flags: Args, s: seq<Byte>, i: nat)
    requires i < |s|
    ensures var before, after, b := CountsFor(flags, s[..i]), CountsFor(flags, s[..i + 1]), s[i];
      after.bytes == before.bytes + (if flags.bytes then 1 else 0) &&
      after.chars == before.chars + (if flags.chars && IsAscii(b) then 1 else 0) &&
      after.words == before.words + (if flags.words && IsAsciiWhitespace(b) then 1 else 0) &&
      after.newlines == before.newlines + (if flags.lines && b == 0x0A then 1 else 0)
  {
    CountWhereStep(s, i, IsAscii);
    CountWhereStep(s, i, IsAsciiWhitespace);
    CountWhereStep(s, i, IsNewline);
  }

  // ---------------------------------------------------------------------------
  // Properties of the counters

  /** CountWhere counts exactly the positions whose byte satisfies the predicate. */
  lemma {:induction false} CountWhereIsPositionCount(s: seq<Byte>, p: Byte -> bool)
    ensures CountWhere(s, p) == |PositionsWhere(s, p)|
  {
    if s != [] {
      var n := |s| - 1;
      CountWhereIsPositionCount(s[..n], p);
      var before := PositionsWhere(s[..n], p);
      assert n !in before;
      if p(s[n]) {
        assert PositionsWhere(s, p) == before + {n};
      } else {
        assert PositionsWhere(s, p) == before;
      }
    }
  }

  /** Counting over a concatenation adds the counts of the two parts. */
  lemma {:induction false} CountWhereAppend(a: seq<Byte>, b: seq<Byte>, p: Byte -> bool)
    ensures CountWhere(a + b, p) == CountWhere(a, p) + CountWhere(b, p)
  {
    if b != [] {
      var n := |b| - 1;
      assert (a + b)[..|a + b| - 1] == a + b[..n];
      CountWhereAppend(a, b[..n], p);
    } else {
      assert a + b == a;
    }
  }

  /** A weaker classification never counts more bytes. */
  lemma {:induction false} CountWhereMonotone(s: seq<Byte>, p: Byte -> bool, q: Byte -> bool)
    requires forall b: Byte :: p(b) ==> q(b)
    ensures CountWhere(s, p) <= CountWhere(s, q)
  {
    if s != [] {
      CountWhereMonotone(s[..|s| - 1], p, q);
    }
  }

  /** Every byte either satisfies a classification or its negation. */
  lemma {:induction false} CountWhereComplement(s: seq<Byte>, p: Byte -> bool)
    ensures CountWhere(s, p) + CountWhere(s, (b: Byte) => !p(b)) == |s|
  {
    if s != [] {
      CountWhereComplement(s[..|s| - 1], p);
    }
  }

  /** Counting bytes equal to `x` gives the multiplicity of `x` in the content. */
  lemma {:induction false} CountWhereEqualIsMultiplicity(s: seq<Byte>, x: Byte)
    ensures CountWhere(s, (b: Byte) => b == x) == multiset(s)[x]
  {
    if s != [] {
      var n := |s| - 1;
      CountWhereEqualIsMultiplicity(s[..n], x);
      assert s == s[..n] + [s[n]];
      assert multiset(s) == multiset(s[..n]) + multiset{s[n]};
    }
  }

  /** The newline counter's closed form: the multiplicity of 0x0A in the content. */
  lemma NewlineCountIsMultiplicity(s: seq<Byte>)
    ensures CountWhere(s, IsNewline) == multiset(s)[0x0A]
  {
    CountWhereSamePredicate(s, IsNewline, (b: Byte) => b == 0x0A);
    CountWhereEqualIsMultiplicity(s, 0x0A);
  }

  /**
   * The word counter's closed form: the number of occurrences of the five
   * whitespace bytes 0x20, 0x09, 0x0A, 0x0C and 0x0D; 0x0B does not count.
   */
  lemma {:induction false} WordCountIsWhitespaceMultiplicity(s: seq<Byte>)
    ensures CountWhere(s, IsAsciiWhitespace)
      == multiset(s)[0x20] + multiset(s)[0x09] + multiset(s)[0x0A] + multiset(s)[0x0C] + multiset(s)[0x0D]
  {
    if s != [] {
      var n := |s| - 1;
      WordCountIsWhitespaceMultiplicity(s[..n]);
      assert s == s[..n] + [s[n]];
      assert multiset(s) == multiset(s[..n]) + multiset{s[n]};
    }
  }

  /** The character counter's closed form: the content length minus the bytes above 0x7F. */
  lemma CharCountExcludesHighBytes(s: seq<Byte>)
    ensures CountWhere(s, IsAscii) == |s| - CountWhere(s, (b: Byte) => b > 0x7F)
  {
    CountWhereComplement(s, IsAscii);
    assert forall b: Byte :: !IsAscii(b) <==> b > 0x7F;
    CountWhereSamePredicate(s, (b: Byte) => !IsAscii(b), (b: Byte) => b > 0x7F);
  }

  /** Two classifications that agree on every byte give the same count. */
  lemma {:induction false} CountWhereSamePredicate(s: seq<Byte>, p: Byte -> bool, q: Byte -> bool)
    requires forall b: Byte :: p(b) == q(b)
    ensures CountWhere(s, p) == CountWhere(s, q)
  {
    if s != [] {
      CountWhereSamePredicate(s[..|s| - 1], p, q);
    }
  }

  /**
   * Bounds of a file's counts: none exceeds the content length; with words
   * enabled, newlines never exceed words (every line feed is whitespace), and
   * with bytes enabled, words never exceed bytes.
   */
  lemma CountsOrdered(app: Args, s: seq<Byte>)
    ensures var f, c := ApplyDefaults(app), CountsFor(ApplyDefaults(app), s);
      c.bytes <= |s| && c.chars <= |s| && c.words <= |s| && c.newlines <= |s| &&
      (f.lines && f.words ==> c.newlines <= c.words) &&
      (f.words && f.bytes ==> c.words <= c.bytes)
  {
    CountWhereMonotone(s, IsNewline, IsAsciiWhitespace);
  }

  /** Under the default flags the counts are ordered newlines <= words <= bytes == |s|, and chars stays 0 unless asked for. */
  lemma DefaultCountsOrdered(app: Args, s: seq<Byte>)
    requires NoneSelected(app)
    ensures var c := CountsFor(ApplyDefaults(app), s);
      c.newlines <= c.words <= c.bytes == |s| && (c.chars > 0 ==> app.chars)
  {
    CountsOrdered(app, s);
  }

  /**
   * Each counter of a file in closed form, in terms of the flags as given:
   * bytes, words and newlines are on when selected or when none of the three
   * is; chars only when selected.
   */
  lemma CountsInClosedForm(app: Args, s: seq<Byte>)
    ensures var c, m, on := CountsFor(ApplyDefaults(app), s), multiset(s), NoneSelected(app);
      c.bytes == (if app.bytes || on then |s| else 0) &&
      c.chars == (if app.chars then |s| - CountWhere(s, (b: Byte) => b > 0x7F) else 0) &&
      c.words == (if app.words || on then m[0x20] + m[0x09] + m[0x0A] + m[0x0C] + m[0x0D] else 0) &&
      c.newlines == (if app.lines || on then m[0x0A] else 0)
  {
    CharCountExcludesHighBytes(s);
    WordCountIsWhitespaceMultiplicity(s);
    NewlineCountIsMultiplicity(s);
  }

  /** Applying the default rule twice is the same as applying it once. */
  lemma ApplyDefaultsIdempotent(app: Args)
    ensures ApplyDefaults(ApplyDefaults(app)) == ApplyDefaults(app)
  {
  }
}
