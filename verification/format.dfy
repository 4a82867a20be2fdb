/**
 * The result string of one file (src/main.rs): each non-zero counter as a
 * labelled field `<name>: <decimal>`, in the fixed order bytes, chars, words,
 * newlines, built by successive appends and trimmed of surrounding white space.
 */
module Format {
  import opened Wrappers
  import opened Counting

  // ---------------------------------------------------------------------------
  // Decimal rendering of a count, as `format!("{}", n)` prints it

  predicate IsDigit(c: char) { '0' <= c <= '9' }

  function DigitChar(d: nat): (c: char)
    requires d < 10
    ensures IsDigit(c)
  {
    (d + '0' as int) as char
  }

  function DigitValue(c: char): (d: nat)
    requires IsDigit(c)
    ensures d < 10
  {
    c as int - '0' as int
  }

  /** The decimal rendering of `n`: at least one digit, no leading zero. */
  function Decimal(n: nat): (s: string)
    ensures s != []
    ensures forall i :: 0 <= i < |s| ==> IsDigit(s[i])
    ensures s[0] == '0' ==> n == 0
  {
    if n < 10 then [DigitChar(n)] else Decimal(n / 10) + [DigitChar(n % 10)]
  }

  /** Reads a non-empty string of decimal digits back as a number. */
  function ParseNat(s: string): Option<nat> {
    if s == [] || !IsDigit(s[|s| - 1]) then None
    else if |s| == 1 then Some(DigitValue(s[0]))
    else match ParseNat(s[..|s| - 1])
      case None => None
      case Some(m) => Some(10 * m + DigitValue(s[|s| - 1]))
  }

  /** Decimal rendering loses nothing: reading it back gives the number. */
  lemma {:induction false} DecimalRoundTrip(n: nat)
    ensures ParseNat(Decimal(n)) == Some(n)
  {
    if n >= 10 {
      DecimalRoundTrip(n / 10);
      var s := Decimal(n);
      assert s[..|s| - 1] == Decimal(n / 10);
    }
  }

  // ---------------------------------------------------------------------------
  // `str::trim`

  /** The Unicode White_Space property, which `str::trim` strips. */
  predicate IsWhiteSpace(c: char) {
    ('\t' <= c <= '\r') || c == ' ' || c == '\U{85}' || c == '\U{A0}' || c == '\U{1680}' ||
    ('\U{2000}' <= c <= '\U{200A}') || c == '\U{2028}' || c == '\U{2029}' ||
    c == '\U{202F}' || c == '\U{205F}' || c == '\U{3000}'
  }

  /** `s` with its leading white space removed: a suffix of `s` not starting with white space. */
  function TrimStart(s: string): (r: string)
    ensures |r| <= |s| && r == s[|s| - |r|..]
    ensures forall i :: 0 <= i < |s| - |r| ==> IsWhiteSpace(s[i])
    ensures r != [] ==> !IsWhiteSpace(r[0])
  {
    if s != [] && IsWhiteSpace(s[0]) then TrimStart(s[1..]) else s
  }

  /** `s` with its trailing white space removed: a prefix of `s` not ending with white space. */
  function TrimEnd(s: string): (r: string)
    ensures |r| <= |s| && r == s[..|r|]
    ensures forall i :: |r| <= i < |s| ==> IsWhiteSpace(s[i])
    ensures r != [] ==> !IsWhiteSpace(r[|r| - 1])
  {
    if s != [] && IsWhiteSpace(s[|s| - 1]) then TrimEnd(s[..|s| - 1]) else s
  }

  /**
   * `str::trim`: a window `s[i..j]` of `s` whose ends are not white space,
   * everything dropped before `i` and from `j` on being white space.
   */
  function Trim(s: string): (r: string)
    ensures |r| <= |s|
    ensures r != [] ==> !IsWhiteSpace(r[0]) && !IsWhiteSpace(r[|r| - 1])
    ensures exists i, j ::
              && 0 <= i <= j <= |s| && r == s[i..j]
              && (forall k :: 0 <= k < i ==> IsWhiteSpace(s[k]))
              && (forall k :: j <= k < |s| ==> IsWhiteSpace(s[k]))
  {
    var t := TrimStart(s);
    var i := |s| - |t|;
    var r := TrimEnd(t);
    assert r == s[i..i + |r|];
    r
  }

  /** A string whose ends are not white space is its own trim. */
  predicate Clean(s: string) {
    s == [] || (!IsWhiteSpace(s[0]) && !IsWhiteSpace(s[|s| - 1]))
  }

  lemma TrimClean(s: string)
    requires Clean(s)
    ensures Trim(s) == s && Trim(" " + s) == s
  {
    if s != [] {
      assert (" " + s)[1..] == s;
    }
  }

  // ---------------------------------------------------------------------------
  // The fields of a result string

  /** One labelled field of the result string. */
  datatype Field = Field(name: string, value: nat)

  predicate IsName(l: string) {
    l == "bytes" || l == "chars" || l == "words" || l == "newlines"
  }

  /** The position of a name in the fixed field order. */
  function Rank(l: string): nat {
    if l == "bytes" then 0 else if l == "chars" then 1 else if l == "words" then 2 else 3
  }

  function FieldText(f: Field): string {
    f.name + ": " + Decimal(f.value)
  }

  /** The field for a counter, present only when the count is non-zero. */
  function FieldIfPositive(name: string, n: nat): seq<Field> {
    if n > 0 then [Field(name, n)] else []
  }

  /** The fields shown for `c`, in the order bytes, chars, words, newlines. */
  function Present(c: Counts): (r: seq<Field>)
    ensures |r| <= 4
    ensures r == [] <==> c == Zero
  {
    FieldIfPositive("bytes", c.bytes) + FieldIfPositive("chars", c.chars) +
    FieldIfPositive("words", c.words) + FieldIfPositive("newlines", c.newlines)
  }

  function Texts(fs: seq<Field>): (r: seq<string>)
    ensures |r| == |fs|
    ensures forall i :: 0 <= i < |fs| ==> r[i] == FieldText(fs[i])
  {
    if fs == [] then [] else [FieldText(fs[0])] + Texts(fs[1..])
  }

  /** The parts joined by single spaces. */
  function Join(parts: seq<string>): string {
    if parts == [] then "" else if |parts| == 1 then parts[0] else parts[0] + " " + Join(parts[1..])
  }

  /** The result string of a file with counts `c`. */
  function Report(c: Counts): string {
    Join(Texts(Present(c)))
  }

  /** What appending `" " + p` for every part `p` of `ps` produces. */
  function Pushed(ps: seq<string>): string {
    if ps == [] then "" else " " + ps[0] + Pushed(ps[1..])
  }

  lemma {:induction false} PushedAppend(a: seq<string>, b: seq<string>)
    ensures Pushed(a + b) == Pushed(a) + Pushed(b)
  {
    if a == [] {
      assert a + b == b;
    } else {
      assert (a + b)[1..] == a[1..] + b;
      PushedAppend(a[1..], b);
    }
  }

  lemma {:induction false} TextsAppend(a: seq<Field>, b: seq<Field>)
    ensures Texts(a + b) == Texts(a) + Texts(b)
  {
    if a == [] {
      assert a + b == b;
    } else {
      assert (a + b)[1..] == a[1..] + b;
      TextsAppend(a[1..], b);
    }
  }

  lemma JoinCons(p: string, ps: seq<string>)
    ensures Join([p] + ps) == if ps == [] then p else p + " " + Join(ps)
  {
    assert ([p] + ps)[1..] == ps;
  }

  /** Joining parts is the first part followed by the space-prefixed appends of the others. */
  lemma {:induction false} JoinIsHeadThenPushed(p: string, ps: seq<string>)
    ensures Join([p] + ps) == p + Pushed(ps)
    decreases |ps|
  {
    JoinCons(p, ps);
    if ps != [] {
      var q, rest := ps[0], ps[1..];
      assert ps == [q] + rest;
      JoinIsHeadThenPushed(q, rest);
      PushedCons(q, rest);
      SpaceBetween(p, q, Pushed(rest));
    }
  }

  /** Regrouping of a three-part join, stated apart so the solver does not search for it. */
  lemma SpaceBetween(a: string, b: string, c: string)
    ensures a + " " + (b + c) == a + (" " + b + c)
  {
  }

  /** The first and last characters of a join are those of its first and last parts. */
  lemma {:induction false} JoinEnds(parts: seq<string>)
    requires parts != []
    requires forall i :: 0 <= i < |parts| ==> parts[i] != []
    ensures var j := Join(parts);
      j != [] && j[0] == parts[0][0] && j[|j| - 1] == parts[|parts| - 1][|parts[|parts| - 1]| - 1]
  {
    if |parts| > 1 {
      JoinEnds(parts[1..]);
    }
  }

  /** Every shown field has one of the four names and a positive count, and each counter is shown exactly when it is non-zero. */
  lemma PresentFields(c: Counts)
    ensures forall i :: 0 <= i < |Present(c)| ==> IsName(Present(c)[i].name) && Present(c)[i].value > 0
    ensures Field("bytes", c.bytes) in Present(c) <==> c.bytes > 0
    ensures Field("chars", c.chars) in Present(c) <==> c.chars > 0
    ensures Field("words", c.words) in Present(c) <==> c.words > 0
    ensures Field("newlines", c.newlines) in Present(c) <==> c.newlines > 0
  {
  }

  /** The shown fields appear in the fixed order bytes, chars, words, newlines. */
  lemma PresentOrdered(c: Counts)
    ensures forall i, j :: 0 <= i < j < |Present(c)| ==> Rank(Present(c)[i].name) < Rank(Present(c)[j].name)
  {
  }

  /** A field's text starts with a letter of its name and ends with a digit of its count. */
  lemma FieldTextClean(f: Field)
    requires IsName(f.name)
    ensures var t := FieldText(f); t != [] && !IsWhiteSpace(t[0]) && !IsWhiteSpace(t[|t| - 1])
  {
    var d := Decimal(f.value);
    var t := FieldText(f);
    assert t == f.name + ": " + d;
    assert t[0] == f.name[0];
    assert t[|t| - 1] == d[|d| - 1];
  }

  /** The result string is empty exactly when every count is zero, and otherwise has no white space at either end. */
  lemma ReportShape(c: Counts)
    ensures Report(c) == "" <==> c == Zero
    ensures Clean(Report(c))
  {
    var fs := Present(c);
    PresentFields(c);
    if c != Zero {
      assert fs != [];
      TextsClean(fs);
      JoinEnds(Texts(fs));
    } else {
      assert fs == [];
    }
  }

  /** The text of every field with one of the four names is non-empty and has no white space at either end. */
  lemma TextsClean(fs: seq<Field>)
    requires forall i :: 0 <= i < |fs| ==> IsName(fs[i].name)
    ensures forall i :: 0 <= i < |fs| ==> var t := Texts(fs)[i]; t != [] && !IsWhiteSpace(t[0]) && !IsWhiteSpace(t[|t| - 1])
  {
    forall i | 0 <= i < |fs| ensures var t := Texts(fs)[i]; t != [] && !IsWhiteSpace(t[0]) && !IsWhiteSpace(t[|t| - 1]) {
      FieldTextClean(fs[i]);
    }
  }

  /** What the append for one counter contributes, as the first field and as a later one: nothing for a zero count. */
  lemma FieldPieces(name: string, n: nat)
    ensures Join(Texts(FieldIfPositive(name, n))) == if n > 0 then name + ": " + Decimal(n) else ""
    ensures Pushed(Texts(FieldIfPositive(name, n))) == if n > 0 then " " + name + ": " + Decimal(n) else ""
  {
    if n > 0 {
      assert Texts(FieldIfPositive(name, n)) == [name + ": " + Decimal(n)];
    }
  }

  /** The space-prefixed appends of non-empty parts are a space followed by their join. */
  lemma PushedIsSpacedJoin(ps: seq<string>)
    requires ps != []
    ensures Pushed(ps) == " " + Join(ps)
  {
    assert ps == [ps[0]] + ps[1..];
    JoinIsHeadThenPushed(ps[0], ps[1..]);
  }

  /** Trimming the first part followed by the space-prefixed appends of the rest gives their join, when that join is clean. */
  lemma TrimPushes(lead: seq<string>, rest: seq<string>)
    requires |lead| <= 1
    requires Clean(Join(lead + rest))
    ensures Trim(Join(lead) + Pushed(rest)) == Join(lead + rest)
  {
    var x := Join(lead) + Pushed(rest);
    if lead != [] {
      assert lead + rest == [lead[0]] + rest;
      JoinIsHeadThenPushed(lead[0], rest);
      assert x == Join(lead + rest);
      TrimClean(Join(lead + rest));
    } else if rest != [] {
      assert lead + rest == rest;
      PushedIsSpacedJoin(rest);
      assert x == " " + Join(rest);
      TrimClean(Join(rest));
    } else {
      assert x == "";
    }
  }

  /** The result string is the trimmed concatenation of the first field and the space-prefixed later ones. */
  lemma ReportAsPushes(c: Counts)
    ensures var rest := Texts(FieldIfPositive("chars", c.chars)) + Texts(FieldIfPositive("words", c.words))
                        + Texts(FieldIfPositive("newlines", c.newlines));
      Trim(Join(Texts(FieldIfPositive("bytes", c.bytes))) + Pushed(rest)) == Report(c)
  {
    var b, ch := FieldIfPositive("bytes", c.bytes), FieldIfPositive("chars", c.chars);
    var w, nl := FieldIfPositive("words", c.words), FieldIfPositive("newlines", c.newlines);
    var rest := Texts(ch) + Texts(w) + Texts(nl);
    TextsAppend(ch, w);
    TextsAppend(ch + w, nl);
    TextsAppend(b, ch + w + nl);
    ConcatAssoc(b, ch, w, nl);
    ReportShape(c);
    TrimPushes(Texts(b), rest);
  }

  /**
   * Builds the result string as the source does: an append for each non-zero
   * counter, the first without and the others with a leading space, then a trim.
   */
  method FormatResult(counts: Counts) returns (result: string)
    ensures result == Report(counts)
  {
    Labels();
    var raw := "";
    if counts.bytes > 0 { raw := raw + "bytes: " + Decimal(counts.bytes); }
    ghost var lead := raw;
    AppendStep(raw, "chars", " chars: ", counts.chars);
    if counts.chars > 0 { raw := raw + " chars: " + Decimal(counts.chars); }
    AppendStep(raw, "words", " words: ", counts.words);
    if counts.words > 0 { raw := raw + " words: " + Decimal(counts.words); }
    AppendStep(raw, "newlines", " newlines: ", counts.newlines);
    if counts.newlines > 0 { raw := raw + " newlines: " + Decimal(counts.newlines); }
    AppendsArePushes(counts, lead, raw);
    result := Trim(raw);
    ReportAsPushes(counts);
  }

  /** The four appends of the source are the first field followed by the space-prefixed later ones. */
  lemma AppendsArePushes(c: Counts, lead: string, raw: string)
    requires lead == if c.bytes > 0 then "bytes: " + Decimal(c.bytes) else ""
    requires raw == lead + Pushed(Texts(FieldIfPositive("chars", c.chars)))
                         + Pushed(Texts(FieldIfPositive("words", c.words)))
                         + Pushed(Texts(FieldIfPositive("newlines", c.newlines)))
    ensures raw == Join(Texts(FieldIfPositive("bytes", c.bytes)))
                   + Pushed(Texts(FieldIfPositive("chars", c.chars)) + Texts(FieldIfPositive("words", c.words))
                            + Texts(FieldIfPositive("newlines", c.newlines)))
  {
    var chars := Texts(FieldIfPositive("chars", c.chars));
    var words := Texts(FieldIfPositive("words", c.words));
    var newlines := Texts(FieldIfPositive("newlines", c.newlines));
    LeadIsJoin(c.bytes);
    PushedAppend(chars, words);
    PushedAppend(chars + words, newlines);
    ConcatAssoc(lead, Pushed(chars), Pushed(words), Pushed(newlines));
  }

  /** The first append of the source is the join of the bytes field alone. */
  lemma LeadIsJoin(n: nat)
    ensures Join(Texts(FieldIfPositive("bytes", n))) == if n > 0 then "bytes: " + Decimal(n) else ""
  {
    FieldPieces("bytes", n);
    assert "bytes: " == "bytes" + ": ";
  }

  /** Regrouping of four appended pieces, stated apart so the solver does not search for it. */
  lemma ConcatAssoc<T>(a: seq<T>, b: seq<T>, c: seq<T>, d: seq<T>)
    ensures a + b + c + d == a + (b + c + d)
  {
  }

  /** One append of the source, `lit + n` with `lit` the space-prefixed label, when `n` is non-zero, is the space-prefixed field. */
  lemma AppendStep(before: string, name: string, lit: string, n: nat)
    requires lit == " " + name + ": "
    ensures (if n > 0 then before + lit + Decimal(n) else before) == before + Pushed(Texts(FieldIfPositive(name, n)))
  {
    FieldPieces(name, n);
  }

  /**
   * The literal labels the source appends, split at the colon; a step for the
   * solver, which does not take string literals apart on its own.
   */
  lemma Labels()
    ensures " chars: " == " " + "chars" + ": "
    ensures " words: " == " " + "words" + ": "
    ensures " newlines: " == " " + "newlines" + ": "
  {
  }

  // ---------------------------------------------------------------------------
  // Reading a result string back

  predicate NoSpace(t: string) { forall i :: 0 <= i < |t| ==> t[i] != ' ' }

  /** The index of the first space in `s`, or `|s|` when there is none. */
  function FirstSpace(s: string): (i: nat)
    ensures i <= |s|
    ensures forall j :: 0 <= j < i ==> s[j] != ' '
    ensures i < |s| ==> s[i] == ' '
  {
    if s == [] || s[0] == ' ' then 0 else 1 + FirstSpace(s[1..])
  }

  /** `s` cut at every single space. */
  function SplitSpaces(s: string): seq<string>
    decreases |s|
  {
    var i := FirstSpace(s);
    if i == |s| then [s] else [s[..i]] + SplitSpaces(s[i + 1..])
  }

  /** Splitting at spaces undoes joining with spaces when no part holds a space. */
  lemma {:induction false} SplitJoin(ts: seq<string>)
    requires ts != []
    requires forall i :: 0 <= i < |ts| ==> NoSpace(ts[i])
    ensures SplitSpaces(Join(ts)) == ts
  {
    var s := Join(ts);
    var i := FirstSpace(s);
    if |ts| == 1 {
      assert s == ts[0];
    } else {
      var t := ts[0];
      assert s == t + " " + Join(ts[1..]);
      assert s[|t|] == ' ';
      assert forall j :: 0 <= j < |t| ==> s[j] == t[j];
      assert i == |t|;
      assert s[..i] == t;
      assert s[i + 1..] == Join(ts[1..]);
      SplitJoin(ts[1..]);
    }
  }

  /** The words of the result string: each field as its name with a colon, then its number. */
  function Tokens(fs: seq<Field>): seq<string> {
    if fs == [] then [] else [fs[0].name + ":"] + ([Decimal(fs[0].value)] + Tokens(fs[1..]))
  }

  lemma {:induction false} TokensAppend(a: seq<Field>, b: seq<Field>)
    ensures Tokens(a + b) == Tokens(a) + Tokens(b)
  {
    if a == [] {
      assert a + b == b;
    } else {
      assert (a + b)[1..] == a[1..] + b;
      TokensAppend(a[1..], b);
    }
  }

  lemma {:induction false} PushedTextsIsPushedTokens(fs: seq<Field>)
    ensures Pushed(Texts(fs)) == Pushed(Tokens(fs))
  {
    if fs != [] {
      var f := fs[0];
      PushedTextsIsPushedTokens(fs[1..]);
      FieldTextIsWords(f);
      PushedWordsStep(FieldText(f), f.name + ":", Decimal(f.value), Texts(fs[1..]), Tokens(fs[1..]));
    }
  }

  /** One field's text in front of the rest, pushed, is its two words in front of the rest's words, pushed. */
  lemma PushedWordsStep(text: string, name: string, d: string, texts: seq<string>, tokens: seq<string>)
    requires text == name + " " + d
    requires Pushed(texts) == Pushed(tokens)
    ensures Pushed([text] + texts) == Pushed([name] + ([d] + tokens))
  {
    PushedCons(text, texts);
    PushedCons(name, [d] + tokens);
    PushedCons(d, tokens);
    SpacedAssoc(name, d, Pushed(tokens));
  }

  lemma PushedCons(p: string, ps: seq<string>)
    ensures Pushed([p] + ps) == " " + p + Pushed(ps)
  {
    assert ([p] + ps)[1..] == ps;
  }

  /** Regrouping of a spaced append, stated apart so the solver does not search for it. */
  lemma SpacedAssoc(a: string, b: string, c: string)
    ensures " " + (a + " " + b) + c == " " + a + (" " + b + c)
  {
  }

  /** A field's text is its two words with a space between them. */
  lemma FieldTextIsWords(f: Field)
    ensures FieldText(f) == (f.name + ":") + " " + Decimal(f.value)
  {
  }

  /** Joining the field texts and joining the words give the same string. */
  lemma {:induction false} JoinTextsIsJoinTokens(fs: seq<Field>)
    ensures Join(Texts(fs)) == Join(Tokens(fs))
  {
    if fs != [] {
      var f := fs[0];
      var name, d := f.name + ":", Decimal(f.value);
      var texts, tokens := Texts(fs[1..]), Tokens(fs[1..]);
      assert Texts(fs) == [FieldText(f)] + texts;
      assert Tokens(fs) == [name] + ([d] + tokens);
      JoinIsHeadThenPushed(FieldText(f), texts);
      JoinIsHeadThenPushed(name, [d] + tokens);
      PushedCons(d, tokens);
      PushedTextsIsPushedTokens(fs[1..]);
      FieldTextIsWords(f);
    }
  }

  /** No word of a field list with the four names holds a space. */
  lemma {:induction false} TokensHaveNoSpace(fs: seq<Field>)
    requires forall i :: 0 <= i < |fs| ==> IsName(fs[i].name)
    ensures forall i :: 0 <= i < |Tokens(fs)| ==> NoSpace(Tokens(fs)[i])
  {
    if fs != [] {
      TokensHaveNoSpace(fs[1..]);
      var ts := Tokens(fs);
      assert ts == [fs[0].name + ":", Decimal(fs[0].value)] + Tokens(fs[1..]);
      assert NoSpace(fs[0].name + ":");
      assert NoSpace(Decimal(fs[0].value));
    }
  }

  /** The counts with the field called `name` set to `n`. */
  function Assign(acc: Counts, name: string, n: nat): Counts {
    if name == "bytes" then acc.(bytes := n)
    else if name == "chars" then acc.(chars := n)
    else if name == "words" then acc.(words := n)
    else acc.(newlines := n)
  }

  /** The field name a word `<name>:` introduces, if it is one of the four. */
  function NameOf(t: string): Option<string> {
    if t != [] && t[|t| - 1] == ':' && IsName(t[..|t| - 1]) then Some(t[..|t| - 1]) else None
  }

  /** Reads name/number pairs into `acc`; None on an unknown name or a malformed number. */
  function ParseTokens(ts: seq<string>, acc: Counts): Option<Counts>
    decreases |ts|
  {
    if ts == [] then Some(acc)
    else if |ts| == 1 then None
    else match (NameOf(ts[0]), ParseNat(ts[1]))
      case (Some(name), Some(n)) => ParseTokens(ts[2..], Assign(acc, name, n))
      case _ => None
  }

  /** Reads a result string back into counts; absent fields read as zero. */
  function ParseReport(line: string): Option<Counts> {
    if line == "" then Some(Zero) else ParseTokens(SplitSpaces(line), Zero)
  }

  lemma ParseField(name: string, n: nat, rest: seq<string>, acc: Counts)
    requires IsName(name)
    ensures ParseTokens(Tokens(FieldIfPositive(name, n)) + rest, acc)
         == ParseTokens(rest, if n > 0 then Assign(acc, name, n) else acc)
  {
    if n > 0 {
      DecimalRoundTrip(n);
      var ts := Tokens(FieldIfPositive(name, n)) + rest;
      assert ts == [name + ":", Decimal(n)] + rest;
      assert (name + ":")[..|name|] == name;
      assert NameOf(ts[0]) == Some(name);
      assert ts[2..] == rest;
    } else {
      assert Tokens(FieldIfPositive(name, n)) + rest == rest;
    }
  }

  lemma TokensOfPresent(c: Counts)
    ensures Tokens(Present(c))
         == Tokens(FieldIfPositive("bytes", c.bytes)) + (Tokens(FieldIfPositive("chars", c.chars))
            + (Tokens(FieldIfPositive("words", c.words)) + (Tokens(FieldIfPositive("newlines", c.newlines)) + [])))
  {
    var b, ch := FieldIfPositive("bytes", c.bytes), FieldIfPositive("chars", c.chars);
    var w, nl := FieldIfPositive("words", c.words), FieldIfPositive("newlines", c.newlines);
    assert Present(c) == b + (ch + (w + nl));
    TokensAppend(w, nl);
    TokensAppend(ch, w + nl);
    TokensAppend(b, ch + (w + nl));
    assert Tokens(nl) + [] == Tokens(nl);
  }

  /** Reading the words of the shown fields back gives the counts. */
  lemma ParsePresent(c: Counts)
    ensures ParseTokens(Tokens(Present(c)), Zero) == Some(c)
  {
    var tb, tc := Tokens(FieldIfPositive("bytes", c.bytes)), Tokens(FieldIfPositive("chars", c.chars));
    var tw, tn := Tokens(FieldIfPositive("words", c.words)), Tokens(FieldIfPositive("newlines", c.newlines));
    TokensOfPresent(c);
    var a1 := Counts(c.bytes, 0, 0, 0);
    var a2 := Counts(c.bytes, c.chars, 0, 0);
    var a3 := Counts(c.bytes, c.chars, c.words, 0);
    ParseField("bytes", c.bytes, tc + (tw + (tn + [])), Zero);
    assert (if c.bytes > 0 then Assign(Zero, "bytes", c.bytes) else Zero) == a1;
    ParseField("chars", c.chars, tw + (tn + []), a1);
    assert (if c.chars > 0 then Assign(a1, "chars", c.chars) else a1) == a2;
    ParseField("words", c.words, tn + [], a2);
    assert (if c.words > 0 then Assign(a2, "words", c.words) else a2) == a3;
    ParseField("newlines", c.newlines, [], a3);
    assert (if c.newlines > 0 then Assign(a3, "newlines", c.newlines) else a3) == c;
  }

  /** The result string determines the counts: reading it back gives them exactly. */
  lemma ReportRoundTrip(c: Counts)
    ensures ParseReport(Report(c)) == Some(c)
  {
    ReportShape(c);
    if Report(c) != "" {
      var fs := Present(c);
      JoinTextsIsJoinTokens(fs);
      PresentFields(c);
      TokensHaveNoSpace(fs);
      assert Tokens(fs) != [];
      SplitJoin(Tokens(fs));
      ParsePresent(c);
    }
  }
}
