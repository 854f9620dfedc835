/** The quoting helpers: `shellSingleQuote` and `shellDoubleQuote`, which put
    a value into a shell command line, and `yamlQuote`, which writes a YAML
    single-quoted scalar. Each comes with a reader of the quoted form (the
    quoting rules of the POSIX shell, section 2.2 of the Shell Command
    Language, and the single-quoted scalars of YAML 1.2, section 7.3.2), and
    reading a quoted value gives the value back. */
module Quoting {
  import opened Text

  // ---------------------------------------------------------------------------
  // The writers

  /** The text put between the single quotes: every `'` closes the quote,
      adds a double-quoted `'` and opens a new single quote. */
  const QuoteBreak: string := "'\"'\"'"

  /** `shellSingleQuote`: the value between single quotes; a value without
      `'` is only wrapped. */
  function ShellSingleQuote(value: string): (r: string)
    ensures |r| >= |value| + 2 && r[0] == '\'' && r[|r| - 1] == '\''
    ensures '\'' !in value ==> r == "'" + value + "'"
  {
    ReplaceAllOneChar(value, '\'', QuoteBreak);
    ReplaceCharLength(value, '\'', QuoteBreak);
    "'" + ReplaceAll(value, "'", QuoteBreak) + "'"
  }

  /** `shellDoubleQuote`: the text to put between double quotes, with `\`,
      `"`, `$` and the backquote escaped, in that order. The four passes
      escape each of these characters with one backslash and keep every
      other character: a backslash added by one pass is never touched by a
      later one. */
  function ShellDoubleQuote(value: string): (r: string)
    ensures r == Escaped(value)
  {
    var p1 := ReplaceAll(value, "\\", "\\\\");
    ReplaceAllOneChar(value, '\\', "\\\\");
    var p2 := ReplaceAll(p1, "\"", "\\\"");
    ReplaceAllOneChar(p1, '"', "\\\"");
    var p3 := ReplaceAll(p2, "$", "\\$");
    ReplaceAllOneChar(p2, '$', "\\$");
    ReplaceAllOneChar(p3, '`', "\\`");
    PassesEscape(value);
    ReplaceAll(p3, "`", "\\`")
  }

  /** `yamlQuote`: a YAML single-quoted scalar, `'` written twice; a value
      without `'` is only wrapped. */
  function YamlQuote(value: string): (r: string)
    ensures |r| >= |value| + 2 && r[0] == '\'' && r[|r| - 1] == '\''
    ensures '\'' !in value ==> r == "'" + value + "'"
  {
    ReplaceAllOneChar(value, '\'', "''");
    ReplaceCharLength(value, '\'', "''");
    "'" + ReplaceAll(value, "'", "''") + "'"
  }

  // ---------------------------------------------------------------------------
  // The shell reader (quote removal of one word)

  /** The characters a backslash escapes inside double quotes. */
  predicate DoubleEscapable(c: char)
  {
    c == '$' || c == '`' || c == '"' || c == '\\' || c == '\n'
  }

  function Prepend(s: string, r: Option<string>): Option<string>
  {
    match r
    case None => None
    case Some(t) => Some(s + t)
  }

  function PrependPair(s: string, r: Option<(string, string)>): Option<(string, string)>
  {
    match r
    case None => None
    case Some((v, rest)) => Some((s + v, rest))
  }

  /** The inside of a single-quoted part up to its closing quote, and what
      follows; none when the quote is not closed. */
  function ReadSingle(s: string): (r: Option<(string, string)>)
    ensures r.Some? ==> |r.value.1| < |s|
  {
    if '\'' !in s then None
    else
      var k := IndexOf(s, '\'');
      Some((s[..k], s[k + 1..]))
  }

  /** The characters that start an expansion, inside double quotes as
      outside: parameter expansion and command substitution. */
  predicate StartsExpansion(c: char)
  {
    c == '$' || c == '`'
  }

  /** The inside of a double-quoted part up to its closing quote, and what
      follows: a backslash keeps its meaning only before `$`, the backquote,
      `"`, `\` and a newline (which it removes). None when the quote is not
      closed, and when an unescaped `$` or backquote would start an
      expansion, so that the text is not its literal value. */
  function ReadDouble(s: string): (r: Option<(string, string)>)
    ensures r.Some? ==> |r.value.1| < |s|
    decreases |s|
  {
    if |s| == 0 then None
    else if s[0] == '"' then Some(("", s[1..]))
    else if s[0] == '\\' && |s| >= 2 && DoubleEscapable(s[1]) then
      PrependPair(if s[1] == '\n' then "" else [s[1]], ReadDouble(s[2..]))
    else if StartsExpansion(s[0]) then None
    else PrependPair([s[0]], ReadDouble(s[1..]))
  }

  /** The value of one shell word after quote removal; none when a quote is
      left open, the word ends in a lone backslash, or an unescaped `$` or
      backquote would start an expansion. Other characters outside quotes are
      taken literally: field splitting, pathname expansion and operators are
      not part of this reader. */
  function ReadWord(s: string): Option<string>
    decreases |s|
  {
    if |s| == 0 then Some("")
    else if s[0] == '\'' then
      match ReadSingle(s[1..])
      case None => None
      case Some((v, rest)) => Prepend(v, ReadWord(rest))
    else if s[0] == '"' then
      match ReadDouble(s[1..])
      case None => None
      case Some((v, rest)) => Prepend(v, ReadWord(rest))
    else if s[0] == '\\' then
      if |s| < 2 then None
      else Prepend(if s[1] == '\n' then "" else [s[1]], ReadWord(s[2..]))
    else if StartsExpansion(s[0]) then None
    else Prepend([s[0]], ReadWord(s[1..]))
  }

  // ---------------------------------------------------------------------------
  // Single quotes

  lemma PrependAssoc(a: string, b: string, r: Option<string>)
    ensures Prepend(a, Prepend(b, r)) == Prepend(a + b, r)
  {
    if r.Some? {
      assert a + (b + r.value) == (a + b) + r.value;
    }
  }

  lemma ReadWordSingle(s: string, v: string, rest: string)
    requires |s| > 0 && s[0] == '\'' && ReadSingle(s[1..]) == Some((v, rest))
    ensures ReadWord(s) == Prepend(v, ReadWord(rest))
  {
  }

  lemma ReadWordDouble(s: string, v: string, rest: string)
    requires |s| > 0 && s[0] == '"' && ReadDouble(s[1..]) == Some((v, rest))
    ensures ReadWord(s) == Prepend(v, ReadWord(rest))
  {
  }

  /** A single-quoted value ending a shell word reads back as the value,
      followed by what the rest of the word reads as. */
  lemma {:induction false} SingleQuotedPrefix(v: string, rest: string)
    ensures ReadWord("'" + ReplaceChar(v, '\'', QuoteBreak) + "'" + rest) == Prepend(v, ReadWord(rest))
    decreases |v|
  {
    if '\'' !in v {
      NoQuoteCase(v, rest);
    } else {
      var k := IndexOf(v, '\'');
      var a, b := v[..k], v[k + 1..];
      assert v == a + "'" + b;
      SingleQuotedPrefix(b, rest);
      QuoteCase(a, b, rest);
    }
  }

  lemma NoQuoteCase(v: string, rest: string)
    requires '\'' !in v
    ensures ReadWord("'" + ReplaceChar(v, '\'', QuoteBreak) + "'" + rest) == Prepend(v, ReadWord(rest))
  {
    assert ReplaceChar(v, '\'', QuoteBreak) == v;
    QuotedPart(v, rest);
  }

  /** A quote-free part between single quotes reads as itself. */
  lemma QuotedPart(a: string, rest: string)
    requires '\'' !in a
    ensures ReadWord("'" + a + "'" + rest) == Prepend(a, ReadWord(rest))
  {
    var s := "'" + a + "'" + rest;
    assert s[1..] == a + "'" + rest;
    ReadUntilQuote(a, rest);
    ReadWordSingle(s, a, rest);
  }

  lemma QuoteCase(a: string, b: string, rest: string)
    requires '\'' !in a
    requires ReadWord("'" + ReplaceChar(b, '\'', QuoteBreak) + "'" + rest) == Prepend(b, ReadWord(rest))
    ensures ReadWord("'" + ReplaceChar(a + "'" + b, '\'', QuoteBreak) + "'" + rest) == Prepend(a + "'" + b, ReadWord(rest))
  {
    var tail := "'" + ReplaceChar(b, '\'', QuoteBreak) + "'" + rest;
    var x := "\"'\"" + tail;
    QuoteCaseText(a, b, rest);
    QuotedPart(a, x);
    DoubleQuotedQuote(tail);
    PrependChain(a, b, ReadWord("'" + a + "'" + x), ReadWord(x), ReadWord(tail), ReadWord(rest));
  }

  lemma PrependChain(a: string, b: string, p: Option<string>, q: Option<string>, w: Option<string>, r: Option<string>)
    requires p == Prepend(a, q) && q == Prepend("'", w) && w == Prepend(b, r)
    ensures p == Prepend(a + "'" + b, r)
  {
    PrependAssoc("'", b, r);
    PrependAssoc(a, "'" + b, r);
    assert a + ("'" + b) == a + "'" + b;
  }

  /** Where the first quote of the value falls in its quoted form. */
  lemma QuoteCaseText(a: string, b: string, rest: string)
    requires '\'' !in a
    ensures "'" + ReplaceChar(a + "'" + b, '\'', QuoteBreak) + "'" + rest
         == "'" + a + "'" + ("\"'\"" + ("'" + ReplaceChar(b, '\'', QuoteBreak) + "'" + rest))
  {
    QuotedBody(a, b);
    BreakSplit(a, ReplaceChar(b, '\'', QuoteBreak), rest);
  }

  lemma BreakSplit(a: string, r: string, rest: string)
    ensures "'" + (a + QuoteBreak + r) + "'" + rest == "'" + a + "'" + ("\"'\"" + ("'" + r + "'" + rest))
  {
  }

  lemma QuotedBody(a: string, b: string)
    requires '\'' !in a
    ensures ReplaceChar(a + "'" + b, '\'', QuoteBreak) == a + QuoteBreak + ReplaceChar(b, '\'', QuoteBreak)
  {
    ReplaceCharConcat(a + "'", b, '\'', QuoteBreak);
    ReplaceCharConcat(a, "'", '\'', QuoteBreak);
    assert ReplaceChar(a, '\'', QuoteBreak) == a;
    assert ReplaceChar("'", '\'', QuoteBreak) == QuoteBreak;
  }

  lemma ReadUntilQuote(a: string, rest: string)
    requires '\'' !in a
    ensures ReadSingle(a + "'" + rest) == Some((a, rest))
  {
    var s := a + "'" + rest;
    assert s[|a|] == '\'';
    var k := IndexOf(s, '\'');
    assert s[..|a|] == a;
    assert k == |a|;
    assert s[k + 1..] == rest;
  }

  /** `"'"` in a word stands for `'`. */
  lemma DoubleQuotedQuote(tail: string)
    ensures ReadWord("\"'\"" + tail) == Prepend("'", ReadWord(tail))
  {
    var s := "\"'\"" + tail;
    var inner := "'\"" + tail;
    assert s[0] == '"' && s[1..] == inner;
    assert ReadDouble("\"" + tail) == Some(("", tail));
    assert inner[0] == '\'' && inner[1..] == "\"" + tail;
    assert ReadDouble(inner) == PrependPair("'", ReadDouble(inner[1..]));
    assert "'" + "" == "'";
    ReadWordDouble(s, "'", tail);
  }

  /** Whatever the value, the single-quoted word reads back as it. */
  lemma SingleQuoteRoundTrip(v: string)
    ensures ReadWord(ShellSingleQuote(v)) == Some(v)
  {
    ReplaceAllOneChar(v, '\'', QuoteBreak);
    SingleQuotedPrefix(v, "");
    assert ShellSingleQuote(v) == "'" + ReplaceChar(v, '\'', QuoteBreak) + "'" + "";
    assert v + "" == v;
  }

  // ---------------------------------------------------------------------------
  // Double quotes

  /** The escape `shellDoubleQuote` gives one character. */
  function EscapeChar(c: char): string
  {
    if c == '\\' || c == '"' || c == '$' || c == '`' then ['\\', c] else [c]
  }

  /** Every character escaped on its own. */
  function Escaped(v: string): string
    decreases |v|
  {
    if |v| == 0 then "" else EscapeChar(v[0]) + Escaped(v[1..])
  }

  /** The four passes of `shellDoubleQuote`, one character at a time. */
  function Passes(s: string): string
  {
    ReplaceChar(ReplaceChar(ReplaceChar(ReplaceChar(s, '\\', "\\\\"), '"', "\\\""), '$', "\\$"), '`', "\\`")
  }

  lemma PassesConcat(a: string, b: string)
    ensures Passes(a + b) == Passes(a) + Passes(b)
  {
    var p1a, p1b := ReplaceChar(a, '\\', "\\\\"), ReplaceChar(b, '\\', "\\\\");
    ReplaceCharConcat(a, b, '\\', "\\\\");
    var p2a, p2b := ReplaceChar(p1a, '"', "\\\""), ReplaceChar(p1b, '"', "\\\"");
    ReplaceCharConcat(p1a, p1b, '"', "\\\"");
    var p3a, p3b := ReplaceChar(p2a, '$', "\\$"), ReplaceChar(p2b, '$', "\\$");
    ReplaceCharConcat(p2a, p2b, '$', "\\$");
    ReplaceCharConcat(p3a, p3b, '`', "\\`");
  }

  lemma ReplaceCharOne(c: char, d: char, rep: string)
    ensures ReplaceChar([c], d, rep) == if c == d then rep else [c]
  {
    assert [c][1..] == [];
  }

  lemma ReplaceCharPair(x: char, y: char, d: char, rep: string)
    requires x != d
    ensures ReplaceChar([x, y], d, rep) == [x] + (if y == d then rep else [y])
  {
    assert [x, y][1..] == [y];
    ReplaceCharOne(y, d, rep);
  }

  /** The four passes escape one character the way `EscapeChar` does: a
      backslash added by one pass is never touched by a later one. */
  lemma PassesOne(c: char)
    ensures Passes([c]) == EscapeChar(c)
  {
    ReplaceCharOne(c, '\\', "\\\\");
    if c == '\\' {
      ReplaceCharPair('\\', '\\', '"', "\\\"");
      ReplaceCharPair('\\', '\\', '$', "\\$");
      ReplaceCharPair('\\', '\\', '`', "\\`");
    } else {
      ReplaceCharOne(c, '"', "\\\"");
      if c == '"' {
        ReplaceCharPair('\\', '"', '$', "\\$");
        ReplaceCharPair('\\', '"', '`', "\\`");
      } else {
        ReplaceCharOne(c, '$', "\\$");
        if c == '$' {
          ReplaceCharPair('\\', '$', '`', "\\`");
        } else {
          ReplaceCharOne(c, '`', "\\`");
        }
      }
    }
  }

  lemma {:induction false} PassesEscape(v: string)
    ensures Passes(v) == Escaped(v)
    decreases |v|
  {
    if |v| > 0 {
      assert v == [v[0]] + v[1..];
      PassesConcat([v[0]], v[1..]);
      PassesOne(v[0]);
      PassesEscape(v[1..]);
    }
  }

  /** An escaped value followed by the closing quote reads back as the value. */
  lemma {:induction false} EscapedReadsBack(v: string, rest: string)
    ensures ReadDouble(Escaped(v) + ("\"" + rest)) == Some((v, rest))
    decreases |v|
  {
    if |v| == 0 {
      assert Escaped(v) + ("\"" + rest) == "\"" + rest;
    } else {
      EscapedReadsBack(v[1..], rest);
      EscapedUnfold(v, "\"" + rest);
      EscapedStep(v[0], Escaped(v[1..]) + ("\"" + rest), v[1..], rest);
      assert [v[0]] + v[1..] == v;
    }
  }

  lemma EscapedUnfold(v: string, suffix: string)
    requires |v| > 0
    ensures Escaped(v) + suffix == EscapeChar(v[0]) + (Escaped(v[1..]) + suffix)
  {
  }

  lemma EscapedStep(c: char, tail: string, v: string, rest: string)
    requires ReadDouble(tail) == Some((v, rest))
    ensures ReadDouble(EscapeChar(c) + tail) == Some(([c] + v, rest))
  {
    var s := EscapeChar(c) + tail;
    if c == '\\' || c == '"' || c == '$' || c == '`' {
      assert s[0] == '\\' && s[1] == c && s[2..] == tail;
    } else {
      assert s[0] == c && s[1..] == tail;
    }
  }

  /** Whatever the value, between double quotes the escaped text reads back
      as it: no expansion is left in it. */
  lemma DoubleQuoteRoundTrip(v: string)
    ensures ReadWord("\"" + ShellDoubleQuote(v) + "\"") == Some(v)
  {
    var s := "\"" + Escaped(v) + "\"";
    EscapedReadsBack(v, "");
    assert s[1..] == Escaped(v) + ("\"" + "");
    assert v + "" == v;
  }

  /** A double-quoted word whose inside starts with an unescaped `$` or
      backquote has no literal value. */
  lemma ExpansionReadsNone(v: string)
    requires |v| > 0 && StartsExpansion(v[0])
    ensures ReadWord("\"" + v + "\"") == None
  {
    var s := "\"" + v + "\"";
    assert s[0] == '"' && s[1..] == v + "\"";
    var inner := v + "\"";
    assert inner[0] == v[0];
    assert ReadDouble(inner) == None;
  }

  /** The escapes of `$` and the backquote are needed: a quoter escaping
      only `\` and `"` leaves a value that starts with `$` or a backquote,
      such as "$HOME", an expansion, where `shellDoubleQuote` gives it back. */
  lemma ExpansionNeedsEscape(v: string)
    requires |v| > 0 && StartsExpansion(v[0]) && '\\' !in v && '"' !in v
    ensures ReadWord("\"" + ReplaceAll(ReplaceAll(v, "\\", "\\\\"), "\"", "\\\"") + "\"") == None
    ensures ReadWord("\"" + ShellDoubleQuote(v) + "\"") == Some(v)
  {
    ReplaceAllOneChar(v, '\\', "\\\\");
    assert ReplaceAll(v, "\\", "\\\\") == v;
    ReplaceAllOneChar(v, '"', "\\\"");
    assert ReplaceAll(ReplaceAll(v, "\\", "\\\\"), "\"", "\\\"") == v;
    ExpansionReadsNone(v);
    DoubleQuoteRoundTrip(v);
  }

  // ---------------------------------------------------------------------------
  // YAML single-quoted scalars

  /** The line breaks of YAML 1.2 (section 5.4): line feed and carriage
      return. */
  predicate IsYamlBreak(c: char)
  {
    c == '\n' || c == '\r'
  }

  /** A text on one YAML line: it holds no line break. */
  predicate OnYamlLine(v: string)
  {
    '\n' !in v && '\r' !in v
  }

  /** The inside of a single-quoted scalar on one line and what follows it:
      `''` stands for `'`, the first lone `'` closes the scalar. None when the
      scalar is not closed before a line break (line folding is not part of
      this reader). */
  function ReadYamlBody(s: string): (r: Option<(string, string)>)
    ensures r.Some? ==> |r.value.1| < |s|
    decreases |s|
  {
    if |s| == 0 || IsYamlBreak(s[0]) then None
    else if s[0] == '\'' then
      if |s| >= 2 && s[1] == '\'' then PrependPair("'", ReadYamlBody(s[2..]))
      else Some(("", s[1..]))
    else PrependPair([s[0]], ReadYamlBody(s[1..]))
  }

  /** A text that is exactly one single-quoted scalar, read as its value. */
  function ReadYamlQuoted(s: string): Option<string>
  {
    if |s| == 0 || s[0] != '\'' then None
    else match ReadYamlBody(s[1..])
      case Some((v, rest)) => if rest == "" then Some(v) else None
      case None => None
  }

  lemma {:induction false} YamlBodyReadsBack(v: string, rest: string)
    requires OnYamlLine(v)
    requires rest == "" || rest[0] != '\''
    ensures ReadYamlBody(ReplaceChar(v, '\'', "''") + ("'" + rest)) == Some((v, rest))
    decreases |v|
  {
    if |v| == 0 {
      assert ReplaceChar(v, '\'', "''") + ("'" + rest) == "'" + rest;
    } else {
      YamlBodyReadsBack(v[1..], rest);
      ReplaceCharUnfold(v, '\'', "''", "'" + rest);
      YamlStep(v[0], ReplaceChar(v[1..], '\'', "''") + ("'" + rest), v[1..], rest);
      assert [v[0]] + v[1..] == v;
    }
  }

  lemma YamlStep(c: char, tail: string, v: string, rest: string)
    requires !IsYamlBreak(c) && ReadYamlBody(tail) == Some((v, rest))
    ensures ReadYamlBody((if c == '\'' then "''" else [c]) + tail) == Some(([c] + v, rest))
  {
    var s := (if c == '\'' then "''" else [c]) + tail;
    if c == '\'' {
      assert s[0] == '\'' && s[1] == '\'' && s[2..] == tail;
    } else {
      assert s[0] == c && s[1..] == tail;
    }
  }

  /** A value without a line break, quoted, reads back as itself. */
  lemma YamlQuoteRoundTrip(v: string)
    requires OnYamlLine(v)
    ensures ReadYamlQuoted(YamlQuote(v)) == Some(v)
  {
    ReplaceAllOneChar(v, '\'', "''");
    YamlBodyReadsBack(v, "");
    var s := YamlQuote(v);
    assert s[1..] == ReplaceChar(v, '\'', "''") + ("'" + "");
  }

  /** A carriage return breaks the line as a line feed does: the scalar
      quoted from "a\rb" is not read back on one line. */
  lemma CarriageReturnBreaksScalar()
    ensures ReadYamlQuoted(YamlQuote("a\rb")) == None
  {
    ReplaceAllOneChar("a\rb", '\'', "''");
    assert ReplaceChar("a\rb", '\'', "''") == "a\rb";
    var s := YamlQuote("a\rb");
    assert s == "'a\rb'";
    assert s[1..] == "a\rb'" && s[1..][1..] == "\rb'";
  }

  /** Replacing a character puts in no character that neither the text nor
      the replacement has. */
  lemma {:induction false} ReplaceCharAvoids(s: string, c: char, rep: string, d: char)
    requires d !in s && d !in rep
    ensures d !in ReplaceChar(s, c, rep)
    decreases |s|
  {
    if |s| > 0 {
      ReplaceCharAvoids(s[1..], c, rep, d);
    }
  }

  /** A quoted value without a line break has none either. */
  lemma YamlQuoteOneLine(v: string)
    requires OnYamlLine(v)
    ensures OnYamlLine(YamlQuote(v))
  {
    ReplaceAllOneChar(v, '\'', "''");
    ReplaceCharAvoids(v, '\'', "''", '\n');
    ReplaceCharAvoids(v, '\'', "''", '\r');
  }
}
