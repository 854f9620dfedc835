/** `GhosttyConfigParser.parseFile`: the `key = value` lines of a Ghostty
    configuration file. `palette = N=#rrggbb` lines fill the palette, every
    other assignment a setting; blank lines, comments and lines without `=`
    are skipped, and a later line overrides an earlier one. */
module Ghostty {
  import opened Text

  /** `ParsedConfig`. */
  datatype ParsedConfig = ParsedConfig(settings: map<string, string>, palette: map<int, string>)

  const EmptyConfig := ParsedConfig(map[], map[])

  /** `content.components(separatedBy: .newlines)`: the pieces between
      newline characters, each newline character ending one piece. */
  function Components(s: string): (parts: seq<string>)
    ensures |parts| >= 1
    ensures forall i, j :: 0 <= i < |parts| && 0 <= j < |parts[i]| ==> !IsNewline(parts[i][j])
    decreases |s|
  {
    if |s| == 0 then [""]
    else if IsNewline(s[0]) then [""] + Components(s[1..])
    else
      var rest := Components(s[1..]);
      [[s[0]] + rest[0]] + rest[1..]
  }

  /** What one line does to the configuration. */
  datatype Entry = Skip | Setting(key: string, value: string) | Color(index: int, hex: string)

  /** The entry of one line, by the branches of the loop body of `parseFile`:
      the line and both sides of its first `=` are trimmed of blanks; a
      `palette` value is split again at its first `=` into an index, which
      must read as an `Int`, and a colour. */
  function LineEntry(line: string): Entry
  {
    var trimmed := Trim(line);
    if trimmed == "" || trimmed[0] == '#' || '=' !in trimmed then Skip
    else
      var eq := IndexOf(trimmed, '=');
      var key := Trim(trimmed[..eq]);
      var rawValue := Trim(trimmed[eq + 1..]);
      if key == "palette" then
        if '=' !in rawValue then Skip
        else
          var innerEq := IndexOf(rawValue, '=');
          match ParseInt(Trim(rawValue[..innerEq]))
          case None => Skip
          case Some(idx) => Color(idx, Trim(rawValue[innerEq + 1..]))
      else Setting(key, rawValue)
  }

  function Apply(config: ParsedConfig, e: Entry): ParsedConfig
  {
    match e
    case Skip => config
    case Setting(k, v) => config.(settings := config.settings[k := v])
    case Color(i, h) => config.(palette := config.palette[i := h])
  }

  /** The entries applied in order. */
  function ApplyAll(es: seq<Entry>): ParsedConfig
    decreases |es|
  {
    if |es| == 0 then EmptyConfig
    else Apply(ApplyAll(es[..|es| - 1]), es[|es| - 1])
  }

  function EntriesOf(lines: seq<string>): (es: seq<Entry>)
    ensures |es| == |lines|
  {
    seq(|lines|, i requires 0 <= i < |lines| => LineEntry(lines[i]))
  }

  /** The configuration the lines give, applied in order. */
  function ParseLines(lines: seq<string>): ParsedConfig
  {
    ApplyAll(EntriesOf(lines))
  }

  /** The result of `parseFile` for the file's content (none when the file
      cannot be read as UTF-8). */
  function ParseConfig(content: Option<string>): Option<ParsedConfig>
  {
    match content
    case None => None
    case Some(text) => Some(ParseLines(Components(text)))
  }

  /** `parseFile`, with the file's content (or its absence) as the input. */
  method ParseFile(content: Option<string>) returns (config: Option<ParsedConfig>)
    ensures config == ParseConfig(content)
  {
    if content.None? {
      return None;
    }
    var lines := Components(content.value);
    ghost var es := EntriesOf(lines);
    var c := EmptyConfig;
    for i := 0 to |lines|
      invariant c == ApplyAll(es[..i])
    {
      assert es[..i + 1][..i] == es[..i] && es[i] == LineEntry(lines[i]);
      assert ApplyAll(es[..i + 1]) == Apply(c, es[i]);
      var trimmed := Trim(lines[i]);
      if trimmed == "" || trimmed[0] == '#' {
        assert es[i] == Skip;
        continue;
      }
      if '=' !in trimmed {
        assert es[i] == Skip;
        continue;
      }
      var eqIdx := IndexOf(trimmed, '=');
      var key := Trim(trimmed[..eqIdx]);
      var rawValue := Trim(trimmed[eqIdx + 1..]);
      if key == "palette" {
        if '=' in rawValue {
          var innerEq := IndexOf(rawValue, '=');
          var idxStr := Trim(rawValue[..innerEq]);
          var colorHex := Trim(rawValue[innerEq + 1..]);
          match ParseInt(idxStr) {
            case Some(idx) =>
              assert es[i] == Color(idx, colorHex);
              c := c.(palette := c.palette[idx := colorHex]);
            case None =>
              assert es[i] == Skip;
          }
        } else {
          assert es[i] == Skip;
        }
      } else {
        assert es[i] == Setting(key, rawValue);
        c := c.(settings := c.settings[key := rawValue]);
      }
    }
    assert es[..|lines|] == es;
    return Some(c);
  }

  // ---------------------------------------------------------------------------
  // Properties

  predicate SetsKey(e: Entry, key: string) { e.Setting? && e.key == key }

  predicate SetsIndex(e: Entry, index: int) { e.Color? && e.index == index }

  /** `palette` is never a setting: palette lines only fill the palette. */
  lemma NoPaletteSetting(lines: seq<string>)
    ensures "palette" !in ParseLines(lines).settings
  {
    SettingFromSomeLine(lines, "palette");
    forall i | 0 <= i < |lines| ensures !SetsKey(LineEntry(lines[i]), "palette") {
    }
  }

  /** A key is set exactly when some line sets it. */
  lemma SettingFromSomeLine(lines: seq<string>, key: string)
    ensures key in ParseLines(lines).settings <==>
      exists i :: 0 <= i < |lines| && SetsKey(LineEntry(lines[i]), key)
  {
    var es := EntriesOf(lines);
    SettingFromSomeEntry(es, key);
    if key in ParseLines(lines).settings {
      var i :| 0 <= i < |es| && SetsKey(es[i], key);
      assert SetsKey(LineEntry(lines[i]), key);
    }
    if exists i :: 0 <= i < |lines| && SetsKey(LineEntry(lines[i]), key) {
      var i :| 0 <= i < |lines| && SetsKey(LineEntry(lines[i]), key);
      assert SetsKey(es[i], key);
    }
  }

  lemma {:induction false} SettingFromSomeEntry(es: seq<Entry>, key: string)
    ensures key in ApplyAll(es).settings <==> exists i :: 0 <= i < |es| && SetsKey(es[i], key)
    decreases |es|
  {
    if |es| > 0 {
      var init := es[..|es| - 1];
      SettingFromSomeEntry(init, key);
      if key in ApplyAll(es).settings && !SetsKey(es[|es| - 1], key) {
        var i :| 0 <= i < |init| && SetsKey(init[i], key);
        assert es[i] == init[i];
      }
      if (exists i :: 0 <= i < |es| && SetsKey(es[i], key)) && !SetsKey(es[|es| - 1], key) {
        var i :| 0 <= i < |es| && SetsKey(es[i], key);
        assert i < |init| && init[i] == es[i];
      }
    }
  }

  /** The value of a setting is the one on the last line that sets it. */
  lemma LastSettingWins(lines: seq<string>, i: nat, key: string, value: string)
    requires i < |lines| && LineEntry(lines[i]) == Setting(key, value)
    requires forall j :: i < j < |lines| ==> !SetsKey(LineEntry(lines[j]), key)
    ensures key in ParseLines(lines).settings && ParseLines(lines).settings[key] == value
  {
    LastSettingEntry(EntriesOf(lines), i, key, value);
  }

  lemma {:induction false} LastSettingEntry(es: seq<Entry>, i: nat, key: string, value: string)
    requires i < |es| && es[i] == Setting(key, value)
    requires forall j :: i < j < |es| ==> !SetsKey(es[j], key)
    ensures key in ApplyAll(es).settings && ApplyAll(es).settings[key] == value
    decreases |es|
  {
    if i < |es| - 1 {
      var init := es[..|es| - 1];
      assert init[i] == es[i];
      forall j | i < j < |init| ensures !SetsKey(init[j], key) {
        assert init[j] == es[j];
      }
      LastSettingEntry(init, i, key, value);
      assert !SetsKey(es[|es| - 1], key);
    }
  }

  /** A palette index is set exactly when some line sets it. */
  lemma ColorFromSomeLine(lines: seq<string>, index: int)
    ensures index in ParseLines(lines).palette <==>
      exists i :: 0 <= i < |lines| && SetsIndex(LineEntry(lines[i]), index)
  {
    var es := EntriesOf(lines);
    ColorFromSomeEntry(es, index);
    if index in ParseLines(lines).palette {
      var i :| 0 <= i < |es| && SetsIndex(es[i], index);
      assert SetsIndex(LineEntry(lines[i]), index);
    }
    if exists i :: 0 <= i < |lines| && SetsIndex(LineEntry(lines[i]), index) {
      var i :| 0 <= i < |lines| && SetsIndex(LineEntry(lines[i]), index);
      assert SetsIndex(es[i], index);
    }
  }

  lemma {:induction false} ColorFromSomeEntry(es: seq<Entry>, index: int)
    ensures index in ApplyAll(es).palette <==> exists i :: 0 <= i < |es| && SetsIndex(es[i], index)
    decreases |es|
  {
    if |es| > 0 {
      var init := es[..|es| - 1];
      ColorFromSomeEntry(init, index);
      if index in ApplyAll(es).palette && !SetsIndex(es[|es| - 1], index) {
        var i :| 0 <= i < |init| && SetsIndex(init[i], index);
        assert es[i] == init[i];
      }
      if (exists i :: 0 <= i < |es| && SetsIndex(es[i], index)) && !SetsIndex(es[|es| - 1], index) {
        var i :| 0 <= i < |es| && SetsIndex(es[i], index);
        assert i < |init| && init[i] == es[i];
      }
    }
  }

  /** The colour of a palette index is the one on the last line that sets it. */
  lemma LastColorWins(lines: seq<string>, i: nat, index: int, hex: string)
    requires i < |lines| && LineEntry(lines[i]) == Color(index, hex)
    requires forall j :: i < j < |lines| ==> !SetsIndex(LineEntry(lines[j]), index)
    ensures index in ParseLines(lines).palette && ParseLines(lines).palette[index] == hex
  {
    LastColorEntry(EntriesOf(lines), i, index, hex);
  }

  lemma {:induction false} LastColorEntry(es: seq<Entry>, i: nat, index: int, hex: string)
    requires i < |es| && es[i] == Color(index, hex)
    requires forall j :: i < j < |es| ==> !SetsIndex(es[j], index)
    ensures index in ApplyAll(es).palette && ApplyAll(es).palette[index] == hex
    decreases |es|
  {
    if i < |es| - 1 {
      var init := es[..|es| - 1];
      assert init[i] == es[i];
      forall j | i < j < |init| ensures !SetsIndex(init[j], index) {
        assert init[j] == es[j];
      }
      LastColorEntry(init, i, index, hex);
      assert !SetsIndex(es[|es| - 1], index);
    }
  }

  /** A skipped line (blank, comment, no `=`, a bad palette index) can be
      removed from anywhere in the file without changing the result. */
  lemma SkippedLineIrrelevant(before: seq<string>, line: string, after: seq<string>)
    requires LineEntry(line) == Skip
    ensures ParseLines(before + [line] + after) == ParseLines(before + after)
  {
    var a, b := EntriesOf(before), EntriesOf(after);
    EntriesOfConcat(before, [line]);
    EntriesOfConcat(before + [line], after);
    EntriesOfConcat(before, after);
    assert EntriesOf([line]) == [Skip];
    SkipIrrelevant(a, b);
  }

  lemma EntriesOfConcat(a: seq<string>, b: seq<string>)
    ensures EntriesOf(a + b) == EntriesOf(a) + EntriesOf(b)
  {
    var l, r := EntriesOf(a + b), EntriesOf(a) + EntriesOf(b);
    forall i | 0 <= i < |l| ensures l[i] == r[i] {
      if i >= |a| {
        assert (a + b)[i] == b[i - |a|];
      }
    }
  }

  lemma {:induction false} SkipIrrelevant(a: seq<Entry>, b: seq<Entry>)
    ensures ApplyAll(a + [Skip] + b) == ApplyAll(a + b)
    decreases |b|
  {
    if |b| == 0 {
      assert (a + [Skip])[..|a|] == a;
      assert a + [Skip] + b == a + [Skip];
      assert a + b == a;
    } else {
      var init := b[..|b| - 1];
      var last := b[|b| - 1];
      SkipIrrelevant(a, init);
      var s1 := a + [Skip] + b;
      var s2 := a + b;
      assert s1[..|s1| - 1] == a + [Skip] + init && s1[|s1| - 1] == last;
      assert s2[..|s2| - 1] == a + init && s2[|s2| - 1] == last;
    }
  }
}
