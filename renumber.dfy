/** Renumbering the columns in visual order (`normalizeColumnsByVisualOrderAsync`
    and `remappedRoleColumnSuffix`): each reported column gets the number of
    its position from the left, and `@column` and `@role` tags are rewritten
    only where they change. */
module Renumber {
  import opened Text
  import opened Gateway
  import PaneReader

  // ---------------------------------------------------------------------------
  // The role pattern `^(.*-p)(\d+)(.*)$`, as ICU's regular expressions read
  // it: `\d` is any Unicode decimal digit, `.` any character but a line
  // terminator, and `$` matches at the end or before one final line terminator.

  /** What `\d` matches: a character of general category Nd (decimal
      digit) in Unicode 15.0. Such digits come in blocks of ten, all but the
      ASCII one above U+065F. */
  predicate IsDecimalDigit(c: char)
  {
    IsDigit(c) || (c as int >= 0x0660 && IsOtherDigit(c as int))
  }

  /** A decimal digit of a script other than ASCII. */
  predicate IsOtherDigit(x: int)
  {
    || (0x0660 <= x <= 0x0669) || (0x06F0 <= x <= 0x06F9) || (0x07C0 <= x <= 0x07C9) || (0x0966 <= x <= 0x096F)
    || (0x09E6 <= x <= 0x09EF) || (0x0A66 <= x <= 0x0A6F) || (0x0AE6 <= x <= 0x0AEF) || (0x0B66 <= x <= 0x0B6F)
    || (0x0BE6 <= x <= 0x0BEF) || (0x0C66 <= x <= 0x0C6F) || (0x0CE6 <= x <= 0x0CEF) || (0x0D66 <= x <= 0x0D6F)
    || (0x0DE6 <= x <= 0x0DEF) || (0x0E50 <= x <= 0x0E59) || (0x0ED0 <= x <= 0x0ED9) || (0x0F20 <= x <= 0x0F29)
    || (0x1040 <= x <= 0x1049) || (0x1090 <= x <= 0x1099) || (0x17E0 <= x <= 0x17E9) || (0x1810 <= x <= 0x1819)
    || (0x1946 <= x <= 0x194F) || (0x19D0 <= x <= 0x19D9) || (0x1A80 <= x <= 0x1A89) || (0x1A90 <= x <= 0x1A99)
    || (0x1B50 <= x <= 0x1B59) || (0x1BB0 <= x <= 0x1BB9) || (0x1C40 <= x <= 0x1C49) || (0x1C50 <= x <= 0x1C59)
    || (0xA620 <= x <= 0xA629) || (0xA8D0 <= x <= 0xA8D9) || (0xA900 <= x <= 0xA909) || (0xA9D0 <= x <= 0xA9D9)
    || (0xA9F0 <= x <= 0xA9F9) || (0xAA50 <= x <= 0xAA59) || (0xABF0 <= x <= 0xABF9) || (0xFF10 <= x <= 0xFF19)
    || (0x104A0 <= x <= 0x104A9) || (0x10D30 <= x <= 0x10D39) || (0x11066 <= x <= 0x1106F) || (0x110F0 <= x <= 0x110F9)
    || (0x11136 <= x <= 0x1113F) || (0x111D0 <= x <= 0x111D9) || (0x112F0 <= x <= 0x112F9) || (0x11450 <= x <= 0x11459)
    || (0x114D0 <= x <= 0x114D9) || (0x11650 <= x <= 0x11659) || (0x116C0 <= x <= 0x116C9) || (0x11730 <= x <= 0x11739)
    || (0x118E0 <= x <= 0x118E9) || (0x11950 <= x <= 0x11959) || (0x11C50 <= x <= 0x11C59) || (0x11D50 <= x <= 0x11D59)
    || (0x11DA0 <= x <= 0x11DA9) || (0x11F50 <= x <= 0x11F59) || (0x16A60 <= x <= 0x16A69) || (0x16AC0 <= x <= 0x16AC9)
    || (0x16B50 <= x <= 0x16B59) || (0x1D7CE <= x <= 0x1D7D7) || (0x1D7D8 <= x <= 0x1D7E1) || (0x1D7E2 <= x <= 0x1D7EB)
    || (0x1D7EC <= x <= 0x1D7F5) || (0x1D7F6 <= x <= 0x1D7FF) || (0x1E140 <= x <= 0x1E149) || (0x1E2F0 <= x <= 0x1E2F9)
    || (0x1E4F0 <= x <= 0x1E4F9) || (0x1E950 <= x <= 0x1E959) || (0x1FBF0 <= x <= 0x1FBF9)
  }

  predicate AllDecimalDigits(s: string)
  {
    forall i :: 0 <= i < |s| ==> IsDecimalDigit(s[i])
  }

  /** The characters ICU counts as line terminators. */
  predicate IsLineTerminator(c: char)
  {
    c == '\n' || c == '\U{0B}' || c == '\U{0C}' || c == '\r' || c == '\U{85}' || c == '\U{2028}' || c == '\U{2029}'
  }

  predicate NoLineTerminator(s: string)
  {
    forall i :: 0 <= i < |s| ==> !IsLineTerminator(s[i])
  }

  /** The length of the line terminator that ends `s`: "\r\n" counts as one. */
  function TerminatorLength(s: string): (n: nat)
    ensures n <= |s|
  {
    if |s| >= 2 && s[|s| - 2] == '\r' && s[|s| - 1] == '\n' then 2
    else if |s| >= 1 && IsLineTerminator(s[|s| - 1]) then 1
    else 0
  }

  /** `s` without its final line terminator: where `$` can match. */
  function LineBody(s: string): string
  {
    s[..|s| - TerminatorLength(s)]
  }

  /** The final line terminator of `s`, or nothing. */
  function LineEnd(s: string): string
  {
    s[|s| - TerminatorLength(s)..]
  }

  predicate IsLineEnd(e: string)
  {
    e == "" || e == "\r\n" || (|e| == 1 && IsLineTerminator(e[0]))
  }

  /** A text without line terminators is the body of itself followed by any
      line end. */
  lemma {:induction false} BodyOfLine(x: string, ending: string)
    requires NoLineTerminator(x) && IsLineEnd(ending)
    ensures TerminatorLength(x + ending) == |ending|
    ensures LineBody(x + ending) == x && LineEnd(x + ending) == ending
  {
    var s := x + ending;
    if |ending| == 0 {
      assert s == x;
      if |x| >= 1 { assert !IsLineTerminator(x[|x| - 1]); }
    } else if ending == "\r\n" {
      assert s[|s| - 2] == '\r' && s[|s| - 1] == '\n';
    } else {
      assert s[|s| - 1] == ending[0];
      if |s| >= 2 {
        assert s[|s| - 2] == x[|x| - 1];
        assert !IsLineTerminator(x[|x| - 1]);
      }
    }
    assert s[..|x|] == x && s[|x|..] == ending;
  }

  /** A "-p" ends just before position `k`, and a digit follows it. */
  predicate MarkerAt(s: string, k: int)
  {
    2 <= k < |s| && s[k - 2] == '-' && s[k - 1] == 'p' && IsDecimalDigit(s[k])
  }

  predicate NoMarker(s: string)
  {
    forall k :: 0 <= k < |s| ==> !MarkerAt(s, k)
  }

  /** The largest marker position below `e`. */
  function LastMarkerBelow(s: string, e: nat): (k: Option<nat>)
    requires e <= |s|
    ensures k.Some? ==> k.value < e && MarkerAt(s, k.value)
    ensures k.Some? ==> forall j :: k.value < j < e ==> !MarkerAt(s, j)
    ensures k.None? ==> forall j :: 0 <= j < e ==> !MarkerAt(s, j)
  {
    if e == 0 then None
    else if MarkerAt(s, e - 1) then Some(e - 1)
    else LastMarkerBelow(s, e - 1)
  }

  /** The end of the run of digits starting at `k`. */
  function DigitRun(s: string, k: nat): (e: nat)
    requires k <= |s|
    ensures k <= e <= |s| && AllDecimalDigits(s[k..e]) && (e == |s| || !IsDecimalDigit(s[e]))
    decreases |s| - k
  {
    if k == |s| || !IsDecimalDigit(s[k]) then k else DigitRun(s, k + 1)
  }

  /** The three capture groups of a match. */
  datatype RoleMatch = RoleMatch(prefix: string, digits: string, suffix: string)

  /** The regular expression's first match: none when a line terminator
      comes before the final one; otherwise, within the line, the greedy
      `(.*-p)` takes the longest prefix ending in "-p" that a digit follows,
      `(\d+)` the whole run of digits after it and `(.*)` the rest of the line. */
  function MatchRole(s: string): Option<RoleMatch>
  {
    var body := LineBody(s);
    if !NoLineTerminator(body) then None
    else
      match LastMarkerBelow(body, |body|)
      case None => None
      case Some(k) =>
        var e := DigitRun(body, k);
        Some(RoleMatch(body[..k], body[k..e], body[e..]))
  }

  /** What a match is: the line splits into a prefix ending in "-p", a
      non-empty run of digits not followed by a digit, and a suffix in which
      no "-p" is followed by a digit, none of them holding a line terminator. */
  predicate WellSplit(m: RoleMatch)
  {
    && |m.prefix| >= 2 && m.prefix[|m.prefix| - 2..] == "-p"
    && |m.digits| >= 1 && AllDecimalDigits(m.digits)
    && (m.suffix == [] || !IsDecimalDigit(m.suffix[0]))
    && NoMarker(m.suffix)
    && NoLineTerminator(m.prefix) && NoLineTerminator(m.digits) && NoLineTerminator(m.suffix)
  }

  lemma {:induction false} MatchRoleSplits(s: string)
    requires MatchRole(s).Some?
    ensures var m := MatchRole(s).value;
      s == m.prefix + m.digits + m.suffix + LineEnd(s) && IsLineEnd(LineEnd(s)) && WellSplit(m)
  {
    var body := LineBody(s);
    var k := LastMarkerBelow(body, |body|).value;
    var e := DigitRun(body, k);
    var m := MatchRole(s).value;
    assert s == body + LineEnd(s);
    assert body == body[..k] + body[k..e] + body[e..];
    assert m.prefix[|m.prefix| - 2..] == [body[k - 2], body[k - 1]];
    assert e > k;
    SuffixHasNoMarker(body, k, e);
    NoTerminatorParts(body, k, e);
    LineEndShape(s);
  }

  /** No marker after the last one means none in the text after its digits. */
  lemma {:induction false} SuffixHasNoMarker(body: string, k: nat, e: nat)
    requires k < e <= |body| && forall j :: k < j < |body| ==> !MarkerAt(body, j)
    ensures NoMarker(body[e..])
  {
    var suffix := body[e..];
    forall j | 0 <= j < |suffix| ensures !MarkerAt(suffix, j) {
      if 2 <= j {
        assert body[e + j - 2] == suffix[j - 2] && body[e + j - 1] == suffix[j - 1] && body[e + j] == suffix[j];
        assert MarkerAt(suffix, j) == MarkerAt(body, e + j);
      }
    }
  }

  lemma {:induction false} NoTerminatorParts(body: string, k: nat, e: nat)
    requires k <= e <= |body| && NoLineTerminator(body)
    ensures NoLineTerminator(body[..k]) && NoLineTerminator(body[k..e]) && NoLineTerminator(body[e..])
  {
    assert forall i :: 0 <= i < k ==> body[..k][i] == body[i];
    assert forall i :: 0 <= i < e - k ==> body[k..e][i] == body[k + i];
    assert forall i :: 0 <= i < |body| - e ==> body[e..][i] == body[e + i];
  }

  lemma {:induction false} LineEndShape(s: string)
    ensures IsLineEnd(LineEnd(s))
  {
    var t := LineEnd(s);
    if TerminatorLength(s) == 2 {
      assert t == [s[|s| - 2], s[|s| - 1]];
    } else if TerminatorLength(s) == 1 {
      assert t[0] == s[|s| - 1];
    }
  }

  /** The part of `MatchRoleSplits` about the prefix. */
  lemma {:induction false} MatchRolePrefix(s: string)
    requires MatchRole(s).Some?
    ensures var m := MatchRole(s).value;
      s == m.prefix + m.digits + m.suffix + LineEnd(s) && |m.prefix| >= 2 && m.prefix[|m.prefix| - 2..] == "-p"
  {
    MatchRoleSplits(s);
  }

  /** Conversely, any such split, followed by any line end, is the match. */
  lemma {:induction false} MatchRoleOfSplit(m: RoleMatch, ending: string)
    requires WellSplit(m) && IsLineEnd(ending)
    ensures MatchRole(m.prefix + m.digits + m.suffix + ending) == Some(m)
  {
    var s := m.prefix + m.digits + m.suffix;
    LineOfParts(m);
    BodyOfLine(s, ending);
    var p := |m.prefix|;
    var e := p + |m.digits|;
    assert s[p - 2] == '-' && s[p - 1] == 'p' by {
      assert s[p - 2] == m.prefix[p - 2] && s[p - 1] == m.prefix[p - 1];
      assert m.prefix[p - 2..][0] == m.prefix[p - 2];
      assert m.prefix[p - 2..][1] == m.prefix[p - 1];
    }
    assert s[p] == m.digits[0];
    assert MarkerAt(s, p);
    forall j | p < j < |s| ensures !MarkerAt(s, j) {
      if j - 2 < e {
        if j - 2 >= p {
          assert s[j - 2] == m.digits[j - 2 - p];
        } else {
          assert j - 1 < e && s[j - 1] == m.digits[j - 1 - p];
        }
      } else {
        assert s[j - 2] == m.suffix[j - 2 - e] && s[j - 1] == m.suffix[j - 1 - e] && s[j] == m.suffix[j - e];
        assert !MarkerAt(m.suffix, j - e);
      }
    }
    LastMarkerFrom(s, p);
    assert DigitRun(s, p) == e by {
      DigitRunOver(s, p, e);
    }
    assert s[..p] == m.prefix && s[p..e] == m.digits && s[e..] == m.suffix;
  }

  /** The three parts of a split make one line. */
  lemma {:induction false} LineOfParts(m: RoleMatch)
    requires NoLineTerminator(m.prefix) && NoLineTerminator(m.digits) && NoLineTerminator(m.suffix)
    ensures NoLineTerminator(m.prefix + m.digits + m.suffix)
  {
    var s := m.prefix + m.digits + m.suffix;
    forall i | 0 <= i < |s| ensures !IsLineTerminator(s[i]) {
      if i < |m.prefix| {
        assert s[i] == m.prefix[i];
      } else if i < |m.prefix| + |m.digits| {
        assert s[i] == m.digits[i - |m.prefix|];
      } else {
        assert s[i] == m.suffix[i - |m.prefix| - |m.digits|];
      }
    }
  }

  lemma {:induction false} LastMarkerFrom(s: string, p: nat)
    requires p < |s| && MarkerAt(s, p)
    requires forall j :: p < j < |s| ==> !MarkerAt(s, j)
    ensures LastMarkerBelow(s, |s|) == Some(p)
  {
    var k := LastMarkerBelow(s, |s|);
    assert k.Some?;
  }

  lemma {:induction false} DigitRunOver(s: string, k: nat, e: nat)
    requires k <= e <= |s| && AllDecimalDigits(s[k..e]) && (e == |s| || !IsDecimalDigit(s[e]))
    ensures DigitRun(s, k) == e
    decreases e - k
  {
    if k < e {
      assert s[k..e][0] == s[k];
      assert s[k + 1..e] == s[k..e][1..];
      DigitRunOver(s, k + 1, e);
    }
  }

  /** `remappedRoleColumnSuffix`: the role with its column number `N`
      replaced by `remap[N]`, built from the three groups, so a final line
      terminator is not carried over; unchanged when the pattern does not
      match, when the digits are not all ASCII or do not fit an `Int`, or
      when `N` is not remapped. */
  function RemapRole(role: string, remap: map<int, int>): (r: string)
    ensures r != role ==> RoleNumber(role).Some? && RoleNumber(role).value in remap
  {
    match MatchRole(role)
    case None => role
    case Some(m) =>
      match ParseInt(m.digits)
      case None => role
      case Some(n) =>
        if n in remap then m.prefix + IntToString(remap[n]) + m.suffix else role
  }

  /** The column number a role carries, when it carries one that fits an `Int`. */
  function RoleNumber(role: string): Option<int>
  {
    match MatchRole(role)
    case None => None
    case Some(m) => ParseInt(m.digits)
  }

  /** ASCII digits are decimal digits and no line terminators. */
  lemma {:induction false} AsciiDigitsInLine(d: string)
    requires AllDigits(d)
    ensures AllDecimalDigits(d) && NoLineTerminator(d)
  {
  }

  /** The rewrite keeps the text before "-p" and after the digits as they
      were, drops the final line terminator, puts in `remap[N]`, and the
      result, read back, carries `remap[N]`. */
  lemma {:induction false} RemapRoleSpec(role: string, remap: map<int, int>)
    requires forall c :: c in remap ==> 0 <= remap[c] <= INT_MAX
    ensures RoleNumber(role).None? || RoleNumber(role).value !in remap ==> RemapRole(role, remap) == role
    ensures RoleNumber(role).Some? && RoleNumber(role).value in remap ==>
      var m := MatchRole(role).value;
      var n := RoleNumber(role).value;
      && role == m.prefix + m.digits + m.suffix + LineEnd(role)
      && RemapRole(role, remap) == m.prefix + IntToString(remap[n]) + m.suffix
      && MatchRole(RemapRole(role, remap)) == Some(RoleMatch(m.prefix, NatToString(remap[n]), m.suffix))
      && RoleNumber(RemapRole(role, remap)) == Some(remap[n])
  {
    if RoleNumber(role).Some? && RoleNumber(role).value in remap {
      var m := MatchRole(role).value;
      var n := RoleNumber(role).value;
      MatchRoleSplits(role);
      var d := NatToString(remap[n]);
      AsciiDigitsInLine(d);
      var m' := RoleMatch(m.prefix, d, m.suffix);
      MatchRoleOfSplit(m', "");
      assert m'.prefix + m'.digits + m'.suffix + "" == m.prefix + IntToString(remap[n]) + m.suffix;
      ParseIntToString(remap[n], INT_MIN, INT_MAX);
    }
  }

  /** A role ending in "-p" and ASCII digits, and perhaps a line end, is
      matched with the digits as its number. */
  lemma {:induction false} TrailingNumberMatch(prefix: string, digits: string, ending: string)
    requires |prefix| >= 2 && prefix[|prefix| - 2..] == "-p" && NoLineTerminator(prefix)
    requires |digits| >= 1 && AllDigits(digits) && IsLineEnd(ending)
    ensures MatchRole(prefix + digits + ending) == Some(RoleMatch(prefix, digits, ""))
  {
    AsciiDigitsInLine(digits);
    var m := RoleMatch(prefix, digits, "");
    assert m.prefix + m.digits + m.suffix + ending == prefix + digits + ending;
    MatchRoleOfSplit(m, ending);
  }

  /** A digit of another script after the last "-p" is matched by `\d` but
      is no `Int`, so the role stays as it is. */
  lemma {:induction false} ForeignDigitKeepsRole()
    ensures RemapRole("claude-p2-p\U{0663}", map[2 := 1]) == "claude-p2-p\U{0663}"
  {
    var m := RoleMatch("claude-p2-p", "\U{0663}", "");
    ForeignDigitSplit();
    MatchRoleOfSplit(m, "");
    assert "claude-p2-p\U{0663}" == m.prefix + m.digits + m.suffix + "";
    assert ParseInt(m.digits) == None by { assert !IsDigit(m.digits[0]); }
  }

  lemma {:induction false} ForeignDigitSplit()
    ensures WellSplit(RoleMatch("claude-p2-p", "\U{0663}", ""))
  {
    var m := RoleMatch("claude-p2-p", "\U{0663}", "");
    assert IsOtherDigit(0x0663);
    assert m.prefix[|m.prefix| - 2..] == "-p";
    assert NoLineTerminator(m.prefix);
  }

  /** A final newline is outside the three groups, so the rewrite drops it. */
  lemma {:induction false} FinalNewlineDropped()
    ensures RemapRole("claude-p2\n", map[2 := 1]) == "claude-p1"
  {
    TrailingNumberMatch("claude-p", "2", "\n");
    assert "claude-p2\n" == "claude-p" + "2" + "\n";
    assert ParseInt("2") == Some(2);
    assert IntToString(1) == "1";
  }

  /** `.` does not cross a carriage return, so a role holding one before its
      last character never matches. */
  lemma {:induction false} InnerReturnStopsMatch()
    ensures RemapRole("claude\r-p2", map[2 := 1]) == "claude\r-p2"
  {
    var s := "claude\r-p2";
    assert TerminatorLength(s) == 0;
    assert LineBody(s) == s;
    assert IsLineTerminator(s[6]);
  }

  /** The text before the number is kept, so whether a pane is a `claude-p`
      or `codex-p` pane is unaffected by the rewrite. */
  lemma {:induction false} RemapRoleKeepsPrimary(role: string, remap: map<int, int>)
    ensures PaneReader.IsPrimary(RemapRole(role, remap)) == PaneReader.IsPrimary(role)
  {
    RemapRoleKeepsTag(role, remap, PaneReader.ClaudePrefix);
    RemapRoleKeepsTag(role, remap, PaneReader.CodexPrefix);
  }

  lemma {:induction false} RemapRoleKeepsTag(role: string, remap: map<int, int>, tag: string)
    requires |tag| >= 2 && tag[|tag| - 2..] == "-p"
    requires forall i :: 0 <= i < |tag| - 2 ==> tag[i] != '-'
    ensures (tag <= RemapRole(role, remap)) == (tag <= role)
  {
    match MatchRole(role)
    case None =>
    case Some(m) =>
      match ParseInt(m.digits)
      case None =>
      case Some(n) =>
        if n in remap {
          MatchRolePrefix(role);
          var d := IntToString(remap[n]);
          RemapRoleSplit(m, d, role, LineEnd(role));
          KeepsPrefix(m.prefix, m.digits + m.suffix + LineEnd(role), d + m.suffix, tag);
        }
  }

  lemma {:induction false} RemapRoleSplit(m: RoleMatch, d: string, role: string, ending: string)
    requires role == m.prefix + m.digits + m.suffix + ending
    ensures role == m.prefix + (m.digits + m.suffix + ending)
    ensures m.prefix + d + m.suffix == m.prefix + (d + m.suffix)
  {
  }

  /** Whether `prefix + rest` starts with a tag that ends in its only "-p"
      does not depend on `rest`, when `prefix` itself ends in "-p". */
  lemma {:induction false} KeepsPrefix(prefix: string, rest1: string, rest2: string, tag: string)
    requires |prefix| >= 2 && prefix[|prefix| - 2..] == "-p"
    requires |tag| >= 2 && tag[|tag| - 2..] == "-p"
    requires forall i :: 0 <= i < |tag| - 2 ==> tag[i] != '-'
    ensures (tag <= prefix + rest1) == (tag <= prefix + rest2)
  {
    var p := |prefix|;
    if p < |tag| {
      // The "-p" closing `prefix` sits before the end of `tag`, where `tag` has no '-'.
      assert prefix[p - 2] == '-' by { assert prefix[p - 2..][0] == prefix[p - 2]; }
      assert (prefix + rest1)[p - 2] != tag[p - 2];
      assert (prefix + rest2)[p - 2] != tag[p - 2];
    } else {
      assert (tag <= prefix + rest1) == (tag <= prefix);
      assert (tag <= prefix + rest2) == (tag <= prefix);
    }
  }

  // ---------------------------------------------------------------------------
  // Reading the panes

  const NormalizeFormat: string := "#{pane_id}|#{pane_left}|#{@column}|#{@role}"

  datatype Row = Row(paneID: string, left: int, column: int, role: string)

  /** One line of the listing: at least four fields, an `Int` left offset and
      a positive `Int` column; anything else is dropped. */
  function ParseRow(line: string): (r: Option<Row>)
    ensures r.Some? ==> r.value.column > 0
  {
    var parts := Split(line, '|');
    if |parts| < 4 then None
    else match (ParseInt(parts[1]), ParseInt(parts[2]))
      case (Some(left), Some(col)) => if col > 0 then Some(Row(parts[0], left, col, parts[3])) else None
      case _ => None
  }

  function ParseRows(lines: seq<string>): seq<Row>
  {
    if |lines| == 0 then []
    else
      ParseRows(lines[..|lines| - 1]) +
      (match ParseRow(lines[|lines| - 1]) case Some(r) => [r] case None => [])
  }

  // ---------------------------------------------------------------------------
  // Left offset per column

  predicate Eligible(r: Row, primaryOnly: bool)
  {
    !primaryOnly || PaneReader.IsPrimary(r.role)
  }

  /** The `leftByColumn` loop: a row's left offset is kept when it is below the
      column's current value, which starts at `Int.max`. */
  function MinLefts(rows: seq<Row>, primaryOnly: bool): map<int, int>
  {
    if |rows| == 0 then map[]
    else MinStep(MinLefts(rows[..|rows| - 1], primaryOnly), rows[|rows| - 1], primaryOnly)
  }

  /** One iteration of the loop. */
  function MinStep(m: map<int, int>, r: Row, primaryOnly: bool): map<int, int>
  {
    var cur := if r.column in m then m[r.column] else INT_MAX;
    if Eligible(r, primaryOnly) && r.left < cur then m[r.column := r.left] else m
  }

  /** Least left offsets of the `claude-p`/`codex-p` panes; of all panes when
      that leaves nothing. */
  function LeftByColumn(rows: seq<Row>): map<int, int>
  {
    var p := MinLefts(rows, true);
    if p == map[] then MinLefts(rows, false) else p
  }

  /** A column is present exactly when one of its eligible rows has a left
      offset below `Int.max`, and then holds the least such offset. */
  lemma {:induction false} MinLeftsSpec(rows: seq<Row>, primaryOnly: bool)
    ensures var m := MinLefts(rows, primaryOnly);
      && (forall i :: 0 <= i < |rows| && Eligible(rows[i], primaryOnly) && rows[i].left < INT_MAX ==>
            rows[i].column in m && m[rows[i].column] <= rows[i].left)
      && (forall c :: c in m ==>
            (&& m[c] < INT_MAX
             && exists i :: 0 <= i < |rows| && Eligible(rows[i], primaryOnly) && rows[i].column == c && rows[i].left == m[c]))
  {
    if |rows| > 0 {
      var n := |rows| - 1;
      var init := rows[..n];
      MinLeftsSpec(init, primaryOnly);
      assert forall i :: 0 <= i < n ==> rows[i] == init[i];
      var m0 := MinLefts(init, primaryOnly);
      var m := MinLefts(rows, primaryOnly);
      forall c | c in m ensures m[c] < INT_MAX &&
            exists i :: 0 <= i < |rows| && Eligible(rows[i], primaryOnly) && rows[i].column == c && rows[i].left == m[c]
      {
        if !(c == rows[n].column && m[c] == rows[n].left && Eligible(rows[n], primaryOnly) && rows[n].left < INT_MAX) {
          assert c in m0 && m[c] == m0[c];
          var i :| 0 <= i < n && Eligible(init[i], primaryOnly) && init[i].column == c && init[i].left == m0[c];
          assert rows[i] == init[i];
        }
      }
    }
  }

  /** The two `leftByColumn` loops. */
  method ComputeLeftByColumn(rows: seq<Row>) returns (leftByColumn: map<int, int>)
    ensures leftByColumn == LeftByColumn(rows)
  {
    leftByColumn := map[];
    var i := 0;
    while i < |rows|
      invariant 0 <= i <= |rows|
      invariant leftByColumn == MinLefts(rows[..i], true)
    {
      assert rows[..i + 1][..i] == rows[..i];
      var row := rows[i];
      if PaneReader.IsPrimary(row.role) {
        var cur := if row.column in leftByColumn then leftByColumn[row.column] else INT_MAX;
        if row.left < cur {
          leftByColumn := leftByColumn[row.column := row.left];
        }
      }
      i := i + 1;
    }
    assert rows[..|rows|] == rows;
    if leftByColumn == map[] {
      i := 0;
      while i < |rows|
        invariant 0 <= i <= |rows|
        invariant leftByColumn == MinLefts(rows[..i], false)
      {
        assert rows[..i + 1][..i] == rows[..i];
        var row := rows[i];
        var cur := if row.column in leftByColumn then leftByColumn[row.column] else INT_MAX;
        if row.left < cur {
          leftByColumn := leftByColumn[row.column := row.left];
        }
        i := i + 1;
      }
      assert rows[..|rows|] == rows;
    }
  }

  // ---------------------------------------------------------------------------
  // Visual order and the remap

  predicate Distinct(s: seq<int>)
  {
    forall i, j :: 0 <= i < j < |s| ==> s[i] != s[j]
  }

  /** `ordered` lists every column of `leftBy` once, by ascending left offset.
      The order among columns with equal offsets is whatever the sort leaves. */
  predicate IsVisualOrder(leftBy: map<int, int>, ordered: seq<int>)
  {
    && Distinct(ordered)
    && (forall i :: 0 <= i < |ordered| ==> ordered[i] in leftBy)
    && (forall c :: c in leftBy ==> c in ordered)
    && (forall i, j :: 0 <= i < j < |ordered| ==> leftBy[ordered[i]] <= leftBy[ordered[j]])
  }

  function InsertByLeft(s: seq<int>, k: int, leftBy: map<int, int>): (r: seq<int>)
    requires k in leftBy && forall i :: 0 <= i < |s| ==> s[i] in leftBy
    ensures |r| == |s| + 1
    ensures forall x :: x in r <==> x in s || x == k
    ensures forall i :: 0 <= i < |r| ==> r[i] in leftBy
  {
    if s == [] then [k]
    else if leftBy[s[0]] <= leftBy[k] then [s[0]] + InsertByLeft(s[1..], k, leftBy)
    else [k] + s
  }

  lemma {:induction false} InsertByLeftSorted(s: seq<int>, k: int, leftBy: map<int, int>)
    requires k in leftBy && forall i :: 0 <= i < |s| ==> s[i] in leftBy
    requires Distinct(s) && k !in s
    requires forall i, j :: 0 <= i < j < |s| ==> leftBy[s[i]] <= leftBy[s[j]]
    ensures var r := InsertByLeft(s, k, leftBy);
      Distinct(r) && forall i, j :: 0 <= i < j < |r| ==> leftBy[r[i]] <= leftBy[r[j]]
  {
    if s != [] && leftBy[s[0]] <= leftBy[k] {
      var t := InsertByLeft(s[1..], k, leftBy);
      InsertByLeftSorted(s[1..], k, leftBy);
      forall j | 0 <= j < |t| ensures t[j] != s[0] && leftBy[s[0]] <= leftBy[t[j]] {
        assert t[j] in t;
        if t[j] != k {
          var q :| 0 <= q < |s| - 1 && s[1..][q] == t[j];
          assert s[q + 1] == t[j];
        }
      }
      ConsSorted(s[0], t, leftBy);
    } else {
      forall j | 0 <= j < |s| ensures s[j] != k && leftBy[k] <= leftBy[s[j]] {
        assert s[j] in s;
      }
      ConsSorted(k, s, leftBy);
    }
  }

  /** A column no later one repeats or precedes by offset can go in front. */
  lemma {:induction false} ConsSorted(x: int, t: seq<int>, leftBy: map<int, int>)
    requires x in leftBy && forall i :: 0 <= i < |t| ==> t[i] in leftBy
    requires Distinct(t) && forall i, j :: 0 <= i < j < |t| ==> leftBy[t[i]] <= leftBy[t[j]]
    requires forall j :: 0 <= j < |t| ==> t[j] != x && leftBy[x] <= leftBy[t[j]]
    ensures var r := [x] + t;
      Distinct(r) && forall i, j :: 0 <= i < j < |r| ==> leftBy[r[i]] <= leftBy[r[j]]
  {
    var r := [x] + t;
    assert forall i :: 0 < i < |r| ==> r[i] == t[i - 1];
  }

  /** Sorting the columns by left offset (`keys.sorted`). */
  method OrderColumns(leftBy: map<int, int>) returns (ordered: seq<int>)
    ensures IsVisualOrder(leftBy, ordered)
  {
    ordered := [];
    var rest := leftBy.Keys;
    while rest != {}
      invariant rest <= leftBy.Keys
      invariant Distinct(ordered)
      invariant forall i :: 0 <= i < |ordered| ==> ordered[i] in leftBy && ordered[i] !in rest
      invariant forall c :: c in leftBy && c !in rest ==> c in ordered
      invariant forall i, j :: 0 <= i < j < |ordered| ==> leftBy[ordered[i]] <= leftBy[ordered[j]]
      decreases |rest|
    {
      var k := Choose(rest);
      InsertByLeftSorted(ordered, k, leftBy);
      var next := InsertByLeft(ordered, k, leftBy);
      forall i | 0 <= i < |next| ensures next[i] !in rest - {k} {
        assert next[i] in next;
        if next[i] != k {
          var j :| 0 <= j < |ordered| && ordered[j] == next[i];
        }
      }
      ordered := next;
      rest := rest - {k};
    }
  }

  /** `remap[ordered[i]] = i + 1` */
  function RemapOf(ordered: seq<int>): map<int, int>
  {
    if |ordered| == 0 then map[]
    else RemapOf(ordered[..|ordered| - 1])[ordered[|ordered| - 1] := |ordered|]
  }

  method BuildRemap(ordered: seq<int>) returns (remap: map<int, int>)
    ensures remap == RemapOf(ordered)
  {
    remap := map[];
    var idx := 0;
    while idx < |ordered|
      invariant 0 <= idx <= |ordered|
      invariant remap == RemapOf(ordered[..idx])
    {
      assert ordered[..idx + 1][..idx] == ordered[..idx];
      remap := remap[ordered[idx] := idx + 1];
      idx := idx + 1;
    }
    assert ordered[..|ordered|] == ordered;
  }

  lemma {:induction false} RemapOfSpec(ordered: seq<int>)
    requires Distinct(ordered)
    ensures forall c :: c in RemapOf(ordered) <==> c in ordered
    ensures forall i :: 0 <= i < |ordered| ==> RemapOf(ordered)[ordered[i]] == i + 1
  {
    if |ordered| > 0 {
      var n := |ordered| - 1;
      var init := ordered[..n];
      RemapOfSpec(init);
      assert ordered == init + [ordered[n]];
      assert forall i :: 0 <= i < n ==> init[i] == ordered[i] && ordered[i] != ordered[n];
    }
  }

  lemma {:induction false} DistinctCard(s: seq<int>)
    requires Distinct(s)
    ensures |set x | x in s| == |s|
  {
    if |s| > 0 {
      var init := s[..|s| - 1];
      DistinctCard(init);
      assert s == init + [s[|s| - 1]];
      assert (set x | x in s) == (set x | x in init) + {s[|s| - 1]};
      assert s[|s| - 1] !in init;
    }
  }

  lemma {:induction false} VisualOrderCard(leftBy: map<int, int>, ordered: seq<int>)
    requires IsVisualOrder(leftBy, ordered)
    ensures |ordered| == |leftBy|
  {
    DistinctCard(ordered);
    assert (set x | x in ordered) == leftBy.Keys by {
      forall x ensures x in (set y | y in ordered) <==> x in leftBy.Keys {
        if x in ordered {
          var i :| 0 <= i < |ordered| && ordered[i] == x;
        }
      }
    }
    assert |leftBy.Keys| == |leftBy|;
  }

  /** The position of a remapped column in the order. */
  lemma {:induction false} PositionOf(ordered: seq<int>, c: int) returns (i: nat)
    requires Distinct(ordered) && c in RemapOf(ordered)
    ensures i < |ordered| && ordered[i] == c && RemapOf(ordered)[c] == i + 1
  {
    RemapOfSpec(ordered);
    i :| 0 <= i < |ordered| && ordered[i] == c;
  }

  /** The remap sends the reported columns one-to-one onto `1..n`, where `n`
      is the number of columns, in ascending order of left offset. */
  lemma {:induction false} RemapBijection(leftBy: map<int, int>, ordered: seq<int>)
    requires IsVisualOrder(leftBy, ordered)
    ensures var remap := RemapOf(ordered);
      && remap.Keys == leftBy.Keys
      && |ordered| == |leftBy|
      && (forall c :: c in remap ==> 1 <= remap[c] <= |leftBy|)
      && (forall a, b :: a in remap && b in remap && a != b ==> remap[a] != remap[b])
      && (forall v :: 1 <= v <= |leftBy| ==> v in remap.Values)
      && (forall a, b :: a in remap && b in remap && leftBy[a] < leftBy[b] ==> remap[a] < remap[b])
  {
    RemapOfSpec(ordered);
    VisualOrderCard(leftBy, ordered);
    var remap := RemapOf(ordered);
    assert remap.Keys == leftBy.Keys by {
      forall c ensures c in remap.Keys <==> c in leftBy.Keys {
        if c in ordered {
          var i :| 0 <= i < |ordered| && ordered[i] == c;
        }
      }
    }
    forall c | c in remap ensures 1 <= remap[c] <= |leftBy| {
      var i := PositionOf(ordered, c);
    }
    forall a, b | a in remap && b in remap && a != b ensures remap[a] != remap[b] {
      var i := PositionOf(ordered, a);
      var j := PositionOf(ordered, b);
    }
    forall v | 1 <= v <= |leftBy| ensures v in remap.Values {
      assert remap[ordered[v - 1]] == v;
    }
    forall a, b | a in remap && b in remap && leftBy[a] < leftBy[b] ensures remap[a] < remap[b] {
      var i := PositionOf(ordered, a);
      var j := PositionOf(ordered, b);
      assert !(j < i);
    }
  }

  // ---------------------------------------------------------------------------
  // The writes

  /** The `@column` and `@role` writes for one row: issued only for a remapped
      column, and each only when it changes the tag. */
  function RowWrites(r: Row, remap: map<int, int>): seq<Command>
  {
    if r.column !in remap then []
    else
      var newCol := remap[r.column];
      var newRole := RemapRole(r.role, remap);
      (if newCol != r.column then [SetPaneOption(r.paneID, "@column", IntToString(newCol))] else []) +
      (if newRole != r.role then [SetPaneOption(r.paneID, "@role", newRole)] else [])
  }

  function PlanWrites(rows: seq<Row>, remap: map<int, int>): seq<Command>
  {
    if |rows| == 0 then [] else PlanWrites(rows[..|rows| - 1], remap) + RowWrites(rows[|rows| - 1], remap)
  }

  /** No write is planned exactly when every remapped row already carries its
      new column and its new role. */
  lemma {:induction false} NoWritesIff(rows: seq<Row>, remap: map<int, int>)
    ensures PlanWrites(rows, remap) == [] <==> forall i :: 0 <= i < |rows| ==> Settled(rows[i], remap)
  {
    if |rows| > 0 {
      var n := |rows| - 1;
      NoWritesIff(rows[..n], remap);
      RowWritesEmpty(rows[n], remap);
      assert PlanWrites(rows, remap) == PlanWrites(rows[..n], remap) + RowWrites(rows[n], remap);
      SettledSplit(rows, rows[..n], remap);
    }
  }

  lemma {:induction false} SettledSplit(rows: seq<Row>, init: seq<Row>, remap: map<int, int>)
    requires |rows| > 0 && init == rows[..|rows| - 1]
    ensures (forall i :: 0 <= i < |rows| ==> Settled(rows[i], remap)) <==>
      (forall i :: 0 <= i < |init| ==> Settled(init[i], remap)) && Settled(rows[|rows| - 1], remap)
  {
    assert forall i :: 0 <= i < |init| ==> init[i] == rows[i];
  }

  lemma {:induction false} RowWritesEmpty(r: Row, remap: map<int, int>)
    ensures RowWrites(r, remap) == [] <==> Settled(r, remap)
  {
  }

  /** The row already carries its new column and its new role. */
  predicate Settled(r: Row, remap: map<int, int>)
  {
    r.column in remap ==> remap[r.column] == r.column && RemapRole(r.role, remap) == r.role
  }

  /** A row as the layout shows it once all its writes have taken effect. */
  function Applied(r: Row, remap: map<int, int>): Row
  {
    if r.column in remap then r.(column := remap[r.column], role := RemapRole(r.role, remap)) else r
  }

  function ApplyAll(rows: seq<Row>, remap: map<int, int>): (rows': seq<Row>)
    ensures |rows'| == |rows| && forall i :: 0 <= i < |rows| ==> rows'[i] == Applied(rows[i], remap)
  {
    seq(|rows|, i requires 0 <= i < |rows| => Applied(rows[i], remap))
  }

  // ---------------------------------------------------------------------------
  // A second run plans no writes

  /** A role whose column number, if any, has no leading zero and is not
      followed by a final line terminator, which a rewrite would drop. */
  predicate CanonicalRole(role: string)
  {
    match MatchRole(role)
    case None => true
    case Some(m) => (|m.digits| <= 1 || m.digits[0] != '0') && LineEnd(role) == ""
  }

  /** A remap that sends every column it knows to itself leaves a canonical role alone. */
  lemma {:induction false} IdentityKeepsRole(role: string, remap: map<int, int>)
    requires CanonicalRole(role)
    requires forall c :: c in remap ==> remap[c] == c
    ensures RemapRole(role, remap) == role
  {
    if MatchRole(role).Some? {
      var m := MatchRole(role).value;
      MatchRoleSplits(role);
      assert m.digits[0] != '-' && m.digits[0] != '+';
      if ParseInt(m.digits).Some? {
        var n := ParseInt(m.digits).value;
        assert n == DigitsValue(m.digits);
        if n in remap {
          CanonicalDigits(m.digits);
          assert IntToString(remap[n]) == m.digits;
        }
      }
    }
  }

  /** The rewrite introduces no leading zero. */
  lemma {:induction false} RemapKeepsCanonical(role: string, remap: map<int, int>)
    requires CanonicalRole(role)
    requires forall c :: c in remap ==> 0 <= remap[c] <= INT_MAX
    ensures CanonicalRole(RemapRole(role, remap))
  {
    RemapRoleSpec(role, remap);
    if RoleNumber(role).Some? && RoleNumber(role).value in remap {
      var v := remap[RoleNumber(role).value];
      var d := NatToString(v);
      assert d[0] == '0' ==> v == 0;
      assert v == 0 ==> |d| == 1;
    }
  }

  predicate Injective(f: map<int, int>)
  {
    forall a, b :: a in f && b in f && a != b ==> f[a] != f[b]
  }

  /** `m2` is `m` with every key `c` renamed to `remap[c]`. */
  ghost predicate Relabels(m: map<int, int>, m2: map<int, int>, remap: map<int, int>)
  {
    && (forall c :: c in m ==> c in remap && remap[c] in m2 && m2[remap[c]] == m[c])
    && (forall k :: k in m2 ==> exists c :: c in m && c in remap && remap[c] == k)
  }

  lemma {:induction false} RelabelStep(m: map<int, int>, m2: map<int, int>, remap: map<int, int>, r: Row, primaryOnly: bool)
    requires Injective(remap) && Relabels(m, m2, remap)
    requires Eligible(r, primaryOnly) ==> r.column in remap
    ensures Relabels(MinStep(m, r, primaryOnly), MinStep(m2, Applied(r, remap), primaryOnly), remap)
  {
    var r2 := Applied(r, remap);
    RemapRoleKeepsPrimary(r.role, remap);
    assert Eligible(r2, primaryOnly) == Eligible(r, primaryOnly) && r2.left == r.left;
    var n := MinStep(m, r, primaryOnly);
    var n2 := MinStep(m2, r2, primaryOnly);
    if Eligible(r, primaryOnly) {
      var k := remap[r.column];
      assert r2.column == k;
      if k in m2 {
        var c :| c in m && c in remap && remap[c] == k;
        assert c == r.column;
      }
      assert (k in m2) == (r.column in m);
      forall c | c in n ensures c in remap && remap[c] in n2 && n2[remap[c]] == n[c] {
        if c != r.column {
          assert remap[c] != k;
        }
      }
      forall k' | k' in n2 ensures exists c :: c in n && c in remap && remap[c] == k' {
        if k' in m2 {
          var c :| c in m && c in remap && remap[c] == k';
          assert c in n;
        } else {
          assert r.column in n;
        }
      }
    }
  }

  /** Renaming the columns of the eligible rows one-to-one renames the keys of
      the least-offset map and keeps its values. */
  lemma {:induction false} MinLeftsRelabel(rows: seq<Row>, remap: map<int, int>, primaryOnly: bool)
    requires Injective(remap)
    requires forall i :: 0 <= i < |rows| && Eligible(rows[i], primaryOnly) ==> rows[i].column in remap
    ensures Relabels(MinLefts(rows, primaryOnly), MinLefts(ApplyAll(rows, remap), primaryOnly), remap)
  {
    if |rows| > 0 {
      var n := |rows| - 1;
      var init := rows[..n];
      assert forall i :: 0 <= i < n ==> init[i] == rows[i];
      MinLeftsRelabel(init, remap, primaryOnly);
      MinLeftsAppliedSnoc(rows, remap, primaryOnly);
      RelabelStep(MinLefts(init, primaryOnly), MinLefts(ApplyAll(init, remap), primaryOnly), remap, rows[n], primaryOnly);
    }
  }

  /** The least-offset map of the renamed rows, one row at a time. */
  lemma {:induction false} MinLeftsAppliedSnoc(rows: seq<Row>, remap: map<int, int>, primaryOnly: bool)
    requires |rows| > 0
    ensures var n := |rows| - 1;
      MinLefts(ApplyAll(rows, remap), primaryOnly) ==
      MinStep(MinLefts(ApplyAll(rows[..n], remap), primaryOnly), Applied(rows[n], remap), primaryOnly)
  {
    var n := |rows| - 1;
    var rows2 := ApplyAll(rows, remap);
    assert rows2[..n] == ApplyAll(rows[..n], remap);
  }

  /** After the first run's writes, the second run sees the same least left
      offsets under the new column numbers. */
  lemma {:induction false} LeftByRelabel(rows: seq<Row>, ordered: seq<int>)
    requires IsVisualOrder(LeftByColumn(rows), ordered)
    requires forall i :: 0 <= i < |rows| ==> rows[i].left < INT_MAX
    ensures Relabels(LeftByColumn(rows), LeftByColumn(ApplyAll(rows, RemapOf(ordered))), RemapOf(ordered))
  {
    var l := LeftByColumn(rows);
    var remap := RemapOf(ordered);
    RemapBijection(l, ordered);
    var rows2 := ApplyAll(rows, remap);
    var p := MinLefts(rows, true);
    var p2 := MinLefts(rows2, true);
    MinLeftsSpec(rows, true);
    if p != map[] {
      MinLeftsRelabel(rows, remap, true);
      assert p == map[] || exists c :: c in p by {
        assert (forall c :: c !in p) ==> p == map[];
      }
      var c :| c in p;
      assert remap[c] in p2;
    } else {
      MinLeftsSpec(rows, false);
      MinLeftsRelabel(rows, remap, true);
      assert forall k :: k !in p2;
      assert (forall k :: k !in p2) ==> p2 == map[];
      MinLeftsRelabel(rows, remap, false);
    }
  }

  /** Without its first column, a visual order orders the rest. */
  lemma {:induction false} DropFirst(leftBy: map<int, int>, a: seq<int>)
    requires IsVisualOrder(leftBy, a) && |a| > 0
    ensures IsVisualOrder(leftBy - {a[0]}, a[1..])
  {
    var rest := leftBy - {a[0]};
    forall c | c in rest ensures c in a[1..] {
      var i :| 0 <= i < |a| && a[i] == c;
      assert a[1..][i - 1] == c;
    }
    forall i | 0 <= i < |a[1..]| ensures a[1..][i] in rest {
      assert a[1..][i] == a[i + 1] != a[0];
    }
  }

  /** With pairwise different offsets there is only one visual order. */
  lemma {:induction false} VisualOrderUnique(leftBy: map<int, int>, a: seq<int>, b: seq<int>)
    requires IsVisualOrder(leftBy, a) && IsVisualOrder(leftBy, b)
    requires forall x, y :: x in leftBy && y in leftBy && x != y ==> leftBy[x] != leftBy[y]
    ensures a == b
    decreases |a|
  {
    VisualOrderCard(leftBy, a);
    VisualOrderCard(leftBy, b);
    if |a| > 0 {
      assert b[0] in a && a[0] in b;
      var i :| 0 <= i < |a| && a[i] == b[0];
      var j :| 0 <= j < |b| && b[j] == a[0];
      assert leftBy[a[0]] <= leftBy[a[i]] && leftBy[b[0]] <= leftBy[b[j]];
      assert a[0] == b[0];
      DropFirst(leftBy, a);
      DropFirst(leftBy, b);
      VisualOrderUnique(leftBy - {a[0]}, a[1..], b[1..]);
      assert a == [a[0]] + a[1..] && b == [b[0]] + b[1..];
    }
  }

  /** The columns `1..n`. */
  function Iota(n: nat): (s: seq<int>)
    ensures |s| == n && forall i :: 0 <= i < n ==> s[i] == i + 1
  {
    seq(n, i requires 0 <= i < n => i + 1)
  }

  /** The renamed columns, read in their new numbering, are in visual order. */
  lemma {:induction false} ImageIsVisualOrder(l: map<int, int>, ordered: seq<int>, l2: map<int, int>)
    requires IsVisualOrder(l, ordered) && Relabels(l, l2, RemapOf(ordered))
    ensures IsVisualOrder(l2, Iota(|ordered|))
  {
    var image := Iota(|ordered|);
    forall i | 0 <= i < |image| ensures image[i] in l2 {
      ImageOffsetAt(l, ordered, l2, i);
    }
    forall i, j | 0 <= i < j < |image| ensures l2[image[i]] <= l2[image[j]] {
      ImageOffsetAt(l, ordered, l2, i);
      ImageOffsetAt(l, ordered, l2, j);
    }
    ImageCovers(l, ordered, l2);
  }

  lemma {:induction false} ImageOffsetAt(l: map<int, int>, ordered: seq<int>, l2: map<int, int>, i: nat)
    requires Distinct(ordered) && i < |ordered| && ordered[i] in l
    requires Relabels(l, l2, RemapOf(ordered))
    ensures Iota(|ordered|)[i] in l2 && l2[Iota(|ordered|)[i]] == l[ordered[i]]
  {
    RemapAt(ordered, i);
  }

  lemma {:induction false} ImageCovers(l: map<int, int>, ordered: seq<int>, l2: map<int, int>)
    requires IsVisualOrder(l, ordered) && Relabels(l, l2, RemapOf(ordered))
    ensures forall k :: k in l2 ==> k in Iota(|ordered|)
  {
    var remap := RemapOf(ordered);
    var image := Iota(|ordered|);
    forall k | k in l2 ensures k in image {
      var c :| c in l && c in remap && remap[c] == k;
      var i := PositionOf(ordered, c);
      assert image[i] == k;
    }
  }

  lemma {:induction false} RemapAt(ordered: seq<int>, i: nat)
    requires Distinct(ordered) && i < |ordered|
    ensures ordered[i] in RemapOf(ordered) && RemapOf(ordered)[ordered[i]] == i + 1
  {
    RemapOfSpec(ordered);
  }

  /** Renaming keys one-to-one keeps values pairwise different. */
  lemma {:induction false} RelabelDistinct(l: map<int, int>, l2: map<int, int>, remap: map<int, int>)
    requires Relabels(l, l2, remap)
    requires forall x, y :: x in l && y in l && x != y ==> l[x] != l[y]
    ensures forall x, y :: x in l2 && y in l2 && x != y ==> l2[x] != l2[y]
  {
    forall x, y | x in l2 && y in l2 && x != y ensures l2[x] != l2[y] {
      var cx :| cx in l && cx in remap && remap[cx] == x;
      var cy :| cy in l && cy in remap && remap[cy] == y;
    }
  }

  /** Numbering `1..n` in order sends every column to itself. */
  lemma {:induction false} IotaRemap(n: nat)
    ensures forall c :: c in RemapOf(Iota(n)) ==> RemapOf(Iota(n))[c] == c
  {
    var s := Iota(n);
    assert Distinct(s);
    forall c | c in RemapOf(s) ensures RemapOf(s)[c] == c {
      var i := PositionOf(s, c);
    }
  }

  /** The second run numbers every column with the number it already has. */
  lemma {:induction false} SecondOrderIsIdentity(l: map<int, int>, ordered: seq<int>, l2: map<int, int>, ordered2: seq<int>)
    requires IsVisualOrder(l, ordered) && IsVisualOrder(l2, ordered2)
    requires forall x, y :: x in l && y in l && x != y ==> l[x] != l[y]
    requires Relabels(l, l2, RemapOf(ordered))
    ensures forall c :: c in RemapOf(ordered2) ==> RemapOf(ordered2)[c] == c
  {
    ImageIsVisualOrder(l, ordered, l2);
    RelabelDistinct(l, l2, RemapOf(ordered));
    VisualOrderUnique(l2, ordered2, Iota(|ordered|));
    IotaRemap(|ordered|);
  }

  /** The remap numbers columns from 1 to the number of columns. */
  lemma {:induction false} RemapRange(ordered: seq<int>)
    requires Distinct(ordered)
    ensures forall c :: c in RemapOf(ordered) ==> 1 <= RemapOf(ordered)[c] <= |ordered|
  {
    forall c | c in RemapOf(ordered) ensures 1 <= RemapOf(ordered)[c] <= |ordered| {
      var i := PositionOf(ordered, c);
    }
  }

  /** Applying the writes keeps role numbers free of leading zeros. */
  lemma {:induction false} AppliedCanonical(rows: seq<Row>, remap: map<int, int>)
    requires forall i :: 0 <= i < |rows| ==> CanonicalRole(rows[i].role)
    requires forall c :: c in remap ==> 0 <= remap[c] <= INT_MAX
    ensures forall i :: 0 <= i < |rows| ==> CanonicalRole(ApplyAll(rows, remap)[i].role)
  {
    forall i | 0 <= i < |rows| ensures CanonicalRole(ApplyAll(rows, remap)[i].role) {
      RemapKeepsCanonical(rows[i].role, remap);
    }
  }

  /** Renumbering is idempotent: once all writes of a run have taken effect, a
      second run plans none, provided every left offset is below `Int.max`,
      the columns' least offsets differ, no role number has a leading zero and
      there are fewer than `Int.max` columns. */
  lemma {:induction false} RenumberIdempotent(rows: seq<Row>, ordered: seq<int>, ordered2: seq<int>)
    requires forall i :: 0 <= i < |rows| ==> rows[i].left < INT_MAX && CanonicalRole(rows[i].role)
    requires forall x, y :: x in LeftByColumn(rows) && y in LeftByColumn(rows) && x != y ==>
      LeftByColumn(rows)[x] != LeftByColumn(rows)[y]
    requires |LeftByColumn(rows)| <= INT_MAX
    requires IsVisualOrder(LeftByColumn(rows), ordered)
    requires IsVisualOrder(LeftByColumn(ApplyAll(rows, RemapOf(ordered))), ordered2)
    ensures PlanWrites(ApplyAll(rows, RemapOf(ordered)), RemapOf(ordered2)) == []
  {
    var l := LeftByColumn(rows);
    var remap := RemapOf(ordered);
    var rows2 := ApplyAll(rows, remap);
    LeftByRelabel(rows, ordered);
    SecondOrderIsIdentity(l, ordered, LeftByColumn(rows2), ordered2);
    var remap2 := RemapOf(ordered2);
    VisualOrderCard(l, ordered);
    RemapRange(ordered);
    AppliedCanonical(rows, remap);
    forall i | 0 <= i < |rows2| ensures Settled(rows2[i], remap2) {
      IdentityKeepsRole(rows2[i].role, remap2);
    }
    NoWritesIff(rows2, remap2);
  }

  /** The leading-zero hypothesis cannot be dropped: "yazi-p01" in column 2
      keeps its role in the first run, whose remap has no 1, and the second run
      then rewrites it to "yazi-p1". */
  lemma {:induction false} LeadingZeroBreaksIdempotence()
    ensures var rows := [Row("%1", 0, 2, "claude-p2"), Row("%2", 0, 2, "yazi-p01")];
      && !CanonicalRole(rows[1].role)
      && IsVisualOrder(LeftByColumn(rows), [2])
      && IsVisualOrder(LeftByColumn(ApplyAll(rows, RemapOf([2]))), [1])
      && PlanWrites(ApplyAll(rows, RemapOf([2])), RemapOf([1])) != []
  {
    var rows := [Row("%1", 0, 2, "claude-p2"), Row("%2", 0, 2, "yazi-p01")];
    ZeroPaddedRemaps();
    FirstRunOfPaddedRows();
    SecondRunOfPaddedRows();
  }

  /** How the two remaps of the counterexample treat its roles. */
  lemma {:induction false} ZeroPaddedRemaps()
    ensures !CanonicalRole("yazi-p01")
    ensures RemapOf([2]) == map[2 := 1] && RemapOf([1]) == map[1 := 1]
    ensures RemapRole("claude-p2", map[2 := 1]) == "claude-p1"
    ensures RemapRole("yazi-p01", map[2 := 1]) == "yazi-p01"
    ensures RemapRole("yazi-p01", map[1 := 1]) == "yazi-p1"
  {
    ClaudeRoleReads();
    PaddedRoleReads();
    assert IntToString(1) == "1";
  }

  lemma {:induction false} ClaudeRoleReads()
    ensures MatchRole("claude-p2") == Some(RoleMatch("claude-p", "2", "")) && ParseInt("2") == Some(2)
  {
    TrailingNumberMatch("claude-p", "2", "");
    assert "claude-p2" == "claude-p" + "2" + "";
    assert DigitsValue("2") == 2;
  }

  lemma {:induction false} PaddedRoleReads()
    ensures MatchRole("yazi-p01") == Some(RoleMatch("yazi-p", "01", "")) && ParseInt("01") == Some(1)
  {
    TrailingNumberMatch("yazi-p", "01", "");
    assert "yazi-p01" == "yazi-p" + "01" + "";
    assert DigitsValue("01") == 1 by { assert "01"[..1] == "0"; assert DigitsValue("0") == 0; }
  }

  /** The first run of the counterexample: column 2 becomes column 1 and the
      zero-padded role stays as it is. */
  lemma {:induction false} FirstRunOfPaddedRows()
    requires RemapOf([2]) == map[2 := 1]
    requires RemapRole("claude-p2", map[2 := 1]) == "claude-p1"
    requires RemapRole("yazi-p01", map[2 := 1]) == "yazi-p01"
    ensures var rows := [Row("%1", 0, 2, "claude-p2"), Row("%2", 0, 2, "yazi-p01")];
      && LeftByColumn(rows) == map[2 := 0]
      && ApplyAll(rows, RemapOf([2])) == [Row("%1", 0, 1, "claude-p1"), Row("%2", 0, 1, "yazi-p01")]
  {
    var rows := [Row("%1", 0, 2, "claude-p2"), Row("%2", 0, 2, "yazi-p01")];
    PaddedRowsLefts();
    var a := ApplyAll(rows, RemapOf([2]));
    assert a[0] == Row("%1", 0, 1, "claude-p1");
    assert a[1] == Row("%2", 0, 1, "yazi-p01");
  }

  lemma {:induction false} PaddedRowsLefts()
    ensures LeftByColumn([Row("%1", 0, 2, "claude-p2"), Row("%2", 0, 2, "yazi-p01")]) == map[2 := 0]
  {
    var rows := [Row("%1", 0, 2, "claude-p2"), Row("%2", 0, 2, "yazi-p01")];
    assert PaneReader.IsPrimary("claude-p2");
    assert !PaneReader.IsPrimary("yazi-p01") by {
      assert "yazi-p01"[0] == 'y' && PaneReader.ClaudePrefix[0] == 'c' && PaneReader.CodexPrefix[0] == 'c';
    }
    assert MinLefts(rows, true) == map[2 := 0] by { assert rows[..1] == [rows[0]]; assert rows[..1][..0] == []; }
  }

  /** The second run of the counterexample still has a role to rewrite. */
  lemma {:induction false} SecondRunOfPaddedRows()
    requires RemapOf([1]) == map[1 := 1]
    requires RemapRole("yazi-p01", map[1 := 1]) == "yazi-p1"
    ensures var rows2 := [Row("%1", 0, 1, "claude-p1"), Row("%2", 0, 1, "yazi-p01")];
      && LeftByColumn(rows2) == map[1 := 0]
      && PlanWrites(rows2, RemapOf([1])) != []
  {
    var rows2 := [Row("%1", 0, 1, "claude-p1"), Row("%2", 0, 1, "yazi-p01")];
    assert PaneReader.IsPrimary("claude-p1");
    assert MinLefts(rows2[..1], true) == map[1 := 0] by { assert rows2[..1][..0] == []; }
    assert MinLefts(rows2, true) == map[1 := 0];
    assert RowWrites(rows2[1], map[1 := 1]) == [SetPaneOption("%2", "@role", "yazi-p1")];
    assert rows2[..1] == [rows2[0]];
  }

  // ---------------------------------------------------------------------------
  // The renumbering run through the gateway

  /** The rows of a `list-panes` reply. */
  function RowsOf(r: CommandResult): seq<Row>
  {
    ParseRows(Lines(r.stdout))
  }

  /** The listing gives something to renumber: it succeeded, has rows and
      the rows give at least one column offset. */
  predicate Renumberable(r: CommandResult)
  {
    r.exitCode == 0 && RowsOf(r) != [] && LeftByColumn(RowsOf(r)) != map[]
  }

  /** One renumbering: the listing; when there is nothing to renumber,
      nothing more and the result false. Otherwise every planned write for
      the column order `ordered`, all of them whatever the earlier ones did,
      and the result true exactly when every write succeeded. */
  predicate NormalizeTrace(t: seq<Exchange>, ordered: seq<int>, ok: bool)
  {
    && |t| >= 1 && t[0].cmd == ListPanes(WorkspaceWindow, NormalizeFormat)
    && if !Renumberable(t[0].result) then |t| == 1 && !ok
       else
         && IsVisualOrder(LeftByColumn(RowsOf(t[0].result)), ordered)
         && CommandsOf(t[1..]) == PlanWrites(RowsOf(t[0].result), RemapOf(ordered))
         && ok == AllSucceeded(t[1..])
  }

  /** The part of the renumbering between the listing and the writes: the
      early exits, the offsets, the visual order and the remap. */
  method PlanRenumber(result: CommandResult) returns (go: bool, rows: seq<Row>, remap: map<int, int>, ghost ordered: seq<int>)
    ensures go == Renumberable(result)
    ensures go ==> rows == RowsOf(result) && IsVisualOrder(LeftByColumn(rows), ordered) && remap == RemapOf(ordered)
  {
    ordered := [];
    remap := map[];
    rows := [];
    if result.exitCode != 0 {
      return false, rows, remap, ordered;
    }
    rows := ParseRows(Lines(result.stdout));
    if rows == [] {
      return false, rows, remap, ordered;
    }
    var leftByColumn := ComputeLeftByColumn(rows);
    var orderedColumns := OrderColumns(leftByColumn);
    ordered := orderedColumns;
    if orderedColumns == [] {
      assert leftByColumn == map[] by {
        assert forall c :: c !in leftByColumn;
      }
      return false, rows, remap, ordered;
    }
    assert leftByColumn != map[] by {
      assert orderedColumns[0] in leftByColumn;
    }
    remap := BuildRemap(orderedColumns);
    go := true;
  }

  /** `normalizeColumnsByVisualOrderAsync`. */
  method Normalize(mux: Mux) returns (ok: bool, ghost ordered: seq<int>)
    modifies mux
    ensures old(mux.log) <= mux.log && NormalizeTrace(mux.log[|old(mux.log)|..], ordered, ok)
  {
    ghost var start := mux.log;
    var result := mux.Run(ListPanes(WorkspaceWindow, NormalizeFormat));
    ghost var mid := mux.log;
    var go, rows, remap;
    go, rows, remap, ordered := PlanRenumber(result);
    if !go {
      assert mux.log[|start|..] == [Exchange(ListPanes(WorkspaceWindow, NormalizeFormat), result)];
      return false, ordered;
    }
    ok := mux.RunAllChecked(PlanWrites(rows, remap));
    FirstThenRest(start, Exchange(ListPanes(WorkspaceWindow, NormalizeFormat), result), mid, mux.log);
  }
}
