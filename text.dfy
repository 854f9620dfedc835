/** Character-level models of the Swift string operations the reconciliation
    code relies on: `split(separator:omittingEmptySubsequences:)`,
    `split(separator:maxSplits:1)`, `trimmingCharacters(in:)`,
    `replacingOccurrences(of:with:)`, `hasPrefix`, string interpolation of an
    `Int` and the failable `Int(String)` / `Int32(String)` initialisers.
    Strings are sequences of Unicode scalars. */
module Text {

  datatype Option<T> = None | Some(value: T)

  /** Bounds of Swift's `Int` (64-bit on the platforms the app runs on) and `Int32`. */
  const INT_MAX: int := 0x7FFF_FFFF_FFFF_FFFF
  const INT_MIN: int := -0x8000_0000_0000_0000
  const INT32_MAX: int := 0x7FFF_FFFF
  const INT32_MIN: int := -0x8000_0000

  // ---------------------------------------------------------------------------
  // Splitting and joining

  /** A set is empty or has a member (stated as a disjunction so that picking
      an element with `:|` needs no case split). */
  lemma {:induction false} EmptyOrMember(s: set<int>)
    ensures s == {} || exists x :: x in s
  {
    assert (forall x :: x !in s) ==> s == {};
  }

  /** Some element of a non-empty set of integers. */
  method Choose(s: set<int>) returns (k: int)
    requires s != {}
    ensures k in s
  {
    EmptyOrMember(s);
    k :| k in s;
  }

  /** `s.split(separator: sep, omittingEmptySubsequences: false)`: the pieces
      between separators, including empty ones; an empty string gives [""]. */
  function Split(s: string, sep: char): (parts: seq<string>)
    ensures |parts| >= 1
    ensures forall i :: 0 <= i < |parts| ==> sep !in parts[i]
    decreases |s|
  {
    if |s| == 0 then [""]
    else if s[0] == sep then [""] + Split(s[1..], sep)
    else
      var rest := Split(s[1..], sep);
      [[s[0]] + rest[0]] + rest[1..]
  }

  /** `parts.joined(separator: String(sep))` */
  function Join(parts: seq<string>, sep: string): string
  {
    if |parts| == 0 then ""
    else if |parts| == 1 then parts[0]
    else parts[0] + sep + Join(parts[1..], sep)
  }

  /** Joining the pieces of a split with the separator gives the text back. */
  lemma {:induction false} JoinSplit(s: string, sep: char)
    ensures Join(Split(s, sep), [sep]) == s
    decreases |s|
  {
    if |s| == 0 {
    } else if s[0] == sep {
      JoinSplit(s[1..], sep);
      assert s == [sep] + s[1..];
    } else {
      JoinSplit(s[1..], sep);
      var rest := Split(s[1..], sep);
      assert s == [s[0]] + s[1..];
      if |rest| == 1 {
        assert Join(rest, [sep]) == rest[0];
      } else {
        assert Join(rest, [sep]) == rest[0] + [sep] + Join(rest[1..], [sep]);
        assert ([[s[0]] + rest[0]] + rest[1..])[1..] == rest[1..];
      }
    }
  }

  /** Splitting a join of separator-free pieces recovers the pieces. */
  lemma {:induction false} SplitJoin(parts: seq<string>, sep: char)
    requires |parts| >= 1
    requires forall i :: 0 <= i < |parts| ==> sep !in parts[i]
    ensures Split(Join(parts, [sep]), sep) == parts
    decreases |parts|, |parts[0]|
  {
    if |parts| == 1 {
      SplitFree(parts[0], sep);
    } else if |parts[0]| == 0 {
      var tail := parts[1..];
      SplitJoin(tail, sep);
      assert Join(parts, [sep]) == [sep] + Join(tail, [sep]);
      assert parts == [""] + tail;
    } else {
      var c := parts[0][0];
      var shorter := [parts[0][1..]] + parts[1..];
      SplitJoin(shorter, sep);
      assert Join(parts, [sep]) == [c] + Join(shorter, [sep]) by {
        assert parts[0] == [c] + parts[0][1..];
        assert shorter[1..] == parts[1..];
      }
      var j := Join(parts, [sep]);
      assert j[1..] == Join(shorter, [sep]);
      assert [c] + shorter[0] == parts[0] && shorter[1..] == parts[1..];
      assert parts == [parts[0]] + parts[1..];
    }
  }

  /** Three separator-free pieces joined by the separator split back into them. */
  lemma SplitThree(a: string, b: string, c: string, sep: char)
    requires sep !in a && sep !in b && sep !in c
    ensures Split(a + [sep] + b + [sep] + c, sep) == [a, b, c]
  {
    assert [b, c][1..] == [c];
    assert Join([b, c], [sep]) == b + [sep] + c;
    assert [a, b, c][1..] == [b, c];
    assert Join([a, b, c], [sep]) == a + [sep] + (b + [sep] + c);
    assert a + [sep] + (b + [sep] + c) == a + [sep] + b + [sep] + c;
    SplitJoin([a, b, c], sep);
  }

  /** A text without the separator splits into itself. */
  lemma {:induction false} SplitFree(s: string, sep: char)
    requires sep !in s
    ensures Split(s, sep) == [s]
    decreases |s|
  {
    if |s| > 0 {
      assert sep !in s[1..];
      SplitFree(s[1..], sep);
      assert s == [s[0]] + s[1..];
    }
  }

  /** The non-empty pieces, in order
      (`split(separator:)` with its default `omittingEmptySubsequences: true`). */
  function NonEmpty(parts: seq<string>): (r: seq<string>)
    ensures forall i :: 0 <= i < |r| ==> r[i] != ""
    ensures forall x :: x in r <==> x in parts && x != ""
  {
    if |parts| == 0 then []
    else if parts[0] == "" then NonEmpty(parts[1..])
    else [parts[0]] + NonEmpty(parts[1..])
  }

  /** `stdout.split(separator: "\n")`: the non-empty lines of a command output. */
  function Lines(s: string): seq<string>
  {
    NonEmpty(Split(s, '\n'))
  }

  /** A command output made of the given lines, each ended by a newline. */
  function Output(lines: seq<string>): string
  {
    Join(lines + [""], "\n")
  }

  /** Reading the lines of such an output gives them back, when none is empty
      or holds a newline. */
  lemma {:induction false} LinesOfOutput(lines: seq<string>)
    requires forall i :: 0 <= i < |lines| ==> lines[i] != "" && '\n' !in lines[i]
    ensures Lines(Output(lines)) == lines
  {
    var parts := lines + [""];
    assert forall i :: 0 <= i < |parts| ==> '\n' !in parts[i] by {
      assert forall i :: 0 <= i < |lines| ==> parts[i] == lines[i];
    }
    SplitJoin(parts, '\n');
    NonEmptyKeeps(lines);
  }

  lemma {:induction false} NonEmptyKeeps(lines: seq<string>)
    requires forall i :: 0 <= i < |lines| ==> lines[i] != ""
    ensures NonEmpty(lines + [""]) == lines
  {
    if |lines| == 0 {
      assert lines + [""] == [""];
    } else {
      NonEmptyKeeps(lines[1..]);
      assert (lines + [""])[1..] == lines[1..] + [""];
      assert lines == [lines[0]] + lines[1..];
    }
  }

  /** Index of the first occurrence of `c` in `s`. */
  function IndexOf(s: string, c: char): (k: nat)
    requires c in s
    ensures k < |s| && s[k] == c && c !in s[..k]
  {
    if s[0] == c then 0
    else
      var k := IndexOf(s[1..], c);
      assert s[1..][..k] == s[1..k + 1];
      k + 1
  }

  /** `s.split(separator: sep, maxSplits: 1, omittingEmptySubsequences: false)`:
      the text before and after the first separator, or the whole text. */
  function SplitOnce(s: string, sep: char): (parts: seq<string>)
    ensures sep !in s ==> parts == [s]
    ensures sep in s ==> |parts| == 2 && s == parts[0] + [sep] + parts[1] && sep !in parts[0]
  {
    if sep !in s then [s]
    else
      var k := IndexOf(s, sep);
      assert s == s[..k] + [sep] + s[k + 1..];
      [s[..k], s[k + 1..]]
  }

  // ---------------------------------------------------------------------------
  // Character classes and trimming

  /** Foundation's `CharacterSet.whitespaces`: tab and the Unicode space separators. */
  predicate IsBlank(c: char)
  {
    c == ' ' || c == '\t' || c == '\U{00A0}' || c == '\U{1680}' ||
    ('\U{2000}' <= c <= '\U{200A}') || c == '\U{202F}' || c == '\U{205F}' || c == '\U{3000}'
  }

  /** Foundation's `CharacterSet.newlines`. */
  predicate IsNewline(c: char)
  {
    c == '\n' || c == '\U{000B}' || c == '\U{000C}' || c == '\r' ||
    c == '\U{0085}' || c == '\U{2028}' || c == '\U{2029}'
  }

  /** Foundation's `CharacterSet.whitespacesAndNewlines`. */
  predicate IsSpace(c: char)
  {
    IsBlank(c) || IsNewline(c)
  }

  /** Drops leading characters of the class `p`. */
  function TrimStart(s: string, p: char -> bool): (r: string)
    ensures |r| <= |s|
    decreases |s|
  {
    if |s| > 0 && p(s[0]) then TrimStart(s[1..], p) else s
  }

  /** What `TrimStart` drops is a leading run of the class, and what it keeps
      does not start with one. */
  lemma {:induction false} TrimStartSpec(s: string, p: char -> bool)
    ensures var r := TrimStart(s, p);
      && r == s[|s| - |r|..]
      && (forall i :: 0 <= i < |s| - |r| ==> p(s[i]))
      && (r == [] || !p(r[0]))
    decreases |s|
  {
    if |s| > 0 && p(s[0]) {
      TrimStartSpec(s[1..], p);
      var r := TrimStart(s, p);
      assert s[1..][|s| - 1 - |r|..] == s[|s| - |r|..];
      forall i | 0 <= i < |s| - |r| ensures p(s[i]) {
        if i > 0 {
          assert s[i] == s[1..][i - 1];
        }
      }
    }
  }

  /** Drops trailing characters of the class `p`. */
  function TrimEnd(s: string, p: char -> bool): (r: string)
    ensures |r| <= |s|
    decreases |s|
  {
    if |s| > 0 && p(s[|s| - 1]) then TrimEnd(s[..|s| - 1], p) else s
  }

  /** What `TrimEnd` drops is a trailing run of the class, and what it keeps
      does not end with one. */
  lemma {:induction false} TrimEndSpec(s: string, p: char -> bool)
    ensures var r := TrimEnd(s, p);
      && r == s[..|r|]
      && (forall i :: |r| <= i < |s| ==> p(s[i]))
      && (r == [] || !p(r[|r| - 1]))
    decreases |s|
  {
    if |s| > 0 && p(s[|s| - 1]) {
      var n := |s| - 1;
      TrimEndSpec(s[..n], p);
      var r := TrimEnd(s, p);
      assert s[..n][..|r|] == s[..|r|];
      forall i | |r| <= i < |s| ensures p(s[i]) {
        if i < n {
          assert s[i] == s[..n][i];
        }
      }
    }
  }

  /** `s.trimmingCharacters(in: set)` for the class `p`. */
  function TrimBy(s: string, p: char -> bool): (r: string)
  {
    TrimEnd(TrimStart(s, p), p)
  }

  /** `trimmingCharacters(in: .whitespaces)` */
  function Trim(s: string): string
  {
    TrimBy(s, IsBlank)
  }

  /** `trimmingCharacters(in: .whitespacesAndNewlines)` */
  function TrimAll(s: string): string
  {
    TrimBy(s, IsSpace)
  }

  /** Trimming keeps a contiguous middle part of the text (starting after the
      leading run of the class), removes only characters of the class, and
      leaves no such character at either end. */
  lemma {:induction false} TrimByIsSlice(s: string, p: char -> bool)
    ensures var i := |s| - |TrimStart(s, p)|; var r := TrimBy(s, p);
      && i + |r| <= |s| && r == s[i..i + |r|]
      && (forall k :: 0 <= k < i ==> p(s[k]))
      && (forall k :: i + |r| <= k < |s| ==> p(s[k]))
      && (r == [] || (!p(r[0]) && !p(r[|r| - 1])))
  {
    var t := TrimStart(s, p);
    var r := TrimEnd(t, p);
    var i := |s| - |t|;
    TrimStartSpec(s, p);
    TrimEndSpec(t, p);
    assert r == TrimBy(s, p);
    assert t == s[i..];
    assert r == t[..|r|];
    assert r == s[i..i + |r|];
    forall k | i + |r| <= k < |s| ensures p(s[k]) {
      assert |r| <= k - i < |t|;
      assert s[k] == t[k - i];
    }
  }

  /** Trimming a text that neither starts nor ends with a character of the
      class, followed only by such characters, gives the text back. */
  lemma {:induction false} TrimByTrailing(s: string, t: string, p: char -> bool)
    requires s != [] && !p(s[0]) && !p(s[|s| - 1])
    requires forall i :: 0 <= i < |t| ==> p(t[i])
    ensures TrimBy(s + t, p) == s
  {
    assert TrimStart(s + t, p) == s + t;
    TrimEndDrops(s, t, p);
  }

  lemma {:induction false} TrimEndDrops(s: string, t: string, p: char -> bool)
    requires s != [] && !p(s[|s| - 1])
    requires forall i :: 0 <= i < |t| ==> p(t[i])
    ensures TrimEnd(s + t, p) == s
    decreases |t|
  {
    if |t| == 0 {
      assert s + t == s;
    } else {
      var u := t[..|t| - 1];
      assert (s + t)[..|s + t| - 1] == s + u;
      TrimEndDrops(s, u, p);
    }
  }

  /** Trimming twice trims nothing more. */
  lemma {:induction false} TrimByIdempotent(s: string, p: char -> bool)
    ensures TrimBy(TrimBy(s, p), p) == TrimBy(s, p)
  {
    var r := TrimBy(s, p);
    TrimByIsSlice(s, p);
    if r != [] {
      assert TrimStart(r, p) == r;
      assert TrimEnd(r, p) == r;
    }
  }

  // ---------------------------------------------------------------------------
  // Replacement

  /** `s.replacingOccurrences(of: pat, with: rep)`: non-overlapping occurrences,
      found from left to right, each replaced. */
  function ReplaceAll(s: string, pat: string, rep: string): string
    requires |pat| > 0
    decreases |s|
  {
    if |s| < |pat| then s
    else if pat <= s then rep + ReplaceAll(s[|pat|..], pat, rep)
    else [s[0]] + ReplaceAll(s[1..], pat, rep)
  }

  /** Replacement of one character, character by character. */
  function ReplaceChar(s: string, c: char, rep: string): (r: string)
    ensures c !in rep ==> c !in r
    ensures c !in s ==> r == s
    decreases |s|
  {
    if |s| == 0 then ""
    else (if s[0] == c then rep else [s[0]]) + ReplaceChar(s[1..], c, rep)
  }

  lemma ReplaceCharUnfold(s: string, c: char, rep: string, suffix: string)
    requires |s| > 0
    ensures ReplaceChar(s, c, rep) + suffix == (if s[0] == c then rep else [s[0]]) + (ReplaceChar(s[1..], c, rep) + suffix)
  {
  }

  /** A non-empty replacement never shortens the text. */
  lemma {:induction false} ReplaceCharLength(s: string, c: char, rep: string)
    requires |rep| > 0
    ensures |ReplaceChar(s, c, rep)| >= |s|
    decreases |s|
  {
    if |s| > 0 {
      ReplaceCharLength(s[1..], c, rep);
    }
  }

  /** For a one-character pattern, `replacingOccurrences` replaces every
      occurrence of that character independently. */
  lemma {:induction false} ReplaceAllOneChar(s: string, c: char, rep: string)
    ensures ReplaceAll(s, [c], rep) == ReplaceChar(s, c, rep)
    decreases |s|
  {
    if |s| > 0 {
      ReplaceAllOneChar(s[1..], c, rep);
      if s[0] == c {
        assert [c] <= s;
      } else {
        assert !([c] <= s);
      }
    }
  }

  lemma {:induction false} ReplaceCharConcat(a: string, b: string, c: char, rep: string)
    ensures ReplaceChar(a + b, c, rep) == ReplaceChar(a, c, rep) + ReplaceChar(b, c, rep)
    decreases |a|
  {
    if |a| > 0 {
      ReplaceCharConcat(a[1..], b, c, rep);
      assert (a + b)[1..] == a[1..] + b && (a + b)[0] == a[0];
      var h := if a[0] == c then rep else [a[0]];
      assert ReplaceChar(a + b, c, rep) == h + ReplaceChar(a[1..] + b, c, rep);
      assert ReplaceChar(a, c, rep) == h + ReplaceChar(a[1..], c, rep);
    } else {
      assert a + b == b;
    }
  }

  // ---------------------------------------------------------------------------
  // Integers

  predicate IsDigit(c: char) { '0' <= c <= '9' }

  predicate AllDigits(s: string) { forall i :: 0 <= i < |s| ==> IsDigit(s[i]) }

  function DigitValue(c: char): nat requires IsDigit(c) { c as int - '0' as int }

  function DigitChar(d: nat): (c: char)
    requires d < 10
    ensures IsDigit(c) && DigitValue(c) == d
  {
    ('0' as int + d) as char
  }

  /** The decimal value of a string of ASCII digits. */
  function DigitsValue(s: string): nat
    requires AllDigits(s)
  {
    if |s| == 0 then 0 else DigitsValue(s[..|s| - 1]) * 10 + DigitValue(s[|s| - 1])
  }

  /** `Int(s)` restricted to [lo, hi]: an optional sign and at least one ASCII
      digit, nothing else (no spaces), and a value in range; otherwise nil. */
  function ParseIntIn(s: string, lo: int, hi: int): (r: Option<int>)
    ensures r.Some? ==> lo <= r.value <= hi
  {
    if |s| == 0 then None
    else if s[0] == '-' || s[0] == '+' then
      if |s| == 1 || !AllDigits(s[1..]) then None
      else
        var v: int := if s[0] == '-' then 0 - (DigitsValue(s[1..]) as int) else DigitsValue(s[1..]);
        if lo <= v <= hi then Some(v) else None
    else if !AllDigits(s) then None
    else if lo <= DigitsValue(s) <= hi then Some(DigitsValue(s)) else None
  }

  /** `Int(s)` */
  function ParseInt(s: string): Option<int> { ParseIntIn(s, INT_MIN, INT_MAX) }

  /** `Int32(s)` */
  function ParseInt32(s: string): Option<int> { ParseIntIn(s, INT32_MIN, INT32_MAX) }

  /** `Int(s) ?? dflt` */
  function ParseIntOr(s: string, dflt: int): int
  {
    match ParseInt(s)
    case Some(v) => v
    case None => dflt
  }

  /** Decimal rendering of a natural number, without leading zeros. */
  function NatToString(n: nat): (s: string)
    ensures |s| >= 1 && AllDigits(s)
    ensures s[0] == '0' ==> n == 0
  {
    if n < 10 then [DigitChar(n)] else NatToString(n / 10) + [DigitChar(n % 10)]
  }

  /** `"\(n)"` for an `Int`. */
  function IntToString(n: int): string
  {
    if n < 0 then "-" + NatToString(-n) else NatToString(n)
  }

  lemma {:induction false} NatToStringValue(n: nat)
    ensures DigitsValue(NatToString(n)) == n
  {
    if n >= 10 {
      NatToStringValue(n / 10);
      var s := NatToString(n);
      assert s[..|s| - 1] == NatToString(n / 10);
    }
  }

  /** Parsing the decimal rendering of an in-range integer gives it back. */
  lemma {:induction false} ParseIntToString(n: int, lo: int, hi: int)
    requires lo <= n <= hi
    ensures ParseIntIn(IntToString(n), lo, hi) == Some(n)
  {
    if n < 0 {
      var d := NatToString(-n);
      NatToStringValue(-n);
      assert ("-" + d)[1..] == d;
    } else {
      NatToStringValue(n);
    }
  }

  /** Two digit strings without leading zeros are equal when their values are. */
  lemma {:induction false} CanonicalDigits(s: string)
    requires |s| >= 1 && AllDigits(s) && (s[0] == '0' ==> |s| == 1)
    ensures NatToString(DigitsValue(s)) == s
    decreases |s|
  {
    var v := DigitsValue(s);
    if |s| == 1 {
      assert s[..0] == [];
      assert DigitsValue(s[..0]) == 0;
      assert v == DigitValue(s[0]);
      assert [DigitChar(v)] == s;
    } else {
      var init := s[..|s| - 1];
      assert init[0] == s[0];
      CanonicalDigits(init);
      var w := DigitsValue(init);
      assert w >= 1;
      assert v / 10 == w && v % 10 == DigitValue(s[|s| - 1]);
      assert s == init + [s[|s| - 1]];
    }
  }
}
