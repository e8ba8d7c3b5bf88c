/** The string operations the scripts use: `str.strip`, `str.split` on one character,
    `str.join`, integer formatting, and the `Week \d+ Template` header pattern. */
module Text {

  // ---------------------------------------------------------------------------------------------
  // Trimming
  // ---------------------------------------------------------------------------------------------

  /** The whitespace that trimming removes: space, tab, line feed, carriage return, vertical tab
      and form feed. */
  predicate IsSpace(c: char) {
    c == ' ' || c == '\t' || c == '\n' || c == '\r' || c == '\U{0B}' || c == '\U{0C}'
  }

  /** Number of whitespace characters at the start of `s`. */
  function LeadingSpaces(s: string): (n: nat)
    ensures n <= |s|
  {
    if s == [] || !IsSpace(s[0]) then 0 else 1 + LeadingSpaces(s[1..])
  }

  /** Number of whitespace characters at the end of `s`. */
  function TrailingSpaces(s: string): (n: nat)
    ensures n <= |s|
  {
    if s == [] || !IsSpace(s[|s| - 1]) then 0 else 1 + TrailingSpaces(s[..|s| - 1])
  }

  /** `s.strip()`: `s` without its leading whitespace, then without its trailing whitespace. */
  function Trim(s: string): string {
    var rest := s[LeadingSpaces(s)..];
    rest[..|rest| - TrailingSpaces(rest)]
  }

  /** The leading run is whitespace and is followed by a non-space. */
  lemma {:induction false} LeadingSpacesRun(s: string)
    ensures forall i :: 0 <= i < LeadingSpaces(s) ==> IsSpace(s[i])
    ensures LeadingSpaces(s) == |s| || !IsSpace(s[LeadingSpaces(s)])
  {
    if s != [] && IsSpace(s[0]) {
      LeadingSpacesRun(s[1..]);
    }
  }

  /** The trailing run is whitespace and is preceded by a non-space. */
  lemma {:induction false} TrailingSpacesRun(s: string)
    ensures forall i :: |s| - TrailingSpaces(s) <= i < |s| ==> IsSpace(s[i])
    ensures TrailingSpaces(s) == |s| || !IsSpace(s[|s| - TrailingSpaces(s) - 1])
  {
    if s != [] && IsSpace(s[|s| - 1]) {
      TrailingSpacesRun(s[..|s| - 1]);
    }
  }

  /** The trimmed string is the part of `s` that starts at its first non-space; it starts and
      ends with a non-space, and everything cut off after it is whitespace. */
  lemma TrimSpec(s: string)
    ensures var r := Trim(s);
            && LeadingSpaces(s) + |r| <= |s|
            && r == s[LeadingSpaces(s)..LeadingSpaces(s) + |r|]
            && (forall i :: 0 <= i < LeadingSpaces(s) ==> IsSpace(s[i]))
            && (forall i :: LeadingSpaces(s) + |r| <= i < |s| ==> IsSpace(s[i]))
            && (r == [] || (!IsSpace(r[0]) && !IsSpace(r[|r| - 1])))
  {
    var a := LeadingSpaces(s);
    var rest := s[a..];
    LeadingSpacesRun(s);
    TrailingSpacesRun(rest);
    if rest != [] && TrailingSpaces(rest) < |rest| {
      assert !IsSpace(rest[0]);
    }
  }

  /** Trimming twice trims no more than trimming once. */
  lemma TrimIdempotent(s: string)
    ensures Trim(Trim(s)) == Trim(s)
  {
    var r := Trim(s);
    TrimSpec(s);
    if r != [] {
      assert LeadingSpaces(r) == 0;
      assert TrailingSpaces(r) == 0;
    }
  }

  // ---------------------------------------------------------------------------------------------
  // Splitting on one character, and joining
  // ---------------------------------------------------------------------------------------------

  /** Number of occurrences of `c` in `s`. */
  function Count(s: string, c: char): nat {
    if s == [] then 0 else (if s[0] == c then 1 else 0) + Count(s[1..], c)
  }

  /** `s.split(sep)` for a one-character separator: the pieces between the separators, empty
      pieces included, so there is always at least one piece and none holds `sep`. */
  function Split(s: string, sep: char): (pieces: seq<string>)
    ensures |pieces| >= 1
  {
    if s == [] then [""]
    else
      var rest := Split(s[1..], sep);
      if s[0] == sep then [""] + rest
      else [[s[0]] + rest[0]] + rest[1..]
  }

  /** No piece holds the separator. */
  lemma {:induction false} SplitPiecesLackSeparator(s: string, sep: char)
    ensures forall i :: 0 <= i < |Split(s, sep)| ==> sep !in Split(s, sep)[i]
  {
    if s != [] {
      SplitPiecesLackSeparator(s[1..], sep);
    }
  }

  /** `sep.join(parts)`. */
  function Join(parts: seq<string>, sep: string): string {
    if |parts| == 0 then ""
    else if |parts| == 1 then parts[0]
    else parts[0] + sep + Join(parts[1..], sep)
  }

  /** Index of the first `c` in `s`, or `|s|` when there is none. */
  function FirstIndex(s: string, c: char): (k: nat)
    ensures k <= |s|
  {
    if s == [] then 0 else if s[0] == c then 0 else 1 + FirstIndex(s[1..], c)
  }

  /** `FirstIndex` is the position of the first `c`. */
  lemma {:induction false} FirstIndexIsFirst(s: string, c: char)
    ensures FirstIndex(s, c) < |s| ==> s[FirstIndex(s, c)] == c
    ensures forall i :: 0 <= i < FirstIndex(s, c) ==> s[i] != c
  {
    if s != [] && s[0] != c {
      FirstIndexIsFirst(s[1..], c);
    }
  }

  /** Index just after the last `c` in `s`, or 0 when there is none. */
  function AfterLast(s: string, c: char): (k: nat)
    ensures k <= |s|
  {
    if s == [] then 0
    else
      var k := AfterLast(s[1..], c);
      if k > 0 then k + 1 else if s[0] == c then 1 else 0
  }

  /** `AfterLast` is just after the position of the last `c`. */
  lemma {:induction false} AfterLastIsLast(s: string, c: char)
    ensures AfterLast(s, c) > 0 ==> s[AfterLast(s, c) - 1] == c
    ensures forall i :: AfterLast(s, c) <= i < |s| ==> s[i] != c
  {
    if s != [] {
      AfterLastIsLast(s[1..], c);
    }
  }

  /** A string without the separator splits into itself alone. */
  lemma {:induction false} SplitWithoutSeparator(s: string, sep: char)
    requires sep !in s
    ensures Split(s, sep) == [s]
  {
    if s != [] {
      assert sep !in s[1..];
      SplitWithoutSeparator(s[1..], sep);
      assert [s[0]] + s[1..] == s;
    }
  }

  /** There is one more piece than there are separators. */
  lemma {:induction false} SplitLength(s: string, sep: char)
    ensures |Split(s, sep)| == Count(s, sep) + 1
  {
    if s != [] {
      SplitLength(s[1..], sep);
    }
  }

  /** The first piece is everything before the first separator. */
  lemma {:induction false} SplitFirst(s: string, sep: char)
    ensures Split(s, sep)[0] == s[..FirstIndex(s, sep)]
  {
    if s != [] && s[0] != sep {
      SplitFirst(s[1..], sep);
    }
  }

  /** The last piece is everything after the last separator. */
  lemma {:induction false} SplitLast(s: string, sep: char)
    ensures var pieces := Split(s, sep); pieces[|pieces| - 1] == s[AfterLast(s, sep)..]
  {
    if s != [] {
      var rest := Split(s[1..], sep);
      SplitLast(s[1..], sep);
      var k := AfterLast(s[1..], sep);
      var pieces := Split(s, sep);
      AfterLastIsLast(s[1..], sep);
      if k == 0 {
        // the tail holds no separator
        assert sep !in s[1..];
        SplitWithoutSeparator(s[1..], sep);
        if s[0] == sep {
          assert pieces == ["", s[1..]];
        } else {
          assert [s[0]] + s[1..] == s;
          assert pieces == [s];
        }
      } else {
        assert s[k + 1..] == s[1..][k..];
        if s[0] != sep {
          assert |rest| > 1 by {
            if |rest| == 1 {
              SplitLength(s[1..], sep);
              CountPositive(s[1..], sep, k - 1);
            }
          }
        }
        assert pieces[|pieces| - 1] == rest[|rest| - 1];
      }
    }
  }

  lemma {:induction false} CountPositive(s: string, c: char, i: nat)
    requires i < |s| && s[i] == c
    ensures Count(s, c) > 0
  {
    if i > 0 {
      CountPositive(s[1..], c, i - 1);
    }
  }

  /** The last piece is empty exactly when the string is empty or ends with the separator. */
  lemma LastPieceEmpty(s: string, sep: char)
    ensures var pieces := Split(s, sep);
            pieces[|pieces| - 1] == "" <==> s == "" || s[|s| - 1] == sep
  {
    SplitLast(s, sep);
  }

  /** Joining the pieces with the separator gives back the string. */
  lemma {:induction false} JoinSplit(s: string, sep: char)
    ensures Join(Split(s, sep), [sep]) == s
  {
    if s != [] {
      var rest := Split(s[1..], sep);
      JoinSplit(s[1..], sep);
      if s[0] != sep && |rest| > 1 {
        assert Split(s, sep)[1..] == rest[1..];
      }
    }
  }

  /** Splitting `p + [sep] + rest` where `p` has no separator: `p`, then the pieces of `rest`. */
  lemma {:induction false} SplitAfterPiece(p: string, sep: char, rest: string)
    requires sep !in p
    ensures Split(p + [sep] + rest, sep) == [p] + Split(rest, sep)
  {
    if p != [] {
      assert (p + [sep] + rest)[1..] == p[1..] + [sep] + rest;
      assert sep !in p[1..];
      SplitAfterPiece(p[1..], sep, rest);
      assert [p[0]] + p[1..] == p;
    } else {
      assert (p + [sep] + rest)[1..] == rest;
    }
  }

  /** Splitting the join of separator-free parts gives back the parts. */
  lemma {:induction false} SplitJoin(parts: seq<string>, sep: char)
    requires |parts| >= 1
    requires forall i :: 0 <= i < |parts| ==> sep !in parts[i]
    ensures Split(Join(parts, [sep]), sep) == parts
  {
    if |parts| == 1 {
      SplitWithoutSeparator(parts[0], sep);
    } else {
      SplitJoin(parts[1..], sep);
      SplitAfterPiece(parts[0], sep, Join(parts[1..], [sep]));
    }
  }

  // ---------------------------------------------------------------------------------------------
  // Integers and the weekly-template header pattern
  // ---------------------------------------------------------------------------------------------

  predicate IsDigit(c: char) {
    '0' <= c <= '9'
  }

  function DigitChar(d: nat): (c: char)
    requires d < 10
    ensures IsDigit(c)
  {
    ('0' as int + d) as char
  }

  /** The decimal form of `n` that `str.format` prints. */
  function NatToString(n: nat): (s: string)
    ensures |s| >= 1
    ensures forall i :: 0 <= i < |s| ==> IsDigit(s[i])
    ensures n < 10 ==> s == [DigitChar(n)]
  {
    if n < 10 then [DigitChar(n)] else NatToString(n / 10) + [DigitChar(n % 10)]
  }

  /** The number a run of decimal digits denotes. */
  function DigitsValue(s: string): nat
    requires forall i :: 0 <= i < |s| ==> IsDigit(s[i])
  {
    if s == [] then 0
    else
      var last := s[|s| - 1];
      assert IsDigit(last);
      10 * DigitsValue(s[..|s| - 1]) + (last as int - '0' as int)
  }

  /** The printed digits denote the number printed. */
  lemma {:induction false} NatToStringValue(n: nat)
    ensures DigitsValue(NatToString(n)) == n
  {
    if n >= 10 {
      NatToStringValue(n / 10);
      var s := NatToString(n);
      assert s[..|s| - 1] == NatToString(n / 10);
    }
  }

  const WeekPrefix: string := "Week "
  const TemplateSuffix: string := " Template"

  /** Whether `s` begins with `p`. */
  predicate StartsWith(s: string, p: string): (b: bool)
    ensures b <==> |p| <= |s| && s[..|p|] == p
  {
    p == [] || (s != [] && s[0] == p[0] && StartsWith(s[1..], p[1..]))
  }

  /** Whether the regular expression `Week \d+ Template` matches at the start of `h`
      (`re.match` anchors at the start only, so text after the match is allowed). */
  predicate IsWeekTemplateHeader(h: string): (b: bool)
    ensures b ==> |h| >= |WeekPrefix| + 1 + |TemplateSuffix|
                  && h[..|WeekPrefix|] == WeekPrefix && IsDigit(h[|WeekPrefix|])
  {
    |h| >= |WeekPrefix| && StartsWith(h, WeekPrefix) && DigitsThenSuffix(h[|WeekPrefix|..])
  }

  /** Whether `s` begins with a non-empty run of digits followed by ` Template`. */
  predicate DigitsThenSuffix(s: string): (b: bool)
    ensures b ==> |s| >= 1 + |TemplateSuffix| && IsDigit(s[0])
  {
    s != [] && IsDigit(s[0]) && MoreDigitsThenSuffix(s[1..])
  }

  /** The rest of the digit run, then ` Template`. The run is greedy, and since backing off
      would leave a digit where the space must be, matching the longest run decides. */
  predicate MoreDigitsThenSuffix(s: string): (b: bool)
    ensures b ==> |s| >= |TemplateSuffix|
  {
    if s != [] && IsDigit(s[0]) then MoreDigitsThenSuffix(s[1..]) else StartsWith(s, TemplateSuffix)
  }

  /** `"Week {index} Template".format(index=week)`. */
  function WeekTemplateName(week: nat): string {
    WeekPrefix + NatToString(week) + TemplateSuffix
  }

  /** Names of different weeks below 10 differ in the digit after "Week ". */
  lemma WeekNamesDiffer(j: nat, k: nat)
    requires 1 <= j < 10 && 1 <= k < 10 && j != k
    ensures WeekTemplateName(j) != WeekTemplateName(k)
  {
    assert WeekTemplateName(j)[5] == DigitChar(j);
    assert WeekTemplateName(k)[5] == DigitChar(k);
  }

  /** Every name built by `WeekTemplateName` matches the header pattern. */
  lemma WeekTemplateNameMatches(week: nat)
    ensures IsWeekTemplateHeader(WeekTemplateName(week))
  {
    var digits := NatToString(week);
    var rest := digits + TemplateSuffix;
    assert WeekTemplateName(week) == WeekPrefix + rest;
    DigitsThenTemplate(digits);
    WeekPrefixThen(rest);
  }

  lemma WeekPrefixThen(rest: string)
    requires DigitsThenSuffix(rest)
    ensures IsWeekTemplateHeader(WeekPrefix + rest)
  {
    assert (WeekPrefix + rest)[|WeekPrefix|..] == rest;
  }

  lemma DigitsThenTemplate(digits: string)
    requires |digits| >= 1
    requires forall i :: 0 <= i < |digits| ==> IsDigit(digits[i])
    ensures DigitsThenSuffix(digits + TemplateSuffix)
  {
    assert TemplateSuffix + [] == TemplateSuffix;
    DigitsThenTemplateSuffix(digits[1..]);
    assert (digits + TemplateSuffix)[1..] == digits[1..] + TemplateSuffix;
  }

  lemma {:induction false} DigitsThenTemplateSuffix(digits: string)
    requires forall i :: 0 <= i < |digits| ==> IsDigit(digits[i])
    ensures MoreDigitsThenSuffix(digits + TemplateSuffix)
  {
    if digits == [] {
      assert digits + TemplateSuffix == TemplateSuffix;
      assert !IsDigit(TemplateSuffix[0]);
    } else {
      assert (digits + TemplateSuffix)[1..] == digits[1..] + TemplateSuffix;
      DigitsThenTemplateSuffix(digits[1..]);
    }
  }
}
