/** String primitives of JavaScript that the page logic relies on, on strings as sequences of
    characters: `trim`, `toLowerCase`/`toUpperCase` (Latin-1 letters only), `includes`,
    `startsWith`, `replace` with a string pattern, `replace` with a global pattern, `split` on one
    character, `join`, and decimal rendering of integers in template literals. */
module Text {

  /** The characters `String.prototype.trim` strips: ECMAScript WhiteSpace (tab, vertical tab,
      form feed, space, no-break space, byte order mark and the space separators) and
      LineTerminator (line feed, carriage return, line and paragraph separators). */
  predicate IsJsSpace(c: char)
  {
    || c == '\U{9}' || c == '\U{B}' || c == '\U{C}' || c == ' ' || c == '\U{A0}' || c == '\U{FEFF}'
    || c == '\U{1680}' || ('\U{2000}' <= c <= '\U{200A}') || c == '\U{202F}' || c == '\U{205F}'
    || c == '\U{3000}'
    || IsLineTerminator(c)
  }

  /** The characters a regular-expression `.` does not match. */
  predicate IsLineTerminator(c: char)
  {
    c == '\n' || c == '\r' || c == '\U{2028}' || c == '\U{2029}'
  }

  /** The number of space characters `s` starts with. */
  function LeadingSpaces(s: string): (n: nat)
    ensures n <= |s|
    ensures forall k :: 0 <= k < n ==> IsJsSpace(s[k])
    ensures n == |s| || !IsJsSpace(s[n])
    decreases |s|
  {
    if |s| > 0 && IsJsSpace(s[0]) then
      var n := 1 + LeadingSpaces(s[1..]);
      assert forall k :: 1 <= k < n ==> s[k] == s[1..][k - 1];
      n
    else 0
  }

  /** The number of space characters `s` ends with. */
  function TrailingSpaces(s: string): (n: nat)
    ensures n <= |s|
    ensures forall k :: |s| - n <= k < |s| ==> IsJsSpace(s[k])
    ensures n == |s| || !IsJsSpace(s[|s| - 1 - n])
    decreases |s|
  {
    if |s| > 0 && IsJsSpace(s[|s| - 1]) then
      var n := 1 + TrailingSpaces(s[..|s| - 1]);
      assert forall k :: |s| - n <= k < |s| - 1 ==> s[k] == s[..|s| - 1][k];
      n
    else 0
  }

  /** `s.trimStart()`: drops the leading space characters. */
  function TrimStart(s: string): string
  {
    s[LeadingSpaces(s)..]
  }

  /** `s.trimEnd()`: drops the trailing space characters. */
  function TrimEnd(s: string): string
  {
    s[..|s| - TrailingSpaces(s)]
  }

  /** `s.trim()`: `trimEnd` after `trimStart`. */
  function Trim(s: string): string
  {
    TrimEnd(TrimStart(s))
  }

  /** The trimmed text is the slice of `s` between a run of leading and a run of trailing space
      characters, and it neither starts nor ends with one. */
  lemma TrimSlice(s: string)
    ensures var i, r := LeadingSpaces(s), Trim(s);
      && i + |r| <= |s| && r == s[i..i + |r|]
      && (forall k :: 0 <= k < i ==> IsJsSpace(s[k]))
      && (forall k :: i + |r| <= k < |s| ==> IsJsSpace(s[k]))
      && (r == [] || (!IsJsSpace(r[0]) && !IsJsSpace(r[|r| - 1])))
  {
    var i := LeadingSpaces(s);
    var t := s[i..];
    var j := TrailingSpaces(t);
    var r := t[..|t| - j];
    assert r == s[i..|s| - j];
    forall k | |s| - j <= k < |s|
      ensures IsJsSpace(s[k])
    {
      assert s[k] == t[k - i];
    }
    if r != [] {
      assert r[0] == s[i];
      assert r[|r| - 1] == t[|t| - 1 - j];
    }
  }

  /** A string trims to the empty string exactly when all of it is space. */
  lemma TrimEmpty(s: string)
    ensures Trim(s) == [] <==> forall k :: 0 <= k < |s| ==> IsJsSpace(s[k])
  {
    TrimSlice(s);
    if Trim(s) == [] {
      assert TrimStart(s) == [];
    } else {
      var i := |s| - |TrimStart(s)|;
      assert s[i] == Trim(s)[0];
    }
  }

  /** `c.toLowerCase()` on the letters of Basic Latin and Latin-1; other characters are unchanged. */
  function LowerChar(c: char): char
  {
    if 'A' <= c <= 'Z' || ('\U{C0}' <= c <= '\U{DE}' && c != '\U{D7}') then (c as int + 32) as char
    else c
  }

  /** `c.toUpperCase()` on the letters of Basic Latin and Latin-1 whose upper case is the letter 32 code
      points below. The three other lower-case Latin-1 letters are left unchanged here, whereas
      JavaScript maps them outside Latin-1: sharp s (U+00DF) to "SS", y with diaeresis (U+00FF) to
      U+0178 and the micro sign (U+00B5) to U+039C. */
  function UpperChar(c: char): char
  {
    if 'a' <= c <= 'z' || ('\U{E0}' <= c <= '\U{FE}' && c != '\U{F7}') then (c as int - 32) as char
    else c
  }

  predicate IsUpperLatin(c: char)
  {
    'A' <= c <= 'Z' || ('\U{C0}' <= c <= '\U{DE}' && c != '\U{D7}')
  }

  /** Lower-casing inverts upper-casing on every letter that upper-casing changes. */
  lemma LowerUndoesUpper(c: char)
    requires UpperChar(c) != c
    ensures LowerChar(UpperChar(c)) == c
  {
  }

  /** `s.toLowerCase()`. */
  function ToLower(s: string): (r: string)
    ensures |r| == |s|
    ensures forall i :: 0 <= i < |s| ==> r[i] == LowerChar(s[i])
    decreases |s|
  {
    if |s| == 0 then "" else [LowerChar(s[0])] + ToLower(s[1..])
  }

  /** No upper-case letter is left after lower-casing. */
  lemma ToLowerNoUpper(s: string)
    ensures forall i :: 0 <= i < |ToLower(s)| ==> !IsUpperLatin(ToLower(s)[i])
  {
    forall i | 0 <= i < |s|
      ensures !IsUpperLatin(ToLower(s)[i])
    {
      assert ToLower(s)[i] == LowerChar(s[i]);
    }
  }

  /** Lower-casing works character by character, so it distributes over concatenation. */
  lemma ToLowerAppend(a: string, b: string)
    ensures ToLower(a + b) == ToLower(a) + ToLower(b)
  {
    var whole, left, right := ToLower(a + b), ToLower(a), ToLower(b);
    forall i | 0 <= i < |a + b|
      ensures whole[i] == (left + right)[i]
    {
      if i < |a| {
        assert whole[i] == LowerChar(a[i]) == left[i];
      } else {
        assert whole[i] == LowerChar(b[i - |a|]) == right[i - |a|];
      }
    }
    assert whole == left + right;
  }

  /** `s.includes(sub)`: `sub` occurs in `s` at some position. */
  function Includes(s: string, sub: string): (r: bool)
    ensures r <==> exists i :: 0 <= i <= |s| - |sub| && sub <= s[i..]
    decreases |s|
  {
    if sub <= s then assert s[0..] == s; true
    else if |s| == 0 then false
    else
      var r := Includes(s[1..], sub);
      assert r ==> exists i :: 0 <= i <= |s| - |sub| && sub <= s[i..] by {
        if r {
          var i :| 0 <= i <= |s| - 1 - |sub| && sub <= s[1..][i..];
          assert s[1..][i..] == s[i + 1..];
        }
      }
      assert (exists i :: 0 <= i <= |s| - |sub| && sub <= s[i..]) ==> r by {
        if exists i :: 0 <= i <= |s| - |sub| && sub <= s[i..] {
          var i :| 0 <= i <= |s| - |sub| && sub <= s[i..];
          assert i != 0;
          assert s[1..][i - 1..] == s[i..];
        }
      }
      r
  }

  /** A text includes each of its middle parts. */
  lemma IncludesMiddle(a: string, b: string, c: string)
    ensures Includes(a + b + c, b)
  {
    var s := a + b + c;
    assert s[|a|..] == b + c;
    assert b <= s[|a|..];
  }

  /** `s.replace(pattern, replacement)` with a string pattern: only the first occurrence, scanning from
      the left, is replaced; an empty pattern inserts the replacement at the front. */
  function ReplaceFirst(s: string, pattern: string, replacement: string): string
    decreases |s|
  {
    if pattern <= s then replacement + s[|pattern|..]
    else if |s| == 0 then s
    else [s[0]] + ReplaceFirst(s[1..], pattern, replacement)
  }

  /** A text that does not include the pattern is left as it is. */
  lemma {:induction false} ReplaceFirstAbsent(s: string, pattern: string, replacement: string)
    requires !Includes(s, pattern)
    ensures ReplaceFirst(s, pattern, replacement) == s
    decreases |s|
  {
    assert s[0..] == s;
    if |s| > 0 {
      assert !Includes(s[1..], pattern) by {
        forall i | 0 <= i <= |s[1..]| - |pattern|
          ensures !(pattern <= s[1..][i..])
        {
          assert s[1..][i..] == s[i + 1..];
        }
      }
      ReplaceFirstAbsent(s[1..], pattern, replacement);
    }
  }

  /** Replacing the first occurrence of a one-character pattern by one character changes exactly the
      first position holding that character. */
  lemma {:induction false} ReplaceFirstChar(s: string, a: char, b: char, i: nat)
    requires i < |s| && s[i] == a && forall k :: 0 <= k < i ==> s[k] != a
    ensures ReplaceFirst(s, [a], [b]) == s[..i] + [b] + s[i + 1..]
    decreases |s|
  {
    if i > 0 {
      assert s[0] != a;
      ReplaceFirstChar(s[1..], a, b, i - 1);
      assert s[1..][..i - 1] == s[1..i];
      assert s[1..][i..] == s[i + 1..];
    }
  }

  /** `s.replace(/pattern/g, replacement)` for a literal, non-empty pattern: every occurrence found by
      a left-to-right scan is replaced, and scanning resumes after it. */
  function ReplaceAll(s: string, pattern: string, replacement: string): (r: string)
    requires |pattern| > 0
    decreases |s|
  {
    if |s| == 0 then ""
    else if pattern <= s then replacement + ReplaceAll(s[|pattern|..], pattern, replacement)
    else [s[0]] + ReplaceAll(s[1..], pattern, replacement)
  }

  /** Replacing every `c` by a text free of `c` leaves no `c` behind, and adds no other character. */
  lemma {:induction false} ReplaceAllRemovesChar(s: string, c: char, replacement: string)
    requires c !in replacement
    ensures c !in ReplaceAll(s, [c], replacement)
    ensures forall x :: x in ReplaceAll(s, [c], replacement) ==> x in s || x in replacement
    decreases |s|
  {
    if |s| > 0 {
      ReplaceAllRemovesChar(s[1..], c, replacement);
    }
  }

  /** Every character of a global replacement comes from the text or from the replacement. */
  lemma {:induction false} ReplaceAllChars(s: string, pattern: string, replacement: string)
    requires |pattern| > 0
    ensures forall x :: x in ReplaceAll(s, pattern, replacement) ==> x in s || x in replacement
    decreases |s|
  {
    if |s| > 0 {
      if pattern <= s {
        ReplaceAllChars(s[|pattern|..], pattern, replacement);
        assert forall x :: x in s[|pattern|..] ==> x in s;
      } else {
        ReplaceAllChars(s[1..], pattern, replacement);
      }
    }
  }

  /** Every character of a first-occurrence replacement comes from the text or from the replacement. */
  lemma {:induction false} ReplaceFirstChars(s: string, pattern: string, replacement: string)
    ensures forall x :: x in ReplaceFirst(s, pattern, replacement) ==> x in s || x in replacement
    decreases |s|
  {
    if !(pattern <= s) && |s| > 0 {
      ReplaceFirstChars(s[1..], pattern, replacement);
    } else if pattern <= s {
      assert forall x :: x in s[|pattern|..] ==> x in s;
    }
  }

  /** Replacing with a text as long as the pattern keeps the length. */
  lemma {:induction false} ReplaceFirstLength(s: string, pattern: string, replacement: string)
    requires |pattern| == |replacement|
    ensures |ReplaceFirst(s, pattern, replacement)| == |s|
    decreases |s|
  {
    if !(pattern <= s) && |s| > 0 {
      ReplaceFirstLength(s[1..], pattern, replacement);
    }
  }

  /** A text without the pattern's first character is left as it is by a global replacement. */
  lemma {:induction false} ReplaceAllAbsent(s: string, pattern: string, replacement: string)
    requires |pattern| > 0 && pattern[0] !in s
    ensures ReplaceAll(s, pattern, replacement) == s
    decreases |s|
  {
    if |s| > 0 {
      assert s[0] != pattern[0];
      ReplaceAllAbsent(s[1..], pattern, replacement);
    }
  }

  /** A global replacement passes over a prefix free of the pattern's first character and replaces the
      occurrence that follows it. */
  lemma {:induction false} ReplaceAllSplice(a: string, pattern: string, replacement: string, b: string)
    requires |pattern| > 0 && pattern[0] !in a
    ensures ReplaceAll(a + pattern + b, pattern, replacement) == a + replacement + ReplaceAll(b, pattern, replacement)
    decreases |a|
  {
    var s := a + pattern + b;
    if |a| == 0 {
      assert s == pattern + b;
      assert s[|pattern|..] == b;
    } else {
      assert s[0] == a[0] != pattern[0];
      assert s[1..] == a[1..] + pattern + b;
      ReplaceAllSplice(a[1..], pattern, replacement, b);
      calc {
        ReplaceAll(s, pattern, replacement);
        [s[0]] + ReplaceAll(s[1..], pattern, replacement);
        [a[0]] + (a[1..] + replacement + ReplaceAll(b, pattern, replacement));
        { assert [a[0]] + a[1..] == a; }
        a + replacement + ReplaceAll(b, pattern, replacement);
      }
    }
  }

  /** The first occurrence after a prefix free of the pattern's first character is the one replaced. */
  lemma {:induction false} ReplaceFirstSplice(a: string, pattern: string, replacement: string, b: string)
    requires |pattern| > 0 && pattern[0] !in a
    ensures ReplaceFirst(a + pattern + b, pattern, replacement) == a + replacement + b
    decreases |a|
  {
    var s := a + pattern + b;
    if |a| == 0 {
      assert s == pattern + b;
      assert s[|pattern|..] == b;
    } else {
      assert s[0] == a[0] != pattern[0];
      assert s[1..] == a[1..] + pattern + b;
      ReplaceFirstSplice(a[1..], pattern, replacement, b);
      calc {
        ReplaceFirst(s, pattern, replacement);
        [s[0]] + ReplaceFirst(s[1..], pattern, replacement);
        [a[0]] + (a[1..] + replacement + b);
        { assert [a[0]] + a[1..] == a; }
        a + replacement + b;
      }
    }
  }

  /** Replacing with a text free of the character `c` keeps `c` out if it was out. */
  lemma {:induction false} ReplaceAllKeepsOut(s: string, pattern: string, replacement: string, c: char)
    requires |pattern| > 0 && c !in s && c !in replacement
    ensures c !in ReplaceAll(s, pattern, replacement)
    decreases |s|
  {
    if |s| > 0 {
      if pattern <= s {
        ReplaceAllKeepsOut(s[|pattern|..], pattern, replacement, c);
      } else {
        ReplaceAllKeepsOut(s[1..], pattern, replacement, c);
      }
    }
  }

  /** `parts.join(separator)`. */
  function Join(parts: seq<string>, separator: string): (r: string)
    ensures parts == [] ==> r == ""
    ensures |parts| == 1 ==> r == parts[0]
    decreases |parts|
  {
    if |parts| == 0 then ""
    else if |parts| == 1 then parts[0]
    else parts[0] + separator + Join(parts[1..], separator)
  }

  /** Every character of a join comes from one of the parts or from the separator. */
  lemma {:induction false} JoinChars(parts: seq<string>, separator: string)
    ensures forall x :: x in Join(parts, separator) ==> x in separator || exists i :: 0 <= i < |parts| && x in parts[i]
    decreases |parts|
  {
    if |parts| > 1 {
      JoinChars(parts[1..], separator);
      forall x | x in Join(parts, separator)
        ensures x in separator || exists i :: 0 <= i < |parts| && x in parts[i]
      {
        if x !in parts[0] && x !in separator {
          assert x in Join(parts[1..], separator);
          var i :| 0 <= i < |parts[1..]| && x in parts[1..][i];
          assert x in parts[i + 1];
        }
      }
    } else if |parts| == 1 {
      assert forall x :: x in Join(parts, separator) ==> x in parts[0];
    }
  }

  /** `s.split(c)` for a one-character separator: the pieces between occurrences of `c`; there is always
      at least one piece, and an empty string gives one empty piece. */
  function Split(s: string, c: char): (r: seq<string>)
    ensures |r| >= 1
    ensures forall i :: 0 <= i < |r| ==> c !in r[i]
    decreases |s|
  {
    if |s| == 0 then [""]
    else
      var rest := Split(s[1..], c);
      if s[0] == c then [""] + rest
      else [[s[0]] + rest[0]] + rest[1..]
  }

  /** A text without the separator is one piece. */
  lemma {:induction false} SplitAbsent(s: string, c: char)
    requires c !in s
    ensures Split(s, c) == [s]
    decreases |s|
  {
    if |s| > 0 {
      assert s[0] != c;
      SplitAbsent(s[1..], c);
      assert [s[0]] + s[1..] == s;
    }
  }

  /** The first piece of a split is the text before the first separator. */
  lemma {:induction false} SplitSplice(a: string, c: char, b: string)
    requires c !in a
    ensures Split(a + [c] + b, c) == [a] + Split(b, c)
    decreases |a|
  {
    if a == [] {
      assert a + [c] + b == [c] + b;
      assert ([c] + b)[1..] == b;
    } else {
      assert (a + [c] + b)[0] == a[0] != c;
      assert (a + [c] + b)[1..] == a[1..] + [c] + b;
      SplitSplice(a[1..], c, b);
      assert [a[0]] + a[1..] == a;
    }
  }

  /** Joining the pieces of a split with the separator gives back the original text. */
  lemma {:induction false} JoinSplit(s: string, c: char)
    ensures Join(Split(s, c), [c]) == s
    decreases |s|
  {
    if |s| > 0 {
      var rest := Split(s[1..], c);
      JoinSplit(s[1..], c);
      if s[0] == c {
        assert Split(s, c) == [""] + rest;
        assert Join(Split(s, c), [c]) == "" + [c] + Join(rest, [c]);
      } else {
        var parts := Split(s, c);
        assert parts == [[s[0]] + rest[0]] + rest[1..];
        if |rest| == 1 {
          assert Join(parts, [c]) == [s[0]] + rest[0];
        } else {
          assert parts[1..] == rest[1..];
          assert Join(parts, [c]) == [s[0]] + rest[0] + [c] + Join(rest[1..], [c]);
          assert Join(rest, [c]) == rest[0] + [c] + Join(rest[1..], [c]);
        }
      }
    }
  }

  /** The decimal digit for `d`. */
  function DigitChar(d: nat): char
    requires d < 10
  {
    "0123456789"[d]
  }

  predicate IsDigit(c: char)
  {
    '0' <= c <= '9'
  }

  /** A natural number in decimal, as a template literal renders it: no sign, no leading zero. */
  function NatToString(n: nat): (r: string)
    ensures |r| >= 1
    ensures forall i :: 0 <= i < |r| ==> IsDigit(r[i])
    ensures |r| > 1 ==> r[0] != '0'
    decreases n
  {
    if n < 10 then [DigitChar(n)] else NatToString(n / 10) + [DigitChar(n % 10)]
  }

  /** An integer in decimal, with a leading `-` when negative. */
  function IntToString(n: int): (r: string)
    ensures |r| >= 1
    ensures n >= 0 ==> forall i :: 0 <= i < |r| ==> IsDigit(r[i])
    ensures n < 0 ==> r[0] == '-'
  {
    if n < 0 then "-" + NatToString(-n) else NatToString(n)
  }

  /** The value of a string of decimal digits. */
  function ParseDigits(s: string): int
    requires forall i :: 0 <= i < |s| ==> IsDigit(s[i])
    decreases |s|
  {
    if |s| == 0 then 0 else 10 * ParseDigits(s[..|s| - 1]) + (s[|s| - 1] as int - '0' as int)
  }

  /** Decimal rendering loses nothing: reading the digits back gives the number. */
  lemma {:induction false} ParseNatToString(n: nat)
    ensures ParseDigits(NatToString(n)) == n
    decreases n
  {
    var r := NatToString(n);
    if n >= 10 {
      ParseNatToString(n / 10);
      assert r[..|r| - 1] == NatToString(n / 10);
    }
  }
}
