/** The few pieces of java.lang.String, java.lang.Integer and java.util.regex
    behaviour that the QuickChat classes rely on, restricted to what those
    classes use: ASCII case mapping, `trim()`, `split("\\s+")`,
    `replaceAll("[^a-zA-Z0-9]", "")`, `indexOf`, decimal `int` printing and
    32-bit `int` increment. */
module JavaStrings {

  /** A Java reference of type T that may be null. */
  datatype Nullable<T> = Null | NonNull(value: T)

  datatype Option<T> = None | Some(value: T)

  const Quote: char := '"'

  predicate IsDigit(c: char) { '0' <= c <= '9' }
  predicate IsUpper(c: char) { 'A' <= c <= 'Z' }
  predicate IsLower(c: char) { 'a' <= c <= 'z' }

  /** The character class `[a-zA-Z0-9]`. */
  predicate IsAlnum(c: char) { IsDigit(c) || IsUpper(c) || IsLower(c) }

  /** The regex class `\s`: space, tab, newline, vertical tab, form feed, carriage return. */
  predicate IsSpace(c: char)
  {
    c == ' ' || c == '\t' || c == '\n' || c == '\U{0B}' || c == '\U{0C}' || c == '\r'
  }

  /** The characters that the regex `.` refuses to match (Java's default line terminators). */
  predicate IsLineTerminator(c: char)
  {
    c == '\n' || c == '\r' || c == '\U{85}' || c == '\U{2028}' || c == '\U{2029}'
  }

  predicate AllDigits(s: string) { forall i :: 0 <= i < |s| ==> IsDigit(s[i]) }
  predicate AllAlnum(s: string) { forall i :: 0 <= i < |s| ==> IsAlnum(s[i]) }
  predicate NoSpace(s: string) { forall i :: 0 <= i < |s| ==> !IsSpace(s[i]) }
  predicate QuoteFree(s: string) { forall i :: 0 <= i < |s| ==> s[i] != Quote }
  predicate NoChar(s: string, c: char) { forall i :: 0 <= i < |s| ==> s[i] != c }

  /* ------------------------------------------------------------------ */
  /* Case mapping (ASCII letters only)                                   */

  function UpperChar(c: char): char
  {
    if IsLower(c) then (c as int - 'a' as int + 'A' as int) as char else c
  }

  function LowerChar(c: char): char
  {
    if IsUpper(c) then (c as int - 'A' as int + 'a' as int) as char else c
  }

  /** `String.toUpperCase()` on ASCII text. */
  function ToUpper(s: string): (r: string)
    ensures |r| == |s|
    ensures forall i :: 0 <= i < |s| ==> r[i] == UpperChar(s[i])
  {
    seq(|s|, i requires 0 <= i < |s| => UpperChar(s[i]))
  }

  /** `String.toLowerCase()` on ASCII text. */
  function ToLower(s: string): (r: string)
    ensures |r| == |s|
    ensures forall i :: 0 <= i < |s| ==> r[i] == LowerChar(s[i])
  {
    seq(|s|, i requires 0 <= i < |s| => LowerChar(s[i]))
  }

  lemma ToUpperAppend(a: string, b: string)
    ensures ToUpper(a + b) == ToUpper(a) + ToUpper(b)
  {
    assert forall i :: 0 <= i < |a + b| ==> ToUpper(a + b)[i] == (ToUpper(a) + ToUpper(b))[i];
  }

  /* ------------------------------------------------------------------ */
  /* trim() and split("\\s+")                                            */

  function TrimStart(s: string): (r: string)
    ensures |r| <= |s| && r == s[|s| - |r|..]
    ensures r == [] || r[0] > ' '
  {
    if s != [] && s[0] <= ' ' then TrimStart(s[1..]) else s
  }

  function TrimEnd(s: string): (r: string)
    ensures |r| <= |s| && r == s[..|r|]
    ensures r == [] || r[|r| - 1] > ' '
  {
    if s != [] && s[|s| - 1] <= ' ' then TrimEnd(s[..|s| - 1]) else s
  }

  /** `String.trim()`: drops every character up to U+0020 from both ends. */
  function Trim(s: string): (r: string)
    ensures r == [] || (r[0] > ' ' && r[|r| - 1] > ' ')
  {
    TrimEnd(TrimStart(s))
  }

  /** Every `\s` character is at most U+0020, so trimmed text has no `\s` at its ends. */
  predicate SpaceFreeEdges(s: string)
  {
    s == [] || (!IsSpace(s[0]) && !IsSpace(s[|s| - 1]))
  }

  lemma TrimmedHasSpaceFreeEdges(s: string)
    ensures SpaceFreeEdges(Trim(s))
  {
  }

  /** Index of the first `\s` character, or |s| when there is none. */
  function FirstSpace(s: string): (i: nat)
    ensures i <= |s| && NoSpace(s[..i])
    ensures i < |s| ==> IsSpace(s[i])
  {
    if s == [] || IsSpace(s[0]) then 0 else 1 + FirstSpace(s[1..])
  }

  /** Only the first space can be followed by nothing but non-spaces before it. */
  lemma {:induction false} FirstSpaceUnique(s: string, i: nat)
    requires i <= |s| && NoSpace(s[..i])
    requires i < |s| ==> IsSpace(s[i])
    ensures FirstSpace(s) == i
  {
    if s != [] && i > 0 {
      assert s[..i][0] == s[0];
      assert s[1..][..i - 1] == s[..i][1..];
      FirstSpaceUnique(s[1..], i - 1);
    }
  }

  /** `w` is the trailing run of non-space characters of `s`: a suffix
      without spaces that is all of `s` or comes right after a space. */
  predicate IsLastWord(s: string, w: string)
  {
    && |w| <= |s|
    && (forall j :: 0 <= j < |w| ==> s[|s| - |w| + j] == w[j])
    && NoSpace(w)
    && (|w| == |s| || IsSpace(s[|s| - |w| - 1]))
  }

  lemma LastWordUnique(s: string, u: string, w: string)
    requires IsLastWord(s, u) && IsLastWord(s, w)
    ensures u == w
  {
    forall q | |s| - |u| <= q < |s| ensures s[q] == u[q - (|s| - |u|)] {
      assert s[|s| - |u|..][q - (|s| - |u|)] == s[q];
    }
    forall q | |s| - |w| <= q < |s| ensures s[q] == w[q - (|s| - |w|)] {
      assert s[|s| - |w|..][q - (|s| - |w|)] == s[q];
    }
    assert |u| == |w|;
  }

  /** Drops a leading run of `\s` characters. */
  function DropSpaces(s: string): (r: string)
    ensures |r| <= |s| && r == s[|s| - |r|..]
    ensures r == [] || !IsSpace(r[0])
    ensures forall i :: 0 <= i < |s| - |r| ==> IsSpace(s[i])
  {
    if s != [] && IsSpace(s[0]) then
      var r := DropSpaces(s[1..]);
      assert r == s[|s| - |r|..] by {
        assert s[1..][|s| - 1 - |r|..] == s[|s| - |r|..];
      }
      assert forall i :: 1 <= i < |s| - |r| ==> IsSpace(s[i]) by {
        forall i | 1 <= i < |s| - |r| ensures IsSpace(s[i]) {
          assert s[i] == s[1..][i - 1];
        }
      }
      r
    else s
  }

  /** The concatenation of a list of words. */
  function Flatten(words: seq<string>): string
  {
    if words == [] then [] else words[0] + Flatten(words[1..])
  }

  /** The text with every `\s` character removed. */
  function RemoveSpaces(s: string): string
  {
    if s == [] then [] else (if IsSpace(s[0]) then [] else [s[0]]) + RemoveSpaces(s[1..])
  }

  lemma {:induction false} RemoveSpacesAppend(a: string, b: string)
    ensures RemoveSpaces(a + b) == RemoveSpaces(a) + RemoveSpaces(b)
  {
    if a != [] {
      assert (a + b)[1..] == a[1..] + b;
      RemoveSpacesAppend(a[1..], b);
    } else {
      assert a + b == b;
    }
  }

  lemma {:induction false} RemoveSpacesOfWord(s: string)
    requires NoSpace(s)
    ensures RemoveSpaces(s) == s
  {
    if s != [] {
      RemoveSpacesOfWord(s[1..]);
    }
  }

  /** `s.split("\\s+")` for a string without `\s` at either end (as `trim()`
      leaves it): the maximal runs of non-space characters, and `[""]` for
      the empty string. Joining the words gives back the text without its
      spaces, and there is more than one word exactly when the text has a
      space in it. */
  function SplitOnSpaces(s: string): (words: seq<string>)
    requires SpaceFreeEdges(s)
    ensures |words| >= 1
    ensures forall k :: 0 <= k < |words| ==> NoSpace(words[k])
    ensures s != [] ==> forall k :: 0 <= k < |words| ==> words[k] != []
    ensures |words| == 1 <==> NoSpace(s)
    ensures Flatten(words) == RemoveSpaces(s)
    ensures words[0] == s[..FirstSpace(s)]
    decreases |s|
  {
    var i := FirstSpace(s);
    if i == |s| then
      assert s[..i] == s;
      RemoveSpacesOfWord(s);
      [s]
    else
      var rest := DropSpaces(s[i..]);
      SplitStep(s, i, rest);
      var tail := SplitOnSpaces(rest);
      FlattenCons(s[..i], tail);
      [s[..i]] + tail
  }

  /** The last word of the text after the first run of spaces is the last word of the whole text. */
  lemma LastWordOfRest(s: string, d: nat, rest: string, w: string)
    requires 0 < d <= |s| && rest == s[d..] && IsSpace(s[d - 1])
    requires IsLastWord(rest, w)
    ensures IsLastWord(s, w)
  {
    assert s[|s| - |w|..] == rest[|rest| - |w|..];
    if |w| < |rest| {
      assert s[|s| - |w| - 1] == rest[|rest| - |w| - 1];
    }
  }

  /** A suffix of a suffix of the text is a suffix of the text. */
  lemma SuffixOfSuffix(s: string, i: nat, rest: string)
    requires i <= |s| && |rest| <= |s| - i && rest == s[i..][|s| - i - |rest|..]
    ensures rest == s[|s| - |rest|..]
  {
    forall q | 0 <= q < |rest| ensures rest[q] == s[|s| - |rest| + q] {
      assert rest[q] == s[i..][|s| - i - |rest| + q];
    }
  }

  /** After the first space and the run of spaces it starts, the rest is
      a suffix of the text that comes right after a space. */
  lemma RestAfterSpace(s: string, i: nat, rest: string)
    requires i == FirstSpace(s) && i < |s| && rest == DropSpaces(s[i..])
    ensures |rest| < |s| && rest == s[|s| - |rest|..] && IsSpace(s[|s| - |rest| - 1])
  {
    var after := s[i..];
    var d := |s| - |rest|;
    assert IsSpace(after[0]);
    assert IsSpace(after[d - 1 - i]);
    SuffixOfSuffix(s, i, rest);
  }

  /** The last word of the rest is the last word of `s`. */
  lemma SplitConsLast(s: string, i: nat, rest: string, w: string)
    requires i == FirstSpace(s) && i < |s| && rest == DropSpaces(s[i..])
    requires IsLastWord(rest, w)
    ensures IsLastWord(s, w)
  {
    RestAfterSpace(s, i, rest);
    LastWordOfRest(s, |s| - |rest|, rest, w);
  }

  /** A text without spaces is its own last word. */
  lemma WholeIsLastWord(s: string)
    requires NoSpace(s)
    ensures IsLastWord(s, s)
  {
  }

  function Last<T>(xs: seq<T>): T
    requires |xs| > 0
  {
    xs[|xs| - 1]
  }

  lemma LastCons<T>(x: T, xs: seq<T>)
    requires |xs| > 0
    ensures Last([x] + xs) == Last(xs)
  {
  }

  /** The last word produced by the split is the trailing run of non-spaces. */
  lemma {:induction false} SplitLastWord(s: string)
    requires SpaceFreeEdges(s)
    ensures IsLastWord(s, Last(SplitOnSpaces(s)))
    decreases |s|
  {
    var i := FirstSpace(s);
    if i == |s| {
      assert s[..i] == s;
      WholeIsLastWord(s);
    } else {
      var rest := DropSpaces(s[i..]);
      SplitStepShape(s, i, rest);
      var tail := SplitOnSpaces(rest);
      assert SplitOnSpaces(s) == [s[..i]] + tail;
      LastCons(s[..i], tail);
      SplitLastWord(rest);
      SplitConsLast(s, i, rest, Last(tail));
    }
  }

  /** One step of the split: the first word, a run of spaces, and the rest. */
  lemma SplitStep(s: string, i: nat, rest: string)
    requires SpaceFreeEdges(s) && i == FirstSpace(s) && i < |s|
    requires rest == DropSpaces(s[i..])
    ensures rest != [] && |rest| < |s| && SpaceFreeEdges(rest)
    ensures !NoSpace(s) && s[..i] != [] && NoSpace(s[..i])
    ensures RemoveSpaces(s) == s[..i] + RemoveSpaces(rest)
  {
    SplitStepShape(s, i, rest);
    SplitStepSpaces(s, i, rest);
  }

  lemma SplitStepShape(s: string, i: nat, rest: string)
    requires SpaceFreeEdges(s) && i == FirstSpace(s) && i < |s|
    requires rest == DropSpaces(s[i..])
    ensures rest != [] && |rest| < |s| && SpaceFreeEdges(rest)
    ensures !NoSpace(s) && s[..i] != []
  {
    var after := s[i..];
    assert IsSpace(after[0]);
    assert rest[|rest| - 1] == s[|s| - 1];
  }

  lemma SplitStepSpaces(s: string, i: nat, rest: string)
    requires i <= |s| && NoSpace(s[..i]) && rest == DropSpaces(s[i..])
    ensures RemoveSpaces(s) == s[..i] + RemoveSpaces(rest)
  {
    var a, b := s[..i], s[i..];
    RemoveSpacesAppend(a, b);
    RemoveSpacesOfWord(a);
    DropSpacesRemovesNothing(b);
    assert a + b == s;
  }

  lemma {:induction false} DropSpacesRemovesNothing(s: string)
    ensures RemoveSpaces(DropSpaces(s)) == RemoveSpaces(s)
  {
    if s != [] && IsSpace(s[0]) {
      DropSpacesRemovesNothing(s[1..]);
    }
  }

  lemma FlattenCons(w: string, tail: seq<string>)
    ensures Flatten([w] + tail) == w + Flatten(tail)
  {
    assert ([w] + tail)[1..] == tail;
  }

  /** `replaceAll("[^a-zA-Z0-9]", "")`: keeps only ASCII letters and digits. */
  function StripNonAlnum(s: string): (r: string)
    ensures AllAlnum(r)
    ensures |r| <= |s|
    ensures AllAlnum(s) ==> r == s
  {
    if s == [] then []
    else (if IsAlnum(s[0]) then [s[0]] else []) + StripNonAlnum(s[1..])
  }

  /* ------------------------------------------------------------------ */
  /* Decimal printing of int (string concatenation of an int)           */

  function DigitChar(d: nat): char
    requires d < 10
  {
    ('0' as int + d) as char
  }

  function DigitValue(c: char): nat
    requires IsDigit(c)
  {
    c as int - '0' as int
  }

  /** Decimal digits of a natural number, most significant first, without leading zeros. */
  function NatToString(n: nat): (r: string)
    ensures |r| >= 1 && AllDigits(r)
    ensures |r| > 1 ==> r[0] != '0'
  {
    if n < 10 then [DigitChar(n)] else NatToString(n / 10) + [DigitChar(n % 10)]
  }

  /** `Integer.toString(n)`, i.e. what `"" + n` prints. */
  function IntToString(n: int): (text: string)
  {
    if n < 0 then "-" + NatToString(-n) else NatToString(n)
  }

  /** The value of a string of decimal digits. */
  function ParseNat(s: string): nat
    requires AllDigits(s)
  {
    if s == [] then 0 else 10 * ParseNat(s[..|s| - 1]) + DigitValue(s[|s| - 1])
  }

  /** An optional minus sign followed by at least one digit. */
  predicate IsDecimal(s: string)
  {
    if |s| > 0 && s[0] == '-' then |s| > 1 && AllDigits(s[1..]) else |s| > 0 && AllDigits(s)
  }

  function ParseInt(s: string): int
    requires IsDecimal(s)
  {
    if s[0] == '-' then 0 - ParseNat(s[1..]) else ParseNat(s)
  }

  lemma {:induction false} ParseNatToString(n: nat)
    ensures ParseNat(NatToString(n)) == n
  {
    if n >= 10 {
      ParseNatToString(n / 10);
      var s := NatToString(n);
      assert s[..|s| - 1] == NatToString(n / 10);
    }
  }

  /** Printing an int and reading it back gives the same int; the printed
      form holds no character other than a leading '-' and digits. */
  lemma ParseIntToString(n: int)
    ensures IsDecimal(IntToString(n)) && ParseInt(IntToString(n)) == n
    ensures forall i :: 0 <= i < |IntToString(n)| ==> IntToString(n)[i] == '-' || IsDigit(IntToString(n)[i])
  {
    if n < 0 {
      ParseNatToString(-n);
      assert IntToString(n)[1..] == NatToString(-n);
    } else {
      ParseNatToString(n);
    }
  }

  /* ------------------------------------------------------------------ */
  /* indexOf                                                             */

  /** `pat` occurs in `s` at index `i`. */
  predicate MatchesAt(s: string, pat: string, i: nat)
  {
    i + |pat| <= |s| && s[i..i + |pat|] == pat
  }

  /** `s.indexOf(pat, from)` for a non-empty pattern: the first index at or
      after `from` where `pat` occurs, or -1. */
  function IndexOf(s: string, pat: string, from: nat): (r: int)
    requires |pat| > 0
    ensures r == -1 || (from <= r && MatchesAt(s, pat, r))
    ensures r == -1 ==> forall i: nat :: from <= i ==> !MatchesAt(s, pat, i)
    ensures r != -1 ==> forall i: nat :: from <= i < r ==> !MatchesAt(s, pat, i)
    decreases |s| - from
  {
    if from + |pat| > |s| then -1
    else if s[from..from + |pat|] == pat then from
    else IndexOf(s, pat, from + 1)
  }

  /** Positions that cannot start a match can be skipped. */
  lemma {:induction false} IndexOfSkip(s: string, pat: string, from: nat, to: nat)
    requires |pat| > 0 && from <= to
    requires forall i: nat :: from <= i < to ==> !MatchesAt(s, pat, i)
    ensures IndexOf(s, pat, from) == IndexOf(s, pat, to)
    decreases (to as int) - (from as int)
  {
    if from < to {
      IndexOfSkip(s, pat, from + 1, to);
    }
  }

  /** A search that starts at a match stops there. */
  lemma IndexOfAtMatch(s: string, pat: string, at: nat)
    requires |pat| > 0 && at + |pat| <= |s| && s[at..at + |pat|] == pat
    ensures IndexOf(s, pat, at) == at
  {
  }

  /** Searching for one character finds its first occurrence at or after `from`. */
  lemma IndexOfChar(s: string, c: char, from: nat, at: nat)
    requires from <= at < |s| && s[at] == c
    requires forall i :: from <= i < at ==> s[i] != c
    ensures IndexOf(s, [c], from) == at
  {
    assert MatchesAt(s, [c], at);
    assert forall i: nat :: from <= i < at ==> !MatchesAt(s, [c], i) by {
      forall i: nat | from <= i < at ensures !MatchesAt(s, [c], i) {
        assert s[i..i + 1] == [s[i]];
      }
    }
  }

  /* ------------------------------------------------------------------ */
  /* Java int                                                            */

  newtype int32 = x: int | -0x8000_0000 <= x < 0x8000_0000

  /** `x++` on a Java int: wraps from 2^31 - 1 to -2^31. */
  function WrappingIncrement(x: int32): (r: int32)
    ensures r as int == (x as int + 1 + 0x8000_0000) % 0x1_0000_0000 - 0x8000_0000
  {
    if x == 0x7fff_ffff then -0x8000_0000 else x + 1
  }
}
