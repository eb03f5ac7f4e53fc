/**
 * The few Python `str` operations the lounasvahti core relies on
 * (`str.strip`, `str.startswith`, `str.find`, `str.join`, `str.splitlines`),
 * over explicit character sets.
 */
module Text {
  import opened Wrappers

  /** The characters for which Python's `str.isspace()` holds. */
  predicate IsSpace(c: char) {
    || c in {' ', '\t', '\n', '\r', '\U{B}', '\U{C}', '\U{1C}', '\U{1D}', '\U{1E}', '\U{1F}', '\U{85}', '\U{A0}'}
    || c in {'\U{1680}', '\U{2028}', '\U{2029}', '\U{202F}', '\U{205F}', '\U{3000}'}
    || '\U{2000}' <= c <= '\U{200A}'
  }

  predicate IsAsciiDigit(c: char) {
    '0' <= c <= '9'
  }

  function DigitValue(c: char): (v: nat)
    requires IsAsciiDigit(c)
    ensures v < 10
  {
    (c as int) - ('0' as int)
  }

  function DigitChar(v: nat): (c: char)
    requires v < 10
    ensures IsAsciiDigit(c) && DigitValue(c) == v
  {
    (('0' as int) + v) as char
  }

  /** A line is blank when `line.strip()` is empty. */
  predicate IsBlank(s: string) {
    forall i :: 0 <= i < |s| ==> IsSpace(s[i])
  }

  /** The number of whitespace characters `s` starts with. */
  function LeadingSpaces(s: string): (n: nat)
    ensures n <= |s|
  {
    if s != [] && IsSpace(s[0]) then 1 + LeadingSpaces(s[1..]) else 0
  }

  /** The length of `s` without the whitespace it ends with. */
  function ContentEnd(s: string): (n: nat)
    ensures n <= |s|
  {
    if s != [] && IsSpace(s[|s| - 1]) then ContentEnd(s[..|s| - 1]) else |s|
  }

  /** `s.lstrip()`. */
  function StripStart(s: string): string {
    s[LeadingSpaces(s)..]
  }

  /** `s.rstrip()`. */
  function StripEnd(s: string): string {
    s[..ContentEnd(s)]
  }

  /** `s.strip()`. */
  function Strip(s: string): string {
    StripEnd(StripStart(s))
  }

  // The facts about stripping are lemmas rather than postconditions, so that
  // the many `strip()` calls of the email and scraping code stay cheap to verify.

  lemma {:induction false} LeadingSpacesSpec(s: string)
    ensures forall i :: 0 <= i < LeadingSpaces(s) ==> IsSpace(s[i])
    ensures LeadingSpaces(s) == |s| || !IsSpace(s[LeadingSpaces(s)])
    decreases |s|
  {
    if s != [] && IsSpace(s[0]) {
      LeadingSpacesSpec(s[1..]);
    }
  }

  lemma {:induction false} ContentEndSpec(s: string)
    ensures forall i :: ContentEnd(s) <= i < |s| ==> IsSpace(s[i])
    ensures ContentEnd(s) == 0 || !IsSpace(s[ContentEnd(s) - 1])
    decreases |s|
  {
    if s != [] && IsSpace(s[|s| - 1]) {
      ContentEndSpec(s[..|s| - 1]);
    }
  }

  /** `s` neither starts nor ends with whitespace. */
  predicate Stripped(s: string) {
    s == [] || (!IsSpace(s[0]) && !IsSpace(s[|s| - 1]))
  }

  /** `s.strip()` removes exactly the whitespace at both ends: nothing is left there, and nothing is left at all only for a blank `s`. */
  lemma StripSpec(s: string)
    ensures Stripped(Strip(s))
    ensures Strip(s) == [] <==> IsBlank(s)
  {
    var t := StripStart(s);
    LeadingSpacesSpec(s);
    ContentEndSpec(t);
    var r := Strip(s);
    assert r != [] ==> r[0] == t[0];
    assert IsBlank(s) ==> t == [];
  }

  /** A string with no whitespace at either end is its own `strip()`. */
  lemma StripStripped(s: string)
    requires Stripped(s)
    ensures Strip(s) == s
  {
    assert LeadingSpaces(s) == 0;
    assert StripStart(s) == s;
    assert ContentEnd(s) == |s|;
  }

  lemma {:induction false} StripStartPadded(pad: string, s: string)
    requires IsBlank(pad)
    requires s == [] || !IsSpace(s[0])
    ensures StripStart(pad + s) == s
    decreases |pad|
  {
    if pad != [] {
      assert (pad + s)[1..] == pad[1..] + s;
      StripStartPadded(pad[1..], s);
      assert LeadingSpaces(pad + s) == 1 + LeadingSpaces(pad[1..] + s);
    } else {
      assert pad + s == s;
      assert LeadingSpaces(s) == 0;
    }
  }

  /** `s.startswith(p)`. */
  predicate StartsWith(s: string, p: string) {
    |p| <= |s| && s[..|p|] == p
  }

  /** `p` occurs in `s` at index `k`. */
  predicate OccursAt(s: string, p: string, k: nat) {
    k + |p| <= |s| && s[k..k + |p|] == p
  }

  /** `s.find(p)`: the index of the first occurrence of `p` in `s`, or `None` (-1 in Python). */
  function Find(s: string, p: string): (r: Option<nat>)
    ensures r.Some? ==> OccursAt(s, p, r.value)
    ensures r.Some? ==> forall k :: 0 <= k < r.value ==> !OccursAt(s, p, k)
    ensures r.None? ==> forall k :: 0 <= k <= |s| ==> !OccursAt(s, p, k)
    decreases |s|
  {
    if StartsWith(s, p) then Some(0)
    else if s == [] then None
    else
      OccursShift(s, p);
      match Find(s[1..], p)
      case None => None
      case Some(k) => Some(k + 1)
  }

  lemma OccursShift(s: string, p: string)
    requires s != []
    ensures forall k :: 1 <= k <= |s| ==> (OccursAt(s, p, k) <==> OccursAt(s[1..], p, k - 1))
  {
    forall k | 1 <= k <= |s| ensures OccursAt(s, p, k) <==> OccursAt(s[1..], p, k - 1) {
      var t := s[1..];
      if k + |p| <= |s| {
        var a, b := s[k..k + |p|], t[k - 1..k - 1 + |p|];
        forall x | 0 <= x < |p| ensures a[x] == b[x] {
          assert a[x] == s[k + x] == t[k - 1 + x];
        }
        assert a == b;
      }
    }
  }

  /** `s.find(c)` for one character: the index of its first occurrence, or `None`. */
  function IndexOf(s: string, c: char): (r: Option<nat>)
    ensures r.Some? ==> r.value < |s| && s[r.value] == c && c !in s[..r.value]
    ensures r.None? ==> c !in s
  {
    if s == [] then None
    else if s[0] == c then Some(0)
    else
      match IndexOf(s[1..], c)
      case None => None
      case Some(k) =>
        assert s[..k + 1] == [s[0]] + s[1..][..k];
        Some(k + 1)
  }

  /** `p in s`. */
  predicate Contains(s: string, p: string) {
    Find(s, p).Some?
  }

  /** `sep.join(parts)`. */
  function Join(parts: seq<string>, sep: string): (r: string)
    ensures parts == [] ==> r == []
    ensures |parts| == 1 ==> r == parts[0]
  {
    if parts == [] then []
    else if |parts| == 1 then parts[0]
    else Join(parts[..|parts| - 1], sep) + sep + parts[|parts| - 1]
  }

  /** `s.splitlines()` for text whose only line break is "\n". */
  function SplitLines(s: string): (lines: seq<string>)
    ensures forall i :: 0 <= i < |lines| ==> '\n' !in lines[i]
    ensures s == [] <==> lines == []
    decreases |s|
  {
    if s == [] then []
    else
      match Find(s, "\n")
      case None =>
        assert '\n' !in s by {
          forall k | 0 <= k < |s| ensures s[k] != '\n' {
            assert !OccursAt(s, "\n", k) && s[k..k + 1] == [s[k]];
          }
        }
        [s]
      case Some(i) =>
        assert '\n' !in s[..i] by {
          forall k | 0 <= k < i ensures s[k] != '\n' {
            assert !OccursAt(s, "\n", k) && s[k..k + 1] == [s[k]];
          }
        }
        [s[..i]] + SplitLines(s[i + 1..])
  }

  /** The first part is never lost: a join is at least as long as it. */
  lemma {:induction false} JoinKeepsFirst(parts: seq<string>, sep: string)
    requires parts != []
    ensures |parts[0]| <= |Join(parts, sep)|
    decreases |parts|
  {
    if |parts| > 1 {
      JoinKeepsFirst(parts[..|parts| - 1], sep);
    }
  }

  lemma FindAfterPrefix(a: string, b: string)
    requires '\n' !in a
    ensures Find(a + "\n" + b, "\n") == Some(|a|)
  {
    var s := a + "\n" + b;
    assert OccursAt(s, "\n", |a|);
    forall k | 0 <= k < |a| ensures !OccursAt(s, "\n", k) {
      assert s[k] == a[k];
    }
  }

  lemma {:induction false} JoinCons(parts: seq<string>, sep: string)
    requires |parts| >= 2
    ensures Join(parts, sep) == parts[0] + sep + Join(parts[1..], sep)
    decreases |parts|
  {
    if |parts| > 2 {
      JoinCons(parts[..|parts| - 1], sep);
      assert parts[..|parts| - 1][1..] == parts[1..][..|parts| - 2];
    }
  }

  /**
   * `"\n".join(lines).splitlines()` gives the lines back, except that a
   * trailing empty line disappears with the final line break.
   */
  lemma {:induction false} SplitJoinedLines(lines: seq<string>)
    requires forall i :: 0 <= i < |lines| ==> '\n' !in lines[i]
    ensures SplitLines(Join(lines, "\n")) == if lines != [] && lines[|lines| - 1] == [] then lines[..|lines| - 1] else lines
    decreases |lines|
  {
    var n := |lines|;
    if n == 1 {
      if lines[0] != [] {
        SplitLinesSingle(lines[0]);
      }
    } else if n >= 2 {
      assert lines[1..][n - 2] == lines[n - 1];
      assert [lines[0]] + lines[1..] == lines;
      assert [lines[0]] + lines[1..][..n - 2] == lines[..n - 1];
      JoinCons(lines, "\n");
      SplitLinesCons(lines[0], Join(lines[1..], "\n"));
      SplitJoinedLines(lines[1..]);
    }
  }

  /** A non-empty line without a line break splits into itself. */
  lemma SplitLinesSingle(a: string)
    requires a != [] && '\n' !in a
    ensures SplitLines(a) == [a]
  {
    assert Find(a, "\n") == None by {
      forall k | 0 <= k <= |a| ensures !OccursAt(a, "\n", k) {
        if k < |a| { assert a[k..k + 1] == [a[k]]; }
      }
    }
  }

  /** A line without a line break, a break and more text split into that line and the lines of the rest. */
  lemma SplitLinesCons(a: string, b: string)
    requires '\n' !in a
    ensures SplitLines(a + "\n" + b) == [a] + SplitLines(b)
  {
    FindAfterPrefix(a, b);
    var s := a + "\n" + b;
    assert s[..|a|] == a;
    assert s[|a| + 1..] == b;
  }

  /** `c.lower()` for A to Z, Å, Ä and Ö, each 32 code points below its small letter; other characters are left as they are. */
  function LowerChar(c: char): char {
    if 'A' <= c <= 'Z' || c in {'Å', 'Ä', 'Ö'} then (c as int + 32) as char else c
  }

  /** `str.lower()`, character by character. */
  function Lower(s: string): (r: string)
    ensures |r| == |s|
  {
    seq(|s|, i requires 0 <= i < |s| => LowerChar(s[i]))
  }

  /**
   * A word of small ASCII letters is what `Lower` makes of exactly those
   * texts that write each of its letters in either case.
   */
  lemma LowerMatches(w: string, word: string)
    requires forall i :: 0 <= i < |word| ==> 'a' <= word[i] <= 'z'
    ensures Lower(w) == word <==>
      |w| == |word| && forall i :: 0 <= i < |w| ==> w[i] == word[i] || w[i] as int == word[i] as int - 32
  {
    if Lower(w) == word {
      forall i | 0 <= i < |w| ensures w[i] == word[i] || w[i] as int == word[i] as int - 32 {
        assert LowerChar(w[i]) == word[i];
      }
    }
    if |w| == |word| && forall i :: 0 <= i < |w| ==> w[i] == word[i] || w[i] as int == word[i] as int - 32 {
      forall i | 0 <= i < |w| ensures Lower(w)[i] == word[i] {
        assert LowerChar(w[i]) == word[i];
      }
    }
  }
}
