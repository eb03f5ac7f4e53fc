/**
 * lounasvahti/services/email_receiver.py: how the plain text of an inbound
 * email is read. A first word "tilaa" or "lopeta" (in any letter case)
 * subscribes or unsubscribes the sender; otherwise the text is read as a
 * reply commenting on a meal: the meal name is the first non-blank line and
 * the comment is what follows "Kommentti:" on a later line, continued by the
 * lines after it up to a blank line, a quoted line or an "On ... wrote:" line.
 */
module EmailReceiver {
  import opened Wrappers
  import opened Text

  // ---------------------------------------------------------------------
  // get_first_word
  // ---------------------------------------------------------------------

  /** A character of the pattern's word class: `\w` (taken as ASCII letters, digits and `_`) and å, ä, ö, Å, Ä, Ö. */
  predicate IsWordChar(c: char) {
    || 'a' <= c <= 'z'
    || 'A' <= c <= 'Z'
    || '0' <= c <= '9'
    || c == '_'
    || c in {'å', 'ä', 'ö', 'Å', 'Ä', 'Ö'}
  }

  /** The longest prefix of `s` made of word characters. */
  function WordPrefix(s: string): (w: string)
    ensures |w| <= |s| && w == s[..|w|]
    ensures forall i :: 0 <= i < |w| ==> IsWordChar(w[i])
    ensures |w| == |s| || !IsWordChar(s[|w|])
  {
    if s != [] && IsWordChar(s[0]) then [s[0]] + WordPrefix(s[1..]) else []
  }

  /**
   * `get_first_word`: after any leading whitespace, the maximal run of word
   * characters, or `None` when the text does not continue with one.
   */
  function GetFirstWord(text: string): (r: Option<string>)
    ensures var k := LeadingSpaces(text);
      r.None? <==> k == |text| || !IsWordChar(text[k])
    ensures var k := LeadingSpaces(text);
      r.Some? ==>
        && r.value != []
        && (forall i :: 0 <= i < k ==> IsSpace(text[i]))
        && k + |r.value| <= |text| && text[k..k + |r.value|] == r.value
        && (forall i :: 0 <= i < |r.value| ==> IsWordChar(r.value[i]))
        && (k + |r.value| == |text| || !IsWordChar(text[k + |r.value|]))
  {
    WordAfterSpaces(text);
    LeadingSpacesSpec(text);
    var w := WordPrefix(text[LeadingSpaces(text)..]);
    if w == [] then None else Some(w)
  }

  /** Where the word after the leading whitespace sits in the text, and where it stops. */
  lemma WordAfterSpaces(text: string)
    ensures var k := LeadingSpaces(text); var w := WordPrefix(text[k..]);
      && (w == [] <==> k == |text| || !IsWordChar(text[k]))
      && k + |w| <= |text| && text[k..k + |w|] == w
      && (k + |w| == |text| || !IsWordChar(text[k + |w|]))
  {
    var k := LeadingSpaces(text);
    var w := WordPrefix(text[k..]);
    SliceAt(text, k, |w|);
  }

  lemma SliceAt<T>(s: seq<T>, k: nat, m: nat)
    requires k + m <= |s|
    ensures s[k..][..m] == s[k..k + m]
    ensures k + m < |s| ==> s[k..][m] == s[k + m]
    ensures k < |s| ==> s[k..][0] == s[k]
  {
  }

  // ---------------------------------------------------------------------
  // parse_comment
  // ---------------------------------------------------------------------

  const MARKER := "Kommentti:"

  /** `line.strip().startswith("Kommentti:")`. */
  predicate IsMarkerLine(line: string) {
    StartsWith(Strip(line), MARKER)
  }

  /** `re.match(r"On .* wrote:", line)`: "On " at the start and "wrote:" somewhere after it. */
  predicate IsAttribution(line: string) {
    StartsWith(line, "On ") && Contains(line[3..], "wrote:")
  }

  /** A line that ends the comment and is not part of it: a quote, an attribution or a blank line. */
  predicate StopsComment(line: string) {
    StartsWith(Strip(line), ">") || IsAttribution(line) || Strip(line) == []
  }

  /** The index of the first line that is not blank once stripped. */
  function FirstNonBlank(lines: seq<string>): (k: Option<nat>)
    ensures k.None? <==> forall i :: 0 <= i < |lines| ==> Strip(lines[i]) == []
    ensures k.Some? ==> k.value < |lines| && Strip(lines[k.value]) != []
    ensures k.Some? ==> forall i :: 0 <= i < k.value ==> Strip(lines[i]) == []
  {
    if lines == [] then None
    else if Strip(lines[0]) != [] then Some(0)
    else
      match FirstNonBlank(lines[1..])
      case None => None
      case Some(k) => Some(k + 1)
  }

  /** The index of the first marker line at or after `from`. */
  function FirstMarker(lines: seq<string>, from: nat): (k: Option<nat>)
    ensures k.None? ==> forall i :: from <= i < |lines| ==> !IsMarkerLine(lines[i])
    ensures k.Some? ==> from <= k.value < |lines| && IsMarkerLine(lines[k.value])
    ensures k.Some? ==> forall i :: from <= i < k.value ==> !IsMarkerLine(lines[i])
    decreases |lines| - from
  {
    if from >= |lines| then None
    else if IsMarkerLine(lines[from]) then Some(from)
    else FirstMarker(lines, from + 1)
  }

  /** The index of the first line at or after `from` that stops the comment, or `|lines|`. */
  function ContinuationEnd(lines: seq<string>, from: nat): (e: nat)
    requires from <= |lines|
    ensures from <= e <= |lines|
    decreases |lines| - from
  {
    if from == |lines| || StopsComment(lines[from]) then from
    else ContinuationEnd(lines, from + 1)
  }

  /** `line.split("Kommentti:", 1)[1].strip()`. */
  function AfterMarker(line: string): string
    requires Contains(line, MARKER)
  {
    Strip(line[Find(line, MARKER).value + |MARKER|..])
  }

  /** `head`, followed by "\n" and the stripped line for each of the continuation `lines`. */
  function Extend(head: string, lines: seq<string>): string {
    if lines == [] then head
    else Extend(head, lines[..|lines| - 1]) + "\n" + Strip(lines[|lines| - 1])
  }

  /** The comment found in `lines`, `None` when there is no marker line or the comment is empty. */
  function CommentOf(lines: seq<string>): Option<string> {
    match FirstMarker(lines, 1)
    case None => None
    case Some(i) =>
      MarkerLineContainsMarker(lines[i]);
      var c := Extend(AfterMarker(lines[i]), lines[i + 1..ContinuationEnd(lines, i + 1)]);
      if c == [] then None else Some(c)
  }

  /** What `parse_comment` returns for the lines of a text: the meal name and the comment. */
  function MealAndComment(lines: seq<string>): (Option<string>, Option<string>) {
    match FirstNonBlank(lines)
    case None => (None, None)
    case Some(k) => (Some(Strip(lines[k])), CommentOf(lines))
  }

  lemma MarkerLineContainsMarker(line: string)
    requires IsMarkerLine(line)
    ensures Contains(line, MARKER)
  {
    var k := LeadingSpaces(line);
    var t := line[k..];
    assert Strip(line) == t[..ContentEnd(t)];
    assert line[k..k + |MARKER|] == MARKER;
    assert OccursAt(line, MARKER, k);
  }

  /** `parse_comment`: its loops, step by step, over the lines of `text`. */
  method ParseComment(text: string) returns (mealName: Option<string>, comment: Option<string>)
    ensures (mealName, comment) == MealAndComment(SplitLines(text))
  {
    var lines := SplitLines(text);
    var k := FindMealLine(lines);
    if k.None? {
      return None, None;
    }
    mealName := Some(Strip(lines[k.value]));
    var i := FindMarkerLine(lines);
    if i.None? {
      return mealName, None;
    }
    var c := ReadComment(lines, i.value);
    comment := if c == [] then None else Some(c);
  }

  /** `next(line.strip() for line in lines if line.strip())`, as the index of that line. */
  method FindMealLine(lines: seq<string>) returns (k: Option<nat>)
    ensures k == FirstNonBlank(lines)
  {
    var n := 0;
    while n < |lines| && Strip(lines[n]) == []
      invariant 0 <= n <= |lines|
      invariant forall i :: 0 <= i < n ==> Strip(lines[i]) == []
    {
      n := n + 1;
    }
    if n == |lines| {
      return None;
    }
    FirstNonBlankIs(lines, n);
    return Some(n);
  }

  /** The loop over `lines[1:]` up to the first line whose stripped form starts with "Kommentti:". */
  method FindMarkerLine(lines: seq<string>) returns (i: Option<nat>)
    ensures i == FirstMarker(lines, 1)
  {
    var n := 1;
    while n < |lines| && !StartsWith(Strip(lines[n]), MARKER)
      invariant 1 <= n
      invariant forall m :: 1 <= m < n && m < |lines| ==> !IsMarkerLine(lines[m])
    {
      n := n + 1;
    }
    if n >= |lines| {
      return None;
    }
    FirstMarkerIs(lines, 1, n);
    return Some(n);
  }

  /** The text after "Kommentti:" on line `i`, extended line by line until a line that stops the comment. */
  method ReadComment(lines: seq<string>, i: nat) returns (c: string)
    requires i < |lines| && IsMarkerLine(lines[i])
    ensures Contains(lines[i], MARKER)
    ensures c == Extend(AfterMarker(lines[i]), lines[i + 1..ContinuationEnd(lines, i + 1)])
  {
    var line := lines[i];
    MarkerLineContainsMarker(line);
    c := Strip(line[Find(line, MARKER).value + |MARKER|..]);
    ghost var head := c;
    var j := i + 1;
    while j < |lines|
      invariant i + 1 <= j <= |lines|
      invariant ContinuationEnd(lines, j) == ContinuationEnd(lines, i + 1)
      invariant c == Extend(head, lines[i + 1..j])
    {
      var extra := lines[j];
      var stripped := Strip(extra);
      ContinuationStep(lines, j);
      if StartsWith(stripped, ">") || IsAttribution(extra) || |stripped| == 0 {
        break;
      }
      ExtendStep(head, lines, i + 1, j);
      c := c + "\n" + stripped;
      j := j + 1;
    }
  }

  /** The continuation ends at a line that stops the comment, and otherwise goes on past it. */
  lemma ContinuationStep(lines: seq<string>, j: nat)
    requires j < |lines|
    ensures var stop := StartsWith(Strip(lines[j]), ">") || IsAttribution(lines[j]) || |Strip(lines[j])| == 0;
      && (stop ==> ContinuationEnd(lines, j) == j)
      && (!stop ==> ContinuationEnd(lines, j + 1) == ContinuationEnd(lines, j))
  {
  }

  lemma ExtendStep(head: string, lines: seq<string>, from: nat, j: nat)
    requires from <= j < |lines|
    ensures Extend(head, lines[from..j + 1]) == Extend(head, lines[from..j]) + "\n" + Strip(lines[j])
  {
    assert lines[from..j + 1][..j - from] == lines[from..j];
  }

  lemma {:induction false} FirstNonBlankIs(lines: seq<string>, k: nat)
    requires k < |lines| && Strip(lines[k]) != []
    requires forall i :: 0 <= i < k ==> Strip(lines[i]) == []
    ensures FirstNonBlank(lines) == Some(k)
  {
    if k > 0 {
      FirstNonBlankIs(lines[1..], k - 1);
    }
  }

  lemma {:induction false} FirstMarkerIs(lines: seq<string>, from: nat, k: nat)
    requires from <= k < |lines| && IsMarkerLine(lines[k])
    requires forall i :: from <= i < k ==> !IsMarkerLine(lines[i])
    ensures FirstMarker(lines, from) == Some(k)
    decreases k - from
  {
    if from < k {
      FirstMarkerIs(lines, from + 1, k);
    }
  }

  /** The comment runs up to the first line that stops it, and no further. */
  lemma {:induction false} ContinuationEndSpec(lines: seq<string>, from: nat)
    requires from <= |lines|
    ensures forall i :: from <= i < ContinuationEnd(lines, from) ==> !StopsComment(lines[i])
    ensures ContinuationEnd(lines, from) < |lines| ==> StopsComment(lines[ContinuationEnd(lines, from)])
    decreases |lines| - from
  {
    if from < |lines| && !StopsComment(lines[from]) {
      ContinuationEndSpec(lines, from + 1);
    }
  }

  lemma {:induction false} ContinuationEndUnique(lines: seq<string>, from: nat, e: nat)
    requires from <= e <= |lines|
    requires forall i :: from <= i < e ==> !StopsComment(lines[i])
    requires e < |lines| ==> StopsComment(lines[e])
    ensures ContinuationEnd(lines, from) == e
    decreases e - from
  {
    if from < e {
      ContinuationEndUnique(lines, from + 1, e);
    }
  }

  // ---------------------------------------------------------------------
  // Properties of parse_comment
  // ---------------------------------------------------------------------

  /** No meal name, and then no comment either, exactly when every line is blank; a meal name is never empty. */
  lemma BlankTextHasNoMeal(lines: seq<string>)
    ensures MealAndComment(lines).0 == None <==> forall i :: 0 <= i < |lines| ==> IsBlank(lines[i])
    ensures MealAndComment(lines).0 == None ==> MealAndComment(lines).1 == None
    ensures MealAndComment(lines).0.Some? ==> MealAndComment(lines).0.value != []
  {
    forall i | 0 <= i < |lines| {
      StripSpec(lines[i]);
    }
  }

  /** A "Kommentti:" on the first line is never read: the search starts at the second line. */
  lemma {:induction false} FirstLineIsNotSearched(first: string, rest: seq<string>)
    requires forall i :: 0 <= i < |rest| ==> !IsMarkerLine(rest[i])
    ensures CommentOf([first] + rest) == None
  {
    var lines := [first] + rest;
    assert forall i :: 1 <= i < |lines| ==> lines[i] == rest[i - 1];
  }

  /** Extending the first of some stripped lines by the rest joins them all with "\n". */
  lemma {:induction false} ExtendStripped(cs: seq<string>)
    requires forall i :: 0 <= i < |cs| ==> Stripped(cs[i])
    requires cs != []
    ensures Extend(cs[0], cs[1..]) == Join(cs, "\n")
    decreases |cs|
  {
    if |cs| > 1 {
      var n := |cs|;
      var init := cs[..n - 1];
      assert forall i :: 0 <= i < |init| ==> init[i] == cs[i];
      ExtendStripped(init);
      assert cs[1..][..n - 2] == init[1..];
      assert Extend(cs[0], cs[1..]) == Extend(cs[0], init[1..]) + "\n" + Strip(cs[n - 1]);
      StripStripped(cs[n - 1]);
    }
  }

  lemma StripPadded(c: string)
    requires Stripped(c)
    ensures Strip(" " + c) == c
  {
    StripStartPadded(" ", c);
    StripStripped(c);
    assert LeadingSpaces(c) == 0;
  }

  /** "Kommentti: " followed by a stripped, non-empty comment is a marker line carrying that comment. */
  lemma MarkerReplyLine(c: string)
    requires Stripped(c) && c != []
    ensures IsMarkerLine(MARKER + " " + c)
    ensures Contains(MARKER + " " + c, MARKER) && AfterMarker(MARKER + " " + c) == c
  {
    var line := MARKER + " " + c;
    assert line[|line| - 1] == c[|c| - 1];
    StripStripped(line);
    assert line[..|MARKER|] == MARKER;
    assert Find(line, MARKER) == Some(0);
    assert line[|MARKER|..] == " " + c;
    StripPadded(c);
  }

  /**
   * The reply the comment form asks for (the meal name on its own line,
   * "Kommentti: " and the comment's first line, its further lines, then a
   * stopping line or the end) gives back the meal name and the comment
   * lines joined by "\n", whatever follows the stopping line.
   */
  lemma ReplyRoundTrip(meal: string, cs: seq<string>, tail: seq<string>)
    requires Stripped(meal) && meal != []
    requires cs != [] && cs[0] != []
    requires forall i :: 0 <= i < |cs| ==> Stripped(cs[i])
    requires forall i :: 1 <= i < |cs| ==> !StopsComment(cs[i])
    requires tail == [] || StopsComment(tail[0])
    ensures MealAndComment([meal, MARKER + " " + cs[0]] + cs[1..] + tail) == (Some(meal), Some(Join(cs, "\n")))
  {
    PairThen(meal, MARKER + " " + cs[0], cs[1..], tail);
    ReplyLines(meal, cs, tail);
    ReplyComment(meal, cs, tail);
    StripStripped(meal);
  }

  /** The comment part of the round trip: the marker line's text and the lines after it, joined. */
  lemma ReplyComment(meal: string, cs: seq<string>, tail: seq<string>)
    requires Stripped(meal) && meal != []
    requires cs != [] && cs[0] != []
    requires forall i :: 0 <= i < |cs| ==> Stripped(cs[i])
    requires forall i :: 1 <= i < |cs| ==> !StopsComment(cs[i])
    requires tail == [] || StopsComment(tail[0])
    ensures CommentOf([meal, MARKER + " " + cs[0]] + cs[1..] + tail) == Some(Join(cs, "\n"))
  {
    var m := MARKER + " " + cs[0];
    var lines := [meal, m] + cs[1..] + tail;
    PairThen(meal, m, cs[1..], tail);
    ReplyLines(meal, cs, tail);
    CommentFrom(lines, cs);
  }

  /** Lines whose first marker line is line 1, carrying the first of `cs`, with the rest of `cs` continuing it. */
  lemma CommentFrom(lines: seq<string>, cs: seq<string>)
    requires cs != [] && cs[0] != [] && |cs| + 1 <= |lines|
    requires forall i :: 0 <= i < |cs| ==> Stripped(cs[i])
    requires FirstMarker(lines, 1) == Some(1) && ContinuationEnd(lines, 2) == |cs| + 1
    requires lines[1] == MARKER + " " + cs[0] && lines[2..|cs| + 1] == cs[1..]
    ensures CommentOf(lines) == Some(Join(cs, "\n"))
  {
    MarkerReplyLine(cs[0]);
    ExtendStripped(cs);
    JoinKeepsFirst(cs, "\n");
    CommentAt(lines, 1, Join(cs, "\n"));
  }

  /** The comment read from the marker line `i`, when it is not empty. */
  lemma CommentAt(lines: seq<string>, i: nat, c: string)
    requires FirstMarker(lines, 1) == Some(i) && Contains(lines[i], MARKER)
    requires Extend(AfterMarker(lines[i]), lines[i + 1..ContinuationEnd(lines, i + 1)]) == c != []
    ensures CommentOf(lines) == Some(c)
  {
  }

  /** Where the pieces of `[a, b] + xs + ys` sit. */
  lemma PairThen<T>(a: T, b: T, xs: seq<T>, ys: seq<T>)
    ensures var l := [a, b] + xs + ys;
      && |l| == 2 + |xs| + |ys| && l[0] == a && l[1] == b && l[2..2 + |xs|] == xs
  {
  }

  /** Each element of `[a, b] + xs + ys` past the first two. */
  lemma PairThenAt<T>(a: T, b: T, xs: seq<T>, ys: seq<T>)
    ensures var l := [a, b] + xs + ys;
      && (forall i :: 2 <= i < 2 + |xs| ==> l[i] == xs[i - 2])
      && (forall i :: 2 + |xs| <= i < |l| ==> l[i] == ys[i - 2 - |xs|])
  {
  }

  /** Where the reply's meal name, marker line and comment end are found. */
  lemma ReplyLines(meal: string, cs: seq<string>, tail: seq<string>)
    requires Stripped(meal) && meal != []
    requires cs != [] && cs[0] != []
    requires Stripped(cs[0])
    requires forall i :: 1 <= i < |cs| ==> !StopsComment(cs[i])
    requires tail == [] || StopsComment(tail[0])
    ensures var lines := [meal, MARKER + " " + cs[0]] + cs[1..] + tail;
      && FirstNonBlank(lines) == Some(0)
      && FirstMarker(lines, 1) == Some(1)
      && ContinuationEnd(lines, 2) == |cs| + 1
  {
    var lines := [meal, MARKER + " " + cs[0]] + cs[1..] + tail;
    PairThen(meal, MARKER + " " + cs[0], cs[1..], tail);
    PairThenAt(meal, MARKER + " " + cs[0], cs[1..], tail);
    StripStripped(meal);
    FirstNonBlankIs(lines, 0);
    MarkerReplyLine(cs[0]);
    FirstMarkerIs(lines, 1, 1);
    ContinuationEndUnique(lines, 2, |cs| + 1);
  }

  /** The same reply as one text, its lines joined by "\n", read back through `splitlines`. */
  lemma ReplyTextRoundTrip(meal: string, cs: seq<string>, tail: seq<string>)
    requires Stripped(meal) && meal != [] && '\n' !in meal
    requires cs != [] && cs[0] != []
    requires forall i :: 0 <= i < |cs| ==> Stripped(cs[i]) && '\n' !in cs[i]
    requires forall i :: 1 <= i < |cs| ==> !StopsComment(cs[i])
    requires tail == [] || StopsComment(tail[0])
    requires forall i :: 0 <= i < |tail| ==> '\n' !in tail[i]
    ensures MealAndComment(SplitLines(Join([meal, MARKER + " " + cs[0]] + cs[1..] + tail, "\n"))) == (Some(meal), Some(Join(cs, "\n")))
  {
    var lines := [meal, MARKER + " " + cs[0]] + cs[1..] + tail;
    PairThen(meal, MARKER + " " + cs[0], cs[1..], tail);
    PairThenAt(meal, MARKER + " " + cs[0], cs[1..], tail);
    SplitJoinedLines(lines);
    if lines[|lines| - 1] == [] {
      assert |tail| > 0;
      assert lines[..|lines| - 1] == [meal, MARKER + " " + cs[0]] + cs[1..] + tail[..|tail| - 1];
      ReplyRoundTrip(meal, cs, tail[..|tail| - 1]);
    } else {
      ReplyRoundTrip(meal, cs, tail);
    }
  }

  // ---------------------------------------------------------------------
  // handle_DATA
  // ---------------------------------------------------------------------

  /** What `handle_DATA` does with a message. */
  datatype Action =
    | Subscribe                                         // handle_subscription(sender)
    | Unsubscribe                                       // handle_unsubscription(sender)
    | UpdateComment(mealName: string, comment: string)  // look the meal up by name; update its comment if found
    | Ignore                                            // "Could not extract a valid comment."

  /** The action `handle_DATA` takes for a message whose extracted text is `text`. */
  function Dispatch(text: string): Action {
    var first := GetFirstWord(text);
    if first.Some? && Lower(first.value) == "tilaa" then Subscribe
    else if first.Some? && Lower(first.value) == "lopeta" then Unsubscribe
    else
      match MealAndComment(SplitLines(text))
      case (Some(meal), Some(comment)) =>
        if meal != [] && comment != [] then UpdateComment(meal, comment) else Ignore
      case _ => Ignore
  }

  /** `handle_DATA` once the text is extracted: the control words first, then the comment reply. */
  method HandleData(text: string) returns (a: Action)
    ensures a == Dispatch(text)
  {
    var first := GetFirstWord(text);
    if first.Some? {
      if Lower(first.value) == "tilaa" {
        return Subscribe;
      } else if Lower(first.value) == "lopeta" {
        return Unsubscribe;
      }
    }
    var mealName, comment := ParseComment(text);
    if mealName.Some? && mealName.value != [] && comment.Some? && comment.value != [] {
      a := UpdateComment(mealName.value, comment.value);
    } else {
      a := Ignore;
    }
  }

  /** The control words are recognised in any letter case, before the text is read as a reply. */
  lemma ControlWords(text: string)
    ensures Dispatch(text) == Subscribe <==> GetFirstWord(text).Some? && Lower(GetFirstWord(text).value) == "tilaa"
    ensures Dispatch(text) == Unsubscribe <==> GetFirstWord(text).Some? && Lower(GetFirstWord(text).value) == "lopeta"
  {
  }

  /** A comment update is attempted exactly when no control word leads and both the meal name and the comment are non-empty. */
  lemma UpdateNeedsBoth(text: string)
    ensures Dispatch(text).UpdateComment? <==>
      && !(GetFirstWord(text).Some? && Lower(GetFirstWord(text).value) in {"tilaa", "lopeta"})
      && MealAndComment(SplitLines(text)).0.Some? && MealAndComment(SplitLines(text)).1.Some?
      && MealAndComment(SplitLines(text)).0.value != [] && MealAndComment(SplitLines(text)).1.value != []
    ensures Dispatch(text).UpdateComment? ==>
      MealAndComment(SplitLines(text)) == (Some(Dispatch(text).mealName), Some(Dispatch(text).comment))
  {
  }

  /** Whatever whitespace precedes a word, and whatever non-word character follows it, that word is the first word. */
  lemma FirstWordOf(pad: string, w: string, rest: string)
    requires IsBlank(pad)
    requires w != [] && forall i :: 0 <= i < |w| ==> IsWordChar(w[i])
    requires rest == [] || !IsWordChar(rest[0])
    ensures GetFirstWord(pad + w + rest) == Some(w)
  {
    assert !IsSpace(w[0]);
    assert pad + w + rest == pad + (w + rest);
    StripStartPadded(pad, w + rest);
    LeadingSpacesSpec(pad + (w + rest));
    WordPrefixOf(w, rest);
  }

  lemma {:induction false} WordPrefixOf(w: string, rest: string)
    requires forall i :: 0 <= i < |w| ==> IsWordChar(w[i])
    requires rest == [] || !IsWordChar(rest[0])
    ensures WordPrefix(w + rest) == w
    decreases |w|
  {
    if w != [] {
      assert (w + rest)[1..] == w[1..] + rest;
      WordPrefixOf(w[1..], rest);
    } else {
      assert w + rest == rest;
    }
  }
}
