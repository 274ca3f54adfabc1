/**
 * The tag matcher and state translator of atv.c: the five log markers, the
 * search that `find_tag` performs over a completed line, and the handler
 * calls that `process_line` makes for one line.
 */
module TagMatcher {

  // The suffix names the tvOS release in whose log the marker was seen.
  const SleepTag12: string := "Blocking events on the way down to sleep"
  const SleepTag13: string := "Clearing boot count prior to sleep"
  const SleepTag16: string := "Releasing power source"
  const SiriTag: string := "usagePage:0xc usage:0x4 downEvent:1"
  const SiriTag16: string := "page:0xC usage:0x4 downEvent:1"

  /** The three markers of the sleep transition, in declaration order. */
  const SleepTags: seq<string> := [SleepTag12, SleepTag13, SleepTag16]
  /** The two markers of the Siri (active) transition, in declaration order. */
  const SiriTags: seq<string> := [SiriTag, SiriTag16]

  /** `strncmp(a, b, n) == 0`: the first `n` characters agree, or both strings
      end (NUL) at the same place before that. */
  predicate StrNEqual(a: seq<char>, b: seq<char>, n: nat)
    requires n <= |a| && n <= |b|
    decreases n
  {
    n == 0 || (a[0] == b[0] && (a[0] == '\0' || StrNEqual(a[1..], b[1..], n - 1)))
  }

  /** When `a` holds no NUL in its first `n` characters, `strncmp` is plain
      equality of the two prefixes. */
  lemma {:induction false} StrNEqualWithoutNul(a: seq<char>, b: seq<char>, n: nat)
    requires n <= |a| && n <= |b|
    requires '\0' !in a[..n]
    ensures StrNEqual(a, b, n) <==> a[..n] == b[..n]
  {
    if n > 0 {
      assert a[..n] == [a[0]] + a[1..][..n - 1];
      assert b[..n] == [b[0]] + b[1..][..n - 1];
      StrNEqualWithoutNul(a[1..], b[1..], n - 1);
    }
  }

  /** None of the five markers holds a NUL character. */
  lemma TagsHaveNoNul()
    ensures '\0' !in SleepTag12 && '\0' !in SleepTag13 && '\0' !in SleepTag16
    ensures '\0' !in SiriTag && '\0' !in SiriTag16
  {
    NoNulInSleepTag12();
    NoNulInSleepTag13();
    NoNulInSleepTag16();
    NoNulInSiriTag();
    NoNulInSiriTag16();
  }

  // One fact about one literal per lemma keeps each proof small.
  lemma NoNulInSleepTag12() ensures '\0' !in SleepTag12 {}
  lemma NoNulInSleepTag13() ensures '\0' !in SleepTag13 {}
  lemma NoNulInSleepTag16() ensures '\0' !in SleepTag16 {}
  lemma NoNulInSiriTag() ensures '\0' !in SiriTag {}
  lemma NoNulInSiriTag16() ensures '\0' !in SiriTag16 {}

  /** `tag` occurs in `line` starting at index `i`. */
  predicate OccursAt(line: seq<char>, tag: seq<char>, i: int)
  {
    0 <= i && i + |tag| <= |line| && line[i..i + |tag|] == tag
  }

  /** Plain, case-sensitive substring test. */
  predicate Contains(line: seq<char>, tag: seq<char>)
  {
    exists i :: 0 <= i <= |line| - |tag| && OccursAt(line, tag, i)
  }

  /** What `find_tag` reports for the completed line `line` (the first
      `line_pos` characters of the buffer): an occurrence whose start `i`
      satisfies `i < line_pos - tag_len`, i.e. one that ends strictly before
      the last character of the line. */
  predicate FindTag(line: seq<char>, tag: seq<char>): (found: bool)
    ensures found ==> |tag| < |line| && Contains(line, tag)
  {
    exists i :: 0 <= i < |line| - |tag| && OccursAt(line, tag, i)
  }

  /** `find_tag` is exactly a substring search of the line with its last
      character removed: an occurrence that ends on the last character is
      never reported. */
  lemma FindTagIgnoresLastCharacter(line: seq<char>, tag: seq<char>)
    ensures FindTag(line, tag) <==> |line| > 0 && Contains(line[..|line| - 1], tag)
  {
    if FindTag(line, tag) {
      var i :| 0 <= i < |line| - |tag| && OccursAt(line, tag, i);
      assert line[..|line| - 1][i..i + |tag|] == line[i..i + |tag|];
      assert OccursAt(line[..|line| - 1], tag, i);
    }
    if |line| > 0 && Contains(line[..|line| - 1], tag) {
      var i :| 0 <= i <= |line| - 1 - |tag| && OccursAt(line[..|line| - 1], tag, i);
      assert line[..|line| - 1][i..i + |tag|] == line[i..i + |tag|];
      assert OccursAt(line, tag, i);
    }
  }

  /** A line whose only occurrence of `tag` is at its very end contains the
      tag, yet `find_tag` does not report it. */
  lemma OccurrenceAtEndIsMissed(line: seq<char>, tag: seq<char>)
    requires 0 < |tag| <= |line| && line[|line| - |tag|..] == tag
    requires !Contains(line[..|line| - 1], tag)
    ensures Contains(line, tag) && !FindTag(line, tag)
  {
    assert OccursAt(line, tag, |line| - |tag|);
    FindTagIgnoresLastCharacter(line, tag);
  }

  /** If some character of `tag` appears nowhere in `line`, the tag is not
      found. */
  lemma AbsentCharacterExcludes(line: seq<char>, tag: seq<char>, j: int)
    requires 0 <= j < |tag| && tag[j] !in line
    ensures !FindTag(line, tag)
  {
  }

  /** One handler call with argument `state` when the tag was found, none
      otherwise: one `if (find_tag(..)) update_handler(state);` statement. */
  function Call(found: bool, state: int): (r: seq<int>)
    ensures |r| <= 1 && (r != [] <==> found)
    ensures forall j :: 0 <= j < |r| ==> r[j] == state
  {
    if found then [state] else []
  }

  /** The handler calls for a run of tags that share one state: each tag
      is tested once, in order, and each one found yields one call. */
  function TagCalls(line: seq<char>, tags: seq<string>, state: int): (r: seq<int>)
    ensures |r| <= |tags|
    ensures forall j :: 0 <= j < |r| ==> r[j] == state
    ensures r != [] <==> exists k :: 0 <= k < |tags| && FindTag(line, tags[k])
    decreases |tags|
  {
    if tags == [] then []
    else
      var rest := TagCalls(line, tags[1..], state);
      assert forall k :: 1 <= k < |tags| ==> tags[k] == tags[1..][k - 1];
      Call(FindTag(line, tags[0]), state) + rest
  }

  /** The arguments of the handler calls `process_line` makes for `line`:
      the sleep tags (state 0) and then the Siri tags (state 1), each tested
      once in declaration order, each found tag yielding one call. */
  function LineCalls(line: seq<char>): (r: seq<int>)
    ensures |r| <= 5
    ensures forall j :: 0 <= j < |r| ==> r[j] == 0 || r[j] == 1
    ensures forall j, k :: 0 <= j < k < |r| ==> r[j] <= r[k]
    ensures 0 in r <==> FindTag(line, SleepTag12) || FindTag(line, SleepTag13) || FindTag(line, SleepTag16)
    ensures 1 in r <==> FindTag(line, SiriTag) || FindTag(line, SiriTag16)
  {
    var sleep := TagCalls(line, SleepTags, 0);
    var siri := TagCalls(line, SiriTags, 1);
    SleepTagsFound(line);
    SiriTagsFound(line);
    ZerosThenOnes(sleep, siri);
    sleep + siri
  }

  /** Some sleep marker is found exactly when one of the three named ones is. */
  lemma SleepTagsFound(line: seq<char>)
    ensures (exists k :: 0 <= k < |SleepTags| && FindTag(line, SleepTags[k])) <==>
      FindTag(line, SleepTag12) || FindTag(line, SleepTag13) || FindTag(line, SleepTag16)
  {
    assert |SleepTags| == 3 && SleepTags[0] == SleepTag12 && SleepTags[1] == SleepTag13 && SleepTags[2] == SleepTag16;
  }

  /** Some Siri marker is found exactly when one of the two named ones is. */
  lemma SiriTagsFound(line: seq<char>)
    ensures (exists k :: 0 <= k < |SiriTags| && FindTag(line, SiriTags[k])) <==>
      FindTag(line, SiriTag) || FindTag(line, SiriTag16)
  {
    assert |SiriTags| == 2 && SiriTags[0] == SiriTag && SiriTags[1] == SiriTag16;
  }

  /** A run of zeros followed by a run of ones is ordered, and holds a 0
      (a 1) exactly when the first (second) run is not empty. */
  lemma ZerosThenOnes(zeros: seq<int>, ones: seq<int>)
    requires forall j :: 0 <= j < |zeros| ==> zeros[j] == 0
    requires forall j :: 0 <= j < |ones| ==> ones[j] == 1
    ensures forall j, k :: 0 <= j < k < |zeros + ones| ==> (zeros + ones)[j] <= (zeros + ones)[k]
    ensures 0 in zeros + ones <==> zeros != []
    ensures 1 in zeros + ones <==> ones != []
  {
    if zeros != [] {
      assert (zeros + ones)[0] == 0;
    }
    if 0 in zeros + ones {
      var j :| 0 <= j < |zeros + ones| && (zeros + ones)[j] == 0;
      assert j < |zeros|;
    }
    if ones != [] {
      assert (zeros + ones)[|zeros|] == 1;
    }
    if 1 in zeros + ones {
      var j :| 0 <= j < |zeros + ones| && (zeros + ones)[j] == 1;
      assert j >= |zeros|;
    }
  }

  /** `LineCalls` is the sequence of the five `if` statements of
      `process_line`, in source order. */
  lemma LineCallsAsWritten(line: seq<char>)
    ensures LineCalls(line) ==
      Call(FindTag(line, SleepTag12), 0) + Call(FindTag(line, SleepTag13), 0) +
      Call(FindTag(line, SleepTag16), 0) + Call(FindTag(line, SiriTag), 1) +
      Call(FindTag(line, SiriTag16), 1)
  {
    var c12, c13, c16 := Call(FindTag(line, SleepTag12), 0), Call(FindTag(line, SleepTag13), 0), Call(FindTag(line, SleepTag16), 0);
    var cs, cs16 := Call(FindTag(line, SiriTag), 1), Call(FindTag(line, SiriTag16), 1);
    assert LineCalls(line) == TagCalls(line, SleepTags, 0) + TagCalls(line, SiriTags, 1);
    TagCallsOfThree(line, SleepTag12, SleepTag13, SleepTag16, 0);
    assert TagCalls(line, SleepTags, 0) == c12 + (c13 + c16);
    TagCallsOfTwo(line, SiriTag, SiriTag16, 1);
    assert TagCalls(line, SiriTags, 1) == cs + cs16;
    Regroup(c12, c13, c16, cs, cs16);
  }

  // Proof helpers for LineCallsAsWritten: regrouping and unrolling.

  lemma Regroup(a: seq<int>, b: seq<int>, c: seq<int>, d: seq<int>, e: seq<int>)
    ensures a + (b + c) + (d + e) == a + b + c + d + e
  {
  }

  lemma TagCallsOfTwo(line: seq<char>, t0: string, t1: string, state: int)
    ensures TagCalls(line, [t0, t1], state) == Call(FindTag(line, t0), state) + Call(FindTag(line, t1), state)
  {
    assert [t0, t1][1..] == [t1] && [t1][1..] == [];
    assert TagCalls(line, [t1], state) == Call(FindTag(line, t1), state) + [];
  }

  lemma TagCallsOfThree(line: seq<char>, t0: string, t1: string, t2: string, state: int)
    ensures TagCalls(line, [t0, t1, t2], state) ==
      Call(FindTag(line, t0), state) + (Call(FindTag(line, t1), state) + Call(FindTag(line, t2), state))
  {
    assert [t0, t1, t2][1..] == [t1, t2];
    TagCallsOfTwo(line, t1, t2, state);
  }

  /** A line on which no tag occurs, anywhere, yields no handler call. */
  lemma NoTagNoCall(line: seq<char>)
    requires !Contains(line, SleepTag12) && !Contains(line, SleepTag13) && !Contains(line, SleepTag16)
    requires !Contains(line, SiriTag) && !Contains(line, SiriTag16)
    ensures LineCalls(line) == []
  {
  }

  // ---------------------------------------------------------------------
  // Lines made of one marker: the marker alone ends on the line's last
  // character and is missed; followed by one more character it is found.
  // The facts about single characters of the marker literals below are
  // proof helpers, one fact per lemma so that each proof stays small.

  lemma Initials()
    ensures SleepTag13[0] == 'C' && SleepTag16[0] == 'R' && SiriTag[0] == 'u' && SiriTag16[7] == 'C'
  {
  }

  lemma SleepMarkerLacks()
    ensures 'C' !in SleepTag12 && 'R' !in SleepTag12 && 'u' !in SleepTag12
  {
    SleepMarkerLacksC();
    SleepMarkerLacksR();
    SleepMarkerLacksU();
  }

  lemma SleepMarkerLacksC() ensures 'C' !in SleepTag12 {}
  lemma SleepMarkerLacksR() ensures 'R' !in SleepTag12 {}
  lemma SleepMarkerLacksU() ensures 'u' !in SleepTag12 {}
  lemma SiriMarkerLacks() ensures 'R' !in SiriTag16 {}

  lemma SleepMarkerAlone()
    ensures LineCalls(SleepTag12) == []
  {
    Initials();
    SleepMarkerLacks();
    AbsentCharacterExcludes(SleepTag12, SleepTag13, 0);
    AbsentCharacterExcludes(SleepTag12, SleepTag16, 0);
    AbsentCharacterExcludes(SleepTag12, SiriTag, 0);
    AbsentCharacterExcludes(SleepTag12, SiriTag16, 7);
    LineCallsAsWritten(SleepTag12);
  }

  lemma SleepMarkerWithTrailer()
    ensures LineCalls(SleepTag12 + [' ']) == [0]
  {
    var line := SleepTag12 + [' '];
    Initials();
    SleepMarkerLacks();
    AbsentCharacterExcludes(line, SleepTag13, 0);
    AbsentCharacterExcludes(line, SleepTag16, 0);
    AbsentCharacterExcludes(line, SiriTag, 0);
    AbsentCharacterExcludes(line, SiriTag16, 7);
    assert OccursAt(line, SleepTag12, 0) by {
      assert line[0..|SleepTag12|] == SleepTag12;
    }
    LineCallsAsWritten(line);
  }

  lemma SiriMarkerAlone()
    ensures LineCalls(SiriTag16) == []
  {
    Initials();
    SiriMarkerLacks();
    AbsentCharacterExcludes(SiriTag16, SleepTag16, 0);
    LineCallsAsWritten(SiriTag16);
  }

  lemma SiriMarkerWithTrailer()
    ensures LineCalls(SiriTag16 + [' ']) == [1]
  {
    var line := SiriTag16 + [' '];
    Initials();
    SiriMarkerLacks();
    AbsentCharacterExcludes(line, SleepTag16, 0);
    assert OccursAt(line, SiriTag16, 0) by {
      assert line[0..|SiriTag16|] == SiriTag16;
    }
    LineCallsAsWritten(line);
  }

  // ---------------------------------------------------------------------
  // The search as evidently intended: every start position up to
  // `line_pos - tag_len`, so that a tag ending on the last character of
  // the line is found as well.

  /** The handler calls of `process_line` with a plain substring search in
      place of the search as written. */
  function IntendedLineCalls(line: seq<char>): (r: seq<int>)
    ensures |r| <= 5
  {
    Call(Contains(line, SleepTag12), 0) + Call(Contains(line, SleepTag13), 0) +
    Call(Contains(line, SleepTag16), 0) + Call(Contains(line, SiriTag), 1) +
    Call(Contains(line, SiriTag16), 1)
  }

  /** The search as written, run on the line with one more character,
      finds exactly what a plain substring search finds on the line. */
  lemma FindTagOneLater(line: seq<char>, c: char, tag: seq<char>)
    ensures FindTag(line + [c], tag) <==> Contains(line, tag)
  {
    FindTagIgnoresLastCharacter(line + [c], tag);
    assert (line + [c])[..|line|] == line;
  }

  /** The intended calls for a line are the calls as written for the same
      line followed by any one character. */
  lemma IntendedIsOneCharacterLater(line: seq<char>, c: char)
    ensures IntendedLineCalls(line) == LineCalls(line + [c])
  {
    FindTagOneLater(line, c, SleepTag12);
    FindTagOneLater(line, c, SleepTag13);
    FindTagOneLater(line, c, SleepTag16);
    FindTagOneLater(line, c, SiriTag);
    FindTagOneLater(line, c, SiriTag16);
    LineCallsAsWritten(line + [c]);
  }

  /** With the intended search, a line yields a 0 exactly when it contains
      a sleep marker and a 1 exactly when it contains a Siri marker,
      wherever in the line the marker sits; zeros come before ones. */
  lemma IntendedFindsEveryOccurrence(line: seq<char>)
    ensures forall j :: 0 <= j < |IntendedLineCalls(line)| ==> IntendedLineCalls(line)[j] in {0, 1}
    ensures forall j, k :: 0 <= j < k < |IntendedLineCalls(line)| ==> IntendedLineCalls(line)[j] <= IntendedLineCalls(line)[k]
    ensures 0 in IntendedLineCalls(line) <==>
      Contains(line, SleepTag12) || Contains(line, SleepTag13) || Contains(line, SleepTag16)
    ensures 1 in IntendedLineCalls(line) <==> Contains(line, SiriTag) || Contains(line, SiriTag16)
  {
    IntendedIsOneCharacterLater(line, ' ');
    FindTagOneLater(line, ' ', SleepTag12);
    FindTagOneLater(line, ' ', SleepTag13);
    FindTagOneLater(line, ' ', SleepTag16);
    FindTagOneLater(line, ' ', SiriTag);
    FindTagOneLater(line, ' ', SiriTag16);
  }

  /** With the intended search, a line that is exactly the tvOS 12 sleep
      marker yields the call 0. */
  lemma IntendedSleepLine()
    ensures IntendedLineCalls(SleepTag12) == [0]
  {
    IntendedIsOneCharacterLater(SleepTag12, ' ');
    SleepMarkerWithTrailer();
  }

  /** With the intended search, a line that is exactly the tvOS 16 Siri
      marker yields the call 1. */
  lemma IntendedSiriLine()
    ensures IntendedLineCalls(SiriTag16) == [1]
  {
    IntendedIsOneCharacterLater(SiriTag16, ' ');
    SiriMarkerWithTrailer();
  }
}
