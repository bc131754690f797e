/**
 Sequential text replacement: every occurrence of one source after another is
 replaced, and what is left of the sources at the end.
*/
module Replacement {
  import opened Wrappers
  import opened Text

  // ----- one source ------------------------------------------------------------------

  /** `str::replace` for a non-empty source: left to right, without overlap. */
  function Replace(text: string, source: string, replacement: string): string
    requires source != ""
    decreases |text|
  {
    if text == "" then ""
    else if source <= text then replacement + Replace(text[|source|..], source, replacement)
    else [text[0]] + Replace(text[1..], source, replacement)
  }

  /** `matches(source).count()`: the occurrences `Replace` replaces. */
  function Matches(text: string, source: string): nat
    requires source != ""
    decreases |text|
  {
    if text == "" then 0
    else if source <= text then 1 + Matches(text[|source|..], source)
    else Matches(text[1..], source)
  }

  lemma {:induction false} ReplaceNothing(text: string, source: string, replacement: string)
    requires source != "" && !Contains(text, source)
    ensures Replace(text, source, replacement) == text && Matches(text, source) == 0
  {
    if text != "" {
      ReplaceNothing(text[1..], source, replacement);
    }
  }

  /** The first occurrence splits the text; replacement goes on behind it. */
  lemma {:induction false} FirstSplit(text: string, source: string, replacement: string)
    returns (before: string, after: string)
    requires source != "" && Contains(text, source)
    ensures text == before + source + after && !Contains(before, source)
    ensures Replace(text, source, replacement) == before + replacement + Replace(after, source, replacement)
    ensures Matches(text, source) == 1 + Matches(after, source)
    decreases |text|
  {
    if source <= text {
      before, after := "", text[|source|..];
    } else {
      var front;
      front, after := FirstSplit(text[1..], source, replacement);
      before := [text[0]] + front;
      PutInFront(text, front, source, after, replacement, Replace(after, source, replacement));
    }
  }

  lemma PutInFront(text: string, front: string, source: string, after: string, replacement: string, rest: string)
    requires text != "" && text[1..] == front + source + after && !(source <= text) && !Contains(front, source)
    ensures text == ([text[0]] + front) + source + after && !Contains([text[0]] + front, source)
    ensures [text[0]] + (front + replacement + rest) == ([text[0]] + front) + replacement + rest
  {
    var before := [text[0]] + front;
    assert text == before + source + after;
    assert before[1..] == front;
    assert source <= before ==> source <= text;
  }

  // ----- separators ------------------------------------------------------------------------

  lemma PrefixBeside(x: string, c: char, y: string, needle: string)
    requires c !in needle
    ensures needle <= x + [c] + y <==> needle <= x
  {
    var s := x + [c] + y;
    assert s[|x|] == c;
    if needle <= s {
      assert forall k :: 0 <= k < |needle| ==> needle[k] == s[k];
    }
  }

  /** An occurrence in a text cut by a foreign character lies on one side of it. */
  lemma {:induction false} ContainsBeside(x: string, c: char, y: string, needle: string)
    requires needle != "" && c !in needle
    ensures Contains(x + [c] + y, needle) <==> Contains(x, needle) || Contains(y, needle)
    decreases |x|
  {
    PrefixBeside(x, c, y, needle);
    if x == "" {
      assert (x + [c] + y)[1..] == y;
    } else {
      assert (x + [c] + y)[1..] == x[1..] + [c] + y;
      ContainsBeside(x[1..], c, y, needle);
    }
  }

  /** Replacement never reaches across a character the source does not contain. */
  lemma {:induction false} ReplaceBeside(x: string, c: char, y: string, source: string, replacement: string)
    requires source != "" && c !in source
    ensures Replace(x + [c] + y, source, replacement)
         == Replace(x, source, replacement) + [c] + Replace(y, source, replacement)
    decreases |x|
  {
    var s := x + [c] + y;
    PrefixBeside(x, c, y, source);
    if x == "" {
      assert s[1..] == y;
    } else if source <= x {
      assert s[|source|..] == x[|source|..] + [c] + y;
      ReplaceBeside(x[|source|..], c, y, source, replacement);
    } else {
      assert s[1..] == x[1..] + [c] + y;
      ReplaceBeside(x[1..], c, y, source, replacement);
    }
  }

  /** Around a bracketed text, an occurrence lies before, inside or after it. */
  lemma BracketSeparates(x: string, inner: string, y: string, needle: string)
    requires needle != "" && '<' !in needle && '>' !in needle
    ensures Contains(x + ("<" + inner + ">") + y, needle) <==>
      Contains(x, needle) || Contains(inner, needle) || Contains(y, needle)
    ensures Contains("<" + inner + ">", needle) <==> Contains(inner, needle)
  {
    assert x + ("<" + inner + ">") + y == x + ['<'] + (inner + ['>'] + y);
    ContainsBeside(x, '<', inner + ['>'] + y, needle);
    ContainsBeside(inner, '>', y, needle);
    assert "<" + inner + ">" == "" + ['<'] + (inner + ['>'] + "");
    ContainsBeside("", '<', inner + ['>'] + "", needle);
    ContainsBeside(inner, '>', "", needle);
  }

  // ----- all sources in turn ---------------------------------------------------------------------

  datatype Rule = Rule(source: string, replacement: string)

  predicate InBrackets(s: string) {
    |s| >= 2 && s[0] == '<' && s[|s| - 1] == '>'
  }

  function Inner(bracketed: string): (inner: string)
    requires InBrackets(bracketed)
    ensures bracketed == "<" + inner + ">"
  {
    bracketed[1..|bracketed| - 1]
  }

  predicate BracketFree(s: string) {
    '<' !in s && '>' !in s
  }

  /** Sources without angle brackets, replacements of the form `<...>`. */
  predicate AllBracketed(rules: seq<Rule>) {
    forall i :: 0 <= i < |rules| ==>
      rules[i].source != "" && BracketFree(rules[i].source) && InBrackets(rules[i].replacement)
  }

  predicate Usable(rules: seq<Rule>) {
    forall i :: 0 <= i < |rules| ==> rules[i].source != ""
  }

  function ReplaceAll(rules: seq<Rule>, text: string): string
    requires Usable(rules)
  {
    if rules == [] then text
    else ReplaceAll(rules[1..], Replace(text, rules[0].source, rules[0].replacement))
  }

  /** How many occurrences the whole sequence replaces. */
  function MatchesAll(rules: seq<Rule>, text: string): nat
    requires Usable(rules)
  {
    if rules == [] then 0
    else
      Matches(text, rules[0].source)
      + MatchesAll(rules[1..], Replace(text, rules[0].source, rules[0].replacement))
  }

  lemma {:induction false} ReplaceAllBeside(rules: seq<Rule>, x: string, c: char, y: string)
    requires Usable(rules) && forall i :: 0 <= i < |rules| ==> c !in rules[i].source
    ensures ReplaceAll(rules, x + [c] + y) == ReplaceAll(rules, x) + [c] + ReplaceAll(rules, y)
    decreases |rules|
  {
    if rules != [] {
      var source, replacement := rules[0].source, rules[0].replacement;
      ReplaceBeside(x, c, y, source, replacement);
      ReplaceAllBeside(rules[1..], Replace(x, source, replacement), c, Replace(y, source, replacement));
    }
  }

  lemma {:induction false} ReplaceAllOfEmpty(rules: seq<Rule>)
    requires Usable(rules)
    ensures ReplaceAll(rules, "") == ""
  {
    if rules != [] {
      ReplaceAllOfEmpty(rules[1..]);
    }
  }

  /** Later rules work on a bracketed text and on its surroundings separately. */
  lemma ReplaceAllAround(rules: seq<Rule>, x: string, inner: string, y: string)
    requires AllBracketed(rules)
    ensures ReplaceAll(rules, x + ("<" + inner + ">") + y)
         == ReplaceAll(rules, x) + ("<" + ReplaceAll(rules, inner) + ">") + ReplaceAll(rules, y)
  {
    calc {
      ReplaceAll(rules, x + ("<" + inner + ">") + y);
      { assert x + ("<" + inner + ">") + y == x + ['<'] + (inner + ['>'] + y); }
      ReplaceAll(rules, x + ['<'] + (inner + ['>'] + y));
      { ReplaceAllBeside(rules, x, '<', inner + ['>'] + y); }
      ReplaceAll(rules, x) + ['<'] + ReplaceAll(rules, inner + ['>'] + y);
      { ReplaceAllBeside(rules, inner, '>', y); }
      ReplaceAll(rules, x) + ['<'] + (ReplaceAll(rules, inner) + ['>'] + ReplaceAll(rules, y));
    }
  }

  lemma ReplaceAllInBrackets(rules: seq<Rule>, inner: string)
    requires AllBracketed(rules)
    ensures ReplaceAll(rules, "<" + inner + ">") == "<" + ReplaceAll(rules, inner) + ">"
  {
    ReplaceAllAround(rules, "", inner, "");
    ReplaceAllOfEmpty(rules);
    assert "" + ("<" + inner + ">") + "" == "<" + inner + ">";
  }

  /** What the rules after `j` make of the replacement of rule `j`. */
  function Settled(rules: seq<Rule>, j: nat): string
    requires Usable(rules) && j < |rules|
  {
    ReplaceAll(rules[j + 1..], rules[j].replacement)
  }

  ghost predicate SettledHolds(rules: seq<Rule>, needle: string)
    requires Usable(rules)
  {
    exists j :: 0 <= j < |rules| && Contains(Settled(rules, j), needle)
  }

  ghost predicate IsSource(rules: seq<Rule>, needle: string) {
    exists i :: 0 <= i < |rules| && rules[i].source == needle
  }

  lemma SettledOfTail(rules: seq<Rule>, needle: string)
    requires Usable(rules) && rules != [] && SettledHolds(rules[1..], needle)
    ensures SettledHolds(rules, needle)
  {
    var j :| 0 <= j < |rules[1..]| && Contains(Settled(rules[1..], j), needle);
    assert rules[1..][j + 1..] == rules[j + 2..];
    assert Settled(rules, j + 1) == Settled(rules[1..], j);
  }

  /** In the input and no source, or inside what became of some replacement. */
  ghost predicate Explained(rules: seq<Rule>, text: string, needle: string)
    requires Usable(rules)
  {
    (Contains(text, needle) && !IsSource(rules, needle)) || SettledHolds(rules, needle)
  }

  /** Where a bracket-free string in the final text comes from. */
  lemma {:induction false} WhatSurvives(rules: seq<Rule>, text: string, needle: string)
    requires AllBracketed(rules) && needle != "" && BracketFree(needle)
    requires Contains(ReplaceAll(rules, text), needle)
    ensures Explained(rules, text, needle)
    decreases |rules|, |text|
  {
    if rules != [] {
      var source, replacement, later := rules[0].source, rules[0].replacement, rules[1..];
      if Contains(text, source) {
        var before, after := FirstSplit(text, source, replacement);
        SurvivesBesideFirst(rules, text, before, after, needle);
        PartContained(before, source, after, needle);
        if Contains(ReplaceAll(later, before), needle) {
          WhatSurvives(later, before, needle);
          ExplainedByTail(rules, text, before, needle);
        } else if !Contains(Settled(rules, 0), needle) {
          WhatSurvives(rules, after, needle);
        }
      } else {
        ReplaceNothing(text, source, replacement);
        WhatSurvives(later, text, needle);
        ExplainedByTail(rules, text, text, needle);
      }
    }
  }

  lemma ExplainedByTail(rules: seq<Rule>, text: string, part: string, needle: string)
    requires Usable(rules) && rules != [] && Explained(rules[1..], part, needle)
    requires !Contains(part, rules[0].source) && (Contains(part, needle) ==> Contains(text, needle))
    ensures Explained(rules, text, needle)
  {
    if SettledHolds(rules[1..], needle) {
      SettledOfTail(rules, needle);
    } else {
      forall k | 0 <= k < |rules| ensures rules[k].source != needle {
        assert k == 0 || rules[1..][k - 1] == rules[k];
      }
    }
  }

  /** The first occurrence splits the final text into three independent parts. */
  lemma SurvivesBesideFirst(rules: seq<Rule>, text: string, before: string, after: string, needle: string)
    requires AllBracketed(rules) && rules != [] && needle != "" && BracketFree(needle)
    requires
      var source, replacement := rules[0].source, rules[0].replacement;
      Replace(text, source, replacement) == before + replacement + Replace(after, source, replacement)
    requires Contains(ReplaceAll(rules, text), needle)
    ensures
      || Contains(ReplaceAll(rules[1..], before), needle)
      || Contains(Settled(rules, 0), needle)
      || Contains(ReplaceAll(rules, after), needle)
  {
    var source, replacement, later := rules[0].source, rules[0].replacement, rules[1..];
    var inner, back := Inner(replacement), Replace(after, source, replacement);
    ReplaceAllAround(later, before, inner, back);
    ReplaceAllInBrackets(later, inner);
    BracketSeparates(ReplaceAll(later, before), ReplaceAll(later, inner), ReplaceAll(later, back), needle);
  }

  lemma {:induction false} ContainedBehind(x: string, y: string, needle: string)
    requires Contains(y, needle)
    ensures Contains(x + y, needle)
  {
    if x == "" {
      assert x + y == y;
    } else {
      assert (x + y)[1..] == x[1..] + y;
      ContainedBehind(x[1..], y, needle);
    }
  }

  lemma {:induction false} ContainedInFront(x: string, y: string, needle: string)
    requires Contains(x, needle)
    ensures Contains(x + y, needle)
  {
    if !(needle <= x) {
      assert (x + y)[1..] == x[1..] + y;
      ContainedInFront(x[1..], y, needle);
    } else {
      assert needle <= x + y;
    }
  }

  lemma PartContained(before: string, source: string, after: string, needle: string)
    ensures Contains(before, needle) ==> Contains(before + source + after, needle)
    ensures Contains(after, needle) ==> Contains(before + source + after, needle)
  {
    if Contains(before, needle) {
      ContainedInFront(before, source + after, needle);
      assert before + source + after == before + (source + after);
    }
    if Contains(after, needle) {
      ContainedBehind(before + source, after, needle);
    }
  }

  // ----- when every source disappears ---------------------------------------------------------------

  /** Distinct sources, longest first, as a reviewed redaction map is applied. */
  predicate LongestFirst(rules: seq<Rule>) {
    forall i, j :: 0 <= i < j < |rules| ==>
      rules[i].source != rules[j].source && Utf8Len(rules[i].source) >= Utf8Len(rules[j].source)
  }

  lemma {:induction false} Utf8LenAppend(x: string, y: string)
    ensures Utf8Len(x + y) == Utf8Len(x) + Utf8Len(y)
  {
    if x == "" {
      assert x + y == y;
    } else {
      assert (x + y)[1..] == x[1..] + y;
      Utf8LenAppend(x[1..], y);
    }
  }

  /** A text cannot contain a different text that is at least as long. */
  lemma LongerNotContained(s: string, needle: string)
    requires needle != s && Utf8Len(needle) >= Utf8Len(s)
    ensures !Contains(s, needle)
  {
    if Contains(s, needle) {
      ContainsIffOccurs(s, needle);
      var before, after :| s == before + needle + after;
      Utf8LenAppend(before + needle, after);
      Utf8LenAppend(before, needle);
      assert false;
    }
  }

  /** Rules before its own leave a source alone, so its final form is that of its replacement. */
  lemma {:induction false} SourceBecomes(rules: seq<Rule>, j: nat)
    requires Usable(rules) && LongestFirst(rules) && j < |rules|
    ensures ReplaceAll(rules, rules[j].source) == Settled(rules, j)
  {
    var source := rules[j].source;
    if j == 0 {
      assert source[|source|..] == "";
      var replacement := rules[0].replacement;
      assert Replace(source, source, replacement) == replacement + "" == replacement;
    } else {
      LongerNotContained(source, rules[0].source);
      ReplaceNothing(source, rules[0].source, rules[0].replacement);
      SourceBecomes(rules[1..], j - 1);
      assert rules[1..][j - 1..][1..] == rules[j + 1..];
      assert rules[1..][j..] == rules[j + 1..];
    }
  }

  /** No text keeps any source. */
  ghost predicate RemovesSources(rules: seq<Rule>)
    requires Usable(rules)
  {
    forall text, i :: 0 <= i < |rules| ==> !Contains(ReplaceAll(rules, text), rules[i].source)
  }

  /** No replacement, once the later rules have run over it, holds a source. */
  predicate SettledClean(rules: seq<Rule>)
    requires Usable(rules)
  {
    forall j, i :: 0 <= j < |rules| && 0 <= i < |rules| ==> !Contains(Settled(rules, j), rules[i].source)
  }

  /**
   Every source disappears from every text exactly when none sits in what the
   later rules leave of a replacement.
  */
  lemma RemovesSourcesIff(rules: seq<Rule>)
    requires AllBracketed(rules) && LongestFirst(rules)
    ensures RemovesSources(rules) <==> SettledClean(rules)
  {
    if SettledClean(rules) {
      forall text, i | 0 <= i < |rules| ensures !Contains(ReplaceAll(rules, text), rules[i].source) {
        if Contains(ReplaceAll(rules, text), rules[i].source) {
          WhatSurvives(rules, text, rules[i].source);
        }
      }
    }
    if RemovesSources(rules) {
      forall j, i | 0 <= j < |rules| && 0 <= i < |rules| ensures !Contains(Settled(rules, j), rules[i].source) {
        SourceBecomes(rules, j);
      }
    }
  }

  /** The simple premise: no source occurs inside any replacement. */
  lemma CleanReplacementsSettle(rules: seq<Rule>)
    requires AllBracketed(rules)
    requires forall i, j :: 0 <= i < |rules| && 0 <= j < |rules| ==> !Contains(rules[j].replacement, rules[i].source)
    ensures SettledClean(rules)
  {
    forall j | 0 <= j < |rules| ensures Settled(rules, j) == rules[j].replacement {
      CleanTextStays(rules, j + 1, rules[j].replacement);
    }
  }

  lemma {:induction false} CleanTextStays(rules: seq<Rule>, from: nat, text: string)
    requires Usable(rules) && from <= |rules|
    requires forall i :: 0 <= i < |rules| ==> !Contains(text, rules[i].source)
    ensures ReplaceAll(rules[from..], text) == text && MatchesAll(rules[from..], text) == 0
    decreases |rules| - from
  {
    if from < |rules| {
      ReplaceNothing(text, rules[from].source, rules[from].replacement);
      CleanTextStays(rules, from + 1, text);
      assert rules[from..][1..] == rules[from + 1..];
    }
  }

  /** Running the whole sequence again then changes nothing and finds nothing. */
  lemma ReplaceAllIsFinal(rules: seq<Rule>, text: string)
    requires AllBracketed(rules) && LongestFirst(rules) && SettledClean(rules)
    ensures ReplaceAll(rules, ReplaceAll(rules, text)) == ReplaceAll(rules, text)
    ensures MatchesAll(rules, ReplaceAll(rules, text)) == 0
  {
    RemovesSourcesIff(rules);
    CleanTextStays(rules, 0, ReplaceAll(rules, text));
    assert rules[0..] == rules;
  }
}
