/**
 The mention scan of app/services/notification_service.py: the pattern "@" followed by 3 to 30 name
 characters, matched from left to right, greedily and without overlaps.
 */
module Mentions {

  const MIN_NAME: nat := 3
  const MAX_NAME: nat := 30

  predicate IsNameChar(c: char) {
    'A' <= c <= 'Z' || 'a' <= c <= 'z' || '0' <= c <= '9' || c == '_'
  }

  function Lower(c: char): char {
    if 'A' <= c <= 'Z' then (c as int + 32) as char else c
  }

  function LowerAll(s: string): (r: string)
    ensures |r| == |s| && forall i :: 0 <= i < |r| ==> r[i] == Lower(s[i])
  {
    seq(|s|, i requires 0 <= i < |s| => Lower(s[i]))
  }

  /** How many name characters follow in a row from position i on. */
  function NameRun(s: string, i: nat): (n: nat)
    ensures i + n <= |s| || n == 0
    decreases |s| - i
  {
    if i < |s| && IsNameChar(s[i]) then 1 + NameRun(s, i + 1) else 0
  }

  /** The reference: an "@" before a run of enough name characters names the first thirty of them. */
  predicate IsMention(s: string, i: nat) {
    i < |s| && s[i] == '@' && MIN_NAME <= NameRun(s, i + 1)
  }

  function NameAt(s: string, i: nat): string
    requires IsMention(s, i)
  {
    var run := NameRun(s, i + 1);
    LowerAll(s[i + 1..i + 1 + if run < MAX_NAME then run else MAX_NAME])
  }

  ghost predicate NamedBefore(s: string, end: nat, name: string) {
    exists i: nat :: i < end && IsMention(s, i) && NameAt(s, i) == name
  }

  /** All the names a message mentions. */
  ghost predicate Names(s: string, name: string) {
    NamedBefore(s, |s|, name)
  }

  lemma {:induction false} RunIsNames(s: string, i: nat, k: nat)
    requires k < NameRun(s, i)
    ensures i + k < |s| && IsNameChar(s[i + k])
    decreases k
  {
    if k != 0 { RunIsNames(s, i + 1, k - 1); }
  }

  lemma {:induction false} RunAtLeast(s: string, i: nat, n: nat)
    requires i + n <= |s| && forall k :: i <= k < i + n ==> IsNameChar(s[k])
    ensures n <= NameRun(s, i)
    decreases n
  {
    if n != 0 { RunAtLeast(s, i + 1, n - 1); }
  }

  /** One match attempt at position i: the end of the match, which takes as much as it may. */
  method MatchAt(s: string, i: nat) returns (matched: bool, end: nat)
    requires i < |s|
    ensures matched == IsMention(s, i)
    ensures matched ==> i < end <= |s| && LowerAll(s[i + 1..end]) == NameAt(s, i)
    ensures matched ==> forall k :: i < k < end ==> IsNameChar(s[k])
  {
    if s[i] != '@' {
      return false, i;
    }
    end := i + 1;
    while end < |s| && end - (i + 1) < MAX_NAME && IsNameChar(s[end])
      invariant i + 1 <= end <= |s| && end - (i + 1) <= MAX_NAME
      invariant forall k :: i < k < end ==> IsNameChar(s[k])
    {
      end := end + 1;
    }
    var taken := end - (i + 1);
    RunAtLeast(s, i + 1, taken);
    if taken < NameRun(s, i + 1) {
      RunIsNames(s, i + 1, taken);
    }
    matched := MIN_NAME <= taken;
  }

  /** Nothing between a match's "@" and its end is a mention of its own. */
  lemma NamedStep(s: string, i: nat, end: nat, name: string)
    requires i < end <= |s| && forall k :: i < k < end ==> IsNameChar(s[k]) || !IsMention(s, k)
    ensures NamedBefore(s, end, name) <==> NamedBefore(s, i, name) || (IsMention(s, i) && NameAt(s, i) == name)
  {
    if NamedBefore(s, end, name) {
      var k: nat :| k < end && IsMention(s, k) && NameAt(s, k) == name;
      assert k <= i;
    }
    if NamedBefore(s, i, name) {
      var k: nat :| k < i && IsMention(s, k) && NameAt(s, k) == name;
      assert k < end;
    }
  }

  /** The scan finds every mention: an "@" inside a match is impossible, so none is skipped. */
  method MentionedNames(s: string) returns (names: set<string>)
    ensures forall name :: name in names <==> Names(s, name)
  {
    names := {};
    var i := 0;
    while i < |s|
      invariant 0 <= i <= |s|
      invariant forall name :: name in names <==> NamedBefore(s, i, name)
    {
      var matched, end := MatchAt(s, i);
      if matched {
        names := names + {LowerAll(s[i + 1..end])};
      } else {
        end := i + 1;
      }
      forall name ensures name in names <==> NamedBefore(s, end, name) {
        NamedStep(s, i, end, name);
      }
      i := end;
    }
  }

  /** Letters, digits and the underscore, by their codes. */
  predicate Nameable(c: char) {
    65 <= c as int <= 90 || 97 <= c as int <= 122 || 48 <= c as int <= 57 || c as int == 95
  }

  /** The name is that part of the text with its capitals turned into small letters. */
  predicate SmallOf(name: string, part: string) {
    && |name| == |part|
    && forall k :: 0 <= k < |part| ==>
         name[k] as int == part[k] as int + if 65 <= part[k] as int <= 90 then 32 else 0
  }

  lemma SmallIff(name: string, part: string)
    ensures name == LowerAll(part) <==> SmallOf(name, part)
  {
    if SmallOf(name, part) {
      forall k | 0 <= k < |part| ensures name[k] == LowerAll(part)[k] {
        assert name[k] as int == Lower(part[k]) as int;
      }
    }
  }

  /** An "@" at position i with n name characters after it, which the thirtieth or another character ends. */
  predicate Spelled(s: string, i: nat, n: nat) {
    && i < |s| && s[i] == '@' && i + 1 + n <= |s| && 3 <= n <= 30
    && (forall k :: i < k <= i + n ==> Nameable(s[k]))
    && (n == 30 || i + 1 + n == |s| || !Nameable(s[i + 1 + n]))
  }

  lemma {:induction false} RunEnds(s: string, i: nat)
    ensures i + NameRun(s, i) < |s| ==> !IsNameChar(s[i + NameRun(s, i)])
    decreases |s| - i
  {
    if i < |s| && IsNameChar(s[i]) { RunEnds(s, i + 1); }
  }

  function Taken(s: string, i: nat): nat {
    if NameRun(s, i + 1) < MAX_NAME then NameRun(s, i + 1) else MAX_NAME
  }

  lemma MentionSpelled(s: string, i: nat)
    requires IsMention(s, i)
    ensures Spelled(s, i, Taken(s, i)) && NameAt(s, i) == LowerAll(s[i + 1..i + 1 + Taken(s, i)])
  {
    RunEnds(s, i + 1);
    forall k | i < k <= i + Taken(s, i) ensures Nameable(s[k]) { RunIsNames(s, i + 1, k - (i + 1)); }
  }

  lemma SpelledMention(s: string, i: nat, n: nat)
    requires Spelled(s, i, n)
    ensures IsMention(s, i) && n == Taken(s, i)
  {
    RunAtLeast(s, i + 1, n);
    if n < NameRun(s, i + 1) { RunIsNames(s, i + 1, n); }
  }

  /** The names of a text, spelled out: after an "@", 3 to 30 name characters, as many as there are, in lower case. */
  lemma NamesSpelled(s: string, name: string)
    ensures Names(s, name)
       <==> exists i: nat, n: nat :: Spelled(s, i, n) && SmallOf(name, s[i + 1..i + 1 + n])
  {
    if Names(s, name) {
      var i: nat :| i < |s| && IsMention(s, i) && NameAt(s, i) == name;
      MentionSpelled(s, i);
      SmallIff(name, s[i + 1..i + 1 + Taken(s, i)]);
    }
    if i: nat, n: nat :| Spelled(s, i, n) && SmallOf(name, s[i + 1..i + 1 + n]) {
      SmallIff(name, s[i + 1..i + 1 + n]);
      SpelledMention(s, i, n);
      MentionSpelled(s, i);
    }
  }
}
