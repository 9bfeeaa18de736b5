/** The three regular expressions both scripts use all have the shape
    LIT([cls]+): a literal prefix followed by a captured, greedy, non-empty
    run of one character class. This module gives Python's `re.search`
    semantics for that shape over strings: the leftmost position where the
    literal occurs and is followed by at least one character of the class,
    and as captured group the maximal run of class characters after it. */
module Patterns {

  datatype Option<T> = None | Some(value: T)

  /** Python's truth test (`if username:`) on an optional string. */
  predicate Truthy(s: Option<string>) {
    s.Some? && s.value != []
  }

  /** The character classes that occur in the scripts' patterns. */
  datatype CharClass =
    | NotAmpersand          // [^&]
    | NotSlashOrQuestion    // [^/\?]
    | Word                  // \w, restricted to ASCII

  /** ASCII word characters: letters, digits and underscore. */
  predicate IsWordChar(c: char) {
    ('a' <= c <= 'z') || ('A' <= c <= 'Z') || ('0' <= c <= '9') || c == '_'
  }

  predicate InClass(c: char, k: CharClass) {
    match k
    case NotAmpersand => c != '&'
    case NotSlashOrQuestion => c != '/' && c != '?'
    case Word => IsWordChar(c)
  }

  /** The longest prefix of `s` made only of characters of class `k`
      (what a greedy `[cls]*` consumes). */
  function Run(s: string, k: CharClass): (r: string)
    ensures r <= s
    ensures forall i :: 0 <= i < |r| ==> InClass(r[i], k)
    ensures |r| < |s| ==> !InClass(s[|r|], k)
  {
    if s == [] || !InClass(s[0], k) then [] else [s[0]] + Run(s[1..], k)
  }

  /** `sub` occurs in `s` starting at position `i`. */
  predicate OccursAt(s: string, sub: string, i: nat) {
    i + |sub| <= |s| && s[i..i + |sub|] == sub
  }

  /** The pattern LIT([k]+) matches when started at position `i` of `s`. */
  predicate MatchesAt(s: string, lit: string, k: CharClass, i: nat) {
    i + |lit| < |s| && s[i..i + |lit|] == lit && InClass(s[i + |lit|], k)
  }

  /** `i` is the leftmost start of a match. */
  predicate IsLeftmost(s: string, lit: string, k: CharClass, i: nat) {
    MatchesAt(s, lit, k, i) && forall j: nat :: j < i ==> !MatchesAt(s, lit, k, j)
  }

  /** A successful search: where the match starts and what group 1 captured. */
  datatype Match = Match(start: nat, group: string)

  /** The start of the leftmost match at or after position `i`. */
  function FirstMatchFrom(s: string, lit: string, k: CharClass, i: nat): (r: Option<nat>)
    requires i <= |s|
    decreases |s| - i
    ensures r.Some? ==> i <= r.value && MatchesAt(s, lit, k, r.value)
    ensures r.Some? ==> forall j: nat :: i <= j < r.value ==> !MatchesAt(s, lit, k, j)
    ensures r.None? ==> forall j: nat :: i <= j ==> !MatchesAt(s, lit, k, j)
  {
    if i + |lit| >= |s| then
      assert forall j: nat :: i <= j ==> !MatchesAt(s, lit, k, j);
      None
    else if MatchesAt(s, lit, k, i) then
      Some(i)
    else
      FirstMatchFrom(s, lit, k, i + 1)
  }

  /** `re.search(LIT([k]+), s)`: the leftmost match, if any, with the
      maximal run of class characters after the literal as its group. */
  function Search(s: string, lit: string, k: CharClass): (r: Option<Match>)
    ensures r.Some? <==> exists j: nat :: MatchesAt(s, lit, k, j)
    ensures r.Some? ==> IsLeftmost(s, lit, k, r.value.start)
    ensures r.Some? ==> r.value.group == Run(s[r.value.start + |lit|..], k)
  {
    match FirstMatchFrom(s, lit, k, 0)
    case Some(start) => Some(Match(start, Run(s[start + |lit|..], k)))
    case None => None
  }

  /** `m.group(1)` when the search succeeded, `None` otherwise. */
  function Group(m: Option<Match>): Option<string> {
    match m
    case Some(x) => Some(x.group)
    case None => None
  }

  /** What a captured group looks like: non-empty, made of class characters
      only, found in `s` right after the literal, and not extendable. */
  lemma {:induction false} GroupShape(s: string, lit: string, k: CharClass)
    requires Search(s, lit, k).Some?
    ensures var m := Search(s, lit, k).value;
      var after := m.start + |lit|;
      && m.group != []
      && (forall i :: 0 <= i < |m.group| ==> InClass(m.group[i], k))
      && OccursAt(s, m.group, after)
      && OccursAt(s, lit, m.start)
      && (after + |m.group| < |s| ==> !InClass(s[after + |m.group|], k))
  {
    var m := Search(s, lit, k).value;
    var after := m.start + |lit|;
    var rest := s[after..];
    assert InClass(rest[0], k);
    assert m.group <= rest;
    assert rest[..|m.group|] == m.group;
  }

  /** A character outside the class never appears in a captured group. */
  lemma {:induction false} GroupAvoids(s: string, lit: string, k: CharClass, c: char)
    requires Search(s, lit, k).Some?
    requires !InClass(c, k)
    ensures c !in Search(s, lit, k).value.group
  {
    var g := Search(s, lit, k).value.group;
    forall x | 0 <= x < |g| ensures g[x] != c {
      assert InClass(g[x], k);
    }
  }

  /** No match starts before `i` when, for each such start, the character
      the literal would need at offset `x` is not there. */
  lemma {:induction false} NoMatchBefore(s: string, lit: string, k: CharClass, i: nat, x: nat)
    requires x < |lit|
    requires forall p :: x <= p < i + x && p < |s| ==> s[p] != lit[x]
    ensures forall j: nat :: j < i ==> !MatchesAt(s, lit, k, j)
  {
    forall j: nat | j < i ensures !MatchesAt(s, lit, k, j) {
      if j + |lit| < |s| {
        assert s[j + x] != lit[x];
        assert s[j..j + |lit|][x] == s[j + x];
      }
    }
  }

  /** No match at all when some character of the literal is missing from `s`. */
  lemma {:induction false} NoMatchWithout(s: string, lit: string, k: CharClass, c: char)
    requires c in lit && c !in s
    ensures forall j: nat :: !MatchesAt(s, lit, k, j)
  {
    var x :| 0 <= x < |lit| && lit[x] == c;
    forall j: nat ensures !OccursAt(s, lit, j) {
      if j + |lit| <= |s| {
        assert s[j..j + |lit|][x] == s[j + x];
      }
    }
  }

  /** The run is exactly `w` when `w` is made of class characters and is
      followed by the end of the string or by a character outside the class. */
  lemma {:induction false} RunIs(w: string, t: string, k: CharClass)
    requires forall i :: 0 <= i < |w| ==> InClass(w[i], k)
    requires t == [] || !InClass(t[0], k)
    ensures Run(w + t, k) == w
  {
    var r := Run(w + t, k);
    assert forall i :: 0 <= i < |w| ==> (w + t)[i] == w[i];
    assert t != [] ==> (w + t)[|w|] == t[0];
    assert |r| == |w|;
    assert r == (w + t)[..|w|] == w;
  }

  /** Two leftmost starts are the same start. */
  lemma LeftmostUnique(s: string, lit: string, k: CharClass, i: nat, j: nat)
    requires IsLeftmost(s, lit, k, i) && IsLeftmost(s, lit, k, j)
    ensures i == j
  {
  }

  /** Characterisation of `Search` without reference to its definition:
      any leftmost start determines the result. */
  lemma {:induction false} SearchAt(s: string, lit: string, k: CharClass, i: nat)
    requires IsLeftmost(s, lit, k, i)
    ensures Search(s, lit, k) == Some(Match(i, Run(s[i + |lit|..], k)))
  {
    var r := Search(s, lit, k);
    assert r.Some?;
    LeftmostUnique(s, lit, k, i, r.value.start);
  }
}
