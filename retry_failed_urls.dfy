/** retry_failed_urls.py: a second pass over failed_urls.txt. Each stripped,
    non-blank line is visited once more and resolved from its final URL
    alone (no settle loop, no page content); a name is appended to
    followers.txt and an unresolved link to failed_urls2.txt, while
    failed_urls.txt itself is only read. */
module RetryFailedUrls {
  import opened Patterns
  import opened Ledgers
  import Resolver

  // ---------------------------------------------------------------------
  // Line normalisation: `[line.strip() for line in infile if line.strip()]`

  /** The ASCII characters Python's `str.isspace` accepts: tab, line feed,
      vertical tab, form feed, carriage return, the four separators
      0x1C-0x1F, and space. */
  predicate IsSpace(c: char) {
    c == ' ' || ('\U{9}' <= c <= '\U{D}') || ('\U{1C}' <= c <= '\U{1F}')
  }

  /** No whitespace at either end. */
  predicate IsStripped(s: string) {
    s == [] || (!IsSpace(s[0]) && !IsSpace(s[|s| - 1]))
  }

  /** `s` without its leading whitespace. */
  function StripStart(s: string): (r: string)
    ensures |r| <= |s|
    ensures r == [] || !IsSpace(r[0])
  {
    if s != [] && IsSpace(s[0]) then StripStart(s[1..]) else s
  }

  /** `StripStart` keeps a suffix and removes only whitespace. */
  lemma {:induction false} StripStartShape(s: string)
    ensures StripStart(s) == s[|s| - |StripStart(s)|..]
    ensures forall i :: 0 <= i < |s| - |StripStart(s)| ==> IsSpace(s[i])
  {
    if s != [] && IsSpace(s[0]) {
      StripStartShape(s[1..]);
      assert forall i :: 1 <= i < |s| ==> s[i] == s[1..][i - 1];
    }
  }

  /** `s` without its trailing whitespace. */
  function StripEnd(s: string): (r: string)
    ensures |r| <= |s|
    ensures r == [] || !IsSpace(r[|r| - 1])
  {
    if s != [] && IsSpace(s[|s| - 1]) then StripEnd(s[..|s| - 1]) else s
  }

  /** `StripEnd` keeps a prefix and removes only whitespace. */
  lemma {:induction false} StripEndShape(s: string)
    ensures StripEnd(s) == s[..|StripEnd(s)|]
    ensures forall i :: |StripEnd(s)| <= i < |s| ==> IsSpace(s[i])
  {
    if s != [] && IsSpace(s[|s| - 1]) {
      StripEndShape(s[..|s| - 1]);
    }
  }

  /** `str.strip()`: `s` without its leading and trailing whitespace. */
  function Strip(s: string): (r: string)
    ensures IsStripped(r)
    ensures |r| <= |s|
  {
    var t := StripStart(s);
    StripEndShape(t);
    StripEnd(t)
  }

  /** What `strip` removes is whitespace at the two ends, and nothing else. */
  lemma StripShape(s: string)
    ensures exists i: nat :: OccursAt(s, Strip(s), i)
                             && (forall j :: 0 <= j < i ==> IsSpace(s[j]))
                             && (forall j :: i + |Strip(s)| <= j < |s| ==> IsSpace(s[j]))
  {
    var t := StripStart(s);
    var r := StripEnd(t);
    var i := |s| - |t|;
    StripStartShape(s);
    StripEndShape(t);
    assert s[i..i + |r|] == r;
    assert OccursAt(s, r, i);
    assert forall j :: 0 <= j < i ==> IsSpace(s[j]);
    forall j | i + |r| <= j < |s| ensures IsSpace(s[j]) {
      assert s[j] == t[j - i];
    }
    assert r == Strip(s);
  }

  /** Text that is already stripped is left alone. */
  lemma StripKeepsStripped(s: string)
    requires IsStripped(s)
    ensures Strip(s) == s
  {
  }

  /** Stripping twice is stripping once. */
  lemma StripIdempotent(s: string)
    ensures Strip(Strip(s)) == Strip(s)
  {
    StripKeepsStripped(Strip(s));
  }

  /** A trailing whitespace character never changes what `strip` returns. */
  lemma {:induction false} StripIgnoresTrailingSpace(s: string, c: char)
    requires IsSpace(c)
    ensures Strip(s + [c]) == Strip(s)
    decreases |s|
  {
    if s == [] {
      assert StripStart([c]) == StripStart([c][1..]);
    } else if IsSpace(s[0]) {
      assert (s + [c])[1..] == s[1..] + [c];
      StripIgnoresTrailingSpace(s[1..], c);
    } else {
      assert StripStart(s + [c]) == s + [c];
      assert (s + [c])[..|s|] == s;
    }
  }

  /** Line iteration keeps each line's "\n"; `strip` removes it again. */
  lemma StripIgnoresNewline(s: string)
    ensures Strip(s + "\n") == Strip(s)
  {
    StripIgnoresTrailingSpace(s, '\n');
  }

  /** The links of the retry pass, from the lines of failed_urls.txt. */
  function NormalizeLines(lines: seq<string>): (urls: seq<string>)
    ensures |urls| <= |lines|
  {
    if lines == [] then []
    else
      var t := Strip(lines[0]);
      (if t != [] then [t] else []) + NormalizeLines(lines[1..])
  }

  /** One line of failed_urls.txt: kept, stripped, exactly when something
      other than whitespace is left of it; dropped otherwise. */
  lemma {:induction false} NormalizeLinesOne(line: string)
    ensures NormalizeLines([line]) == if Strip(line) == [] then [] else [Strip(line)]
  {
    assert [line][1..] == [];
  }

  /** Every link of the retry pass is a non-empty, stripped line. */
  lemma {:induction false} NormalizeLinesShape(lines: seq<string>)
    ensures forall i :: 0 <= i < |NormalizeLines(lines)| ==>
      NormalizeLines(lines)[i] != [] && IsStripped(NormalizeLines(lines)[i])
  {
    if lines != [] {
      NormalizeLinesShape(lines[1..]);
    }
  }

  /** Normalisation keeps the file's order: it distributes over concatenation. */
  lemma {:induction false} NormalizeLinesAppend(a: seq<string>, b: seq<string>)
    ensures NormalizeLines(a + b) == NormalizeLines(a) + NormalizeLines(b)
  {
    if a == [] {
      assert a + b == b;
    } else {
      assert (a + b)[0] == a[0];
      assert (a + b)[1..] == a[1..] + b;
      NormalizeLinesAppend(a[1..], b);
    }
  }

  /** A ledger written by main.py, one stripped non-empty link per line,
      reads back as exactly those links. */
  lemma {:induction false} NormalizeLinesReadBack(entries: seq<string>)
    requires forall i :: 0 <= i < |entries| ==> entries[i] != [] && IsStripped(entries[i])
    ensures NormalizeLines(entries) == entries
  {
    if entries != [] {
      StripKeepsStripped(entries[0]);
      NormalizeLinesReadBack(entries[1..]);
    }
  }

  /** A line of whitespace only strips to nothing. */
  lemma {:induction false} AllSpaceStripsToEmpty(s: string)
    requires forall j :: 0 <= j < |s| ==> IsSpace(s[j])
    ensures Strip(s) == []
  {
    if s != [] {
      AllSpaceStripsToEmpty(s[1..]);
    }
  }

  /** Blank lines (empty or whitespace only) contribute nothing. */
  lemma {:induction false} NormalizeLinesBlank(lines: seq<string>)
    requires forall i :: 0 <= i < |lines| ==> forall j :: 0 <= j < |lines[i]| ==> IsSpace(lines[i][j])
    ensures NormalizeLines(lines) == []
  {
    if lines != [] {
      AllSpaceStripsToEmpty(lines[0]);
      NormalizeLinesBlank(lines[1..]);
    }
  }

  // ---------------------------------------------------------------------
  // Resolution from the URL alone

  /** `get_username_from_url` of retry_failed_urls.py after navigation: the
      query parameter, else the path segment unless reserved. */
  function RetryUrlUsername(url: string): (r: Option<string>)
    ensures r == Resolver.UrlUsername(url)
  {
    var screenName := Group(Search(url, Resolver.ScreenNameKey, NotAmpersand));
    if screenName.Some? then screenName
    else
      var path := Group(Search(url, Resolver.ProfilePrefix, NotSlashOrQuestion));
      if path.Some? && path.value !in Resolver.ReservedPaths then path else None
  }

  /** What the browser contributes to one retry: whether `driver.get` or the
      read of `current_url` raised, and the URL read three seconds later. */
  datatype RetryVisit = RetryVisit(navigationFault: bool, finalUrl: string)

  /** A raised exception yields `None`, which routes the link to failed_urls2.txt. */
  function RetryResolution(v: RetryVisit): (r: Option<string>)
    ensures r.Some? ==> r.value != [] && !v.navigationFault
  {
    if v.navigationFault then None else RetryUrlUsername(v.finalUrl)
  }

  /** A retry without an exception answers with main.py's URL rules on its
      final URL; an exception yields nothing. */
  lemma RetryResolvesByUrl(v: RetryVisit)
    ensures !v.navigationFault ==> RetryResolution(v) == Resolver.UrlUsername(v.finalUrl)
    ensures v.navigationFault ==> RetryResolution(v).None?
  {
  }

  /** The page is never consulted: a retry resolves a link exactly when main.py's
      URL strategies would on the same final URL. In particular a link main.py
      failed on is only recovered when the browser lands on a different URL. */
  lemma {:induction false} RetryAgreesWithMain(v: Resolver.Visit, rv: RetryVisit)
    requires Resolver.WellFormed(v) && !v.navigationFault && !rv.navigationFault
    requires rv.finalUrl == Resolver.Settle(v.urlReads, v.pollBudget).finalUrl
    ensures Resolver.UrlUsername(rv.finalUrl).Some? ==> RetryResolution(rv) == Resolver.Resolution(v)
    ensures Resolver.Resolution(v).None? ==> RetryResolution(rv).None?
  {
  }

  /** `get_username_from_url` of retry_failed_urls.py. */
  method GetUsernameFromUrl(v: RetryVisit) returns (username: Option<string>)
    ensures username == RetryResolution(v)
  {
    if v.navigationFault {
      return None;
    }
    var finalUrl := v.finalUrl;
    username := RetryUrlUsername(finalUrl);
  }

  /** What each retry visit returns, in order. */
  function RetryOutcomes(visits: seq<RetryVisit>): (r: seq<Option<string>>)
    ensures |r| == |visits|
    ensures forall i :: 0 <= i < |r| ==> r[i] == RetryResolution(visits[i])
  {
    seq(|visits|, i requires 0 <= i < |visits| => RetryResolution(visits[i]))
  }

  // ---------------------------------------------------------------------
  // The pass

  /** The loop of main() in retry_failed_urls.py: resolve every link in
      order and append the name to followers.txt or the stripped link to
      failed_urls2.txt. */
  method RetryAll(w: Workspace, urls: seq<string>, visits: seq<RetryVisit>)
    requires |urls| == |visits|
    modifies w`followers, w`failedUrls2
    ensures w.followers == AppendAll(old(w.followers), Successes(RetryOutcomes(visits)))
    ensures w.failedUrls2 == AppendAll(old(w.failedUrls2), Failures(urls, RetryOutcomes(visits)))
  {
    ghost var followers0, failedUrls20 := w.followers, w.failedUrls2;
    ghost var outcomes := RetryOutcomes(visits);
    for i := 0 to |urls|
      invariant w.followers == AppendAll(followers0, Successes(outcomes[..i]))
      invariant w.failedUrls2 == AppendAll(failedUrls20, Failures(urls[..i], outcomes[..i]))
    {
      var username := GetUsernameFromUrl(visits[i]);
      assert outcomes[i] == username;
      LedgerStep(followers0, failedUrls20, urls, outcomes, i);
      if Truthy(username) {
        w.AppendFollower(username.value);
      } else {
        w.AppendFailedUrl2(urls[i]);
      }
    }
    assert urls[..|urls|] == urls && outcomes[..|urls|] == outcomes;
  }

  /** main() of retry_failed_urls.py after the browser is set up: stop if the
      login failed or failed_urls.txt is missing; otherwise run the loop over
      the normalised lines. Neither output is truncated. */
  method RunRetry(w: Workspace, loggedIn: bool, visits: seq<RetryVisit>)
    requires w.failedUrls.Some? ==> |visits| == |NormalizeLines(w.failedUrls.value)|
    modifies w`followers, w`failedUrls2
    ensures w.failedUrls == old(w.failedUrls)
    ensures !loggedIn || old(w.failedUrls).None? ==>
      w.followers == old(w.followers) && w.failedUrls2 == old(w.failedUrls2)
    ensures loggedIn && old(w.failedUrls).Some? ==>
      var urls := NormalizeLines(old(w.failedUrls).value);
      && w.followers == AppendAll(old(w.followers), Successes(RetryOutcomes(visits)))
      && w.failedUrls2 == AppendAll(old(w.failedUrls2), Failures(urls, RetryOutcomes(visits)))
    ensures old(w.failedUrls).Some? && NormalizeLines(old(w.failedUrls).value) == [] ==>
      w.followers == old(w.followers) && w.failedUrls2 == old(w.failedUrls2)
  {
    if !loggedIn {
      return;
    }
    if w.failedUrls.None? {
      return;
    }
    var urls := NormalizeLines(w.failedUrls.value);
    RetryAll(w, urls, visits);
  }
}
