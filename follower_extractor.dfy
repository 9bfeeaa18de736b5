/** main.py around the resolver: the user links taken from the follower
    export, and the run that truncates both ledgers, resolves every link in
    order and appends either the username or the original link. */
module FollowerExtractor {
  import opened Patterns
  import opened Resolver
  import opened Ledgers

  const UserLinkKey: string := "userLink"

  /** One element of the follower export: the object under its `follower`
      key, if the key is present, as a map from field names to strings. */
  datatype Record = Record(follower: Option<map<string, string>>)

  predicate HasLink(r: Record) {
    r.follower.Some? && UserLinkKey in r.follower.value
  }

  function LinkOf(r: Record): string
    requires HasLink(r)
  {
    r.follower.value[UserLinkKey]
  }

  /** The `userLink` of each record that has a `follower` holding one, in order. */
  function UserLinks(items: seq<Record>): (links: seq<string>)
    ensures |links| <= |items|
    ensures forall l :: l in links ==>
      exists i :: 0 <= i < |items| && HasLink(items[i]) && LinkOf(items[i]) == l
  {
    if items == [] then []
    else
      var rest := UserLinks(items[1..]);
      assert forall l :: l in rest ==>
        exists i :: 0 <= i < |items[1..]| && HasLink(items[1..][i]) && LinkOf(items[1..][i]) == l;
      if HasLink(items[0]) then [LinkOf(items[0])] + rest else rest
  }

  /** Link extraction preserves order: it distributes over concatenation. */
  lemma {:induction false} UserLinksAppend(a: seq<Record>, b: seq<Record>)
    ensures UserLinks(a + b) == UserLinks(a) + UserLinks(b)
  {
    if a != [] {
      assert (a + b)[0] == a[0];
      assert (a + b)[1..] == a[1..] + b;
      UserLinksAppend(a[1..], b);
    } else {
      assert a + b == b;
    }
  }

  /** When every record carries a link, nothing is dropped and nothing moves. */
  lemma {:induction false} UserLinksAllLinked(items: seq<Record>)
    requires forall i :: 0 <= i < |items| ==> HasLink(items[i])
    ensures |UserLinks(items)| == |items|
    ensures forall i :: 0 <= i < |items| ==> UserLinks(items)[i] == LinkOf(items[i])
  {
    if items != [] {
      UserLinksAllLinked(items[1..]);
    }
  }

  /** What `get_username_from_url` returns for each link, in order. */
  function Outcomes(visits: seq<Visit>): (r: seq<Option<string>>)
    requires forall i :: 0 <= i < |visits| ==> WellFormed(visits[i])
    ensures |r| == |visits|
  {
    if visits == [] then []
    else Outcomes(visits[..|visits| - 1]) + [Resolution(visits[|visits| - 1])]
  }

  /** The `i`-th outcome is the resolution of the `i`-th visit. */
  lemma {:induction false} OutcomesAt(visits: seq<Visit>, i: nat)
    requires forall j :: 0 <= j < |visits| ==> WellFormed(visits[j])
    requires i < |visits|
    ensures Outcomes(visits)[i] == Resolution(visits[i])
  {
    var n := |visits| - 1;
    if i < n {
      OutcomesAt(visits[..n], i);
      assert visits[..n][i] == visits[i];
    }
  }

  /** `get_username_from_url(driver, url)` for the `i`-th link. */
  method ResolveLink(visits: seq<Visit>, i: nat) returns (username: Option<string>)
    requires forall j :: 0 <= j < |visits| ==> WellFormed(visits[j])
    requires i < |visits|
    ensures username == Outcomes(visits)[i]
  {
    username := GetUsernameFromUrl(visits[i]);
    OutcomesAt(visits, i);
  }

  /** The loop of main(): resolve every link in order, append the name to
      followers.txt or the original link to failed_urls.txt, count each
      outcome, and pause between links (counted in `waits`). */
  method ResolveAll(w: Workspace, links: seq<string>, visits: seq<Visit>)
    returns (successful: nat, failed: nat, waits: nat)
    requires |links| == |visits|
    requires forall i :: 0 <= i < |visits| ==> WellFormed(visits[i])
    modifies w`followers, w`failedUrls
    ensures w.followers == AppendAll(old(w.followers), Successes(Outcomes(visits)))
    ensures w.failedUrls == AppendAll(old(w.failedUrls), Failures(links, Outcomes(visits)))
    ensures successful == |Successes(Outcomes(visits))| && failed == |Failures(links, Outcomes(visits))|
    ensures waits == if |links| > 0 then |links| - 1 else 0
  {
    ghost var followers0, failedUrls0 := w.followers, w.failedUrls;
    ghost var outcomes := Outcomes(visits);
    successful, failed, waits := 0, 0, 0;
    for i := 0 to |links|
      invariant w.followers == AppendAll(followers0, Successes(outcomes[..i]))
      invariant w.failedUrls == AppendAll(failedUrls0, Failures(links[..i], outcomes[..i]))
      invariant successful == |Successes(outcomes[..i])| && failed == |Failures(links[..i], outcomes[..i])|
      invariant waits == if i == |links| && i > 0 then i - 1 else i
    {
      var username := ResolveLink(visits, i);
      LedgerStep(followers0, failedUrls0, links, outcomes, i);
      if Truthy(username) {
        w.AppendFollower(username.value);
        successful := successful + 1;
      } else {
        w.AppendFailedUrl(links[i]);
        failed := failed + 1;
      }
      if i < |links| - 1 {
        waits := waits + 1;
      }
    }
    assert links[..|links|] == links && outcomes[..|links|] == outcomes;
  }

  /** main(): extract the links from the parsed follower.json records,
      truncate both ledgers, log in, then run the loop; each extracted link
      lands in exactly one ledger. */
  method RunMain(w: Workspace, records: seq<Record>, visits: seq<Visit>, loggedIn: bool)
    returns (successful: nat, failed: nat, waits: nat)
    requires |UserLinks(records)| == |visits|
    requires forall i :: 0 <= i < |visits| ==> WellFormed(visits[i])
    modifies w`followers, w`failedUrls
    ensures w.followers == Some(if loggedIn then Successes(Outcomes(visits)) else [])
    ensures w.failedUrls == Some(if loggedIn then Failures(UserLinks(records), Outcomes(visits)) else [])
    ensures successful == |Lines(w.followers)| && failed == |Lines(w.failedUrls)|
    ensures successful + failed == if loggedIn then |UserLinks(records)| else 0
    ensures waits == if loggedIn && |visits| > 0 then |visits| - 1 else 0
  {
    var links := UserLinks(records);
    w.ClearOutputs();
    successful, failed, waits := 0, 0, 0;
    if !loggedIn {
      return;
    }
    successful, failed, waits := ResolveAll(w, links, visits);
    AppendAllToEmpty(Successes(Outcomes(visits)));
    AppendAllToEmpty(Failures(links, Outcomes(visits)));
    LedgersPartition(links, Outcomes(visits));
  }
}
