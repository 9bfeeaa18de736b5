/** The text files both scripts share in the working directory. A file is
    absent or holds a sequence of lines; every write appends one line
    (`f.write(line + "\n")` in mode "a", which creates the file when it is
    missing), except the truncation at the start of main.py. */
module Ledgers {
  import opened Patterns

  /** A file: `None` when it does not exist, else its lines without terminators. */
  type File = Option<seq<string>>

  function Lines(f: File): seq<string> {
    match f
    case Some(lines) => lines
    case None => []
  }

  /** The file after appending each of `xs` in turn; appending nothing
      creates nothing. */
  function AppendAll(f: File, xs: seq<string>): (r: File)
    ensures xs != [] ==> r.Some?
    ensures Lines(r) == Lines(f) + xs
    ensures xs == [] ==> r == f
  {
    if xs == [] then f else Some(Lines(f) + xs)
  }

  class Workspace {
    var followers: File    // followers.txt: one username per line
    var failedUrls: File   // failed_urls.txt: one link per line
    var failedUrls2: File  // failed_urls2.txt: links the retry pass could not resolve

    constructor (followers: File, failedUrls: File, failedUrls2: File)
      ensures this.followers == followers
      ensures this.failedUrls == failedUrls
      ensures this.failedUrls2 == failedUrls2
    {
      this.followers := followers;
      this.failedUrls := failedUrls;
      this.failedUrls2 := failedUrls2;
    }

    /** `open(OUTPUT_FILE, "w").close()` and the same for FAILED_URLS_FILE. */
    method ClearOutputs()
      modifies this`followers, this`failedUrls
      ensures followers == Some([]) && failedUrls == Some([])
    {
      followers := Some([]);
      failedUrls := Some([]);
    }

    method AppendFollower(name: string)
      modifies this`followers
      ensures followers == Some(Lines(old(followers)) + [name])
    {
      followers := Some(Lines(followers) + [name]);
    }

    method AppendFailedUrl(url: string)
      modifies this`failedUrls
      ensures failedUrls == Some(Lines(old(failedUrls)) + [url])
    {
      failedUrls := Some(Lines(failedUrls) + [url]);
    }

    method AppendFailedUrl2(url: string)
      modifies this`failedUrls2
      ensures failedUrls2 == Some(Lines(old(failedUrls2)) + [url])
    {
      failedUrls2 := Some(Lines(failedUrls2) + [url]);
    }
  }

  // ---------------------------------------------------------------------
  // Routing outcomes to the two ledgers

  /** The success ledger entries a pass appends: the names resolved, in link order. */
  function Successes(outcomes: seq<Option<string>>): (r: seq<string>)
    ensures |r| <= |outcomes|
  {
    if outcomes == [] then []
    else
      var last := outcomes[|outcomes| - 1];
      Successes(outcomes[..|outcomes| - 1]) + if Truthy(last) then [last.value] else []
  }

  /** The failure ledger a run produces: the original links, in order, whose
      resolution yielded nothing. */
  function Failures(links: seq<string>, outcomes: seq<Option<string>>): (r: seq<string>)
    requires |links| == |outcomes|
    ensures |r| <= |links|
  {
    if outcomes == [] then []
    else
      var n := |outcomes| - 1;
      Failures(links[..n], outcomes[..n]) + if Truthy(outcomes[n]) then [] else [links[n]]
  }

  /** Every link lands in exactly one ledger. */
  lemma {:induction false} LedgersPartition(links: seq<string>, outcomes: seq<Option<string>>)
    requires |links| == |outcomes|
    ensures |Successes(outcomes)| + |Failures(links, outcomes)| == |links|
  {
    if outcomes != [] {
      var n := |outcomes| - 1;
      LedgersPartition(links[..n], outcomes[..n]);
    }
  }

  /** The failure ledger holds input links verbatim, never final URLs. */
  lemma {:induction false} FailuresAreInputLinks(links: seq<string>, outcomes: seq<Option<string>>)
    requires |links| == |outcomes|
    ensures forall u :: u in Failures(links, outcomes) ==> u in links
  {
    if outcomes != [] {
      var n := |outcomes| - 1;
      FailuresAreInputLinks(links[..n], outcomes[..n]);
      assert forall u :: u in links[..n] ==> u in links;
    }
  }

  /** Every entry of the success ledger is a non-empty name some link
      resolved to. */
  lemma {:induction false} SuccessesAreOutcomes(outcomes: seq<Option<string>>)
    ensures forall u :: u in Successes(outcomes) ==>
      u != [] && exists i :: 0 <= i < |outcomes| && outcomes[i] == Some(u)
  {
    if outcomes != [] {
      var n := |outcomes| - 1;
      SuccessesAreOutcomes(outcomes[..n]);
      assert forall i :: 0 <= i < n ==> outcomes[..n][i] == outcomes[i];
    }
  }

  /** One more outcome extends exactly one ledger by one entry. */
  lemma LedgersSnoc(links: seq<string>, outcomes: seq<Option<string>>, link: string, u: Option<string>)
    requires |links| == |outcomes|
    ensures Truthy(u) ==>
      && Successes(outcomes + [u]) == Successes(outcomes) + [u.value]
      && Failures(links + [link], outcomes + [u]) == Failures(links, outcomes)
    ensures !Truthy(u) ==>
      && Successes(outcomes + [u]) == Successes(outcomes)
      && Failures(links + [link], outcomes + [u]) == Failures(links, outcomes) + [link]
  {
    assert (outcomes + [u])[..|outcomes|] == outcomes;
    assert (links + [link])[..|links|] == links;
    assert Successes(outcomes) + [] == Successes(outcomes);
    assert Failures(links, outcomes) + [] == Failures(links, outcomes);
  }

  /** The three-link run: a hit, a miss, a hit. */
  lemma {:induction false} ThreeLinkRun(links: seq<string>, outcomes: seq<Option<string>>, first: string, third: string)
    requires |links| == |outcomes| == 3
    requires outcomes[0] == Some(first) && first != []
    requires outcomes[1] == None
    requires outcomes[2] == Some(third) && third != []
    ensures Successes(outcomes) == [first, third]
    ensures Failures(links, outcomes) == [links[1]]
  {
    var o1, l1 := [outcomes[0]], [links[0]];
    var o2, l2 := o1 + [outcomes[1]], l1 + [links[1]];
    LedgersSnoc([], [], links[0], outcomes[0]);
    assert [] + [outcomes[0]] == o1 && [] + [links[0]] == l1;
    LedgersSnoc(l1, o1, links[1], outcomes[1]);
    LedgersSnoc(l2, o2, links[2], outcomes[2]);
    assert o2 + [outcomes[2]] == outcomes && l2 + [links[2]] == links;
  }

  /** Appending entries one at a time, as both passes do. */
  lemma AppendAllSnoc(f: File, xs: seq<string>, x: string)
    ensures AppendAll(f, xs + [x]) == Some(Lines(AppendAll(f, xs)) + [x])
  {
    assert Lines(f) + (xs + [x]) == (Lines(f) + xs) + [x];
  }

  /** A freshly truncated file holds exactly what is appended to it. */
  lemma AppendAllToEmpty(xs: seq<string>)
    ensures AppendAll(Some([]), xs) == Some(xs)
  {
    assert [] + xs == xs;
  }

  /** One step of either pass: the ledgers after link `i`, seen from files
      `f` and `g` as they were before the first link, gain exactly the
      entry that link produces. */
  lemma LedgerStep(f: File, g: File, links: seq<string>, outcomes: seq<Option<string>>, i: nat)
    requires |links| == |outcomes| && i < |links|
    ensures Truthy(outcomes[i]) ==>
      && AppendAll(f, Successes(outcomes[..i + 1])) == Some(Lines(AppendAll(f, Successes(outcomes[..i]))) + [outcomes[i].value])
      && AppendAll(g, Failures(links[..i + 1], outcomes[..i + 1])) == AppendAll(g, Failures(links[..i], outcomes[..i]))
    ensures !Truthy(outcomes[i]) ==>
      && AppendAll(f, Successes(outcomes[..i + 1])) == AppendAll(f, Successes(outcomes[..i]))
      && AppendAll(g, Failures(links[..i + 1], outcomes[..i + 1])) == Some(Lines(AppendAll(g, Failures(links[..i], outcomes[..i]))) + [links[i]])
    ensures |Successes(outcomes[..i + 1])| == |Successes(outcomes[..i])| + if Truthy(outcomes[i]) then 1 else 0
    ensures |Failures(links[..i + 1], outcomes[..i + 1])| == |Failures(links[..i], outcomes[..i])| + if Truthy(outcomes[i]) then 0 else 1
  {
    assert outcomes[..i] + [outcomes[i]] == outcomes[..i + 1];
    assert links[..i] + [links[i]] == links[..i + 1];
    LedgersSnoc(links[..i], outcomes[..i], links[i], outcomes[i]);
    if Truthy(outcomes[i]) {
      AppendAllSnoc(f, Successes(outcomes[..i]), outcomes[i].value);
    } else {
      AppendAllSnoc(g, Failures(links[..i], outcomes[..i]), links[i]);
    }
  }
}
