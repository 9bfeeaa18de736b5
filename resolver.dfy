/** `get_username_from_url` of main.py: navigate, let client-side redirects
    settle, then try the extraction strategies in priority order: the
    `screen_name` query parameter, the first path segment after `x.com/`, and
    the rendered page (title, then the first meta content holding `@`, then
    the first div/span/a text holding `@`). The browser is replaced by the
    values it would have produced: the successive reads of `current_url`, the
    page contents, and the point at which it raised, if it did. */
module Resolver {
  import opened Patterns

  const ScreenNameKey: string := "screen_name="
  const ProfilePrefix: string := "x.com/"
  /** Path segments that are platform routes, not user names. */
  const ReservedPaths: seq<string> := ["intent", "i", "user"]
  const HandleMark: string := "@"

  // ---------------------------------------------------------------------
  // Strategies 1 and 2: the final URL alone

  /** `re.search(r'screen_name=([^&]+)', url).group(1)`. */
  function ScreenNameValue(url: string): Option<string> {
    Group(Search(url, ScreenNameKey, NotAmpersand))
  }

  /** `re.search(r'x\.com/([^/\?]+)', url).group(1)`; the host is not anchored. */
  function PathSegment(url: string): Option<string> {
    Group(Search(url, ProfilePrefix, NotSlashOrQuestion))
  }

  /** The URL-only strategies: the query parameter wins; otherwise the path
      segment, unless it is a reserved route. */
  function UrlUsername(url: string): (r: Option<string>)
    ensures r.Some? ==> r.value != []
    ensures r.Some? && ScreenNameValue(url).None? ==> r.value !in ReservedPaths
  {
    match ScreenNameValue(url)
    case Some(name) =>
      GroupShape(url, ScreenNameKey, NotAmpersand);
      Some(name)
    case None =>
      match PathSegment(url)
      case Some(segment) =>
        GroupShape(url, ProfilePrefix, NotSlashOrQuestion);
        if segment in ReservedPaths then None else Some(segment)
      case None => None
  }

  /** With a `screen_name=` match, its value is the answer, whatever the path holds. */
  lemma {:induction false} ScreenNameWins(url: string, i: nat)
    requires IsLeftmost(url, ScreenNameKey, NotAmpersand, i)
    ensures UrlUsername(url) == Some(Run(url[i + |ScreenNameKey|..], NotAmpersand))
  {
    SearchAt(url, ScreenNameKey, NotAmpersand, i);
  }

  /** Without a `screen_name=` match, the leftmost `x.com/` segment decides:
      it is the answer unless it is reserved, and a reserved segment is not
      passed over in favour of a later `x.com/name`. */
  lemma {:induction false} PathDecides(url: string, i: nat)
    requires forall j: nat :: !MatchesAt(url, ScreenNameKey, NotAmpersand, j)
    requires IsLeftmost(url, ProfilePrefix, NotSlashOrQuestion, i)
    ensures var segment := Run(url[i + |ProfilePrefix|..], NotSlashOrQuestion);
      UrlUsername(url) == if segment in ReservedPaths then None else Some(segment)
  {
    SearchAt(url, ProfilePrefix, NotSlashOrQuestion, i);
  }

  /** A URL holding neither pattern yields nothing. */
  lemma NeitherPatternNothing(url: string)
    requires forall j: nat :: !MatchesAt(url, ScreenNameKey, NotAmpersand, j)
    requires forall j: nat :: !MatchesAt(url, ProfilePrefix, NotSlashOrQuestion, j)
    ensures UrlUsername(url) == None
  {
  }

  /** Every URL-derived name is non-empty, occurs in the URL, and holds no
      `&` (query value) or no `/` and `?` (path segment). */
  lemma {:induction false} UrlUsernameShape(url: string)
    requires UrlUsername(url).Some?
    ensures var name := UrlUsername(url).value;
      && name != []
      && (exists i: nat :: OccursAt(url, name, i))
      && (if ScreenNameValue(url).Some? then '&' !in name else '/' !in name && '?' !in name)
  {
    if ScreenNameValue(url).Some? {
      GroupShape(url, ScreenNameKey, NotAmpersand);
      GroupAvoids(url, ScreenNameKey, NotAmpersand, '&');
    } else {
      GroupShape(url, ProfilePrefix, NotSlashOrQuestion);
      GroupAvoids(url, ProfilePrefix, NotSlashOrQuestion, '/');
      GroupAvoids(url, ProfilePrefix, NotSlashOrQuestion, '?');
    }
  }

  /** A string holding no `@` has no handle token. */
  lemma {:induction false} NoMarkNoHandle(s: string)
    requires '@' !in s
    ensures HandleToken(s) == None
  {
    NoMatchWithout(s, HandleMark, Word, '@');
  }

  /** The pattern facts of a link "<front>x.com/<segment><tail>" whose front
      holds no `x`: no `screen_name=`, the leftmost `x.com/` right after the
      front, and the segment as the captured run. */
  lemma {:induction false} ProfileUrlMatches(front: string, segment: string, tail: string)
    requires 'x' !in front && '=' !in front
    requires segment != []
    requires forall i :: 0 <= i < |segment| ==> segment[i] != '/' && segment[i] != '?' && segment[i] != '='
    requires '=' !in tail && (tail == [] || tail[0] == '/' || tail[0] == '?')
    ensures var url := front + ProfilePrefix + segment + tail;
      && (forall j: nat :: !MatchesAt(url, ScreenNameKey, NotAmpersand, j))
      && IsLeftmost(url, ProfilePrefix, NotSlashOrQuestion, |front|)
      && Run(url[|front| + |ProfilePrefix|..], NotSlashOrQuestion) == segment
  {
    var url := front + ProfilePrefix + segment + tail;
    var n := |front|;
    assert url[..n] == front && url[n..n + 6] == ProfilePrefix && url[n + 6..] == segment + tail;
    assert forall p :: 0 <= p < n ==> url[p] == front[p];
    assert '=' !in url by {
      assert '=' !in ProfilePrefix && '=' !in segment;
    }
    NoMatchWithout(url, ScreenNameKey, NotAmpersand, '=');
    NoMatchBefore(url, ProfilePrefix, NotSlashOrQuestion, n, 0);
    RunIs(segment, tail, NotSlashOrQuestion);
  }

  /** A profile link resolves to its path segment, whatever the name, as
      long as it holds no `/`, `?` or `=` and is not a reserved route. */
  lemma ProfileLink(name: string)
    requires name != [] && name !in ReservedPaths
    requires forall i :: 0 <= i < |name| ==> name[i] != '/' && name[i] != '?' && name[i] != '='
    ensures UrlUsername("https://x.com/" + name) == Some(name)
  {
    ProfileUrlMatches("https://", name, "");
    assert "https://" + ProfilePrefix == "https://x.com/";
    assert "https://x.com/" + name + "" == "https://x.com/" + name;
    PathDecides("https://x.com/" + name, 8);
  }

  /** The host is not anchored: any host ending in `x.com` is read as a
      profile link too. */
  lemma UnanchoredHost(name: string)
    requires name != [] && name !in ReservedPaths
    requires forall i :: 0 <= i < |name| ==> name[i] != '/' && name[i] != '?' && name[i] != '='
    ensures UrlUsername("https://fox.com/" + name) == Some(name)
  {
    ProfileUrlMatches("https://fo", name, "");
    assert "https://fo" + ProfilePrefix == "https://fox.com/";
    assert "https://fox.com/" + name + "" == "https://fox.com/" + name;
    PathDecides("https://fox.com/" + name, 10);
  }

  /** The reserved routes are themselves well-formed path segments. */
  lemma ReservedAreSegments(segment: string)
    requires segment in ReservedPaths
    ensures segment != []
    ensures forall i :: 0 <= i < |segment| ==> segment[i] != '/' && segment[i] != '?' && segment[i] != '='
  {
    assert segment == "intent" || segment == "i" || segment == "user";
  }

  /** A reserved first segment (`intent`, `i` or `user`) yields nothing from
      the URL, even when a profile link follows later in it; main.py then
      falls back to the page. */
  lemma ReservedRoute(segment: string, tail: string)
    requires segment in ReservedPaths
    requires '=' !in tail && (tail == [] || tail[0] == '/' || tail[0] == '?')
    ensures UrlUsername("https://x.com/" + segment + tail) == None
  {
    ReservedAreSegments(segment);
    ProfileUrlMatches("https://", segment, tail);
    assert "https://" + ProfilePrefix == "https://x.com/";
    PathDecides("https://x.com/" + segment + tail, 8);
  }

  /** The pattern facts of an intent link: its `screen_name=` starts at 26
      and captures the value up to the next `&`. */
  lemma {:induction false} IntentUrlMatches(name: string, more: string)
    requires name != [] && '&' !in name
    requires more == [] || more[0] == '&'
    ensures var url := "https://x.com/intent/user?screen_name=" + name + more;
      && IsLeftmost(url, ScreenNameKey, NotAmpersand, 26)
      && Run(url[38..], NotAmpersand) == name
  {
    var host := "https://x.com/intent/user?screen_name=";
    var url := host + name + more;
    assert url[..38] == host && url[38..] == name + more;
    assert forall p :: 0 <= p < 38 ==> url[p] == host[p];
    NoMatchBefore(url, ScreenNameKey, NotAmpersand, 26, 11);
    assert url[26..38] == ScreenNameKey;
    RunIs(name, more, NotAmpersand);
  }

  /** A link to the follow intent resolves to its `screen_name` value, which
      ends at the next `&`, although the path starts with the reserved `intent`. */
  lemma IntentLink(name: string, more: string)
    requires name != [] && '&' !in name
    requires more == [] || more[0] == '&'
    ensures UrlUsername("https://x.com/intent/user?screen_name=" + name + more) == Some(name)
  {
    IntentUrlMatches(name, more);
    ScreenNameWins("https://x.com/intent/user?screen_name=" + name + more, 26);
  }

  // ---------------------------------------------------------------------
  // Strategy 3: the rendered page

  /** What the page offers: its title, the `content` attributes of its meta
      tags and the text of its div/span/a elements, in document order. */
  datatype Page = Page(title: string, metas: seq<string>, texts: seq<string>)

  /** Where in the content stage the session raised, if it did: while waiting
      for the body or reading the title, in the meta script, or in the
      element script. The exception is caught and the stage yields nothing. */
  datatype Fault = NoFault | BeforeTitle | InMetaScript | InTextScript

  /** `re.search(r'@(\w+)', s).group(1)`. */
  function HandleToken(s: string): (r: Option<string>)
    ensures r.Some? ==> r.value != [] && '@' in s
  {
    var m := Search(s, HandleMark, Word);
    if m.Some? then
      GroupShape(s, HandleMark, Word);
      assert s[m.value.start..m.value.start + 1] == HandleMark;
      assert s[m.value.start] == '@';
      Group(m)
    else
      Group(m)
  }

  /** The first string holding an `@`, as the page scripts return it. */
  function FirstWithMark(xs: seq<string>): (r: Option<string>)
    ensures r.Some? ==> '@' in r.value
    ensures r.Some? ==>
      exists i :: 0 <= i < |xs| && xs[i] == r.value && (forall j :: 0 <= j < i ==> '@' !in xs[j])
    ensures r.None? <==> forall i :: 0 <= i < |xs| ==> '@' !in xs[i]
  {
    if xs == [] then None
    else if '@' in xs[0] then Some(xs[0])
    else
      var r := FirstWithMark(xs[1..]);
      assert r.Some? ==>
        exists i :: 0 <= i < |xs[1..]| && xs[1..][i] == r.value && (forall j :: 0 <= j < i ==> '@' !in xs[1..][j]);
      r
  }

  /** The handle token of the first string holding an `@`; later strings are
      never looked at, even when that first one has no token. */
  function TokenOfFirst(xs: seq<string>): (r: Option<string>)
    ensures r.Some? ==> r.value != [] && FirstWithMark(xs).Some?
  {
    match FirstWithMark(xs)
    case Some(x) => HandleToken(x)
    case None => None
  }

  /** The content chain of main.py: title (only when it holds an `@`), then
      meta contents, then element texts; a fault ends the chain. */
  function ContentUsername(p: Page, f: Fault): (r: Option<string>)
    ensures r.Some? ==> r.value != [] && f != BeforeTitle
  {
    if f == BeforeTitle then None
    else
      var fromTitle := if '@' in p.title then HandleToken(p.title) else None;
      if fromTitle.Some? then fromTitle
      else if f == InMetaScript then None
      else
        var fromMeta := TokenOfFirst(p.metas);
        if fromMeta.Some? then fromMeta
        else if f == InTextScript then None
        else TokenOfFirst(p.texts)
  }

  /** A title handle wins over every meta and element; the `@` test on the
      title only skips titles that could not match anyway. */
  lemma {:induction false} TitleFirst(p: Page, f: Fault)
    requires f != BeforeTitle
    requires HandleToken(p.title).Some?
    ensures ContentUsername(p, f) == HandleToken(p.title)
  {
  }

  /** Once an entry holding `@` is reached, nothing after it matters. */
  lemma {:induction false} FirstWithMarkPrefix(xs: seq<string>, i: nat, rest: seq<string>)
    requires i < |xs| && '@' in xs[i]
    ensures FirstWithMark(xs[..i + 1] + rest) == FirstWithMark(xs)
    decreases i
  {
    if '@' !in xs[0] {
      assert (xs[..i + 1] + rest)[1..] == xs[1..][..i] + rest;
      FirstWithMarkPrefix(xs[1..], i - 1, rest);
      assert xs[1..][..i] == xs[1..][..i - 1 + 1];
    }
  }

  /** Only the first meta content holding `@` is examined: the metas after
      it can be anything. */
  lemma {:induction false} LaterMetasIgnored(p: Page, f: Fault, i: nat, rest: seq<string>)
    requires i < |p.metas| && '@' in p.metas[i]
    ensures ContentUsername(p.(metas := p.metas[..i + 1] + rest), f) == ContentUsername(p, f)
  {
    FirstWithMarkPrefix(p.metas, i, rest);
  }

  /** Only the first element text holding `@` is examined. */
  lemma {:induction false} LaterTextsIgnored(p: Page, f: Fault, i: nat, rest: seq<string>)
    requires i < |p.texts| && '@' in p.texts[i]
    ensures ContentUsername(p.(texts := p.texts[..i + 1] + rest), f) == ContentUsername(p, f)
  {
    FirstWithMarkPrefix(p.texts, i, rest);
  }

  /** Without a title handle, a meta handle beats every element text, and a
      fault in the element script no longer matters. */
  lemma {:induction false} MetaBeforeTexts(p: Page, f: Fault, texts: seq<string>)
    requires f != BeforeTitle && f != InMetaScript
    requires HandleToken(p.title).None? && TokenOfFirst(p.metas).Some?
    ensures ContentUsername(p.(texts := texts), f) == TokenOfFirst(p.metas)
  {
  }

  /** Element texts are the last resort: consulted only when neither the
      title nor any meta yields a handle, and lost if their script raises. */
  lemma {:induction false} TextsLast(p: Page)
    requires HandleToken(p.title).None? && TokenOfFirst(p.metas).None?
    ensures ContentUsername(p, NoFault) == TokenOfFirst(p.texts)
    ensures ContentUsername(p, InTextScript).None?
  {
  }

  /** The meta and element steps answer with the handle token of the first
      entry holding `@`, found or not. */
  lemma {:induction false} TokenOfFirstAt(xs: seq<string>, i: nat)
    requires i < |xs| && '@' in xs[i]
    requires forall j :: 0 <= j < i ==> '@' !in xs[j]
    ensures TokenOfFirst(xs) == HandleToken(xs[i])
  {
    var r := FirstWithMark(xs);
    assert r.Some?;
    var k :| 0 <= k < |xs| && xs[k] == r.value && (forall j :: 0 <= j < k ==> '@' !in xs[j]);
    assert '@' in xs[k];
    assert !(k < i) && !(i < k);
  }

  /** Without a title handle, a fault in the meta script ends the content
      stage with nothing, whatever the metas and texts hold. */
  lemma MetaFaultLosesRest(p: Page)
    requires HandleToken(p.title).None?
    ensures ContentUsername(p, InMetaScript).None?
  {
  }

  /** A fault can only lose a name, never produce a different one. */
  lemma FaultNeverInvents(p: Page, f: Fault)
    requires ContentUsername(p, f).Some?
    ensures ContentUsername(p, f) == ContentUsername(p, NoFault)
  {
  }

  /** A content-derived name is a non-empty run of word characters that
      follows an `@` in the title, a meta content or an element text. */
  lemma {:induction false} ContentUsernameShape(p: Page, f: Fault)
    requires ContentUsername(p, f).Some?
    ensures var name := ContentUsername(p, f).value;
      && name != []
      && (forall i :: 0 <= i < |name| ==> IsWordChar(name[i]))
      && exists s :: (s == p.title || s in p.metas || s in p.texts) && HandleToken(s) == Some(name)
  {
    var name := ContentUsername(p, f).value;
    var s;
    if '@' in p.title && HandleToken(p.title).Some? {
      s := p.title;
    } else if TokenOfFirst(p.metas).Some? {
      s := FirstWithMark(p.metas).value;
    } else {
      s := FirstWithMark(p.texts).value;
    }
    assert HandleToken(s) == Some(name);
    assert Search(s, HandleMark, Word).Some?;
    GroupShape(s, HandleMark, Word);
  }

  /** In a profile title "Name (@handle) / X" whose display name holds no
      `@`, the search for `@(\w+)` stops at the handle's `@` and captures it. */
  lemma {:induction false} ProfileTitleSearch(display: string, handle: string)
    requires '@' !in display
    requires handle != [] && forall i :: 0 <= i < |handle| ==> IsWordChar(handle[i])
    ensures Search(display + " (@" + handle + ") / X", HandleMark, Word) == Some(Match(|display| + 2, handle))
  {
    var title := display + " (@" + handle + ") / X";
    var at := |display| + 2;
    assert title[..at] == display + " (";
    assert title[at + 1..] == handle + ") / X";
    assert forall p :: 0 <= p < at ==> title[p] == (display + " (")[p];
    NoMatchBefore(title, HandleMark, Word, at, 0);
    assert title[at..at + 1] == HandleMark;
    SearchAt(title, HandleMark, Word, at);
    RunIs(handle, ") / X", Word);
  }

  /** The handle token of a profile title "Name (@handle) / X" is the
      handle, when the display name holds no `@`. */
  lemma {:induction false} ProfileTitleHandle(display: string, handle: string)
    requires '@' !in display
    requires handle != [] && forall i :: 0 <= i < |handle| ==> IsWordChar(handle[i])
    ensures HandleToken(display + " (@" + handle + ") / X") == Some(handle)
  {
    ProfileTitleSearch(display, handle);
  }

  /** Such a title decides the content stage, whatever the metas and texts hold. */
  lemma ProfileTitle(display: string, handle: string, metas: seq<string>, texts: seq<string>)
    requires '@' !in display
    requires handle != [] && forall i :: 0 <= i < |handle| ==> IsWordChar(handle[i])
    ensures ContentUsername(Page(display + " (@" + handle + ") / X", metas, texts), NoFault) == Some(handle)
  {
    ProfileTitleHandle(display, handle);
    TitleFirst(Page(display + " (@" + handle + ") / X", metas, texts), NoFault);
  }

  // ---------------------------------------------------------------------
  // Redirect settling

  /** The loop state of main.py:194-206 at its exit: the URL last assigned to
      `current_url`, the index of the next read of `driver.current_url`, the
      number of polls (loop bodies run), and whether the loop left by `break`
      (the URL was seen unchanged) rather than by running out of time. */
  datatype PollExit = PollExit(current: string, next: nat, polls: nat, stable: bool)

  /** Enough reads for `budget` polls from state (`next`, `polls`): each
      poll reads once to compare and once more to assign when the URL moved,
      and one read follows the loop. */
  predicate ReadsSuffice(observed: seq<string>, budget: nat, next: nat, polls: nat) {
    polls <= budget && next + 2 * (budget - polls) < |observed|
  }

  /** The polling loop run from a state: `observed[n]` is what the n-th read of
      `driver.current_url` returns, and `budget` stands for the number of
      one-second polls that fit in the ten-second ceiling. */
  function Poll(observed: seq<string>, budget: nat, current: string, next: nat, polls: nat): (r: PollExit)
    requires 1 <= next && ReadsSuffice(observed, budget, next, polls)
    requires current == observed[next - 1]
    decreases budget - polls
    ensures polls <= r.polls <= budget
    ensures r.stable || r.polls == budget
    ensures next <= r.next < |observed|
    ensures r.next == next + 2 * (r.polls - polls) - (if r.stable then 1 else 0)
    ensures r.current == observed[r.next - 1]
    ensures r.stable ==> 2 <= r.next && observed[r.next - 1] == observed[r.next - 2]
  {
    if polls == budget then PollExit(current, next, polls, false)
    else if observed[next] != current then Poll(observed, budget, observed[next + 1], next + 2, polls + 1)
    else PollExit(current, next + 1, polls + 1, true)
  }

  /** Every poll but a final stable one saw the URL move: the q-th poll from
      the state compares read `next + 2q` against the URL assigned just
      before it, read `next + 2q - 1`. */
  lemma {:induction false} PollMoves(observed: seq<string>, budget: nat, current: string, next: nat, polls: nat)
    requires 1 <= next && ReadsSuffice(observed, budget, next, polls)
    requires current == observed[next - 1]
    ensures var r := Poll(observed, budget, current, next, polls);
      forall q :: 0 <= q < r.polls - polls - (if r.stable then 1 else 0) ==>
        observed[next + 2 * q] != observed[next + 2 * q - 1]
    decreases budget - polls
  {
    var r := Poll(observed, budget, current, next, polls);
    if polls < budget && observed[next] != current {
      PollMoves(observed, budget, observed[next + 1], next + 2, polls + 1);
      forall q | 0 <= q < r.polls - polls - (if r.stable then 1 else 0)
        ensures observed[next + 2 * q] != observed[next + 2 * q - 1]
      {
        if q > 0 {
          var q' := q - 1;
          assert next + 2 * q == next + 2 + 2 * q';
        }
      }
    }
  }

  /** What the settle phase hands to extraction: `final_url`, a fresh read
      taken after the loop, with the loop's bookkeeping. */
  datatype Settled = Settled(finalUrl: string, polls: nat, stable: bool, readsUsed: nat)

  /** The settle phase: the initial read, the polling loop, the final read. */
  function Settle(observed: seq<string>, budget: nat): (s: Settled)
    requires 2 * budget + 2 <= |observed|
    ensures s.polls <= budget
    ensures s.stable || s.polls == budget
    ensures 2 <= s.readsUsed <= |observed|
    ensures s.readsUsed == 2 * s.polls + 2 - (if s.stable then 1 else 0)
    ensures s.finalUrl == observed[s.readsUsed - 1]
    ensures s.stable ==> 3 <= s.readsUsed && observed[s.readsUsed - 2] == observed[s.readsUsed - 3]
    ensures forall q :: 0 <= q < s.polls - (if s.stable then 1 else 0) ==> observed[2 * q + 1] != observed[2 * q]
  {
    var e := Poll(observed, budget, observed[0], 1, 0);
    PollMoves(observed, budget, observed[0], 1, 0);
    Settled(observed[e.next], e.polls, e.stable, e.next + 1)
  }

  /** The settle phase as main.py runs it. */
  method SettleRedirects(observed: seq<string>, budget: nat) returns (s: Settled)
    requires 2 * budget + 2 <= |observed|
    ensures s == Settle(observed, budget)
  {
    var current := observed[0];
    var next := 1;
    var polls := 0;
    var stable := false;
    while polls < budget
      invariant 1 <= next && ReadsSuffice(observed, budget, next, polls)
      invariant current == observed[next - 1]
      invariant Poll(observed, budget, current, next, polls) == Poll(observed, budget, observed[0], 1, 0)
      invariant !stable
      decreases budget - polls
    {
      polls := polls + 1;
      if observed[next] != current {
        current := observed[next + 1];
        next := next + 2;
      } else {
        next := next + 1;
        stable := true;
        break;
      }
    }
    s := Settled(observed[next], polls, stable, next + 1);
  }

  // ---------------------------------------------------------------------
  // The whole resolution

  /** Everything the browser contributes to resolving one link. */
  datatype Visit = Visit(
    navigationFault: bool,  // driver.get or a read of current_url raised
    urlReads: seq<string>,  // successive values of driver.current_url
    pollBudget: nat,        // polls that fit in the redirect ceiling
    page: Page,
    fault: Fault)

  predicate WellFormed(v: Visit) {
    2 * v.pollBudget + 2 <= |v.urlReads|
  }

  /** `get_username_from_url` of main.py, as a function of the visit. */
  function Resolution(v: Visit): (r: Option<string>)
    requires WellFormed(v)
    ensures r.Some? ==> r.value != [] && !v.navigationFault
  {
    if v.navigationFault then None
    else
      match UrlUsername(Settle(v.urlReads, v.pollBudget).finalUrl)
      case Some(name) => Some(name)
      case None => ContentUsername(v.page, v.fault)
  }

  /** `get_username_from_url` of main.py: settle, then the strategy chain. */
  method GetUsernameFromUrl(v: Visit) returns (username: Option<string>)
    requires WellFormed(v)
    ensures username == Resolution(v)
  {
    if v.navigationFault {
      return None;
    }
    var settled := SettleRedirects(v.urlReads, v.pollBudget);
    var finalUrl := settled.finalUrl;
    var fromUrl := UrlUsername(finalUrl);
    if fromUrl.Some? {
      return fromUrl;
    }
    username := ContentUsername(v.page, v.fault);
  }

  /** When the final URL yields a name, that name is the answer and the page
      is never consulted. */
  lemma UrlBeatsContent(v: Visit, page: Page, fault: Fault)
    requires WellFormed(v) && !v.navigationFault
    requires UrlUsername(Settle(v.urlReads, v.pollBudget).finalUrl).Some?
    ensures Resolution(v) == UrlUsername(Settle(v.urlReads, v.pollBudget).finalUrl)
    ensures Resolution(v) == Resolution(v.(page := page, fault := fault))
  {
  }

  /** When the final URL yields nothing (no pattern, or a reserved first
      segment), the answer is the content chain's. */
  lemma UrlMissFallsToContent(v: Visit)
    requires WellFormed(v) && !v.navigationFault
    requires UrlUsername(Settle(v.urlReads, v.pollBudget).finalUrl).None?
    ensures Resolution(v) == ContentUsername(v.page, v.fault)
  {
  }

  /** Every name `get_username_from_url` returns is non-empty, so the
      caller's truthiness test accepts exactly the `Some` results. */
  lemma {:induction false} ResolutionNonEmpty(v: Visit)
    requires WellFormed(v)
    ensures Truthy(Resolution(v)) <==> Resolution(v).Some?
  {
    if Resolution(v).Some? {
      var finalUrl := Settle(v.urlReads, v.pollBudget).finalUrl;
      if UrlUsername(finalUrl).Some? {
        UrlUsernameShape(finalUrl);
      } else {
        ContentUsernameShape(v.page, v.fault);
      }
    }
  }
}
