/**
 * How fetch_messages.py picks and completes the links it follows: month
 * links on the archive index, message links on a month page, minutes links
 * on a message page and on a minutes page.
 */
module Links {
  import opened Strings
  import opened Urls

  // ---------------------------------------------------------------------
  // Month links (archive index)
  // ---------------------------------------------------------------------

  /**
   * The month URLs the index loop collects: `baseUrl + href` for every
   * period cell whose first anchor has a non-empty `href`, in page order.
   */
  function MonthUrls(baseUrl: string, cellHrefs: seq<string>): (urls: seq<string>)
    ensures |urls| <= |cellHrefs|
    ensures forall k :: 0 <= k < |urls| ==> StartsWith(urls[k], baseUrl) && |urls[k]| > |baseUrl|
    decreases |cellHrefs|
  {
    if cellHrefs == [] then []
    else
      var front := MonthUrls(baseUrl, cellHrefs[..|cellHrefs| - 1]);
      var h := cellHrefs[|cellHrefs| - 1];
      if h != "" then
        assert (front + [baseUrl + h])[|front|][..|baseUrl|] == baseUrl;
        front + [baseUrl + h]
      else front
  }

  /** The month URLs are exactly `baseUrl + h` for the non-empty cell `href`s `h`. */
  lemma {:induction false} MonthUrlsMembers(baseUrl: string, cellHrefs: seq<string>)
    ensures forall h :: h in cellHrefs && h != "" ==> baseUrl + h in MonthUrls(baseUrl, cellHrefs)
    ensures forall u :: u in MonthUrls(baseUrl, cellHrefs) ==> exists h :: h in cellHrefs && h != "" && u == baseUrl + h
    decreases |cellHrefs|
  {
    if cellHrefs != [] {
      var front := cellHrefs[..|cellHrefs| - 1];
      var h := cellHrefs[|cellHrefs| - 1];
      MonthUrlsMembers(baseUrl, front);
      var urls := MonthUrls(baseUrl, cellHrefs);
      assert urls == MonthUrls(baseUrl, front) + (if h != "" then [baseUrl + h] else []);
      forall g | g in cellHrefs && g != "" ensures baseUrl + g in urls {
        if g != h {
          assert g in front by {
            var k :| 0 <= k < |cellHrefs| && cellHrefs[k] == g;
            assert k < |front| && front[k] == g;
          }
        }
      }
      forall u | u in urls ensures exists g :: g in cellHrefs && g != "" && u == baseUrl + g {
        if u in MonthUrls(baseUrl, front) {
          var g :| g in front && g != "" && u == baseUrl + g;
          assert g in cellHrefs by {
            var k :| 0 <= k < |front| && front[k] == g;
            assert cellHrefs[k] == g;
          }
        } else {
          assert h in cellHrefs && h != "" && u == baseUrl + h;
        }
      }
    }
  }

  /** The loop over the `cell_period` cells of the archive index. */
  method MonthLinks(baseUrl: string, cellHrefs: seq<string>) returns (links: seq<string>)
    ensures links == MonthUrls(baseUrl, cellHrefs)
  {
    links := [];
    var i := 0;
    while i < |cellHrefs|
      invariant 0 <= i <= |cellHrefs|
      invariant links == MonthUrls(baseUrl, cellHrefs[..i])
    {
      var href := cellHrefs[i];
      assert cellHrefs[..i + 1][..i] == cellHrefs[..i];
      if href != "" {
        links := links + [baseUrl + href];
      }
      i := i + 1;
    }
    assert cellHrefs[..i] == cellHrefs;
  }

  /**
   * The month list of a page split in two is the month list of the first
   * part followed by that of the second: page order is kept.
   */
  lemma {:induction false} MonthUrlsAppend(baseUrl: string, xs: seq<string>, ys: seq<string>)
    ensures MonthUrls(baseUrl, xs + ys) == MonthUrls(baseUrl, xs) + MonthUrls(baseUrl, ys)
    decreases |ys|
  {
    if ys != [] {
      var zs := xs + ys;
      var front := ys[..|ys| - 1];
      var h := ys[|ys| - 1];
      var last := if h != "" then [baseUrl + h] else [];
      assert zs[..|zs| - 1] == xs + front && zs[|zs| - 1] == h;
      assert MonthUrls(baseUrl, zs) == MonthUrls(baseUrl, xs + front) + last;
      assert MonthUrls(baseUrl, ys) == MonthUrls(baseUrl, front) + last;
      MonthUrlsAppend(baseUrl, xs, front);
    } else {
      assert xs + ys == xs;
    }
  }

  /** One cell gives one month URL when its `href` is non-empty, and none otherwise. */
  lemma MonthUrlsOne(baseUrl: string, h: string)
    ensures MonthUrls(baseUrl, [h]) == if h != "" then [baseUrl + h] else []
  {
    assert [h][..0] == [];
  }

  /** `month_links[:N]`: the first `n` month URLs, or all of them when there are fewer. */
  function LatestMonths(links: seq<string>, n: nat): (latest: seq<string>)
    ensures |latest| == if n < |links| then n else |links|
    ensures forall k :: 0 <= k < |latest| ==> latest[k] == links[k]
  {
    if n < |links| then links[..n] else links
  }

  // ---------------------------------------------------------------------
  // Message links (month page)
  // ---------------------------------------------------------------------

  /**
   * A month-page `href` that names a message: it ends in `.html` and
   * mentions none of the navigation words `thread`, `author`, `subject`.
   * (The source also asks that the `href` be non-empty, which `.html`
   * already implies.)
   */
  predicate IsMessageHref(href: string) {
    EndsWith(href, ".html")
    && !Contains(href, "thread") && !Contains(href, "author") && !Contains(href, "subject")
  }

  /** Position of the first occurrence of `x` in `s`. */
  function IndexOf<T(==)>(s: seq<T>, x: T): (k: nat)
    requires x in s
    ensures k < |s| && s[k] == x && x !in s[..k]
    decreases |s|
  {
    if s[0] == x then 0
    else
      assert x in s[1..] by {
        var j :| 0 <= j < |s| && s[j] == x;
        assert s[1..][j - 1] == x;
      }
      var k := 1 + IndexOf(s[1..], x);
      assert s[..k] == [s[0]] + s[1..][..k - 1];
      k
  }

  /**
   * What the message-link loop has built after the first `i` anchors: the
   * message `href`s among them, each once, in order of first occurrence.
   */
  ghost predicate FirstOccurrences(hrefs: seq<string>, links: seq<string>, i: nat)
    requires i <= |hrefs|
  {
    && NoDup(links)
    && (forall h :: h in links <==> h in hrefs[..i] && IsMessageHref(h))
    && (forall p :: 0 <= p < |links| ==> links[p] in hrefs && IndexOf(hrefs, links[p]) < i)
    && (forall p, q :: 0 <= p < q < |links| ==> IndexOf(hrefs, links[p]) < IndexOf(hrefs, links[q]))
  }

  /** One more anchor: a new message `href` is appended, anything else is skipped. */
  lemma FirstOccurrencesStep(hrefs: seq<string>, links: seq<string>, i: nat)
    requires i < |hrefs| && FirstOccurrences(hrefs, links, i)
    ensures var h := hrefs[i];
            FirstOccurrences(hrefs, if IsMessageHref(h) && h !in links then links + [h] else links, i + 1)
  {
    var h := hrefs[i];
    assert hrefs[..i + 1] == hrefs[..i] + [h];
    if IsMessageHref(h) && h !in links {
      assert h !in hrefs[..i];
      assert IndexOf(hrefs, h) == i;
    }
  }

  /**
   * The list the message-link loop builds from a month page's `href`s:
   * each message `href` is added the first time it is met.
   */
  function MessageLinkList(hrefs: seq<string>): seq<string>
    decreases |hrefs|
  {
    if hrefs == [] then []
    else
      var front := MessageLinkList(hrefs[..|hrefs| - 1]);
      var h := hrefs[|hrefs| - 1];
      if IsMessageHref(h) && h !in front then front + [h] else front
  }

  /**
   * The message links of a page are its message `href`s, each once, in the
   * order of their first occurrence.
   */
  lemma {:induction false} MessageLinkListFirstOccurrences(hrefs: seq<string>, i: nat)
    requires i <= |hrefs|
    ensures FirstOccurrences(hrefs, MessageLinkList(hrefs[..i]), i)
    decreases i
  {
    if i > 0 {
      var prev := MessageLinkList(hrefs[..i - 1]);
      var h := hrefs[i - 1];
      assert hrefs[..i][..i - 1] == hrefs[..i - 1] && hrefs[..i][i - 1] == h;
      assert MessageLinkList(hrefs[..i]) == if IsMessageHref(h) && h !in prev then prev + [h] else prev;
      MessageLinkListFirstOccurrences(hrefs, i - 1);
      FirstOccurrencesStep(hrefs, prev, i - 1);
    }
  }

  /**
   * The message-link loop of a month page: it builds `MessageLinkList`, so
   * the message `href`s, each kept once, in the order of their first
   * occurrence on the page.
   */
  method MessageLinks(hrefs: seq<string>) returns (links: seq<string>)
    ensures links == MessageLinkList(hrefs)
    ensures NoDup(links)
    ensures forall h :: h in links <==> h in hrefs && IsMessageHref(h)
    ensures forall p, q :: 0 <= p < q < |links| ==> IndexOf(hrefs, links[p]) < IndexOf(hrefs, links[q])
  {
    links := [];
    var i := 0;
    while i < |hrefs|
      invariant 0 <= i <= |hrefs|
      invariant links == MessageLinkList(hrefs[..i])
    {
      var href := hrefs[i];
      assert hrefs[..i + 1][..i] == hrefs[..i];
      if IsMessageHref(href) && href !in links {
        links := links + [href];
      }
      i := i + 1;
    }
    assert hrefs[..i] == hrefs;
    MessageLinkListFirstOccurrences(hrefs, |hrefs|);
  }

  /** `[month_url + link for link in message_links]` */
  function MessageUrls(monthUrl: string, links: seq<string>): (urls: seq<string>)
    ensures |urls| == |links|
    ensures forall k :: 0 <= k < |urls| ==> urls[k] == monthUrl + links[k]
  {
    seq(|links|, k requires 0 <= k < |links| => monthUrl + links[k])
  }

  // ---------------------------------------------------------------------
  // Minutes links (message page and minutes page)
  // ---------------------------------------------------------------------

  /** An `href` that does not start with `http` is treated as relative. */
  predicate IsAbsolute(href: string) {
    StartsWith(href, "http")
  }

  /** A message-page `href` made absolute against the month URL. */
  function AgainstMonth(monthUrl: string, href: string): string {
    if IsAbsolute(href) then href else monthUrl + href
  }

  /**
   * A message-page `href` that names minutes: not a `mailto:` link, and its
   * absolute form mentions `minutes.html` (the test comes after completion).
   */
  predicate IsMessageMinutesHref(monthUrl: string, href: string) {
    !StartsWith(href, "mailto:") && Contains(AgainstMonth(monthUrl, href), "minutes.html")
  }

  /**
   * The keys a message page contributes: the normalised absolute forms of
   * its minutes `href`s.
   */
  function MessageMinutesKeys(monthUrl: string, hrefs: seq<string>): set<string> {
    set h | h in hrefs && IsMessageMinutesHref(monthUrl, h) :: NormalizeUrl(AgainstMonth(monthUrl, h))
  }

  /**
   * The minutes-link loop of a message page: it collects exactly the keys
   * above, and each collected key is already a normal form.
   */
  method MessageMinutesLinks(monthUrl: string, hrefs: seq<string>) returns (links: set<string>)
    ensures links == MessageMinutesKeys(monthUrl, hrefs)
    ensures forall u :: u in links ==> NormalizeUrl(u) == u
  {
    links := {};
    var i := 0;
    while i < |hrefs|
      invariant 0 <= i <= |hrefs|
      invariant links == MessageMinutesKeys(monthUrl, hrefs[..i])
    {
      var href := hrefs[i];
      ghost var original := href;
      assert hrefs[..i + 1] == hrefs[..i] + [href];
      assert MessageMinutesKeys(monthUrl, hrefs[..i + 1])
        == MessageMinutesKeys(monthUrl, hrefs[..i])
           + if IsMessageMinutesHref(monthUrl, original) then {NormalizeUrl(AgainstMonth(monthUrl, original))} else {};
      if !StartsWith(href, "mailto:") {
        if !IsAbsolute(href) {
          href := monthUrl + href;
        }
        if Contains(href, "minutes.html") {
          links := links + {NormalizeUrl(href)};
        }
      }
      i := i + 1;
    }
    assert hrefs[..i] == hrefs;
    forall u | u in links ensures NormalizeUrl(u) == u {
      NormalizeUrlIdempotent(u);
    }
  }

  /**
   * A minutes-page `href` that is followed: not a `mailto:` link, and it
   * mentions `minutes.html` itself (the test comes before completion).
   */
  predicate IsNestedMinutesHref(href: string) {
    !StartsWith(href, "mailto:") && Contains(href, "minutes.html")
  }

  /** A minutes-page `href` made absolute against the directory of the page's own URL. */
  function AgainstPage(pageUrl: string, href: string): string {
    if IsAbsolute(href) then href else DirOf(pageUrl) + "/" + href
  }

  /**
   * A relative `href` replaces the last path segment of the page URL: the
   * result is the page URL up to and including its last `/`, then the `href`.
   */
  lemma RelativeReplacesLastSegment(pageUrl: string, href: string)
    requires !IsAbsolute(href) && '/' in pageUrl
    ensures exists k :: 0 <= k < |pageUrl| && pageUrl[k] == '/' && '/' !in pageUrl[k + 1..]
              && AgainstPage(pageUrl, href) == pageUrl[..k + 1] + href
  {
    var d := DirOf(pageUrl);
    assert pageUrl[..|d| + 1] == d + "/";
  }
}
