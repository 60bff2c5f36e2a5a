/**
 * The meeting-minutes resolver `scrape_minutes_recursive` of
 * fetch_messages.py and the two run-wide collections it updates: the
 * content cache `meeting_minutes_cache` and the emitted set
 * `appended_minutes`.
 *
 * `Resolve` and `ResolveNested` state what one call computes, as functions
 * of the old collections; `ResolverContext.ScrapeMinutesRecursive` is the
 * recursive method that updates the collections in place and is proved to
 * agree with them. The lemmas give the properties of a call: its guards,
 * how the collections grow, that every URL passes the guards at most once,
 * and that the cache always holds what a fetch would return.
 */
module Minutes {
  import opened Strings
  import opened Urls
  import opened Web
  import opened Links

  /** The run-wide collections: `meeting_minutes_cache` and `appended_minutes`. */
  datatype Store = Store(cache: map<string, string>, appended: set<string>)

  /**
   * What one call yields: the markdown it returns, the caller's `visited`
   * set as the call leaves it, the new collections, and, in order, the
   * normalised URLs that passed both guards during the call (each of them
   * had its content resolved and was marked as appended).
   */
  datatype Step = Step(text: string, visited: set<string>, store: Store, resolved: seq<string>)

  /** The block a nested minutes page adds to its parent's result. */
  function NestedBlock(norm: string, text: string): string {
    "\n---\n### Nested Meeting Minutes from: " + norm + "\n\n" + text + "\n"
  }

  /**
   * One call `scrape_minutes_recursive(url, visited)`. It terminates on
   * every finite page map: each nested call is made only after the current
   * URL, a reachable page, has joined `appended`, so the set of reachable
   * pages not yet appended shrinks.
   */
  function Resolve(env: Env, st: Store, visited: set<string>, url: string): (r: Step)
    ensures st.appended <= r.store.appended
    decreases env.pages.Keys - st.appended, 0, 0
  {
    var norm := NormalizeUrl(url);
    if norm in visited then Step("", visited, st, [])
    else if norm in st.appended then Step("", visited + {norm}, st, [])
    else
      var content := if norm in st.cache then st.cache[norm] else FetchContent(env, norm);
      var cache := if norm in st.cache then st.cache else st.cache[norm := content];
      var marked := Store(cache, st.appended + {norm});
      var html := GetHtml(env, norm);
      if html.Some? && html.value != "" then
        var nested := ResolveNested(env, marked, visited + {norm}, norm, env.pages[norm].hrefs, 0);
        Step(content + nested.text, nested.visited, nested.store, [norm] + nested.resolved)
      else
        Step(content, visited + {norm}, marked, [norm])
  }

  /**
   * The loop over the anchors of the minutes page `pageUrl`, from anchor
   * `i` on: which links are followed, and the nested blocks, in page order.
   */
  function ResolveNested(env: Env, st: Store, visited: set<string>, pageUrl: string, hrefs: seq<string>, i: nat): (r: Step)
    requires i <= |hrefs|
    ensures st.appended <= r.store.appended
    decreases env.pages.Keys - st.appended, 1, |hrefs| - i
  {
    if i == |hrefs| then Step("", visited, st, [])
    else
      var href := hrefs[i];
      if !IsNestedMinutesHref(href) then ResolveNested(env, st, visited, pageUrl, hrefs, i + 1)
      else
        var link := AgainstPage(pageUrl, href);
        var nestedNorm := NormalizeUrl(link);
        if nestedNorm in visited || nestedNorm in st.appended then
          ResolveNested(env, st, visited, pageUrl, hrefs, i + 1)
        else
          var rec := Resolve(env, st, visited, link);
          var rest := ResolveNested(env, rec.store, rec.visited, pageUrl, hrefs, i + 1);
          var block := if IsBlank(rec.text) then "" else NestedBlock(nestedNorm, rec.text);
          Step(block + rest.text, rest.visited, rest.store, rec.resolved + rest.resolved)
  }

  // ---------------------------------------------------------------------
  // How a call changes the collections
  // ---------------------------------------------------------------------

  /** The facts `ResolveAccounting` states about a step taken from store `st` and set `visited`. */
  ghost predicate Accounts(st: Store, visited: set<string>, r: Step) {
    && r.store.appended == st.appended + Elems(r.resolved)
    && NoDup(r.resolved)
    && Elems(r.resolved) !! st.appended
    && r.store.cache.Keys == st.cache.Keys + Elems(r.resolved)
    && (forall u :: u in st.cache ==> r.store.cache[u] == st.cache[u])
    && visited <= r.visited
  }

  /**
   * A call adds to `appended` and to the cache's keys exactly the URLs that
   * passed its guards, each once and none appended before; it never
   * overwrites a cache entry and never removes anything from `visited`.
   */
  lemma {:induction false} ResolveAccounting(env: Env, st: Store, visited: set<string>, url: string)
    ensures Accounts(st, visited, Resolve(env, st, visited, url))
    decreases env.pages.Keys - st.appended, 0, 0
  {
    var norm := NormalizeUrl(url);
    if norm !in visited && norm !in st.appended {
      var content := if norm in st.cache then st.cache[norm] else FetchContent(env, norm);
      var cache := if norm in st.cache then st.cache else st.cache[norm := content];
      var marked := Store(cache, st.appended + {norm});
      var html := GetHtml(env, norm);
      if html.Some? && html.value != "" {
        var nested := ResolveNested(env, marked, visited + {norm}, norm, env.pages[norm].hrefs, 0);
        NestedAccounting(env, marked, visited + {norm}, norm, env.pages[norm].hrefs, 0);
        NoDupAppend([norm], nested.resolved);
      }
    }
  }

  /** `ResolveAccounting` for the anchor loop. */
  lemma {:induction false} NestedAccounting(env: Env, st: Store, visited: set<string>, pageUrl: string, hrefs: seq<string>, i: nat)
    requires i <= |hrefs|
    ensures Accounts(st, visited, ResolveNested(env, st, visited, pageUrl, hrefs, i))
    decreases env.pages.Keys - st.appended, 1, |hrefs| - i
  {
    if i < |hrefs| {
      var href := hrefs[i];
      if !IsNestedMinutesHref(href) {
        NestedAccounting(env, st, visited, pageUrl, hrefs, i + 1);
      } else {
        var link := AgainstPage(pageUrl, href);
        var nestedNorm := NormalizeUrl(link);
        if nestedNorm in visited || nestedNorm in st.appended {
          NestedAccounting(env, st, visited, pageUrl, hrefs, i + 1);
        } else {
          var rec := Resolve(env, st, visited, link);
          ResolveAccounting(env, st, visited, link);
          NestedAccounting(env, rec.store, rec.visited, pageUrl, hrefs, i + 1);
          var rest := ResolveNested(env, rec.store, rec.visited, pageUrl, hrefs, i + 1);
          NoDupAppend(rec.resolved, rest.resolved);
        }
      }
    }
  }

  /**
   * The guards: a URL whose normal form is already in `visited` or already
   * appended yields `""` and leaves both collections as they were; any
   * other URL ends up appended and cached, is the first URL the call
   * resolves, and its result starts with its content, which is the cached
   * text when there was one and a fresh fetch otherwise.
   */
  lemma ResolveGuard(env: Env, st: Store, visited: set<string>, url: string)
    ensures var norm := NormalizeUrl(url);
            var r := Resolve(env, st, visited, url);
            norm in visited || norm in st.appended ==>
              r.text == "" && r.store == st && r.resolved == [] && r.visited == visited + {norm}
    ensures var norm := NormalizeUrl(url);
            var r := Resolve(env, st, visited, url);
            norm !in visited && norm !in st.appended ==>
              && norm in r.store.appended && norm in r.store.cache && norm in r.visited
              && r.resolved[0] == norm
              && r.store.cache[norm] == (if norm in st.cache then st.cache[norm] else FetchContent(env, norm))
              && StartsWith(r.text, r.store.cache[norm])
  {
    var norm := NormalizeUrl(url);
    if norm !in visited && norm !in st.appended {
      var content := if norm in st.cache then st.cache[norm] else FetchContent(env, norm);
      var cache := if norm in st.cache then st.cache else st.cache[norm := content];
      var marked := Store(cache, st.appended + {norm});
      var html := GetHtml(env, norm);
      if html.Some? && html.value != "" {
        NestedAccounting(env, marked, visited + {norm}, norm, env.pages[norm].hrefs, 0);
        var nested := ResolveNested(env, marked, visited + {norm}, norm, env.pages[norm].hrefs, 0);
        assert (content + nested.text)[..|content|] == content;
      }
    }
  }

  /**
   * A minutes page that cannot be retrieved (no page, or an empty one) and
   * is not cached yields exactly the placeholder, which is cached for it;
   * no nested page is followed from it.
   */
  lemma FailedFetchYieldsPlaceholder(env: Env, st: Store, visited: set<string>, url: string)
    requires NormalizeUrl(url) !in visited && NormalizeUrl(url) !in st.appended && NormalizeUrl(url) !in st.cache
    requires NormalizeUrl(url) !in env.pages || env.pages[NormalizeUrl(url)].html == ""
    ensures var r := Resolve(env, st, visited, url);
            r.text == Placeholder && r.resolved == [NormalizeUrl(url)]
            && r.store == Store(st.cache[NormalizeUrl(url) := Placeholder], st.appended + {NormalizeUrl(url)})
  {
  }

  // ---------------------------------------------------------------------
  // Invariants of the run-wide collections
  // ---------------------------------------------------------------------

  /** Every URL of `visited` is appended (a call adds a URL to the first and then, unless it stops, to the second). */
  lemma {:induction false} ResolveKeepsVisitedAppended(env: Env, st: Store, visited: set<string>, url: string)
    requires visited <= st.appended
    ensures var r := Resolve(env, st, visited, url); r.visited <= r.store.appended
    decreases env.pages.Keys - st.appended, 0, 0
  {
    var norm := NormalizeUrl(url);
    if norm !in visited && norm !in st.appended {
      var content := if norm in st.cache then st.cache[norm] else FetchContent(env, norm);
      var cache := if norm in st.cache then st.cache else st.cache[norm := content];
      var marked := Store(cache, st.appended + {norm});
      var html := GetHtml(env, norm);
      if html.Some? && html.value != "" {
        NestedKeepsVisitedAppended(env, marked, visited + {norm}, norm, env.pages[norm].hrefs, 0);
      }
    }
  }

  /** `ResolveKeepsVisitedAppended` for the anchor loop. */
  lemma {:induction false} NestedKeepsVisitedAppended(env: Env, st: Store, visited: set<string>, pageUrl: string, hrefs: seq<string>, i: nat)
    requires i <= |hrefs|
    requires visited <= st.appended
    ensures var r := ResolveNested(env, st, visited, pageUrl, hrefs, i); r.visited <= r.store.appended
    decreases env.pages.Keys - st.appended, 1, |hrefs| - i
  {
    if i < |hrefs| {
      var href := hrefs[i];
      if !IsNestedMinutesHref(href) {
        NestedKeepsVisitedAppended(env, st, visited, pageUrl, hrefs, i + 1);
      } else {
        var link := AgainstPage(pageUrl, href);
        var nestedNorm := NormalizeUrl(link);
        if nestedNorm in visited || nestedNorm in st.appended {
          NestedKeepsVisitedAppended(env, st, visited, pageUrl, hrefs, i + 1);
        } else {
          var rec := Resolve(env, st, visited, link);
          ResolveKeepsVisitedAppended(env, st, visited, link);
          NestedKeepsVisitedAppended(env, rec.store, rec.visited, pageUrl, hrefs, i + 1);
        }
      }
    }
  }

  /**
   * Starting from an empty `visited` (as every call from the message loop
   * does), the cycle guard never decides anything on its own: whenever a
   * URL is in `visited` it is also appended, and the appended guard alone
   * would give the same answer.
   */
  lemma VisitedGuardSubsumed(env: Env, st: Store, url: string)
    ensures var r := Resolve(env, st, {}, url); r.visited <= r.store.appended
  {
    ResolveKeepsVisitedAppended(env, st, {}, url);
  }

  /** Every cached text is what fetching and converting its page gives. */
  ghost predicate Coherent(env: Env, cache: map<string, string>) {
    forall u :: u in cache ==> cache[u] == FetchContent(env, u)
  }

  /**
   * The cache only ever holds what a fetch would give, so reading it in
   * place of fetching again never changes a result.
   */
  lemma {:induction false} ResolveKeepsCoherent(env: Env, st: Store, visited: set<string>, url: string)
    requires Coherent(env, st.cache)
    ensures Coherent(env, Resolve(env, st, visited, url).store.cache)
    decreases env.pages.Keys - st.appended, 0, 0
  {
    var norm := NormalizeUrl(url);
    if norm !in visited && norm !in st.appended {
      var content := if norm in st.cache then st.cache[norm] else FetchContent(env, norm);
      var cache := if norm in st.cache then st.cache else st.cache[norm := content];
      var marked := Store(cache, st.appended + {norm});
      var html := GetHtml(env, norm);
      if html.Some? && html.value != "" {
        NestedKeepsCoherent(env, marked, visited + {norm}, norm, env.pages[norm].hrefs, 0);
      }
    }
  }

  /** `ResolveKeepsCoherent` for the anchor loop. */
  lemma {:induction false} NestedKeepsCoherent(env: Env, st: Store, visited: set<string>, pageUrl: string, hrefs: seq<string>, i: nat)
    requires i <= |hrefs|
    requires Coherent(env, st.cache)
    ensures Coherent(env, ResolveNested(env, st, visited, pageUrl, hrefs, i).store.cache)
    decreases env.pages.Keys - st.appended, 1, |hrefs| - i
  {
    if i < |hrefs| {
      var href := hrefs[i];
      if !IsNestedMinutesHref(href) {
        NestedKeepsCoherent(env, st, visited, pageUrl, hrefs, i + 1);
      } else {
        var link := AgainstPage(pageUrl, href);
        var nestedNorm := NormalizeUrl(link);
        if nestedNorm in visited || nestedNorm in st.appended {
          NestedKeepsCoherent(env, st, visited, pageUrl, hrefs, i + 1);
        } else {
          var rec := Resolve(env, st, visited, link);
          ResolveKeepsCoherent(env, st, visited, link);
          NestedKeepsCoherent(env, rec.store, rec.visited, pageUrl, hrefs, i + 1);
          assert ResolveNested(env, st, visited, pageUrl, hrefs, i).store
              == ResolveNested(env, rec.store, rec.visited, pageUrl, hrefs, i + 1).store;
        }
      }
    }
  }

  /**
   * The invariant of a run, given the ordered log of every URL that passed
   * the guards so far: the log has no repetition and is exactly the
   * appended set, the cache has exactly the appended URLs as keys (so the
   * cache-hit branch is never taken), and the cache is coherent.
   */
  ghost predicate Consistent(env: Env, st: Store, log: seq<string>) {
    && NoDup(log)
    && Elems(log) == st.appended
    && st.cache.Keys == st.appended
    && Coherent(env, st.cache)
  }

  /**
   * A call keeps the run invariant: in particular no URL is resolved twice
   * in a run, so the content of each minutes page is emitted at most once.
   */
  lemma ResolveKeepsConsistent(env: Env, st: Store, log: seq<string>, visited: set<string>, url: string)
    requires Consistent(env, st, log)
    ensures var r := Resolve(env, st, visited, url);
            Consistent(env, r.store, log + r.resolved)
  {
    var r := Resolve(env, st, visited, url);
    ResolveAccounting(env, st, visited, url);
    ResolveKeepsCoherent(env, st, visited, url);
    NoDupAppend(log, r.resolved);
  }

  /** `ResolveKeepsConsistent` for the anchor loop. */
  lemma NestedKeepsConsistent(env: Env, st: Store, log: seq<string>, visited: set<string>, pageUrl: string, hrefs: seq<string>)
    requires Consistent(env, st, log)
    ensures var r := ResolveNested(env, st, visited, pageUrl, hrefs, 0);
            Consistent(env, r.store, log + r.resolved)
  {
    var r := ResolveNested(env, st, visited, pageUrl, hrefs, 0);
    NestedAccounting(env, st, visited, pageUrl, hrefs, 0);
    NestedKeepsCoherent(env, st, visited, pageUrl, hrefs, 0);
    NoDupAppend(log, r.resolved);
  }

  /**
   * In a consistent store every URL that passes the guards is fetched:
   * its content is never taken from the cache.
   */
  lemma CacheNeverHit(env: Env, st: Store, log: seq<string>, visited: set<string>, url: string)
    requires Consistent(env, st, log)
    requires NormalizeUrl(url) !in visited && NormalizeUrl(url) !in st.appended
    ensures NormalizeUrl(url) !in st.cache
    ensures StartsWith(Resolve(env, st, visited, url).text, FetchContent(env, NormalizeUrl(url)))
  {
    ResolveGuard(env, st, visited, url);
  }

  /**
   * Two minutes pages that link to each other (the second through a
   * fragment link back to the first): resolving the first from empty
   * collections terminates and gives its content followed by one nested
   * block with the second's content; each page is resolved, emitted and
   * cached once (and fetched twice, for its content and for its links).
   */
  lemma CycleResolvesEachOnce(markdown: string -> string, a: string, b: string, htmlA: string, htmlB: string, fragment: string)
    requires a != b && '#' !in a && '#' !in b
    requires IsAbsolute(a) && IsAbsolute(b) && IsNestedMinutesHref(b) && IsNestedMinutesHref(a + "#" + fragment)
    requires htmlA != "" && htmlB != ""
    ensures var env := CycleEnv(markdown, a, b, htmlA, htmlB, fragment);
            var r := Resolve(env, Store(map[], {}), {}, a);
            && r.text == markdown(htmlA) + (if IsBlank(markdown(htmlB)) then "" else NestedBlock(b, markdown(htmlB)))
            && r.resolved == [a, b]
            && r.store == Store(map[a := markdown(htmlA), b := markdown(htmlB)], {a, b})
  {
    var env := CycleEnv(markdown, a, b, htmlA, htmlB, fragment);
    NormalizeUrlFixes(a);
    var markedA := Store(map[a := markdown(htmlA)], {a});
    var outer := ResolveNested(env, markedA, {a}, a, [b], 0);
    CycleFirstPageLinks(markdown, a, b, htmlA, htmlB, fragment);
    var empty := Store(map[], {});
    assert empty.cache[a := markdown(htmlA)] == markedA.cache;
    assert empty.appended + {a} == markedA.appended;
    assert GetHtml(env, a) == Some(htmlA) && env.pages[a].hrefs == [b];
    assert FetchContent(env, a) == markdown(htmlA);
    var r := Resolve(env, empty, {}, a);
    assert r == Step(markdown(htmlA) + outer.text, outer.visited, outer.store, [a] + outer.resolved);
  }

  /** The anchor loop of the first page of the cycle: its one link, to `b`, gives one nested block. */
  lemma CycleFirstPageLinks(markdown: string -> string, a: string, b: string, htmlA: string, htmlB: string, fragment: string)
    requires a != b && '#' !in a && '#' !in b
    requires IsAbsolute(a) && IsAbsolute(b) && IsNestedMinutesHref(b) && IsNestedMinutesHref(a + "#" + fragment)
    requires htmlB != ""
    ensures ResolveNested(CycleEnv(markdown, a, b, htmlA, htmlB, fragment), Store(map[a := markdown(htmlA)], {a}), {a}, a, [b], 0)
            == Step(if IsBlank(markdown(htmlB)) then "" else NestedBlock(b, markdown(htmlB)),
                    {a, b}, Store(map[a := markdown(htmlA), b := markdown(htmlB)], {a, b}), [b])
  {
    var env := CycleEnv(markdown, a, b, htmlA, htmlB, fragment);
    NormalizeUrlFixes(b);
    var markedA := Store(map[a := markdown(htmlA)], {a});
    var markedB := Store(map[a := markdown(htmlA), b := markdown(htmlB)], {a, b});
    var rec := Resolve(env, markedA, {a}, b);
    CycleSecondPage(markdown, a, b, htmlA, htmlB, fragment);
    var block := if IsBlank(rec.text) then "" else NestedBlock(b, rec.text);
    assert AgainstPage(a, b) == b;
    var after := ResolveNested(env, markedB, {a, b}, a, [b], 1);
    assert after == Step("", {a, b}, markedB, []);
    assert ResolveNested(env, markedA, {a}, a, [b], 0) == Step(block + after.text, after.visited, after.store, rec.resolved + after.resolved);
  }

  /** The two pages of the cycle above: `a` links to `b`, `b` links back to `a` with a fragment. */
  function CycleEnv(markdown: string -> string, a: string, b: string, htmlA: string, htmlB: string, fragment: string): Env {
    Env(map[a := Page(htmlA, [b], []), b := Page(htmlB, [a + "#" + fragment], [])], markdown)
  }

  /** The second page of the cycle, reached from the first: resolved once, its link back is cut by `visited`. */
  lemma CycleSecondPage(markdown: string -> string, a: string, b: string, htmlA: string, htmlB: string, fragment: string)
    requires a != b && '#' !in a && '#' !in b
    requires IsAbsolute(a) && IsNestedMinutesHref(a + "#" + fragment)
    requires htmlB != ""
    ensures Resolve(CycleEnv(markdown, a, b, htmlA, htmlB, fragment), Store(map[a := markdown(htmlA)], {a}), {a}, b)
            == Step(markdown(htmlB), {a, b}, Store(map[a := markdown(htmlA), b := markdown(htmlB)], {a, b}), [b])
  {
    var back := a + "#" + fragment;
    var env := CycleEnv(markdown, a, b, htmlA, htmlB, fragment);
    NormalizeUrlFixes(b);
    SameKeyAcrossFragments(a, fragment, fragment);
    assert IsAbsolute(back) by {
      assert back[..|"http"|] == a[..|"http"|];
    }
    var markedA := Store(map[a := markdown(htmlA)], {a});
    var markedB := Store(map[a := markdown(htmlA), b := markdown(htmlB)], {a, b});
    assert markedA.cache[b := markdown(htmlB)] == markedB.cache;
    assert markedA.appended + {b} == markedB.appended && {a} + {b} == {a, b};
    assert env.pages[b].hrefs == [back];
    assert FetchContent(env, b) == markdown(htmlB);

    var inner := ResolveNested(env, markedB, {a, b}, b, [back], 0);
    assert AgainstPage(b, back) == back;
    assert inner == ResolveNested(env, markedB, {a, b}, b, [back], 1);
    assert inner == Step("", {a, b}, markedB, []);
    assert b !in markedA.cache && b !in markedA.appended && b !in {a};
    assert GetHtml(env, b) == Some(htmlB);
    var r := Resolve(env, markedA, {a}, b);
    assert r == Step(markdown(htmlB) + inner.text, inner.visited, inner.store, [b] + inner.resolved);
  }

  // ---------------------------------------------------------------------
  // The resolver as the source runs it: a class over the two collections
  // ---------------------------------------------------------------------

  /**
   * The module-level `meeting_minutes_cache` and `appended_minutes`, made
   * the fields of one object; `log` records, in order, every URL that
   * passed the guards.
   */
  class ResolverContext {
    const env: Env
    var cache: map<string, string>
    var appended: set<string>
    ghost var log: seq<string>

    ghost function State(): Store
      reads this
    {
      Store(cache, appended)
    }

    ghost predicate Valid()
      reads this
    {
      Consistent(env, State(), log)
    }

    /** Both collections start empty, as at the start of the script. */
    constructor (env: Env)
      ensures this.env == env && cache == map[] && appended == {} && log == []
      ensures Valid()
    {
      this.env := env;
      cache := map[];
      appended := {};
      log := [];
    }

    /**
     * `scrape_minutes_recursive(url, visited)`: `visited` is the caller's
     * set, returned as the call leaves it. The new result and collections
     * are those of `Resolve`.
     */
    method ScrapeMinutesRecursive(url: string, visited: set<string>) returns (text: string, visitedOut: set<string>)
      modifies this
      decreases env.pages.Keys - appended, 0
      ensures var r := Resolve(env, old(State()), visited, url);
              text == r.text && visitedOut == r.visited && State() == r.store && log == old(log) + r.resolved
      ensures old(Valid()) ==> Valid()
    {
      var norm := NormalizeUrl(url);
      if norm in visited {
        return "", visited;
      }
      visitedOut := visited + {norm};
      if norm in appended {
        return "", visitedOut;
      }

      var content: string;
      if norm in cache {
        content := cache[norm];
      } else {
        var html := GetHtml(env, norm);
        if html.None? || html.value == "" {
          content := Placeholder;
        } else {
          content := env.markdown(html.value);
        }
        cache := cache[norm := content];
      }
      appended := appended + {norm};
      log := log + [norm];

      var html := GetHtml(env, norm);
      var nested := "";
      if html.Some? && html.value != "" {
        ghost var logBefore := log;
        nested, visitedOut := ScrapeNestedLinks(norm, env.pages[norm].hrefs, visitedOut);
        ConcatAssoc(old(log), [norm], log[|logBefore|..]);
        assert log == logBefore + log[|logBefore|..];
      }
      text := content + nested;
      if old(Valid()) {
        ResolveKeepsConsistent(env, old(State()), old(log), visited, url);
      }
    }

    /**
     * The anchor loop of `scrape_minutes_recursive` (for a page whose
     * fetch succeeded): the nested blocks, in page order, and the new
     * collections are those of `ResolveNested`.
     */
    method ScrapeNestedLinks(norm: string, hrefs: seq<string>, visited: set<string>)
        returns (nested: string, visitedOut: set<string>)
      modifies this
      decreases env.pages.Keys - appended, 1
      ensures var r := ResolveNested(env, old(State()), visited, norm, hrefs, 0);
              nested == r.text && visitedOut == r.visited && State() == r.store && log == old(log) + r.resolved
      ensures old(Valid()) ==> Valid()
    {
      nested := "";
      visitedOut := visited;
      ghost var done: seq<string> := [];
      for i := 0 to |hrefs|
        invariant old(appended) <= appended
        invariant log == old(log) + done
        invariant var all := ResolveNested(env, old(State()), visited, norm, hrefs, 0);
                  var rest := ResolveNested(env, State(), visitedOut, norm, hrefs, i);
                  && all.text == nested + rest.text
                  && all.visited == rest.visited
                  && all.store == rest.store
                  && all.resolved == done + rest.resolved
      {
        ghost var rest := ResolveNested(env, State(), visitedOut, norm, hrefs, i);
        var link := hrefs[i];
        if StartsWith(link, "mailto:") {
          continue;
        }
        if !Contains(link, "minutes.html") {
          continue;
        }
        link := AgainstPage(norm, link);
        var nestedNorm := NormalizeUrl(link);
        if nestedNorm in visitedOut || nestedNorm in appended {
          continue;
        }
        ghost var rec := Resolve(env, State(), visitedOut, link);
        ghost var next := ResolveNested(env, rec.store, rec.visited, norm, hrefs, i + 1);
        ghost var block := if IsBlank(rec.text) then "" else NestedBlock(nestedNorm, rec.text);
        assert rest == Step(block + next.text, next.visited, next.store, rec.resolved + next.resolved);
        ghost var nestedBefore, doneBefore := nested, done;
        var recText;
        recText, visitedOut := ScrapeMinutesRecursive(link, visitedOut);
        if !IsBlank(recText) {
          nested := nested + NestedBlock(nestedNorm, recText);
        }
        assert nested == nestedBefore + block;
        done := done + rec.resolved;
        ConcatAssoc(nestedBefore, block, next.text);
        ConcatAssoc(doneBefore, rec.resolved, next.resolved);
        ConcatAssoc(old(log), doneBefore, rec.resolved);
      }
      if old(Valid()) {
        NestedKeepsConsistent(env, old(State()), old(log), visited, norm, hrefs);
      }
    }
  }
}
