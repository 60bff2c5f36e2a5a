/**
 * The top-level run of fetch_messages.py: list the month pages of the
 * archive index, keep the first `n`, list the messages of each month,
 * convert each message and append the minutes it links to (through the
 * resolver), then join every message block after the analysis prompt.
 */
module Archive {
  import opened Strings
  import opened Urls
  import opened Web
  import opened Links
  import opened Minutes

  /** The block a top-level minutes page adds to a message. */
  function MinutesBlock(url: string, text: string): string {
    "\n---\n### Meeting Minutes from: " + url + "\n\n" + text + "\n"
  }

  /** The start of every message block: its URL, then its markdown. */
  function MessageHeader(msgUrl: string, body: string): string {
    "### Message URL: " + msgUrl + "\n\n" + body + "\n"
  }

  /** What the minutes loop of one message adds, and the collections it leaves. */
  datatype Section = Section(text: string, store: Store, resolved: seq<string>)

  /**
   * The minutes loop of one message, taking the minutes URLs in the order
   * `urls`: a URL already appended is skipped; any other is resolved with a
   * fresh `visited` set, and its result, when not blank, is added as a
   * block. The appended set only grows.
   */
  function MinutesSection(env: Env, st: Store, urls: seq<string>): (r: Section)
    ensures st.appended <= r.store.appended
    decreases |urls|
  {
    if urls == [] then Section("", st, [])
    else
      var prev := MinutesSection(env, st, urls[..|urls| - 1]);
      var url := urls[|urls| - 1];
      if url in prev.store.appended then prev
      else
        var rec := Resolve(env, prev.store, {}, url);
        var block := if IsBlank(rec.text) then "" else MinutesBlock(url, rec.text);
        Section(prev.text + block, rec.store, prev.resolved + rec.resolved)
  }

  /** The minutes loop keeps the run invariant (no URL resolved twice, cache and appended set agree). */
  lemma {:induction false} MinutesSectionKeepsConsistent(env: Env, st: Store, log: seq<string>, urls: seq<string>)
    requires Consistent(env, st, log)
    ensures var r := MinutesSection(env, st, urls); Consistent(env, r.store, log + r.resolved)
    decreases |urls|
  {
    if urls != [] {
      var front := urls[..|urls| - 1];
      var prev := MinutesSection(env, st, front);
      MinutesSectionKeepsConsistent(env, st, log, front);
      var url := urls[|urls| - 1];
      if url !in prev.store.appended {
        ResolveKeepsConsistent(env, prev.store, log + prev.resolved, {}, url);
        var rec := Resolve(env, prev.store, {}, url);
        ConcatAssoc(log, prev.resolved, rec.resolved);
      }
    }
  }

  /**
   * After the minutes loop every URL it was given is appended, either as
   * given or in normal form (the two agree for the keys a message yields).
   */
  lemma {:induction false} MinutesSectionAppendsAll(env: Env, st: Store, urls: seq<string>)
    ensures var r := MinutesSection(env, st, urls);
            forall u :: u in urls ==> u in r.store.appended || NormalizeUrl(u) in r.store.appended
    decreases |urls|
  {
    if urls != [] {
      var front := urls[..|urls| - 1];
      var prev := MinutesSection(env, st, front);
      MinutesSectionAppendsAll(env, st, front);
      var url := urls[|urls| - 1];
      assert urls == front + [url];
      if url !in prev.store.appended {
        ResolveGuard(env, prev.store, {}, url);
      }
    }
  }

  /**
   * Minutes already appended by an earlier message add nothing to a later
   * one: not even a header, and the collections stay as they were.
   */
  lemma {:induction false} AppendedMinutesAddNothing(env: Env, st: Store, urls: seq<string>)
    requires forall u :: u in urls ==> u in st.appended
    ensures MinutesSection(env, st, urls) == Section("", st, [])
    decreases |urls|
  {
    if urls != [] {
      AppendedMinutesAddNothing(env, st, urls[..|urls| - 1]);
      assert urls[|urls| - 1] in urls;
    }
  }

  /**
   * The minutes loop of one message over the set `minutesLinks`, visited
   * in an order the model leaves open (`order`, each link once): the text
   * gains exactly the blocks of `MinutesSection` for that order.
   */
  method AppendMinutes(ctx: ResolverContext, minutesLinks: set<string>, combined: string)
      returns (out: string, ghost order: seq<string>)
    requires ctx.Valid()
    modifies ctx
    ensures ctx.Valid()
    ensures NoDup(order) && Elems(order) == minutesLinks
    ensures var sec := MinutesSection(ctx.env, old(ctx.State()), order);
            out == combined + sec.text && ctx.State() == sec.store && ctx.log == old(ctx.log) + sec.resolved
  {
    out := combined;
    order := [];
    var remaining := minutesLinks;
    while remaining != {}
      invariant Elems(order) + remaining == minutesLinks && Elems(order) !! remaining && NoDup(order)
      invariant ctx.Valid()
      invariant var sec := MinutesSection(ctx.env, old(ctx.State()), order);
                out == combined + sec.text && ctx.State() == sec.store && ctx.log == old(ctx.log) + sec.resolved
      decreases remaining
    {
      var minutesUrl :| minutesUrl in remaining;
      ghost var prevOrder, prevOut, prevLog := order, out, ctx.log;
      NoDupAppend(order, [minutesUrl]);
      remaining := remaining - {minutesUrl};
      order := order + [minutesUrl];
      assert order[..|order| - 1] == prevOrder;
      if minutesUrl in ctx.appended {
        continue;
      }
      ghost var rec := Resolve(ctx.env, ctx.State(), {}, minutesUrl);
      ResolveKeepsConsistent(ctx.env, ctx.State(), ctx.log, {}, minutesUrl);
      var minutesMd, visitedAfter := ctx.ScrapeMinutesRecursive(minutesUrl, {});
      if !IsBlank(minutesMd) {
        out := out + MinutesBlock(minutesUrl, minutesMd);
      }
      ghost var block := if IsBlank(rec.text) then "" else MinutesBlock(minutesUrl, rec.text);
      assert out == prevOut + block;
      ghost var prevSec := MinutesSection(ctx.env, old(ctx.State()), prevOrder);
      ConcatAssoc(combined, prevSec.text, block);
      ConcatAssoc(old(ctx.log), prevSec.resolved, rec.resolved);
    }
  }


  // ---------------------------------------------------------------------
  // What the message loop, the month loop and the whole run produce
  // ---------------------------------------------------------------------

  /** A page the loops read on: it was retrieved and is not empty (`if not html: continue`). */
  predicate Readable(env: Env, url: string) {
    url in env.pages && env.pages[url].html != ""
  }

  /**
   * What a stretch of the run leaves behind: the message blocks it emits,
   * in order, the new collections, and the URLs resolved meanwhile.
   */
  datatype Outcome = Outcome(blocks: seq<string>, store: Store, resolved: seq<string>)

  /**
   * An order in which the minutes loop of a message may take its set of
   * minutes links: each link of the set once (no order when the message
   * page is not read).
   */
  ghost predicate MessageOrder(env: Env, monthUrl: string, msgUrl: string, order: seq<string>) {
    if Readable(env, msgUrl) then NoDup(order) && Elems(order) == MessageMinutesKeys(monthUrl, env.pages[msgUrl].hrefs)
    else order == []
  }

  /**
   * One message, its minutes taken in `order`: no block when its page is
   * not read, otherwise the header and markdown followed by the minutes
   * blocks of `MinutesSection`.
   */
  function MessageOutcome(env: Env, st: Store, msgUrl: string, order: seq<string>): Outcome {
    if !Readable(env, msgUrl) then Outcome([], st, [])
    else
      var sec := MinutesSection(env, st, order);
      Outcome([MessageHeader(msgUrl, env.markdown(env.pages[msgUrl].html)) + sec.text], sec.store, sec.resolved)
  }

  /** The message loop over `msgUrls`, message `k` taking its minutes in `orders[k]`. */
  function MessagesOutcome(env: Env, st: Store, msgUrls: seq<string>, orders: seq<seq<string>>): Outcome
    requires |orders| == |msgUrls|
    decreases |msgUrls|
  {
    if msgUrls == [] then Outcome([], st, [])
    else
      var n := |msgUrls| - 1;
      var prev := MessagesOutcome(env, st, msgUrls[..n], orders[..n]);
      var msg := MessageOutcome(env, prev.store, msgUrls[n], orders[n]);
      Outcome(prev.blocks + msg.blocks, msg.store, prev.resolved + msg.resolved)
  }

  /** The full message URLs of a month page, in the order the message loop takes them. */
  function MonthMessageUrls(env: Env, monthUrl: string): seq<string>
    requires monthUrl in env.pages
  {
    MessageUrls(monthUrl, MessageLinkList(env.pages[monthUrl].hrefs))
  }

  /** One valid minutes order per message of `msgUrls`. */
  ghost predicate MessageOrders(env: Env, monthUrl: string, msgUrls: seq<string>, orders: seq<seq<string>>) {
    |orders| == |msgUrls| && forall k :: 0 <= k < |msgUrls| ==> MessageOrder(env, monthUrl, msgUrls[k], orders[k])
  }

  /** One more message with a valid order keeps the orders valid. */
  lemma MessageOrdersStep(env: Env, monthUrl: string, msgUrls: seq<string>, k: nat, orders: seq<seq<string>>, order: seq<string>)
    requires k < |msgUrls| && MessageOrders(env, monthUrl, msgUrls[..k], orders)
    requires MessageOrder(env, monthUrl, msgUrls[k], order)
    ensures MessageOrders(env, monthUrl, msgUrls[..k + 1], orders + [order])
  {
    forall j | 0 <= j < k + 1 ensures MessageOrder(env, monthUrl, msgUrls[..k + 1][j], (orders + [order])[j]) {
      if j < k {
        assert msgUrls[..k + 1][j] == msgUrls[..k][j];
      }
    }
  }

  /** One valid minutes order per message of a read month (none for a month not read). */
  ghost predicate MonthOrders(env: Env, monthUrl: string, orders: seq<seq<string>>) {
    if Readable(env, monthUrl) then MessageOrders(env, monthUrl, MonthMessageUrls(env, monthUrl), orders)
    else orders == []
  }

  /** One month: nothing when its page is not read, otherwise the message loop over its messages. */
  function MonthOutcome(env: Env, st: Store, monthUrl: string, orders: seq<seq<string>>): Outcome
    requires MonthOrders(env, monthUrl, orders)
  {
    if !Readable(env, monthUrl) then Outcome([], st, [])
    else MessagesOutcome(env, st, MonthMessageUrls(env, monthUrl), orders)
  }

  /** Valid minutes orders for every month of a run. */
  ghost predicate RunOrders(env: Env, months: seq<string>, orders: seq<seq<seq<string>>>) {
    |orders| == |months| && forall k :: 0 <= k < |months| ==> MonthOrders(env, months[k], orders[k])
  }

  /** The month loop over `months`: the months one after the other, sharing the collections. */
  function RunOutcome(env: Env, st: Store, months: seq<string>, orders: seq<seq<seq<string>>>): Outcome
    requires RunOrders(env, months, orders)
    decreases |months|
  {
    if months == [] then Outcome([], st, [])
    else
      var n := |months| - 1;
      assert RunOrders(env, months[..n], orders[..n]) by {
        forall k | 0 <= k < n ensures MonthOrders(env, months[..n][k], orders[..n][k]) {
          assert months[..n][k] == months[k] && orders[..n][k] == orders[k];
        }
      }
      var prev := RunOutcome(env, st, months[..n], orders[..n]);
      var month := MonthOutcome(env, prev.store, months[n], orders[n]);
      Outcome(prev.blocks + month.blocks, month.store, prev.resolved + month.resolved)
  }

  /** One more message: the message loop goes on from where the earlier messages left the collections. */
  lemma MessagesOutcomeStep(env: Env, st: Store, msgUrls: seq<string>, k: nat, orders: seq<seq<string>>, order: seq<string>)
    requires k < |msgUrls| && |orders| == k
    ensures var prev := MessagesOutcome(env, st, msgUrls[..k], orders);
            var msg := MessageOutcome(env, prev.store, msgUrls[k], order);
            MessagesOutcome(env, st, msgUrls[..k + 1], orders + [order])
              == Outcome(prev.blocks + msg.blocks, msg.store, prev.resolved + msg.resolved)
  {
    assert msgUrls[..k + 1][..k] == msgUrls[..k];
    assert (orders + [order])[..k] == orders;
  }

  /** One more month: the month loop goes on from where the earlier months left the collections. */
  lemma RunOutcomeStep(env: Env, st: Store, months: seq<string>, m: nat, orders: seq<seq<seq<string>>>, monthOrders: seq<seq<string>>)
    requires m < |months| && RunOrders(env, months[..m], orders) && RunOrders(env, months[..m + 1], orders + [monthOrders])
    ensures var prev := RunOutcome(env, st, months[..m], orders);
            var month := MonthOutcome(env, prev.store, months[m], monthOrders);
            RunOutcome(env, st, months[..m + 1], orders + [monthOrders])
              == Outcome(prev.blocks + month.blocks, month.store, prev.resolved + month.resolved)
  {
    assert months[..m + 1][..m] == months[..m] && months[..m + 1][m] == months[m];
    assert (orders + [monthOrders])[..m] == orders;
  }

  /** One more month with valid orders keeps the orders of the run valid. */
  lemma RunOrdersStep(env: Env, months: seq<string>, m: nat, orders: seq<seq<seq<string>>>, monthOrders: seq<seq<string>>)
    requires m < |months| && RunOrders(env, months[..m], orders) && MonthOrders(env, months[m], monthOrders)
    ensures RunOrders(env, months[..m + 1], orders + [monthOrders])
  {
    forall k | 0 <= k < m + 1 ensures MonthOrders(env, months[..m + 1][k], (orders + [monthOrders])[k]) {
      if k < m {
        assert months[..m + 1][k] == months[..m][k];
      }
    }
  }

  /** Every block of a run starts with a message header. */
  lemma {:induction false} RunBlocksAreMessages(env: Env, st: Store, months: seq<string>, orders: seq<seq<seq<string>>>)
    requires RunOrders(env, months, orders)
    ensures NameMessagesOf(RunOutcome(env, st, months, orders).blocks, "")
    decreases |months|
  {
    if months != [] {
      var n := |months| - 1;
      assert RunOrders(env, months[..n], orders[..n]) by {
        forall k | 0 <= k < n ensures MonthOrders(env, months[..n][k], orders[..n][k]) {
          assert months[..n][k] == months[k] && orders[..n][k] == orders[k];
        }
      }
      RunBlocksAreMessages(env, st, months[..n], orders[..n]);
      var prev := RunOutcome(env, st, months[..n], orders[..n]);
      var month := MonthOutcome(env, prev.store, months[n], orders[n]);
      MonthBlocksNameMonth(env, prev.store, months[n], orders[n]);
      var all := RunOutcome(env, st, months, orders).blocks;
      assert all == prev.blocks + month.blocks;
      forall k | 0 <= k < |all| ensures StartsWith(all[k], "### Message URL: " + "") {
        var p := "### Message URL: ";
        if k < |prev.blocks| {
          assert all[k] == prev.blocks[k];
        } else {
          assert all[k] == month.blocks[k - |prev.blocks|];
          assert StartsWith(all[k], p + months[n]);
          assert all[k][..|p|] == (p + months[n])[..|p|];
        }
      }
    }
  }

  /** The message loop keeps the run invariant. */
  lemma {:induction false} MessagesOutcomeKeepsConsistent(env: Env, st: Store, log: seq<string>, msgUrls: seq<string>, orders: seq<seq<string>>)
    requires |orders| == |msgUrls| && Consistent(env, st, log)
    ensures var r := MessagesOutcome(env, st, msgUrls, orders); Consistent(env, r.store, log + r.resolved)
    decreases |msgUrls|
  {
    if msgUrls != [] {
      var n := |msgUrls| - 1;
      var prev := MessagesOutcome(env, st, msgUrls[..n], orders[..n]);
      MessagesOutcomeKeepsConsistent(env, st, log, msgUrls[..n], orders[..n]);
      var msg := MessageOutcome(env, prev.store, msgUrls[n], orders[n]);
      assert MessagesOutcome(env, st, msgUrls, orders) == Outcome(prev.blocks + msg.blocks, msg.store, prev.resolved + msg.resolved);
      if Readable(env, msgUrls[n]) {
        MinutesSectionKeepsConsistent(env, prev.store, log + prev.resolved, orders[n]);
      } else {
        assert msg.resolved == [];
      }
      ConcatAssoc(log, prev.resolved, msg.resolved);
    }
  }

  /** The month loop keeps the run invariant. */
  lemma {:induction false} RunOutcomeKeepsConsistent(env: Env, st: Store, log: seq<string>, months: seq<string>, orders: seq<seq<seq<string>>>)
    requires RunOrders(env, months, orders) && Consistent(env, st, log)
    ensures var r := RunOutcome(env, st, months, orders); Consistent(env, r.store, log + r.resolved)
    decreases |months|
  {
    if months != [] {
      var n := |months| - 1;
      var prev := RunOutcome(env, st, months[..n], orders[..n]);
      RunOutcomeKeepsConsistent(env, st, log, months[..n], orders[..n]);
      var month := MonthOutcome(env, prev.store, months[n], orders[n]);
      assert RunOutcome(env, st, months, orders) == Outcome(prev.blocks + month.blocks, month.store, prev.resolved + month.resolved);
      if Readable(env, months[n]) {
        MessagesOutcomeKeepsConsistent(env, prev.store, log + prev.resolved, MonthMessageUrls(env, months[n]), orders[n]);
      } else {
        assert month.resolved == [];
      }
      ConcatAssoc(log, prev.resolved, month.resolved);
    }
  }

  /**
   * Across a whole run, from empty collections and whatever order each
   * minutes set is taken in, no minutes URL is resolved twice: the
   * resolved URLs are distinct and are exactly the appended set, which is
   * also the cache's key set.
   */
  lemma RunResolvesEachOnce(env: Env, months: seq<string>, orders: seq<seq<seq<string>>>)
    requires RunOrders(env, months, orders)
    ensures var r := RunOutcome(env, Store(map[], {}), months, orders);
            NoDup(r.resolved) && Elems(r.resolved) == r.store.appended && r.store.cache.Keys == r.store.appended
  {
    var r := RunOutcome(env, Store(map[], {}), months, orders);
    RunOutcomeKeepsConsistent(env, Store(map[], {}), [], months, orders);
    assert [] + r.resolved == r.resolved;
  }

  // ---------------------------------------------------------------------
  // The driver loops
  // ---------------------------------------------------------------------

  /**
   * One message (the body of the message loop): `None` exactly when its
   * page cannot be read; otherwise its header and markdown followed by the
   * blocks of the minutes it links to, taken in an order the model leaves
   * open. Block and new collections are those of `MessageOutcome`.
   */
  method ProcessMessage(ctx: ResolverContext, monthUrl: string, msgUrl: string)
      returns (block: Option<string>, ghost order: seq<string>)
    requires ctx.Valid()
    modifies ctx
    ensures ctx.Valid()
    ensures block.None? <==> !Readable(ctx.env, msgUrl)
    ensures MessageOrder(ctx.env, monthUrl, msgUrl, order)
    ensures var o := MessageOutcome(ctx.env, old(ctx.State()), msgUrl, order);
            && (if block.Some? then [block.value] else []) == o.blocks
            && ctx.State() == o.store && ctx.log == old(ctx.log) + o.resolved
    ensures block.Some? ==> Elems(order) <= ctx.appended
  {
    order := [];
    var msgHtml := GetHtml(ctx.env, msgUrl);
    if msgHtml.None? || msgHtml.value == "" {
      return None, order;
    }
    var messageMarkdown := ctx.env.markdown(msgHtml.value);
    var combined := MessageHeader(msgUrl, messageMarkdown);
    var minutesLinks := MessageMinutesLinks(monthUrl, ctx.env.pages[msgUrl].hrefs);
    var out;
    out, order := AppendMinutes(ctx, minutesLinks, combined);
    MinutesSectionAppendsAll(ctx.env, old(ctx.State()), order);
    assert forall u :: u in order ==> u in minutesLinks;
    block := Some(out);
  }

  /**
   * A message block opens with its message URL, so whatever follows the
   * header it starts with the URL of its month.
   */
  lemma HeaderNamesMonth(monthUrl: string, link: string, body: string, rest: string)
    ensures StartsWith(MessageHeader(monthUrl + link, body) + rest, "### Message URL: " + monthUrl)
  {
    var p := "### Message URL: " + monthUrl;
    assert (MessageHeader(monthUrl + link, body) + rest)[..|p|] == p;
  }

  /** Every block starts with the header of a message URL under `monthUrl`. */
  ghost predicate NameMessagesOf(blocks: seq<string>, monthUrl: string) {
    forall k :: 0 <= k < |blocks| ==> StartsWith(blocks[k], "### Message URL: " + monthUrl)
  }

  /** Every block of the message loop over `MessageUrls(monthUrl, links)` names a message of that month. */
  lemma {:induction false} MessagesBlocksNameMonth(env: Env, st: Store, monthUrl: string, links: seq<string>, orders: seq<seq<string>>)
    requires |orders| == |links|
    ensures NameMessagesOf(MessagesOutcome(env, st, MessageUrls(monthUrl, links), orders).blocks, monthUrl)
    decreases |links|
  {
    if links != [] {
      var n := |links| - 1;
      var msgUrls := MessageUrls(monthUrl, links);
      assert msgUrls[..n] == MessageUrls(monthUrl, links[..n]);
      MessagesBlocksNameMonth(env, st, monthUrl, links[..n], orders[..n]);
      var prev := MessagesOutcome(env, st, msgUrls[..n], orders[..n]);
      var msg := MessageOutcome(env, prev.store, msgUrls[n], orders[n]);
      var all := MessagesOutcome(env, st, msgUrls, orders).blocks;
      assert all == prev.blocks + msg.blocks;
      if Readable(env, msgUrls[n]) {
        assert msgUrls[n] == monthUrl + links[n];
        HeaderNamesMonth(monthUrl, links[n], env.markdown(env.pages[msgUrls[n]].html), MinutesSection(env, prev.store, orders[n]).text);
      }
      forall k | 0 <= k < |all| ensures StartsWith(all[k], "### Message URL: " + monthUrl) {
        if k < |prev.blocks| {
          assert all[k] == prev.blocks[k];
        } else {
          assert all[k] == msg.blocks[0];
        }
      }
    }
  }

  /** Every block a month emits names a message of that month. */
  lemma MonthBlocksNameMonth(env: Env, st: Store, monthUrl: string, orders: seq<seq<string>>)
    requires MonthOrders(env, monthUrl, orders)
    ensures NameMessagesOf(MonthOutcome(env, st, monthUrl, orders).blocks, monthUrl)
  {
    if Readable(env, monthUrl) {
      var links := MessageLinkList(env.pages[monthUrl].hrefs);
      assert |orders| == |MonthMessageUrls(env, monthUrl)| == |links|;
      MessagesBlocksNameMonth(env, st, monthUrl, links, orders);
    }
  }

  /**
   * The message loop of a month over its full message URLs `msgUrls`: the
   * blocks and new collections of `MessagesOutcome`, for the minutes
   * orders it took.
   */
  method ProcessMessages(ctx: ResolverContext, monthUrl: string, msgUrls: seq<string>)
      returns (blocks: seq<string>, ghost orders: seq<seq<string>>)
    requires ctx.Valid()
    modifies ctx
    ensures ctx.Valid()
    ensures MessageOrders(ctx.env, monthUrl, msgUrls, orders)
    ensures var o := MessagesOutcome(ctx.env, old(ctx.State()), msgUrls, orders);
            blocks == o.blocks && ctx.State() == o.store && ctx.log == old(ctx.log) + o.resolved
  {
    blocks, orders := [], [];
    for k := 0 to |msgUrls|
      invariant ctx.Valid()
      invariant MessageOrders(ctx.env, monthUrl, msgUrls[..k], orders)
      invariant var o := MessagesOutcome(ctx.env, old(ctx.State()), msgUrls[..k], orders);
                blocks == o.blocks && ctx.State() == o.store && ctx.log == old(ctx.log) + o.resolved
    {
      var msgUrl := msgUrls[k];
      ghost var before := ctx.State();
      ghost var prev := MessagesOutcome(ctx.env, old(ctx.State()), msgUrls[..k], orders);
      var block, order := ProcessMessage(ctx, monthUrl, msgUrl);
      ghost var msg := MessageOutcome(ctx.env, before, msgUrl, order);
      if block.Some? {
        blocks := blocks + [block.value];
      }
      MessageOrdersStep(ctx.env, monthUrl, msgUrls, k, orders, order);
      MessagesOutcomeStep(ctx.env, old(ctx.State()), msgUrls, k, orders, order);
      orders := orders + [order];
      ConcatAssoc(old(ctx.log), prev.resolved, msg.resolved);
    }
    assert msgUrls[..|msgUrls|] == msgUrls;
  }

  /**
   * One month (the body of the month loop): nothing when its page cannot
   * be read, otherwise the message loop over its message URLs; blocks and
   * new collections are those of `MonthOutcome`, and every block names a
   * message of that month.
   */
  method ProcessMonth(ctx: ResolverContext, monthUrl: string) returns (blocks: seq<string>, ghost orders: seq<seq<string>>)
    requires ctx.Valid()
    modifies ctx
    ensures ctx.Valid()
    ensures MonthOrders(ctx.env, monthUrl, orders)
    ensures var o := MonthOutcome(ctx.env, old(ctx.State()), monthUrl, orders);
            blocks == o.blocks && ctx.State() == o.store && ctx.log == old(ctx.log) + o.resolved
    ensures NameMessagesOf(blocks, monthUrl)
  {
    blocks, orders := [], [];
    var monthHtml := GetHtml(ctx.env, monthUrl);
    if monthHtml.None? || monthHtml.value == "" {
      return;
    }
    var messageLinks := MessageLinks(ctx.env.pages[monthUrl].hrefs);
    var messageFullUrls := MessageUrls(monthUrl, messageLinks);
    blocks, orders := ProcessMessages(ctx, monthUrl, messageFullUrls);
    MonthBlocksNameMonth(ctx.env, old(ctx.State()), monthUrl, orders);
  }

  /** The analysis prompt written before the messages. */
  const Prompt: string := "\nAnalyze text below to answer the following questions:\n1. What are the most important topics discussed?\n"

  /** The separator between two message blocks. */
  const MessageSeparator: string := "\n\n---\n\n"

  /** `sep.join(parts)` */
  function Join(parts: seq<string>, sep: string): string
    decreases |parts|
  {
    if |parts| == 0 then ""
    else if |parts| == 1 then parts[0]
    else parts[0] + sep + Join(parts[1..], sep)
  }

  /** Joining one more part adds the separator and that part at the end. */
  lemma {:induction false} JoinSnoc(parts: seq<string>, part: string, sep: string)
    requires |parts| > 0
    ensures Join(parts + [part], sep) == Join(parts, sep) + sep + part
    decreases |parts|
  {
    if |parts| > 1 {
      assert (parts + [part])[1..] == parts[1..] + [part];
      JoinSnoc(parts[1..], part, sep);
    }
  }

  /** The text written to the output file. */
  function AllContent(blocks: seq<string>): string {
    Prompt + "\n\n" + Join(blocks, MessageSeparator)
  }


  /**
   * The whole run. `None` stands for the abort when the archive index
   * cannot be retrieved. Otherwise only the first `n` months of the index
   * are read, and the output is the prompt followed by the blocks of
   * `RunOutcome` for the minutes orders the run took, starting from empty
   * collections; every block starts with a message header, and no minutes
   * URL is resolved twice.
   */
  method FetchMessages(env: Env, baseUrl: string, n: nat)
      returns (output: Option<string>, ghost months: seq<string>, ghost orders: seq<seq<seq<string>>>,
               ghost blocks: seq<string>, ghost resolved: seq<string>)
    ensures output.None? <==> baseUrl !in env.pages
    ensures output.Some? ==>
              && months == LatestMonths(MonthUrls(baseUrl, env.pages[baseUrl].periodHrefs), n)
              && RunOrders(env, months, orders)
              && var r := RunOutcome(env, Store(map[], {}), months, orders);
                 blocks == r.blocks && resolved == r.resolved && output.value == AllContent(blocks)
    ensures forall k :: 0 <= k < |blocks| ==> StartsWith(blocks[k], "### Message URL: ")
    ensures NoDup(resolved)
  {
    months, orders, blocks, resolved := [], [], [], [];
    var archiveHtml := GetHtml(env, baseUrl);
    if archiveHtml.None? {
      return None, months, orders, blocks, resolved;
    }
    var monthLinks := MonthLinks(baseUrl, env.pages[baseUrl].periodHrefs);
    var latestMonthLinks := LatestMonths(monthLinks, n);
    months := latestMonthLinks;

    var ctx := new ResolverContext(env);
    ghost var empty := Store(map[], {});
    var messageMarkdowns: seq<string> := [];
    for m := 0 to |latestMonthLinks|
      invariant ctx.Valid() && ctx.env == env
      invariant RunOrders(env, latestMonthLinks[..m], orders)
      invariant var o := RunOutcome(env, empty, latestMonthLinks[..m], orders);
                messageMarkdowns == o.blocks && ctx.State() == o.store && ctx.log == o.resolved
    {
      ghost var prev := RunOutcome(env, empty, latestMonthLinks[..m], orders);
      ghost var before := ctx.State();
      var monthBlocks, monthOrders := ProcessMonth(ctx, latestMonthLinks[m]);
      ghost var month := MonthOutcome(env, before, latestMonthLinks[m], monthOrders);
      messageMarkdowns := messageMarkdowns + monthBlocks;
      RunOrdersStep(env, latestMonthLinks, m, orders, monthOrders);
      RunOutcomeStep(env, empty, latestMonthLinks, m, orders, monthOrders);
      orders := orders + [monthOrders];
    }
    assert latestMonthLinks[..|latestMonthLinks|] == latestMonthLinks;
    output := Some(AllContent(messageMarkdowns));
    blocks := messageMarkdowns;
    resolved := ctx.log;
    RunResolvesEachOnce(env, months, orders);
    RunBlocksAreMessages(env, empty, months, orders);
    assert "### Message URL: " + "" == "### Message URL: ";
  }
}
