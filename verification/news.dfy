/** `News::getNews`: the caller's news feed. The query keeps the items in an
    id window that someone else caused near the caller's home, newest first,
    up to a limit; PHP then drops tool items from non-friends. The distance
    test is a parameter, standing for `ST_DWithin` against the caller's home
    point. */
module News {
  import opened Wrappers
  import opened Seqs
  import opened Sorting

  /** A row of `news`. `toolId` is None for SQL NULL. */
  datatype NewsItem = NewsItem(id: int, occurTs: int, neighborId: int, toolId: Option<int>)

  /** The `where` clause. */
  predicate Qualifies(n: NewsItem, me: int, near: NewsItem -> bool, afterId: int, beforeId: int)
  {
    n.neighborId != me && near(n) && afterId < n.id < beforeId
  }

  /** `order by n.occur_ts desc, n.id desc`: `a` may come before `b`. */
  predicate NewerFirst(a: NewsItem, b: NewsItem)
  {
    a.occurTs > b.occurTs || (a.occurTs == b.occurTs && a.id >= b.id)
  }

  lemma NewerFirstOrders()
    ensures TotalPreorder(NewerFirst)
  {
  }

  /** `$newsItem['tool_id'] == null`: loose, so a tool id of 0 counts as none. */
  predicate NoTool(n: NewsItem)
  {
    n.toolId.None? || n.toolId.value == 0
  }

  /** The `array_filter` callback: items without a tool, or from a friend. */
  predicate Visible(n: NewsItem, friends: set<int>)
  {
    NoTool(n) || n.neighborId in friends
  }

  function WhereClause(me: int, near: NewsItem -> bool, afterId: int, beforeId: int): NewsItem -> bool
  {
    (n: NewsItem) => Qualifies(n, me, near, afterId, beforeId)
  }

  /** The rows the `where` clause keeps, in table order. */
  function Window(items: seq<NewsItem>, me: int, near: NewsItem -> bool, afterId: int, beforeId: int): (w: seq<NewsItem>)
    ensures forall n :: n in w <==> n in items && Qualifies(n, me, near, afterId, beforeId)
  {
    Filter(items, WhereClause(me, near, afterId, beforeId))
  }

  /** The rows the query returns: qualifying items, newest first, at most
      `maxItems` of them, and none at all when the caller has no neighbor row
      (the `me` CTE is then empty). */
  function Page(items: seq<NewsItem>, me: int, near: Option<NewsItem -> bool>, afterId: int, beforeId: int, maxItems: nat): (r: seq<NewsItem>)
    ensures |r| <= maxItems
    ensures near.None? ==> r == []
    ensures near.Some? ==> forall n :: n in r ==> n in items && Qualifies(n, me, near.value, afterId, beforeId)
    ensures SortedBy(r, NewerFirst)
    ensures near.Some? ==> forall n :: n in items && Qualifies(n, me, near.value, afterId, beforeId) && n !in r ==>
      |r| == maxItems && forall m :: m in r ==> NewerFirst(m, n)
    ensures near.Some? ==> multiset(r) <= multiset(Window(items, me, near.value, afterId, beforeId))
    ensures near.Some? && |Window(items, me, near.value, afterId, beforeId)| <= maxItems ==>
      multiset(r) == multiset(Window(items, me, near.value, afterId, beforeId))
  {
    if near.None? then []
    else
      var window := Window(items, me, near.value, afterId, beforeId);
      NewerFirstOrders();
      var sorted := SortBy(window, NewerFirst);
      var k := if maxItems < |sorted| then maxItems else |sorted|;
      TopFacts(window, sorted, k, maxItems);
      sorted[..k]
  }

  /** The first `k` rows of the sorted window, as `LIMIT` takes them. */
  lemma TopFacts(window: seq<NewsItem>, sorted: seq<NewsItem>, k: nat, maxItems: nat)
    requires multiset(sorted) == multiset(window) && SortedBy(sorted, NewerFirst)
    requires k == if maxItems < |sorted| then maxItems else |sorted|
    ensures var r := sorted[..k];
      && |r| <= maxItems
      && SortedBy(r, NewerFirst)
      && (forall n :: n in r ==> n in window)
      && (forall n :: n in window && n !in r ==> |r| == maxItems && forall m :: m in r ==> NewerFirst(m, n))
      && multiset(r) <= multiset(window)
      && (|window| <= maxItems ==> multiset(r) == multiset(window))
  {
    PermutationFacts(sorted, window);
    PrefixFacts(sorted, k);
    assert sorted == sorted[..k] + sorted[k..];
    assert k == |sorted| ==> sorted[..k] == sorted;
  }

  /** A prefix of a sorted sequence is sorted, and everything it leaves out
      may come after everything it keeps. */
  lemma PrefixFacts(s: seq<NewsItem>, k: nat)
    requires k <= |s| && SortedBy(s, NewerFirst)
    ensures SortedBy(s[..k], NewerFirst)
    ensures forall n :: n in s && n !in s[..k] ==> forall m :: m in s[..k] ==> NewerFirst(m, n)
  {
    forall n, m | n in s && n !in s[..k] && m in s[..k]
      ensures NewerFirst(m, n)
    {
      assert forall x :: 0 <= x < k ==> s[..k][x] == s[x];
      var j :| 0 <= j < |s| && s[j] == n;
      var i :| 0 <= i < k && s[..k][i] == m;
      assert k <= j;
    }
  }

  /** `array_filter`: the kept elements with their original positions, which
      PHP keeps as the array keys. */
  function KeepWithKeys(s: seq<NewsItem>, friends: set<int>): (r: seq<(nat, NewsItem)>)
    ensures |r| <= |s|
    ensures forall i :: 0 <= i < |r| ==> r[i].0 < |s| && s[r[i].0] == r[i].1 && Visible(r[i].1, friends)
    ensures forall i, j :: 0 <= i < j < |r| ==> r[i].0 < r[j].0
    ensures forall k :: 0 <= k < |s| ==> (Visible(s[k], friends) <==> (k, s[k]) in r)
  {
    if |s| == 0 then []
    else
      var init := s[..|s| - 1];
      var prefix := KeepWithKeys(init, friends);
      assert forall k :: 0 <= k < |init| ==> s[k] == init[k];
      if Visible(s[|s| - 1], friends) then prefix + [(|s| - 1, s[|s| - 1])] else prefix
  }

  /** Every kept entry is keyed by its element's position. */
  lemma KeptEntries(s: seq<NewsItem>, friends: set<int>)
    ensures forall e :: e in KeepWithKeys(s, friends) ==> e.0 < |s| && s[e.0] == e.1
  {
    var r := KeepWithKeys(s, friends);
    forall e | e in r
      ensures e.0 < |s| && s[e.0] == e.1
    {
      var i :| 0 <= i < |r| && r[i] == e;
    }
  }

  /** `LIMIT` with a negative count is rejected by the database. */
  datatype NewsError = NegativeLimit

  function GetNews(items: seq<NewsItem>, me: int, near: Option<NewsItem -> bool>, afterId: int, beforeId: int, maxItems: int, friends: set<int>): (r: Result<seq<(nat, NewsItem)>, NewsError>)
    ensures r.Err? <==> maxItems < 0
    ensures r.Ok? ==> |r.value| <= maxItems
    ensures r.Ok? && near.None? ==> r.value == []
    ensures r.Ok? && near.Some? ==> forall i :: 0 <= i < |r.value| ==>
      var n := r.value[i].1;
      n in items && Qualifies(n, me, near.value, afterId, beforeId) && Visible(n, friends)
    ensures r.Ok? ==> forall i, j :: 0 <= i < j < |r.value| ==>
      r.value[i].0 < r.value[j].0 && NewerFirst(r.value[i].1, r.value[j].1)
    ensures r.Ok? ==> var p := Page(items, me, near, afterId, beforeId, maxItems);
      && (forall k :: 0 <= k < |p| ==> (Visible(p[k], friends) <==> (k, p[k]) in r.value))
      && (forall e :: e in r.value ==> e.0 < |p| && p[e.0] == e.1)
  {
    if maxItems < 0 then Err(NegativeLimit)
    else
      FeedFacts(items, me, near, afterId, beforeId, maxItems, friends);
      Ok(KeepWithKeys(Page(items, me, near, afterId, beforeId, maxItems), friends))
  }

  /** The filtered page holds visible qualifying items, newest first, keyed
      by their positions in the page. */
  lemma FeedFacts(items: seq<NewsItem>, me: int, near: Option<NewsItem -> bool>, afterId: int, beforeId: int, maxItems: nat, friends: set<int>)
    ensures var p := Page(items, me, near, afterId, beforeId, maxItems);
      var kept := KeepWithKeys(p, friends);
      && |kept| <= maxItems
      && (near.None? ==> kept == [])
      && (near.Some? ==> forall i :: 0 <= i < |kept| ==>
            var n := kept[i].1;
            n in items && Qualifies(n, me, near.value, afterId, beforeId) && Visible(n, friends))
      && (forall i, j :: 0 <= i < j < |kept| ==> kept[i].0 < kept[j].0 && NewerFirst(kept[i].1, kept[j].1))
      && (forall e :: e in kept ==> e.0 < |p| && p[e.0] == e.1)
  {
    var page := Page(items, me, near, afterId, beforeId, maxItems);
    var kept := KeepWithKeys(page, friends);
    assert forall i :: 0 <= i < |kept| ==> kept[i].1 in page;
    KeptEntries(page, friends);
  }

  /** When no more items qualify than the limit allows, every qualifying
      visible item is returned. */
  lemma AllVisibleWhenUnderLimit(items: seq<NewsItem>, me: int, near: NewsItem -> bool, afterId: int, beforeId: int, maxItems: nat, friends: set<int>, n: NewsItem)
    requires |Window(items, me, near, afterId, beforeId)| <= maxItems
    requires n in items && Qualifies(n, me, near, afterId, beforeId) && Visible(n, friends)
    ensures var r := GetNews(items, me, Some(near), afterId, beforeId, maxItems, friends);
      r.Ok? && (exists i :: 0 <= i < |r.value| && r.value[i].1 == n)
  {
    var page := Page(items, me, Some(near), afterId, beforeId, maxItems);
    assert n in multiset(Window(items, me, near, afterId, beforeId));
    assert n in multiset(page);
    var k :| 0 <= k < |page| && page[k] == n;
    var kept := KeepWithKeys(page, friends);
    assert (k, page[k]) in kept;
  }

  /** The friend filter runs after the limit: with a limit of one, a newer
      tool item from a stranger takes the only slot and is then dropped, so
      nothing is returned although an older visible item qualifies. */
  lemma FilterAfterLimit()
    ensures && Qualifies(Plain, 7, Everywhere, 0, 99999999) && Visible(Plain, {})
      && GetNews([Plain, Stranger], 7, Some(Everywhere), 0, 99999999, 1, {}) == Ok([])
  {
    var page := Page([Plain, Stranger], 7, Some(Everywhere), 0, 99999999, 1);
    StrangerTakesThePage();
    assert KeepWithKeys(page, {}) == [] by {
      assert page[..0] == [];
    }
  }

  const Plain := NewsItem(1, 100, 9, None)
  const Stranger := NewsItem(2, 200, 8, Some(5))
  const Everywhere := (n: NewsItem) => true

  lemma StrangerTakesThePage()
    ensures Page([Plain, Stranger], 7, Some(Everywhere), 0, 99999999, 1) == [Stranger]
  {
    var items := [Plain, Stranger];
    BothQualify();
    NewerFirstOrders();
    assert SortBy(items, NewerFirst) == [Stranger, Plain] by {
      assert items[1..] == [Stranger];
      assert SortBy([Stranger], NewerFirst) == [Stranger];
      assert Insert(Plain, [Stranger], NewerFirst) == [Stranger, Plain];
    }
  }

  lemma BothQualify()
    ensures Window([Plain, Stranger], 7, Everywhere, 0, 99999999) == [Plain, Stranger]
  {
    var items := [Plain, Stranger];
    var p := WhereClause(7, Everywhere, 0, 99999999);
    assert items[..1] == [Plain] && [Plain][..0] == [];
    assert p(Plain) && p(Stranger);
    assert Filter([Plain], p) == [Plain];
  }
}
