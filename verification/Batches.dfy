/** Regrouping pages of open items into work batches (scripts/label-open-issues.ts). */
module Batches {
  import opened Text

  const WORK_BATCH_SIZE := 500

  /** An issue or pull request as the listing gives it; body and labels may be missing. */
  datatype Node = Node(number: nat, title: string, body: Option<string>, labels: Option<seq<string>>)

  datatype LabelItem = LabelItem(number: nat, title: string, body: string, labels: seq<string>)

  datatype Page = Page(nodes: seq<Node>, totalCount: Option<nat>, hasNextPage: bool, endCursor: Option<string>)

  datatype Batch = Batch(batchIndex: nat, items: seq<LabelItem>, totalCount: nat, fetchedCount: nat)

  function ItemOf(node: Node): LabelItem {
    LabelItem(node.number, node.title, if node.body.Some? then node.body.value else "",
              if node.labels.Some? then node.labels.value else [])
  }

  /** An item is its node, with an empty body and no labels where these are missing. */
  lemma ItemMeaning(node: Node)
    ensures ItemOf(node).number == node.number && ItemOf(node).title == node.title
    ensures node.body == (if node.body.Some? then Some(ItemOf(node).body) else None)
    ensures node.labels == (if node.labels.Some? then Some(ItemOf(node).labels) else None)
    ensures (node.body.None? ==> ItemOf(node).body == "") && (node.labels.None? ==> ItemOf(node).labels == [])
  {}

  /** The nodes of the first n pages, as label items. */
  function ItemsOf(pages: seq<Page>, n: nat): seq<LabelItem>
    requires n <= |pages|
  {
    if n == 0 then [] else ItemsOf(pages, n - 1) + Mapped(pages[n - 1].nodes, |pages[n - 1].nodes|)
  }

  function Mapped(nodes: seq<Node>, n: nat): seq<LabelItem>
    requires n <= |nodes|
  {
    seq(n, i requires 0 <= i < n => ItemOf(nodes[i]))
  }

  function Flat(batches: seq<Batch>): seq<LabelItem> {
    if batches == [] then [] else Flat(batches[..|batches| - 1]) + batches[|batches| - 1].items
  }

  /** All batches are full, numbered from one, and know how many items have been fetched. */
  predicate FullBatches(batches: seq<Batch>) {
    forall i :: 0 <= i < |batches| ==> && |batches[i].items| == WORK_BATCH_SIZE && batches[i].batchIndex == i + 1
                                       && batches[i].fetchedCount == (i + 1) * WORK_BATCH_SIZE
  }

  /** What has been taken so far: full batches, and less than a batch waiting. */
  ghost predicate Taken(batches: seq<Batch>, results: seq<LabelItem>, taken: seq<LabelItem>) {
    && FullBatches(batches) && |results| < WORK_BATCH_SIZE
    && Flat(batches) + results == taken && |taken| == |batches| * WORK_BATCH_SIZE + |results|
  }

  /** The last total that one of the first n pages announces, zero if none does. */
  function Announced(pages: seq<Page>, n: nat): nat
    requires n <= |pages|
  {
    if n == 0 then 0 else OrElse(pages[n - 1].totalCount, Announced(pages, n - 1))
  }

  function OrElse(count: Option<nat>, otherwise: nat): nat { if count.Some? then count.value else otherwise }

  lemma {:induction false} AnnouncedMeaning(pages: seq<Page>, n: nat)
    requires n <= |pages|
    ensures (exists k :: IsLastTotal(pages, n, k, Announced(pages, n)))
            || (Announced(pages, n) == 0 && forall k :: 0 <= k < n ==> pages[k].totalCount.None?)
  {
    if n > 0 {
      var before := n - 1;
      AnnouncedMeaning(pages, before);
      if pages[before].totalCount.Some? {
        assert IsLastTotal(pages, n, before, Announced(pages, n));
      } else if k :| IsLastTotal(pages, before, k, Announced(pages, before)) {
        assert IsLastTotal(pages, n, k, Announced(pages, n));
      }
    }
  }

  predicate IsLastTotal(pages: seq<Page>, n: nat, k: int, total: nat)
    requires n <= |pages|
  {
    0 <= k < n && pages[k].totalCount == Some(total) && forall j :: k < j < n ==> pages[j].totalCount.None?
  }

  /** The batch knows the total announced up to the page, one of the first n, that its last item comes from. */
  ghost predicate KnowsTotal(pages: seq<Page>, n: nat, b: Batch)
    requires n <= |pages|
  {
    exists m: nat :: 0 < m <= n && b.totalCount == Announced(pages, m) && EndsOnPage(pages, m, b.fetchedCount)
  }

  predicate EndsOnPage(pages: seq<Page>, m: nat, count: nat)
    requires 0 < m <= |pages|
  {
    |ItemsOf(pages, m - 1)| < count <= |ItemsOf(pages, m)|
  }

  ghost predicate AllKnowTotals(pages: seq<Page>, n: nat, batches: seq<Batch>)
    requires n <= |pages|
  {
    forall i :: 0 <= i < |batches| ==> KnowsTotal(pages, n, batches[i])
  }

  lemma KnowTotalsLonger(pages: seq<Page>, n: nat, batches: seq<Batch>)
    requires n < |pages| && AllKnowTotals(pages, n, batches)
    ensures AllKnowTotals(pages, n + 1, batches)
  {
    forall i | 0 <= i < |batches| ensures KnowsTotal(pages, n + 1, batches[i]) {
      var m: nat :| 0 < m <= n && batches[i].totalCount == Announced(pages, m)
                    && EndsOnPage(pages, m, batches[i].fetchedCount);
    }
  }

  /** One more item. */
  method Take(batches: seq<Batch>, results: seq<LabelItem>, item: LabelItem, totalCount: nat, fetchedCount: nat,
              ghost taken: seq<LabelItem>)
    returns (newBatches: seq<Batch>, newResults: seq<LabelItem>)
    requires Taken(batches, results, taken) && fetchedCount == |taken| + 1
    ensures Taken(newBatches, newResults, taken + [item])
    ensures forall b :: b in newBatches ==>
              b in batches || (b.totalCount == totalCount && b.fetchedCount == fetchedCount)
  {
    newBatches, newResults := batches, results + [item];
    assert Flat(batches) + (results + [item]) == taken + [item];
    if |newResults| >= WORK_BATCH_SIZE {
      newBatches := batches + [Batch(|batches| + 1, newResults, totalCount, fetchedCount)];
      newResults := [];
    }
  }

  /** The batch was filled by one of the next `used` items. */
  predicate IsNew(b: Batch, totalCount: nat, fetchedCount: nat, used: nat) {
    b.totalCount == totalCount && fetchedCount < b.fetchedCount <= fetchedCount + used
  }

  /** The nodes of one page, up to the limit. */
  method TakePage(batches: seq<Batch>, results: seq<LabelItem>, nodes: seq<Node>, limit: int, totalCount: nat,
                  fetchedCount: nat, ghost taken: seq<LabelItem>)
    returns (newBatches: seq<Batch>, newResults: seq<LabelItem>, used: nat)
    requires Taken(batches, results, taken) && fetchedCount == |taken|
    ensures forall b :: b in newBatches ==> b in batches || IsNew(b, totalCount, fetchedCount, used)
    ensures used <= |nodes| && Taken(newBatches, newResults, taken + Mapped(nodes, used))
    ensures |taken + Mapped(nodes, used)| == fetchedCount + used
    ensures used < |nodes| ==> fetchedCount + used >= limit
    ensures used > 0 ==> fetchedCount + used <= limit
  {
    newBatches, newResults, used := batches, results, 0;
    assert taken + Mapped(nodes, 0) == taken;
    while used < |nodes|
      invariant used <= |nodes| && |Mapped(nodes, used)| == used
      invariant Taken(newBatches, newResults, taken + Mapped(nodes, used))
      invariant used > 0 ==> fetchedCount + used <= limit
      invariant forall b :: b in newBatches ==> b in batches || IsNew(b, totalCount, fetchedCount, used)
    {
      if fetchedCount + used >= limit { break; }
      ghost var before := taken + Mapped(nodes, used);
      newBatches, newResults :=
        Take(newBatches, newResults, ItemOf(nodes[used]), totalCount, fetchedCount + used + 1, before);
      assert before + [ItemOf(nodes[used])] == taken + Mapped(nodes, used + 1);
      used := used + 1;
    }
  }

  // ---------------------------------------------------------------- all pages

  /** Every page but the last announces another one. */
  predicate IsListing(pages: seq<Page>) {
    pages != [] && forall k :: 0 <= k < |pages| ==> (pages[k].hasNextPage <==> k < |pages| - 1)
  }

  /** As many items as the limit allows. */
  function Limited(items: seq<LabelItem>, limit: int): seq<LabelItem> {
    if limit <= 0 then [] else if limit < |items| then items[..limit] else items
  }

  /** Full batches, except that the last one may be smaller, but not empty. */
  predicate WorkBatches(batches: seq<Batch>) {
    batches == []
    || (var last := batches[|batches| - 1];
        && FullBatches(batches[..|batches| - 1])
        && 0 < |last.items| <= WORK_BATCH_SIZE && last.batchIndex == |batches|
        && last.fetchedCount == (|batches| - 1) * WORK_BATCH_SIZE + |last.items|)
  }

  /** The cursors the first n requests pass. */
  function Cursors(pages: seq<Page>, n: nat): (cursors: seq<Option<string>>)
    requires n <= |pages|
    ensures |cursors| == n
  {
    if n == 0 then [] else Cursors(pages, n - 1) + [if n == 1 then None else pages[n - 2].endCursor]
  }

  lemma {:induction false} ItemsPrefix(pages: seq<Page>, n: nat, m: nat)
    requires n <= m <= |pages|
    ensures ItemsOf(pages, n) <= ItemsOf(pages, m)
  {
    if n < m { ItemsPrefix(pages, n, m - 1); }
  }

  /** Of the items listed so far everything is taken, or as much as the limit allows. */
  ghost predicate TakenFrom(listed: seq<LabelItem>, limit: int, taken: seq<LabelItem>) {
    taken <= listed && (|taken| == |listed| || |taken| >= limit) && (|taken| <= limit || taken == [])
  }

  /** After n pages, the last of which was still needed. */
  ghost predicate PagesTaken(pages: seq<Page>, limit: int, n: nat, taken: seq<LabelItem>) {
    n <= |pages| && TakenFrom(ItemsOf(pages, n), limit, taken) && (n > 0 ==> |ItemsOf(pages, n - 1)| < limit)
  }

  /**
   * No more pages than the limit needs: without the last of the n pages it is not reached, with it or all pages
   * it is.
   */
  ghost predicate EnoughPages(pages: seq<Page>, limit: int, n: nat) {
    && n <= |pages| && (n > 0 ==> |ItemsOf(pages, n - 1)| < limit)
    && (n < |pages| ==> |ItemsOf(pages, n)| >= limit)
  }

  lemma PagesDone(pages: seq<Page>, limit: int, n: nat, taken: seq<LabelItem>)
    requires PagesTaken(pages, limit, n, taken) && (|taken| >= limit || n == |pages|)
    ensures taken == Limited(ItemsOf(pages, |pages|), limit) && EnoughPages(pages, limit, n)
  {
    ItemsPrefix(pages, n, |pages|);
    assert taken == ItemsOf(pages, |pages|)[..|taken|];
  }

  /** What is left waiting becomes the last batch. */
  method Finish(batches: seq<Batch>, results: seq<LabelItem>, totalCount: nat, fetchedCount: nat,
                ghost taken: seq<LabelItem>)
    returns (all: seq<Batch>)
    requires Taken(batches, results, taken) && fetchedCount == |taken|
    ensures Flat(all) == taken && WorkBatches(all)
    ensures batches <= all <= batches + [Batch(|batches| + 1, results, totalCount, fetchedCount)]
    ensures |all| == |batches| + if results == [] then 0 else 1
  {
    all := batches;
    if |results| > 0 {
      all := batches + [Batch(|batches| + 1, results, totalCount, fetchedCount)];
      assert all[..|all| - 1] == batches;
    }
  }

  /** The next page, taken up to the limit. */
  method TakeNextPage(pages: seq<Page>, limit: int, ghost n: nat, page: Page,
                            batches: seq<Batch>, results: seq<LabelItem>, totalCount: nat, fetchedCount: nat,
                            ghost taken: seq<LabelItem>)
    returns (newBatches: seq<Batch>, newResults: seq<LabelItem>, newFetched: nat, ghost newTaken: seq<LabelItem>)
    requires Taken(batches, results, taken) && fetchedCount == |taken| < limit && n < |pages| && page == pages[n]
    requires PagesTaken(pages, limit, n, taken)
    requires AllKnowTotals(pages, n, batches) && totalCount == Announced(pages, n + 1)
    ensures Taken(newBatches, newResults, newTaken) && newFetched == |newTaken|
    ensures PagesTaken(pages, limit, n + 1, newTaken) && AllKnowTotals(pages, n + 1, newBatches)
  {
    var used;
    newBatches, newResults, used := TakePage(batches, results, page.nodes, limit, totalCount, fetchedCount, taken);
    newTaken := taken + Mapped(page.nodes, used);
    newFetched := fetchedCount + used;
    KnowTotalsLonger(pages, n, batches);
    forall i | 0 <= i < |newBatches| ensures KnowsTotal(pages, n + 1, newBatches[i]) {
      var b := newBatches[i];
      assert b in newBatches;
      if b in batches {
        var k :| 0 <= k < |batches| && batches[k] == b;
      } else {
        assert EndsOnPage(pages, n + 1, b.fetchedCount);
      }
    }
  }

  /** The cursors passed so far, and the next one. */
  ghost predicate Requested(pages: seq<Page>, n: nat, requested: seq<Option<string>>, after: Option<string>) {
    && n <= |pages| && requested == Cursors(pages, n)
    && after == (if n == 0 then None else pages[n - 1].endCursor)
  }

  lemma RequestNext(pages: seq<Page>, n: nat, requested: seq<Option<string>>, after: Option<string>)
    requires Requested(pages, n, requested, after) && n < |pages|
    ensures Requested(pages, n + 1, requested + [after], pages[n].endCursor)
  {}

  method FetchBatches(pages: seq<Page>, limit: int)
    returns (batches: seq<Batch>, requested: seq<Option<string>>)
    requires IsListing(pages)
    ensures Flat(batches) == Limited(ItemsOf(pages, |pages|), limit) && WorkBatches(batches)
    ensures forall i :: 0 <= i < |batches| ==> |batches[i].items| <= 500
    ensures EnoughPages(pages, limit, |requested|) && requested == Cursors(pages, |requested|)
    ensures forall i :: 0 <= i < |batches| ==>
              if |batches[i].items| == WORK_BATCH_SIZE then KnowsTotal(pages, |requested|, batches[i])
              else batches[i].totalCount == Announced(pages, |requested|)
  {
    var results, totalCount, fetchedCount;
    ghost var taken, read;
    batches, results, requested, totalCount, fetchedCount, taken, read := FetchPages(pages, limit);
    PagesDone(pages, limit, read, taken);
    batches := Finish(batches, results, totalCount, fetchedCount, taken);
  }

  /** The loop over the pages. */
  method FetchPages(pages: seq<Page>, limit: int)
    returns (batches: seq<Batch>, results: seq<LabelItem>, requested: seq<Option<string>>, totalCount: nat,
             fetchedCount: nat,
             ghost taken: seq<LabelItem>, ghost read: nat)
    requires IsListing(pages)
    ensures Taken(batches, results, taken) && fetchedCount == |taken| && PagesTaken(pages, limit, read, taken)
    ensures fetchedCount >= limit || read == |pages|
    ensures requested == Cursors(pages, read)
    ensures AllKnowTotals(pages, read, batches) && totalCount == Announced(pages, read)
  {
    batches, results, requested, read, taken := [], [], [], 0, [];
    totalCount, fetchedCount := 0, 0;
    var page := 0;
    var after: Option<string> := None;
    while fetchedCount < limit
      invariant read == page < |pages| && Requested(pages, read, requested, after)
      invariant Taken(batches, results, taken) && fetchedCount == |taken|
      invariant PagesTaken(pages, limit, read, taken)
      invariant AllKnowTotals(pages, read, batches) && totalCount == Announced(pages, read)
      decreases |pages| - page
    {
      var pageData := pages[page];
      RequestNext(pages, read, requested, after);
      requested := requested + [after];
      totalCount := OrElse(pageData.totalCount, totalCount);
      batches, results, fetchedCount, taken :=
        TakeNextPage(pages, limit, read, pageData, batches, results, totalCount, fetchedCount, taken);
      read := read + 1;
      after := pageData.endCursor;
      if !pageData.hasNextPage { break; }
      page := page + 1;
    }
  }
}
