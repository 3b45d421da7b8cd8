/** One synchronisation as values: what `processItems` does to the page, how
    `getData` chooses between the server's answer and the cached snapshot, and
    what closing the configuration panel re-renders. */
module Sync {
  import opened Common
  import opened Feed
  import opened Reconcile
  import opened Filters

  /** What the page shows and has sent: the rendered items in document order,
      the classes on the document body, `LAST_READED`, and the argument of each
      read call made so far (each a comma-joined list of item ids). */
  datatype Screen = Screen(
    rendered: seq<ItemData>,
    classes: set<string>,
    lastReaded: Option<ItemId>,
    readCalls: seq<string>)

  /** The persisted store, key by key: `user`, `filter` and `old-filter` (lists
      of excluded category ids, kept as the lists whose JSON text the store
      holds), and `last-data` (the last accepted payload). */
  datatype Store = Store(
    user: Option<string>,
    filter: Option<seq<nat>>,
    oldFilter: Option<seq<nat>>,
    lastData: Option<Snapshot>)

  /** The display record of each item, or none where its source is missing. */
  function Resolutions(items: seq<FeedItem>, sources: seq<Source>): (rs: seq<Option<ItemData>>)
    ensures |rs| == |items|
    ensures forall k :: 0 <= k < |items| ==> rs[k] == GetItemData(items[k], sources)
  {
    seq(|items|, k requires 0 <= k < |items| => GetItemData(items[k], sources))
  }

  function Ids(items: seq<FeedItem>): (r: seq<ItemId>)
    ensures |r| == |items|
    ensures forall k :: 0 <= k < |items| ==> r[k] == items[k].id
  {
    seq(|items|, k requires 0 <= k < |items| => items[k].id)
  }

  /** `data ?? { sources: [], feeds: [] }`, split in its two parts. */
  function ItemsOf(data: Option<Snapshot>): seq<FeedItem> {
    if data.None? then [] else data.value.feeds
  }

  function SourcesOf(data: Option<Snapshot>): seq<Source> {
    if data.None? then [] else data.value.sources
  }

  /** The ids sent as read right after rendering: those of the first three items. */
  function ReadBatch(items: seq<FeedItem>): (r: seq<ItemId>)
    ensures |r| == Min(3, |items|)
    ensures forall k :: 0 <= k < |r| ==> r[k] == items[k].id
  {
    Ids(items[..Min(3, |items|)])
  }

  /** `processItems(data)`: the list is reconciled against the new items, the
      "no-items" class tracks whether there are any, and one read call carries
      the ids of the first (up to) three, the last of which becomes
      `LAST_READED`. */
  function Processed(s: Screen, data: Option<Snapshot>): (r: Screen)
    ensures ("no-items" in r.classes) <==> data.None? || data.value.feeds == []
    ensures r.classes - {"no-items"} == s.classes - {"no-items"}
    ensures ItemsOf(data) == [] ==> r.lastReaded == s.lastReaded && r.readCalls == s.readCalls
    ensures ItemsOf(data) != [] ==>
              var n := Min(3, |ItemsOf(data)|);
              && r.lastReaded == Some(ItemsOf(data)[n - 1].id)
              && r.readCalls == s.readCalls + [Join(Ids(ItemsOf(data)[..n]), ",")]
  {
    var items := ItemsOf(data);
    var batch := ReadBatch(items);
    Screen(
      Shown(Reconciled(s.rendered, Resolutions(items, SourcesOf(data)))),
      if items == [] then s.classes + {"no-items"} else s.classes - {"no-items"},
      if batch == [] then s.lastReaded else Some(batch[|batch| - 1]),
      if batch == [] then s.readCalls else s.readCalls + [Join(batch, ",")])
  }

  /** The read call of a refresh names exactly the ids of the first three
      items, whenever no id contains a comma. */
  lemma ReadCallCarriesFirstIds(s: Screen, data: Option<Snapshot>)
    requires ItemsOf(data) != []
    requires forall k :: 0 <= k < |ItemsOf(data)| ==> ',' !in ItemsOf(data)[k].id
    ensures var r := Processed(s, data);
      && |r.readCalls| == |s.readCalls| + 1
      && Split(r.readCalls[|s.readCalls|], ',') == ReadBatch(ItemsOf(data))
      && r.lastReaded == Some(ReadBatch(ItemsOf(data))[|ReadBatch(ItemsOf(data))| - 1])
  {
    var batch := ReadBatch(ItemsOf(data));
    assert Ids(ItemsOf(data)[..Min(3, |ItemsOf(data)|)]) == batch;
    SplitJoin(batch, ',');
  }

  /** A refresh with no payload (or an empty one) empties the list, sets
      "no-items" and sends nothing. */
  lemma EmptyRefreshClears(s: Screen, data: Option<Snapshot>)
    requires ItemsOf(data) == []
    ensures var r := Processed(s, data);
      r.rendered == [] && "no-items" in r.classes && r.readCalls == s.readCalls && r.lastReaded == s.lastReaded
  {
    assert Resolutions([], SourcesOf(data)) == [];
  }

  /** The result of the feed request: a decoded answer with its `status`, or a
      failure (time-out, network error, undecodable body). */
  datatype FetchOutcome = Response(status: string, payload: Snapshot) | Failed

  predicate Accepted(o: FetchOutcome) { o.Response? && o.status == "success" }

  /** `last-data` after the request: an accepted payload replaces it. */
  function CachedAfter(o: FetchOutcome, cached: Option<Snapshot>): Option<Snapshot> {
    if Accepted(o) then Some(o.payload) else cached
  }

  /** The `user` key after `currentUser` with the freshly generated id
      `generated`: a missing or empty id is replaced. */
  function UserAfter(user: Option<string>, generated: string): (r: Option<string>)
    ensures IsTruthy(user) ==> r == user
    ensures !IsTruthy(user) ==> r == Some(generated)
    ensures generated != "" ==> IsTruthy(r)
  {
    if IsTruthy(user) then user else Some(generated)
  }

  /** Once an id is stored it stays: a later call never replaces it. */
  lemma UserIdStable(user: Option<string>, first: string, second: string)
    requires first != ""
    ensures UserAfter(UserAfter(user, first), second) == UserAfter(user, first)
    ensures IsTruthy(UserAfter(user, first))
  {
  }

  /** The store after `getData`. */
  function StoreAfterFetch(st: Store, o: FetchOutcome, generated: string): Store {
    st.(user := UserAfter(st.user, generated), lastData := CachedAfter(o, st.lastData))
  }

  /** The `data` that `getData` goes on with: the accepted payload; otherwise
      the cached one when the caller asked for the cache; otherwise null. */
  function FetchedData(o: FetchOutcome, useCache: bool, cached: Option<Snapshot>): Option<Snapshot> {
    if Accepted(o) then Some(o.payload) else if useCache then cached else None
  }

  /** Whether and with what `processItems` runs: when paging back with no data,
      reversing `data.feeds` throws and nothing is processed. */
  datatype Processing = Skipped | Process(data: Option<Snapshot>)

  function ToProcess(backFrom: string, data: Option<Snapshot>): (r: Processing)
    ensures r.Skipped? <==> backFrom != "" && data.None?
    ensures r.Process? ==> (r.data.None? <==> data.None?)
    ensures r.Process? && data.Some? ==>
              r.data.value.sources == data.value.sources
              && r.data.value.feeds == (if backFrom == "" then data.value.feeds else Reverse(data.value.feeds))
  {
    if backFrom == "" then Process(data)
    else if data.None? then Skipped
    else Process(Some(data.value.(feeds := Reverse(data.value.feeds))))
  }

  /** The page after `getData`: "items-loading" is set, the data is
      processed, and both loading classes are cleared. */
  function AfterFetch(s: Screen, backFrom: string, data: Option<Snapshot>): (r: Screen)
    ensures "items-loading" !in r.classes && "loading" !in r.classes
    ensures ToProcess(backFrom, data).Skipped? ==>
              r == s.(classes := s.classes - {"items-loading", "loading"})
    ensures ToProcess(backFrom, data).Process? ==>
              r.rendered == Processed(s, ToProcess(backFrom, data).data).rendered
  {
    var loading := s.(classes := s.classes + {"items-loading"});
    var shown := match ToProcess(backFrom, data)
      case Skipped => loading
      case Process(d) => Processed(loading, d);
    shown.(classes := shown.classes - {"items-loading", "loading"})
  }

  /** The cache fall-back replays the last accepted payload: after a request
      that stored snapshot `snap`, a failed request with the cache allowed
      renders from the same screen exactly what the accepted one rendered. */
  lemma FallbackReplaysLastAccepted(s: Screen, backFrom: string, snap: Snapshot, cached: Option<Snapshot>, useCache: bool, o: FetchOutcome)
    requires !Accepted(o)
    ensures var stored := CachedAfter(Response("success", snap), cached);
      AfterFetch(s, backFrom, FetchedData(o, true, stored))
        == AfterFetch(s, backFrom, FetchedData(Response("success", snap), useCache, cached))
  {
  }

  /** A failed request without the cache clears the list on a forward refresh,
      and leaves the list untouched when paging back. */
  lemma FailureWithoutCache(s: Screen, backFrom: string, o: FetchOutcome, cached: Option<Snapshot>)
    requires !Accepted(o)
    ensures var r := AfterFetch(s, backFrom, FetchedData(o, false, cached));
      && (backFrom == "" ==> r.rendered == [] && "no-items" in r.classes)
      && (backFrom != "" ==> r.rendered == s.rendered && r.readCalls == s.readCalls && r.lastReaded == s.lastReaded)
  {
    if backFrom == "" {
      EmptyRefreshClears(s.(classes := s.classes + {"items-loading"}), None);
    }
  }

  /** Paging back processes the payload with its items in reverse order. */
  lemma BackPagingReverses(s: Screen, backFrom: string, snap: Snapshot)
    requires backFrom != ""
    ensures AfterFetch(s, backFrom, Some(snap)).rendered
         == Shown(Reconciled(s.rendered, Resolutions(Reverse(snap.feeds), snap.sources)))
  {
  }

  /** What closing the configuration panel does: nothing to re-render (the
      filter text did not change, or no snapshot is cached), re-render the
      cached snapshot with the re-filtered items, or abort (an item's source
      is missing). */
  datatype ConfigClose = Unchanged | Refilter(data: Snapshot) | Aborted

  function ConfigCloseCase(st: Store): ConfigClose {
    var newText := FilterText(st.filter);
    if FilterText(st.oldFilter) == newText || st.lastData.None? then Unchanged
    else
      var cached := st.lastData.value;
      match ReFilter(cached.feeds, cached.sources, newText)
      case None => Aborted
      case Some(kept) => Refilter(cached.(feeds := kept))
  }

  /** `closeConfig` re-renders only when the two filter texts differ and a
      snapshot is cached; what it hands `processItems` is the cached snapshot
      with an order-preserving subsequence of its items, holding exactly those
      of a known source whose category the filter text does not name, each as
      often as the cache holds it; it
      aborts exactly when some cached item's source is missing. */
  lemma ConfigCloseRefiltersCache(st: Store)
    ensures ConfigCloseCase(st) != Unchanged ==>
              FilterText(st.oldFilter) != FilterText(st.filter) && st.lastData.Some?
    ensures ConfigCloseCase(st).Refilter? ==>
              var d := ConfigCloseCase(st).data;
              && d.sources == st.lastData.value.sources
              && IsSubsequence(d.feeds, st.lastData.value.feeds)
              && (forall x :: x in d.feeds ==> Kept(FilterText(st.filter), d.sources, x))
              && (forall x :: x in st.lastData.value.feeds && Kept(FilterText(st.filter), d.sources, x) ==> x in d.feeds)
              && (forall x :: multiset(d.feeds)[x] ==
                    if Kept(FilterText(st.filter), d.sources, x) then multiset(st.lastData.value.feeds)[x] else 0)
    ensures ConfigCloseCase(st).Aborted? <==>
              && FilterText(st.oldFilter) != FilterText(st.filter) && st.lastData.Some?
              && exists x :: x in st.lastData.value.feeds
                   && FindSource(st.lastData.value.sources, x.sourceId).None?
  {
    if FilterText(st.oldFilter) != FilterText(st.filter) && st.lastData.Some? {
      var cached := st.lastData.value;
      ReFilterFailsIffSourceMissing(cached.feeds, cached.sources, FilterText(st.filter));
      if ReFilter(cached.feeds, cached.sources, FilterText(st.filter)).Some? {
        ReFilterKeepsExactly(cached.feeds, cached.sources, FilterText(st.filter));
      }
    }
  }

  /** The screen with the configuration panel closed. */
  function ConfigHidden(s: Screen): Screen {
    s.(classes := s.classes - {"show-config"})
  }

  /** The store after a completed `closeConfig`: `old-filter` takes the text of `filter`. */
  function OldFilterCopied(st: Store): Store {
    st.(oldFilter := Some(st.filter.GetOr([])))
  }

  /** Opening the panel and closing it again without toggling a category
      re-renders nothing. */
  lemma OpenThenCloseUnchanged(st: Store)
    ensures ConfigCloseCase(st.(oldFilter := Some(st.filter.GetOr([])))) == Unchanged
  {
    CopiedFilterTextIsEqual(st.filter);
  }
}
