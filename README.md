# nuus-web feed synchronisation, modelled in Dafny

The nuus web client is one browser script, `app.js`. It fetches a page of news
items and their sources from the feed API and renders them as a list. It
reports items as read and lets the reader hide categories. This project
models the script's synchronisation core and proves what each part promises:

- `processItems` reconciles the rendered list against a new payload. Each
  rendered element becomes a removal candidate in document order. Each new
  item takes the next candidate's slot, or goes to the head of the list when
  none is left, so such items end up in reverse order. Leftover candidates
  are removed. The `no-items` class is set
  or cleared. One read call carries the ids of the first three items, and the
  last of them becomes `LAST_READED`.
- `addItem` returns early when `getItemData` could not find the item's
  source. The slot it was handed then keeps its old element.
- `getItemData` derives the display record of an item. The author, summary,
  category id and image each have a fallback. `getFirstImage` is the scan for
  the first image with a url.
- `inputChange` edits the filter list: it splices or pushes an id, then sorts
  ascending. `openConfig` saves the filter as `old-filter`. `closeConfig`
  re-filters the cached snapshot when the filter text changed.
- `getData` decides between the server's answer and the cached snapshot. It
  reverses the items when paging back.
- `dateText` buckets an item's age, `menuButton` dispatches the menu
  actions, and `currentUser` gets or creates the user id.

Modules, one per file:

- `Common`: `Option` (null or undefined against a value), plus the JavaScript
  array and string operations the script relies on (`indexOf`, `reverse`,
  `join`, `String(n)`, `includes`). `Split` is not called by the script: it is
  the inverse of `join`, used to state that a read call's text gives back its
  ids.
- `Feed`: the payload datatypes, `getItemData` and `getFirstImage`.
- `Reconcile`: reconciliation as a pass over values, with its shape proved
  once and for all.
- `Filters`: the filter list, its editing, and the re-filter of the cache.
- `DateText`: `dateText` over whole elapsed seconds.
- `Menu`: `menuButton`'s dispatch.
- `Sync`: a refresh, a fetch and closing the panel, as functions from the old
  page to the new one.
- `App`: class `Page`, whose fields are the rendered list, the body classes,
  `LAST_READED`, the read calls sent and the persisted store. Its methods
  change these fields in place, as the script's handlers do. What each is
  proved against:
  - a `Sync` function: `ProcessItems` (`Processed`), `SendFirstAsRead`
    (`ReadBatch`), `CurrentUser` (`UserAfter`), `OpenConfig`
    (`OldFilterCopied`), `CloseConfig` (`ConfigCloseCase`), and `GetData`
    and `Init` (`StoreAfterFetch`, `AfterFetch`, `FetchedData`);
  - the reconciliation pass: `AddItems` (`Reconcile.Reconciled`);
  - the filter edit: `InputChange` (`Filters.Toggled`);
  - the menu dispatch: `MenuButton` (`Menu.MenuCommand`);
  - their new fields, stated directly: `AddItem`, `RemoveItem`,
    `RemoveItems`, `ItemBecameVisible` and `CloseIframe`.

The network answer, the random user id and the moment an item scrolls into
view are parameters. The read request is an entry appended to `readCalls`.
The store is typed: `filter` and `old-filter` hold id lists, whose text is
always the `JSON.stringify` of such a list. The text is derived
(`FilterText`) wherever the script compares or searches it.

Four facts about the script that the model keeps as they are:

- Read ids are never de-duplicated.
- Read reports go on while paging back.
- `menuButton` never checks `items-loading`, so a request in flight does not
  block another one.
- `getData` accepts the `sendCurrentsAsReaded` option of "more" and never
  uses it.

## Model

| member | source | states |
|---|---|---|
| Common.IndexOf | app.js:89 | `indexOf`: -1 exactly when the value is absent, otherwise the first index holding it |
| Common.Reverse | app.js:361 | `reverse`: same length, element i is element n-1-i |
| Common.Join | app.js:516 | `join`: the parts with the separator between each two (definition; characterised by `SplitJoin`) |
| Common.SplitJoin | app.js:516 | the comma-joined text of a read call splits back into exactly the ids it was built from (no id contains a comma) |
| Common.NatToString | app.js:57 | `String(n)` of an id is a non-empty digit string that denotes `n` in base ten, one digit exactly for ids below 10 |
| Common.Contains | app.js:57 | `includes` on strings: the pattern occurs at some position of the text (definition; characterised by `ContainsChar`) |
| Common.ContainsChar | app.js:57 | `includes` with a one-character pattern is character membership |
| Feed.CategoriesDistinct | app.js:613-628 | `CATEGORIES` holds fourteen distinct names |
| Feed.CategoryIdOfEach | app.js:613-628 | each category of `CATEGORIES` has its own id, its position plus one |
| Feed.CategoryId | app.js:308 | 1-based position in `CATEGORIES`, 0 exactly when the category is absent or unknown |
| Feed.FindSource | app.js:304 | `find`: none exactly when no source has the id, otherwise a source with that id |
| Feed.FindSourceIsFirst | app.js:304 | the source `find` returns is preceded by no source with the same id |
| Feed.TrimEmptyIffBlank | app.js:307 | `trim()` yields "" exactly when the text is all JavaScript white space |
| Feed.Trim | app.js:307 | `trim()`: leading and trailing JavaScript white space removed (definition; characterised by `TrimEmptyIffBlank`) |
| Feed.FirstImage | app.js:320-326 | none for a missing or empty list, otherwise the first truthy url of the list |
| Feed.GetFirstImage | app.js:320-326 | the loop with early return: none exactly when there is no list or no truthy url; otherwise a truthy url preceded only by falsy ones, equal to `FirstImage` |
| Feed.AuthorOf | app.js:305 | `authors[0]` when there is one, else `author`, else "" |
| Feed.SummaryOf | app.js:307 | `content` when present and not blank, else `summary` |
| Feed.GetItemData | app.js:301-317 | none exactly when no source has the item's source id; otherwise id, url, title, source name and icon, category and category id from the first matching source; author from `authors[0]`, else `author`, else ""; summary is `content` unless blank, else `summary`; image is the first truthy url |
| Reconcile.Step | app.js:506 | one `addItem` call with the next `shift()` of the candidates: the candidate becomes a slot showing the new record (or its old one when the item did not resolve); with none left a resolved item goes to the head (definition; `RunPairing` and `RunInserting` give its effect over many items) |
| Reconcile.Run | app.js:506 | the `forEach` over the new items, one step per item in server order (its closed form is `ReconciledShape`) |
| Reconcile.Reconciled | app.js:503-507 | the pass starting with every rendered element as a candidate and nothing inserted or handed out yet (its closed form is `ReconciledShape`) |
| Reconcile.Resolved | app.js:425 | the records of the items whose `addItem` does not return early: never more than the items, and all of them, in order, when every item resolved |
| Reconcile.ResolvedMembers | app.js:425 | a record is resolved exactly when some item resolved to it |
| Reconcile.ResolvedAppend | app.js:506 | the resolved records keep the items' order: resolving a concatenation concatenates the resolved parts |
| Reconcile.RunPairing | app.js:506 | while candidates remain, the items in order take the candidates in document order, each slot showing its new record or keeping its old one; the rest stay candidates |
| Reconcile.RunInserting | app.js:465 | once no candidate is left, each resolved item is inserted before the first element, so they end up at the head in reverse order |
| Reconcile.Paired | app.js:463 | slot k shows new record k, or keeps its old record when that item did not resolve |
| Reconcile.Shown | app.js:503-507 | the list after the pass: the inserted items, then the handed-out slots; the leftover candidates are removed (definition; `ReconciledShape` gives each part) |
| Reconcile.ReconciledShape | app.js:503-507 | with m = min(P, N): the first m slots are paired with the first m items, the resolved items beyond them are inserted at the head in reverse order, and slots m.. are the ones removed |
| Reconcile.AllResolvedCounts | app.js:503-507 | when all N items resolve against P rendered ones: min(P,N) replace slots in document order, max(0,N-P) are inserted, max(0,P-N) are removed, and exactly N are shown |
| Reconcile.UnresolvedKeepsSlot | app.js:425-506 | an item whose source is missing leaves its slot showing the old item, which is not removed |
| Reconcile.FirstLoadShowsReversed | app.js:465-466 | on an empty list every new item is inserted before the first element, so the list shows the resolved records last first |
| Reconcile.EmptyPayloadClears | app.js:499-507 | an empty payload removes every rendered item |
| Filters.FilterJson | app.js:92 | `JSON.stringify` of the id list: a bracketed text, "[]" exactly for the empty list |
| Filters.FilterText | app.js:49 | a missing filter key reads as "[]" |
| Filters.Insert | app.js:91 | inserting into an ascending list keeps it ascending and adds exactly the one element |
| Filters.SortAscending | app.js:91 | `sort((a, b) => a - b)`: ascending and a permutation |
| Filters.SpliceStart | app.js:89 | where `splice` starts: a non-negative start as given; a negative one counts from the end, so on a non-empty list it names an element (the last one for -1, which `indexOf` gives for an absent id) |
| Filters.SpliceOne | app.js:89 | `splice(start, 1)`: removes exactly the element at the normalised start (negative counts from the end), keeping the elements before it and after it in place and in order, or nothing past the end |
| Filters.Toggled | app.js:88-92 | the new filter is ascending; unchecking adds the id (+1); checking removes one occurrence of a present id (-1); checking an absent id removes the last element (-1); an empty list stays empty |
| Filters.SortedUnique | app.js:91 | two ascending lists with the same elements are equal, so any sorting algorithm gives the same filter |
| Filters.HideThenShowRestores | app.js:88-92 | unchecking a category and checking it again restores an ascending filter |
| Filters.ShowThenHideRestores | app.js:88-92 | checking a hidden category and unchecking it again restores an ascending filter |
| Filters.ExcludedBy | app.js:57 | the `includes` test: the decimal text of the source's category id occurs in the filter text |
| Filters.Excluder | app.js:57 | the `includes` test of one filter text, as a test on sources (definition, shared by `Kept` and `ReFilter`) |
| Filters.KeptBy | app.js:54-57 | an item survives the filter loop: its source is found and the test does not exclude it (definition; `FilterByKeepsExactly` states the loop keeps exactly these) |
| Filters.Kept | app.js:54-57 | the filter callback's answer: the item's source is found and its category id text does not occur in the filter text (definition through `KeptBy`; `ReFilterKeepsExactly` states the result in these terms) |
| Filters.FilterBy | app.js:54-58 | the filter loop for any exclusion test: none when some item's source is missing, else the items not excluded, in order (definition; characterised by the `FilterBy` lemmas) |
| Filters.FilterByFailsIffSourceMissing | app.js:54-56 | the loop aborts exactly when some item's source is not found |
| Filters.FilterByIdempotent | app.js:54-58 | filtering the loop's result again with the same test changes nothing |
| Filters.FilterByKeepsExactly | app.js:54-58 | the loop's result is an order-preserving subsequence holding each kept item as many times as the input does, and no other item |
| Filters.ReFilter | app.js:54-58 | `data.feeds.filter` with the callback's `find` and `includes`: none when some item's source is missing (the callback then throws), else the items not excluded, in order |
| Filters.ReFilterFailsIffSourceMissing | app.js:54-58 | the re-filter throws exactly when some cached item's source is missing |
| Filters.ReFilterKeepsExactly | app.js:54-58 | when every cached item has its source, the re-filter succeeds, and its feeds are an order-preserving subsequence of the cached ones, holding exactly the cached items whose category id text does not occur in the filter text, each as many times as the cache holds it |
| Filters.ReFilterIdempotent | app.js:54-58 | when every cached item has its source, the re-filter succeeds, and re-filtering its result changes nothing |
| Filters.SubstringTestIsMembershipForSingleDigits | app.js:57 | for filters of ids 1..9 and a category id up to 9, the substring test agrees with list membership |
| Filters.TenAlsoHidesGeneralAndUnknown | app.js:57 | the filter text "[10]" also hides category 1 ("general") and unknown categories (id 0), though neither is in the list |
| Filters.CopiedFilterTextIsEqual | app.js:49-73 | the text `openConfig` saves equals the text `closeConfig` then reads for the filter |
| DateText.DateBucket | app.js:389-398 | "now" exactly under 300 s; otherwise minutes under 1 h, hours under 1 day, days under 30 days, months under 365 days, else years; the count is the floor of s over the unit |
| DateText.CountRanges | app.js:389-398 | the counts shown: 5-59 minutes, 1-23 hours, 1-29 days, 1-12 months, at least 1 year |
| DateText.UnitMonotonic | app.js:389-398 | an older item never shows a smaller unit |
| Menu.MenuCommand | app.js:230-238 | back, more and config act exactly when neither the preview nor the panel is visible; back fetches from `LAST_READED` (null as ""), more asks to send the current items as read; share and close act regardless; anything else is ignored; no menu fetch uses the cache |
| Sync.Resolutions | app.js:506 | one `getItemData` result per item, in order |
| Sync.ReadBatch | app.js:513 | the ids of the first min(3, N) items, in order |
| Sync.ItemsOf | app.js:499 | the items of `data ?? { sources: [], feeds: [] }`: none for null data (definition, used by `Processed`) |
| Sync.SourcesOf | app.js:499 | the sources of `data ?? { sources: [], feeds: [] }`: none for null data (definition, used by `Processed`) |
| Sync.Processed | app.js:497-521 | `no-items` is set exactly when the payload is missing or empty, and no other class changes; with N = 0 no read call is made and `LAST_READED` is unchanged; otherwise one read call with the first min(3,N) ids joined by "," and `LAST_READED` the last of them |
| Sync.ReadCallCarriesFirstIds | app.js:512-517 | the one read call of a refresh splits back into exactly the first min(3, N) ids of the N items, in order, and `LAST_READED` is the last of them |
| Sync.EmptyRefreshClears | app.js:499-509 | a refresh with no payload or an empty one empties the list, sets `no-items` and sends nothing |
| Sync.UserAfter | app.js:264-268 | a truthy stored id is kept, a missing or empty one is replaced by the generated id; with a non-empty generated id the result is truthy |
| Sync.UserIdStable | app.js:263-270 | once a non-empty id is stored, later calls keep it |
| Sync.Accepted | app.js:350 | an answer is accepted exactly when it arrived with status "success" (definition, used by `CachedAfter` and `FetchedData`) |
| Sync.StoreAfterFetch | app.js:264-353 | the store after `getData`: `user` as `UserAfter`, `last-data` as `CachedAfter`, the filter keys untouched (definition; `GetData` is proved against it) |
| Sync.CachedAfter | app.js:353 | `last-data` after the request: the payload of an accepted answer, else the cached snapshot unchanged |
| Sync.FetchedData | app.js:349-357 | the `data` the `finally` block works on: an accepted payload, else the cached snapshot when `useCache` holds, else null |
| Sync.ToProcess | app.js:361 | processing is skipped exactly when paging back with null data (the `reverse` throws); otherwise the same sources, and the items reversed exactly when paging back |
| Sync.AfterFetch | app.js:331-368 | after `getData` neither loading class is set; a skipped processing changes nothing else, a processed one (accepted, cached or null data) renders what `processItems` renders |
| Sync.FallbackReplaysLastAccepted | app.js:349-362 | from the same page, a failed request allowed to use the cache renders exactly what the last accepted answer rendered |
| Sync.FailureWithoutCache | app.js:355-362 | a failure without the cache clears the list when refreshing forward, and leaves it untouched when paging back (the reverse of null throws) |
| Sync.BackPagingReverses | app.js:361-362 | paging back processes the answer's items in reverse order |
| Sync.ConfigCloseCase | app.js:48-62 | the three outcomes of `closeConfig`: nothing to re-render, the cached snapshot with re-filtered items, or the abort of a missing source |
| Sync.ConfigCloseRefiltersCache | app.js:48-62 | re-rendering happens only when the old and new filter texts differ and a snapshot is cached; it hands `processItems` the cached sources and an order-preserving subsequence of the cached items, holding exactly those of known sources not excluded by the text, each as many times as the cache holds it; it aborts exactly when a cached item's source is missing |
| Sync.ConfigHidden | app.js:65 | the page with `show-config` removed and nothing else changed (definition; `CloseConfig` is proved against it) |
| Sync.OldFilterCopied | app.js:64 | the store with `old-filter` set to the filter (missing read as []) (definition; `OpenConfig`, `CloseConfig` and `OpenThenCloseUnchanged` use it, and `CopiedFilterTextIsEqual` gives its text) |
| Sync.OpenThenCloseUnchanged | app.js:48-73 | opening and closing the panel without toggling re-renders nothing |
| App.Page.constructor | app.js:564 | a fresh page shows nothing, has no `LAST_READED` and has sent nothing |
| App.Page.AddItem | app.js:424-465 | a record without an id adds nothing; otherwise a new element replaces the named one in place, or goes to the head of the list |
| App.Page.RemoveItem | app.js:507 | exactly the named element is removed |
| App.Page.AddItems | app.js:503-506 | the rendered list after the add loop is the reconciliation pass over the new items, and the returned candidates are the slots it did not hand out |
| App.Page.RemoveItems | app.js:507 | the leftover candidates are removed and nothing else |
| App.Page.SendFirstAsRead | app.js:512-517 | the ids of the first three items go out in one call, the last becomes `LAST_READED`; nothing happens with no items |
| App.Page.ProcessItems | app.js:497-521 | the page after the call is `Sync.Processed` of the page before; element identities stay distinct |
| App.Page.CurrentUser | app.js:263-270 | a missing or empty stored id is replaced by the generated one; the returned id is the stored one |
| App.Page.ItemBecameVisible | app.js:468 | a visible item becomes `LAST_READED` and is sent as read on its own |
| App.Page.InputChange | app.js:81-96 | the stored filter becomes `Filters.Toggled` of the stored filter (missing as []) |
| App.Page.OpenConfig | app.js:73-113 | `old-filter` takes the filter (missing as []) and the panel is shown |
| App.Page.CloseConfig | app.js:46-70 | unchanged text or no cache: `old-filter` copied, panel hidden; a changed text with everything resolvable: the re-filtered cache is processed and `old-filter` copied; a missing source: panel hidden, `old-filter` untouched, nothing processed |
| App.Page.GetData | app.js:329-370 | the user id is ensured; an accepted answer is cached; the page is `Sync.AfterFetch` of the answer, or of the cache when `useCache` holds, or of null |
| App.Page.Init | app.js:33 | the first load is a forward refresh that may fall back on the cache |
| App.Page.CloseIframe | app.js:136-139 | the four preview classes are removed and nothing else changes |
| App.Page.MenuButton | app.js:230-238 | runs the command `Menu.MenuCommand` chooses: a fetch as `GetData`, the config panel as `OpenConfig`, closing as `CloseIframe`, and nothing otherwise |

## Left out

- DOM construction, the item template and its placeholder substitution, toasts, image load and error handling (`imageCheck`, `imageError`), `gotoTop` scrolling, mobile detection and the `replaceAll` polyfill: these are presentation only. A rendered element is its identity and its display record.
- The copy of a list item that `openOnIframe` adds to the preview (app.js:146-149): it is a `.list-item` too, `closeIframe` does not remove it, and `processItems` then takes it as a removal candidate at its place in document order, so a later refresh can hand its slot to a new item or remove it. The model's candidates are the elements of the list only, so this effect is not modelled.
- The preview polling, `openWeb`, share and mailto, and the `email` key: these render or send an article and change no list state. `MenuButton` treats "share" as changing nothing in the model.
- `fetchWithTimeout`, its 8-second abort, the request URL and its query string, and the `x-user` header: the answer is the `outcome` parameter, taken after the request has finished. `GetData` calls `CurrentUser` for the header. The header and the read request of `setReaded` themselves are not modelled; a read request is the entry appended to `readCalls`.
- Asynchronous interleaving: two requests in flight, or a handler running between a request and its answer, are not modelled. `GetData` runs as one step from the request to its `finally` block.
- `IntersectionObserver`: `ItemBecameVisible` is the callback, called with whichever item became visible.
- The 5-second refresh of the age labels, the label texts and language, the `publish` timestamp and its timezone-offset arithmetic, and `NaN` timestamps: `DateBucket` takes the whole elapsed seconds, and `ItemData` has no timestamp or date text.
- `GetItemData`: the category is the raw `type` rather than its label from `LABELS`. An item with a null id is not modelled, and item ids are strings; the only failure modelled is a missing source.
- Payloads without `feeds` or `sources`, and image entries that are null: the payload datatypes always have both lists and an image always has a (possibly absent) url.
- A null first entry of `authors`: `authors` is a list of strings, so the fall-through of `??` from a null `authors[0]` to `author` (app.js:305) is not modelled.
- JSON encoding and decoding of the store: `last-data` holds the decoded snapshot, so its round trip is assumed lossless. A corrupt stored text, and store quota errors, are not modelled.
- `OpenConfig`: the rendering of the category pills and their `checked` state, and the abort when the panel's elements are missing, are not modelled.
- `InputChange`: the filter is edited as a value (`SpliceOne`, `SortAscending`) and stored as a whole, because the script's `splice` and `sort` are built-ins without a loop of their own.
