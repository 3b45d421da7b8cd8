/** The page script as a state machine: the rendered list, the body's classes,
    `LAST_READED`, the read calls sent and the persisted store are the fields of
    one object, and each handler changes them in place as the script does. */
module App {
  import opened Common
  import opened Feed
  import opened Reconcile
  import opened Filters
  import opened Menu
  import opened Sync

  /** A rendered `.list-item` element. `key` is the element's identity: the
      removal candidates are elements, and replacing or removing one finds it
      by identity, wherever it now is in the list. */
  datatype Node = Node(key: nat, data: ItemData)

  function DataOf(ns: seq<Node>): (r: seq<ItemData>)
    ensures |r| == |ns|
    ensures forall i :: 0 <= i < |ns| ==> r[i] == ns[i].data
  {
    seq(|ns|, i requires 0 <= i < |ns| => ns[i].data)
  }

  function KeysOf(ns: seq<Node>): (r: seq<nat>)
    ensures |r| == |ns|
    ensures forall i :: 0 <= i < |ns| ==> r[i] == ns[i].key
  {
    seq(|ns|, i requires 0 <= i < |ns| => ns[i].key)
  }

  predicate DistinctKeys(ns: seq<Node>) {
    forall i, j :: 0 <= i < j < |ns| ==> ns[i].key != ns[j].key
  }

  /** The position of the element with identity `key`. */
  function IndexOfKey(ns: seq<Node>, key: nat): (i: nat)
    requires key in KeysOf(ns)
    ensures i < |ns| && ns[i].key == key
    ensures forall j :: 0 <= j < i ==> ns[j].key != key
  {
    if ns[0].key == key then 0 else IndexOfKey(ns[1..], key) + 1
  }

  /** With distinct identities, an element is found where it is. */
  lemma IndexOfKeyAt(ns: seq<Node>, i: nat)
    requires DistinctKeys(ns) && i < |ns|
    ensures ns[i].key in KeysOf(ns)
    ensures IndexOfKey(ns, ns[i].key) == i
  {
    assert KeysOf(ns)[i] == ns[i].key;
  }

  lemma DataOfConcat(a: seq<Node>, b: seq<Node>)
    ensures DataOf(a + b) == DataOf(a) + DataOf(b)
  {
  }

  /** The rendered list during a refresh, cut in the three parts of a
      reconciliation pass: inserted elements, handed-out slots, candidates. */
  datatype Cut = Cut(front: seq<Node>, paired: seq<Node>, rest: seq<Node>)

  function Whole(c: Cut): seq<Node> { c.front + c.paired + c.rest }

  function PassOf(c: Cut): Pass { Pass(DataOf(c.front), DataOf(c.paired), DataOf(c.rest)) }

  /** The cut after one new item: its element (identity `key`) takes the next
      candidate's slot, or (with none left) goes to the head; an item without
      a record keeps the candidate's old element in the slot. */
  function Place(c: Cut, values: Option<ItemData>, key: nat): Cut {
    if c.rest != [] then
      Cut(c.front, c.paired + [if values.Some? then Node(key, values.value) else c.rest[0]], c.rest[1..])
    else if values.Some? then Cut([Node(key, values.value)] + c.front, c.paired, [])
    else c
  }

  lemma PlaceIsStep(c: Cut, values: Option<ItemData>, key: nat)
    ensures PassOf(Place(c, values, key)) == Step(PassOf(c), values)
  {
    if c.rest != [] {
      DataOfConcat(c.paired, [if values.Some? then Node(key, values.value) else c.rest[0]]);
    } else if values.Some? {
      DataOfConcat([Node(key, values.value)], c.front);
    }
  }

  /** The next candidate sits right after the handed-out slots. */
  lemma CandidateAt(c: Cut)
    requires c.front == [] && c.rest != [] && DistinctKeys(Whole(c))
    ensures KeysOf(c.rest)[0] in KeysOf(Whole(c))
    ensures IndexOfKey(Whole(c), KeysOf(c.rest)[0]) == |c.paired|
    ensures KeysOf(c.rest)[1..] == KeysOf(c.rest[1..])
  {
    assert Whole(c)[|c.paired|] == c.rest[0];
    IndexOfKeyAt(Whole(c), |c.paired|);
  }

  lemma RunStep(p: Pass, rs: seq<Option<ItemData>>, k: nat)
    requires k < |rs|
    ensures Run(p, rs[k..]) == Run(Step(p, rs[k]), rs[k + 1..])
  {
    assert rs[k..][0] == rs[k] && rs[k..][1..] == rs[k + 1..];
  }

  /** Placing into the cut is what `addItem` does to the whole list. */
  lemma PlaceIsAdd(c: Cut, values: Option<ItemData>, key: nat)
    requires c.front == [] || c.rest == []
    ensures Whole(Place(c, values, key)) ==
              if values.None? then Whole(c)
              else if c.rest != [] then Whole(c)[|c.paired| := Node(key, values.value)]
              else [Node(key, values.value)] + Whole(c)
  {
    if c.rest != [] {
      var n := if values.Some? then Node(key, values.value) else c.rest[0];
      assert Whole(Place(c, values, key)) == c.paired + [n] + c.rest[1..];
    }
  }

  /** Removing one element keeps the identities distinct and bounded. */
  lemma DistinctWithout(ns: seq<Node>, i: nat, bound: nat)
    requires i < |ns| && DistinctKeys(ns)
    requires forall a :: 0 <= a < |ns| ==> ns[a].key < bound
    ensures var r := ns[..i] + ns[i + 1..];
      DistinctKeys(r) && forall a :: 0 <= a < |r| ==> r[a].key < bound
  {
    var r := ns[..i] + ns[i + 1..];
    assert forall a :: 0 <= a < |r| ==> r[a] == ns[if a < i then a else a + 1];
  }

  /** Dropping the element right after `kept` from `kept + gone[j..]`. */
  lemma DropNext(kept: seq<Node>, gone: seq<Node>, j: nat)
    requires j < |gone|
    ensures var v := kept + gone[j..];
      && v[|kept|] == gone[j]
      && v[..|kept|] + v[|kept| + 1..] == kept + gone[j + 1..]
  {
    var v := kept + gone[j..];
    assert v[..|kept|] == kept;
    assert v[|kept| + 1..] == gone[j + 1..];
  }

  /** The browser page: what it shows and the store it persists. */
  class Page {
    var view: seq<Node>
    var nextKey: nat
    var classes: set<string>
    var lastReaded: Option<ItemId>
    var readCalls: seq<string>
    var store: Store

    /** Element identities are distinct and all below the next fresh one. */
    ghost predicate Valid()
      reads this
    {
      DistinctKeys(view) && forall i :: 0 <= i < |view| ==> view[i].key < nextKey
    }

    /** What the page shows, as a value. */
    function ScreenOf(): Screen
      reads this
    {
      Screen(DataOf(view), classes, lastReaded, readCalls)
    }

    /** A freshly loaded page over the persisted store. */
    constructor (persisted: Store)
      ensures Valid()
      ensures ScreenOf() == Screen([], {}, None, [])
      ensures store == persisted
    {
      view, nextKey, classes, lastReaded, readCalls, store := [], 0, {}, None, [], persisted;
    }

    /** `addItem`, reduced to where the new element goes: it replaces the
        element `replace` names when there is one, and goes to the head of the
        list otherwise; a record without an id adds nothing. */
    method AddItem(values: Option<ItemData>, replace: Option<nat>)
      requires Valid()
      requires replace.Some? ==> replace.value in KeysOf(view)
      modifies this`view, this`nextKey
      ensures Valid()
      ensures values.None? ==> view == old(view) && nextKey == old(nextKey)
      ensures values.Some? ==>
                && nextKey == old(nextKey) + 1
                && view == (if replace.Some?
                            then old(view)[IndexOfKey(old(view), replace.value) := Node(old(nextKey), values.value)]
                            else [Node(old(nextKey), values.value)] + old(view))
    {
      if values.None? {
        return;
      }
      var node := Node(nextKey, values.value);
      if replace.Some? {
        var i := IndexOfKey(view, replace.value);
        view := view[i := node];
      } else {
        view := [node] + view;
      }
      nextKey := nextKey + 1;
    }

    /** `item.remove()` for the element with identity `key`. */
    method RemoveItem(key: nat)
      requires Valid()
      requires key in KeysOf(view)
      modifies this`view
      ensures Valid()
      ensures var i := IndexOfKey(old(view), key); view == old(view)[..i] + old(view)[i + 1..]
    {
      var i := IndexOfKey(view, key);
      DistinctWithout(view, i, nextKey);
      view := view[..i] + view[i + 1..];
    }

    /** The `items.forEach(addItem …)` step of `processItems`: each item
        takes the next removal candidate (`itemsToRemove.shift()`). Returns the
        candidates no item took. */
    method AddItems(items: seq<FeedItem>, sources: seq<Source>) returns (toRemove: seq<nat>, ghost c: Cut)
      requires Valid()
      modifies this`view, this`nextKey
      ensures Valid()
      ensures view == Whole(c) && toRemove == KeysOf(c.rest)
      ensures PassOf(c) == Reconciled(DataOf(old(view)), Resolutions(items, sources))
    {
      ghost var rs := Resolutions(items, sources);
      ghost var start := DataOf(view);
      // Every rendered element becomes a removal candidate, in document order.
      toRemove := KeysOf(view);
      c := Cut([], [], view);
      assert rs[0..] == rs;
      var k := 0;
      while k < |items|
        invariant 0 <= k <= |items|
        invariant view == Whole(c)
        invariant toRemove == KeysOf(c.rest)
        invariant c.front == [] || c.rest == []
        invariant Valid()
        invariant Run(PassOf(c), rs[k..]) == Reconciled(start, rs)
      {
        var values := GetItemData(items[k], sources);
        var replace: Option<nat> := None;
        if |toRemove| > 0 {
          CandidateAt(c);
          replace := Some(toRemove[0]);
          toRemove := toRemove[1..];
        }
        ghost var key := nextKey;
        AddItem(values, replace);
        PlaceIsStep(c, values, key);
        PlaceIsAdd(c, values, key);
        RunStep(PassOf(c), rs, k);
        ghost var next := Place(c, values, key);
        assert next.front == [] || next.rest == [];
        assert toRemove == KeysOf(next.rest);
        c := next;
        k := k + 1;
      }
      assert rs[k..] == [];
    }

    /** The `itemsToRemove.forEach(item => item.remove())` step: `toRemove`
        names the elements `gone` at the end of the list. */
    method RemoveItems(toRemove: seq<nat>, ghost kept: seq<Node>, ghost gone: seq<Node>)
      requires Valid()
      requires view == kept + gone && toRemove == KeysOf(gone)
      modifies this`view
      ensures Valid()
      ensures view == kept
    {
      var j := 0;
      while j < |toRemove|
        invariant 0 <= j <= |toRemove|
        invariant view == kept + gone[j..]
        invariant Valid()
      {
        DropNext(kept, gone, j);
        IndexOfKeyAt(view, |kept|);
        RemoveItem(toRemove[j]);
        j := j + 1;
      }
    }

    /** The read step: the ids of the first three items go in one read call,
        and the last of them becomes `LAST_READED`. */
    method SendFirstAsRead(items: seq<FeedItem>)
      modifies this`lastReaded, this`readCalls
      ensures var batch := ReadBatch(items);
        && lastReaded == (if batch == [] then old(lastReaded) else Some(batch[|batch| - 1]))
        && readCalls == (if batch == [] then old(readCalls) else old(readCalls) + [Join(batch, ",")])
    {
      var head := items[..Min(3, |items|)];
      var readedToSend: seq<ItemId> := [];
      for t := 0 to |head|
        invariant readedToSend == Ids(head[..t])
      {
        assert head[..t + 1] == head[..t] + [head[t]];
        readedToSend := readedToSend + [head[t].id];
      }
      assert head[..|head|] == head;
      if |readedToSend| > 0 {
        lastReaded := Some(readedToSend[|readedToSend| - 1]);
        readCalls := readCalls + [Join(readedToSend, ",")];
      }
    }

    /** `processItems(data)`. */
    method ProcessItems(data: Option<Snapshot>)
      requires Valid()
      modifies this`view, this`nextKey, this`classes, this`lastReaded, this`readCalls
      ensures Valid()
      ensures ScreenOf() == Processed(old(ScreenOf()), data)
    {
      var sources := SourcesOf(data);
      var items := ItemsOf(data);
      var toRemove, c := AddItems(items, sources);
      RemoveItems(toRemove, c.front + c.paired, c.rest);
      DataOfConcat(c.front, c.paired);
      if items == [] {
        classes := classes + {"no-items"};
      } else {
        classes := classes - {"no-items"};
      }
      SendFirstAsRead(items);
    }
  
    /** `currentUser`: the stored user id, after storing `generated` (the
        random id the script would draw) when none or an empty one is stored. */
    method CurrentUser(generated: string) returns (user: string)
      modifies this`store
      ensures store == old(store).(user := UserAfter(old(store).user, generated))
      ensures store.user == Some(user)
    {
      if IsTruthy(store.user) {
        user := store.user.value;
      } else {
        user := generated;
        store := store.(user := Some(user));
      }
    }

    /** The handler behind a visible item (`respondWhenVisible`'s callback):
        the item becomes `LAST_READED` and is sent as read on its own. */
    method ItemBecameVisible(id: ItemId)
      modifies this`lastReaded, this`readCalls
      ensures lastReaded == Some(id)
      ensures readCalls == old(readCalls) + [id]
    {
      lastReaded := Some(id);
      readCalls := readCalls + [id];
    }

    /** `inputChange`: the pill of category `id` was toggled to `checked`. */
    method InputChange(checked: bool, id: nat)
      modifies this`store
      ensures store == old(store).(filter := Some(Toggled(old(store).filter.GetOr([]), checked, id)))
    {
      var filter := store.filter.GetOr([]);
      if checked {
        filter := SpliceOne(filter, IndexOf(filter, id));
      } else {
        filter := filter + [id];
      }
      filter := SortAscending(filter);
      store := store.(filter := Some(filter));
    }

    /** `openConfig`: the current filter is saved as `old-filter` and the panel shown. */
    method OpenConfig()
      modifies this`store, this`classes
      ensures store == OldFilterCopied(old(store))
      ensures classes == old(classes) + {"show-config"}
    {
      store := store.(oldFilter := Some(store.filter.GetOr([])));
      classes := classes + {"show-config"};
    }

    /** `closeConfig`: when the filter text changed and a snapshot is cached,
        the cached snapshot is re-filtered and processed; the panel closes.
        When an item's source is missing the lookup throws: the panel still
        closes, but `old-filter` keeps its value. */
    method CloseConfig()
      requires Valid()
      modifies this
      ensures Valid()
      ensures match ConfigCloseCase(old(store))
        case Unchanged => store == OldFilterCopied(old(store)) && ScreenOf() == ConfigHidden(old(ScreenOf()))
        case Aborted => store == old(store) && ScreenOf() == ConfigHidden(old(ScreenOf()))
        case Refilter(d) =>
          store == OldFilterCopied(old(store)) && ScreenOf() == ConfigHidden(Processed(old(ScreenOf()), Some(d)))
    {
      var oldText := FilterText(store.oldFilter);
      var newText := FilterText(store.filter);
      if oldText != newText && store.lastData.Some? {
        var data := store.lastData.value;
        var kept := ReFilter(data.feeds, data.sources, newText);
        if kept.None? {
          classes := classes - {"show-config"};
          return;
        }
        ProcessItems(Some(data.(feeds := kept.value)));
      }
      store := store.(oldFilter := Some(store.filter.GetOr([])));
      classes := classes - {"show-config"};
    }

    /** `getData`: the request carries the user id; an accepted answer is
        cached and used; otherwise the cached snapshot is used when `useCache`
        is set, and null when not. When paging back the items are reversed
        first (with null data that throws, and nothing is processed). The
        parameter `outcome` is what the request returned. */
    method GetData(backFrom: string, sendCurrentsAsReaded: bool, useCache: bool, outcome: FetchOutcome, generated: string)
      requires Valid()
      modifies this
      ensures Valid()
      ensures store == StoreAfterFetch(old(store), outcome, generated)
      ensures ScreenOf() == AfterFetch(old(ScreenOf()), backFrom, FetchedData(outcome, useCache, old(store).lastData))
    {
      classes := classes + {"items-loading"};
      var user := CurrentUser(generated);
      var data: Option<Snapshot> := None;
      if Accepted(outcome) {
        data := Some(outcome.payload);
        store := store.(lastData := data);
      } else if useCache {
        data := store.lastData;
      }
      if backFrom != "" {
        if data.Some? {
          data := Some(data.value.(feeds := Reverse(data.value.feeds)));
          ProcessItems(data);
        }
      } else {
        ProcessItems(data);
      }
      classes := classes - {"items-loading", "loading"};
    }

    /** `init`'s first load: a forward refresh allowed to fall back on the cache. */
    method Init(outcome: FetchOutcome, generated: string)
      requires Valid()
      modifies this
      ensures Valid()
      ensures store == StoreAfterFetch(old(store), outcome, generated)
      ensures ScreenOf() == AfterFetch(old(ScreenOf()), "", FetchedData(outcome, true, old(store).lastData))
    {
      GetData("", false, true, outcome, generated);
    }

    /** `closeIframe`: the reader's classes are cleared. */
    method CloseIframe()
      modifies this`classes
      ensures classes == old(classes) - {"iframe-loading", "iframe-open", "iframe-error", "iframe-ready"}
    {
      classes := classes - {"iframe-loading", "iframe-open", "iframe-error", "iframe-ready"};
    }

    /** `menuButton(action)`: the command the button stands for, run; a fetch
        uses `outcome` as the answer of its request. */
    method MenuButton(action: string, outcome: FetchOutcome, generated: string)
      requires Valid()
      modifies this
      ensures Valid()
      ensures match MenuCommand(action, "iframe-open" in old(classes), "show-config" in old(classes), old(lastReaded))
        case Fetch(backFrom, _, useCache) =>
          && store == StoreAfterFetch(old(store), outcome, generated)
          && ScreenOf() == AfterFetch(old(ScreenOf()), backFrom, FetchedData(outcome, useCache, old(store).lastData))
        case ShowConfig =>
          store == OldFilterCopied(old(store)) && ScreenOf() == old(ScreenOf()).(classes := old(classes) + {"show-config"})
        case ClosePreview =>
          && store == old(store)
          && ScreenOf() == old(ScreenOf()).(classes := old(classes) - {"iframe-loading", "iframe-open", "iframe-error", "iframe-ready"})
        case _ => store == old(store) && ScreenOf() == old(ScreenOf())
    {
      var command := MenuCommand(action, "iframe-open" in classes, "show-config" in classes, lastReaded);
      match command
      case Fetch(backFrom, sendCurrentsAsReaded, useCache) =>
        GetData(backFrom, sendCurrentsAsReaded, useCache, outcome, generated);
      case ShowConfig =>
        OpenConfig();
      case ClosePreview =>
        CloseIframe();
      case _ =>
    }
  }
}
