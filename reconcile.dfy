/** List reconciliation as values: how one refresh turns the rendered list and
    the new items into the next rendered list.

    Every rendered item becomes a removal candidate, in document order. Each new
    item, in server order, takes the next candidate as the slot it replaces; when
    no candidate is left it is inserted before the first element of the list.
    Candidates that no item took are removed. A new item whose display record
    cannot be built (its source is missing) still takes a candidate, but then
    neither replaces nor removes it: the old item stays where it was. */
module Reconcile {
  import opened Common
  import opened Feed

  /** The state of a pass over the new items:
      `front`  — the items inserted so far, at the head of the list (latest first);
      `paired` — the slots already handed out, in document order, each showing
                 its new item, or its old one when the new item did not resolve;
      `rest`   — the removal candidates not yet handed out, in document order. */
  datatype Pass = Pass(front: seq<ItemData>, paired: seq<ItemData>, rest: seq<ItemData>)

  /** One new item, given as its resolved display record (or none): it takes
      the next candidate, or with none left is inserted when it resolved. */
  function Step(p: Pass, r: Option<ItemData>): Pass {
    if p.rest != [] then Pass(p.front, p.paired + [r.GetOr(p.rest[0])], p.rest[1..])
    else if r.Some? then Pass([r.value] + p.front, p.paired, [])
    else p
  }

  /** The new items one after another: the first min(|rest|, |rs|) candidates
      are handed out in order, and the others stay candidates. */
  function Run(p: Pass, rs: seq<Option<ItemData>>): (q: Pass)
    decreases |rs|
  {
    if rs == [] then p else Run(Step(p, rs[0]), rs[1..])
  }

  /** The pass over `rs` starting from the rendered list `view`; afterwards the
      list shows `front + paired` and `rest` is what gets removed. */
  function Reconciled(view: seq<ItemData>, rs: seq<Option<ItemData>>): (p: Pass)
  {
    Run(Pass([], [], view), rs)
  }

  /** The rendered list after the pass. */
  function Shown(p: Pass): seq<ItemData> { p.front + p.paired }

  /** The display records that resolved, in order. */
  function Resolved(rs: seq<Option<ItemData>>): (r: seq<ItemData>)
    ensures |r| <= |rs|
    ensures (forall k :: 0 <= k < |rs| ==> rs[k].Some?) ==>
              |r| == |rs| && forall k :: 0 <= k < |rs| ==> r[k] == rs[k].value
  {
    if rs == [] then []
    else if rs[0].Some? then [rs[0].value] + Resolved(rs[1..])
    else Resolved(rs[1..])
  }

  /** The slots `olds` after each was handed to the item at the same position. */
  function Paired(olds: seq<ItemData>, rs: seq<Option<ItemData>>): (r: seq<ItemData>)
    requires |olds| == |rs|
    ensures |r| == |olds|
    ensures forall k :: 0 <= k < |olds| ==> r[k] == rs[k].GetOr(olds[k])
  {
    if olds == [] then [] else [rs[0].GetOr(olds[0])] + Paired(olds[1..], rs[1..])
  }

  /** The resolved records are exactly the records some item resolved to. */
  lemma {:induction false} ResolvedMembers(rs: seq<Option<ItemData>>)
    ensures forall x :: x in Resolved(rs) <==> Some(x) in rs
  {
    if rs != [] {
      ResolvedMembers(rs[1..]);
      assert rs == [rs[0]] + rs[1..];
    }
  }

  /** `Resolved` keeps the order of the items: it distributes over
      concatenation. */
  lemma {:induction false} ResolvedAppend(a: seq<Option<ItemData>>, b: seq<Option<ItemData>>)
    ensures Resolved(a + b) == Resolved(a) + Resolved(b)
  {
    if a == [] {
      assert a + b == b;
    } else {
      assert (a + b)[1..] == a[1..] + b;
      ResolvedAppend(a[1..], b);
    }
  }

  lemma {:induction false} RunAppend(p: Pass, a: seq<Option<ItemData>>, b: seq<Option<ItemData>>)
    ensures Run(p, a + b) == Run(Run(p, a), b)
    decreases |a|
  {
    if a == [] {
      assert a + b == b;
    } else {
      assert (a + b)[0] == a[0] && (a + b)[1..] == a[1..] + b;
      RunAppend(Step(p, a[0]), a[1..], b);
    }
  }

  /** While candidates remain, each item is paired with the next one. */
  lemma {:induction false} RunPairing(paired: seq<ItemData>, rest: seq<ItemData>, rs: seq<Option<ItemData>>)
    requires |rs| <= |rest|
    ensures Run(Pass([], paired, rest), rs) == Pass([], paired + Paired(rest[..|rs|], rs), rest[|rs|..])
    decreases |rs|
  {
    if rs == [] {
      assert paired + Paired(rest[..0], rs) == paired;
    } else {
      var slot := rs[0].GetOr(rest[0]);
      var later := Paired(rest[1..][..|rs| - 1], rs[1..]);
      calc {
        Run(Pass([], paired, rest), rs);
        Run(Step(Pass([], paired, rest), rs[0]), rs[1..]);
        { assert Step(Pass([], paired, rest), rs[0]) == Pass([], paired + [slot], rest[1..]); }
        Run(Pass([], paired + [slot], rest[1..]), rs[1..]);
        { RunPairing(paired + [slot], rest[1..], rs[1..]); }
        Pass([], (paired + [slot]) + later, rest[1..][|rs| - 1..]);
        { assert rest[1..][|rs| - 1..] == rest[|rs|..];
          assert (paired + [slot]) + later == paired + ([slot] + later); }
        Pass([], paired + ([slot] + later), rest[|rs|..]);
        { assert rest[..|rs|][0] == rest[0];
          assert rest[..|rs|][1..] == rest[1..][..|rs| - 1]; }
        Pass([], paired + Paired(rest[..|rs|], rs), rest[|rs|..]);
      }
    }
  }

  /** With no candidate left, one item is inserted at the head when it resolved. */
  lemma InsertOne(front: seq<ItemData>, paired: seq<ItemData>, o: Option<ItemData>)
    ensures Step(Pass(front, paired, []), o) == Pass(Reverse(Resolved([o])) + front, paired, [])
  {
    assert [o][1..] == [];
    if o.Some? {
      assert Reverse(Resolved([o])) == [o.value];
    } else {
      assert Reverse(Resolved([o])) + front == front;
    }
  }

  /** Once no candidate remains, each resolved item goes before the previous. */
  lemma {:induction false} RunInserting(front: seq<ItemData>, paired: seq<ItemData>, rs: seq<Option<ItemData>>)
    ensures Run(Pass(front, paired, []), rs) == Pass(Reverse(Resolved(rs)) + front, paired, [])
    decreases |rs|
  {
    if rs != [] {
      var head, tail := Resolved([rs[0]]), Resolved(rs[1..]);
      calc {
        Run(Pass(front, paired, []), rs);
        Run(Step(Pass(front, paired, []), rs[0]), rs[1..]);
        { InsertOne(front, paired, rs[0]); }
        Run(Pass(Reverse(head) + front, paired, []), rs[1..]);
        { RunInserting(Reverse(head) + front, paired, rs[1..]); }
        Pass(Reverse(tail) + (Reverse(head) + front), paired, []);
        { assert Reverse(tail) + (Reverse(head) + front) == (Reverse(tail) + Reverse(head)) + front; }
        Pass((Reverse(tail) + Reverse(head)) + front, paired, []);
        { ReverseAppend(head, tail); }
        Pass(Reverse(head + tail) + front, paired, []);
        { assert rs == [rs[0]] + rs[1..]; ResolvedAppend([rs[0]], rs[1..]); }
        Pass(Reverse(Resolved(rs)) + front, paired, []);
      }
    }
  }

  /** Reconciliation from the rendered list `view` (P items) against N new
      items: with m = min(P, N), slot k < m shows new item k, or keeps its old
      item when that one did not resolve; the resolved items beyond the first P
      are inserted at the head in reverse order; the slots from m on are removed. */
  lemma ReconciledShape(view: seq<ItemData>, rs: seq<Option<ItemData>>)
    ensures var m := Min(|view|, |rs|); var p := Reconciled(view, rs);
      && p.front == Reverse(Resolved(rs[m..]))
      && p.paired == Paired(view[..m], rs[..m])
      && p.rest == view[m..]
  {
    var m := Min(|view|, |rs|);
    assert rs == rs[..m] + rs[m..];
    RunAppend(Pass([], [], view), rs[..m], rs[m..]);
    RunPairing([], view, rs[..m]);
    assert [] + Paired(view[..m], rs[..m]) == Paired(view[..m], rs[..m]);
    RunInserting([], Paired(view[..m], rs[..m]), rs[m..]);
    assert Reverse(Resolved(rs[m..])) + [] == Reverse(Resolved(rs[m..]));
  }

  /** Conservation when every new item resolves: the first min(P, N) new
      items replace the old slots in document order; the other max(0, N - P)
      are inserted, each before the previous one; max(0, P - N) slots are
      removed; the list ends with exactly the N new items. */
  lemma AllResolvedCounts(view: seq<ItemData>, rs: seq<Option<ItemData>>)
    requires forall k :: 0 <= k < |rs| ==> rs[k].Some?
    ensures var p := Reconciled(view, rs); var m := Min(|view|, |rs|);
      && p.paired == Resolved(rs[..m])
      && p.front == Reverse(Resolved(rs[m..]))
      && |p.paired| == m
      && |p.front| == (if |rs| > |view| then |rs| - |view| else 0)
      && p.rest == view[m..]
      && |p.rest| == (if |view| > |rs| then |view| - |rs| else 0)
      && |Shown(p)| == |rs|
  {
    ReconciledShape(view, rs);
    var p := Reconciled(view, rs);
    var m := Min(|view|, |rs|);
    var head, tail := rs[..m], rs[m..];
    assert forall k :: 0 <= k < |head| ==> head[k] == rs[k];
    assert forall k :: 0 <= k < |tail| ==> tail[k] == rs[m + k];
    assert |Resolved(tail)| == |tail|;
    assert |Resolved(head)| == |head|;
    assert p.paired == Paired(view[..m], head);
    assert p.paired == Resolved(head);
  }

  /** A new item that does not resolve leaves the slot it was handed showing
      its old item, and that item is not removed. */
  lemma UnresolvedKeepsSlot(view: seq<ItemData>, rs: seq<Option<ItemData>>, k: nat)
    requires k < |view| && k < |rs| && rs[k].None?
    ensures var p := Reconciled(view, rs);
      && k < |p.paired| && p.paired[k] == view[k]
      && Shown(p)[|p.front| + k] == view[k]
  {
    ReconciledShape(view, rs);
  }

  /** Items inserted at the head come out in reverse: reconciling against an
      empty list (the first load) shows the resolved records last first. */
  lemma FirstLoadShowsReversed(rs: seq<Option<ItemData>>)
    ensures Shown(Reconciled([], rs)) == Reverse(Resolved(rs))
  {
    RunInserting([], [], rs);
    assert Reverse(Resolved(rs)) + [] == Reverse(Resolved(rs));
  }

  /** Reconciling an empty payload empties the list: every slot is removed. */
  lemma EmptyPayloadClears(view: seq<ItemData>)
    ensures Shown(Reconciled(view, [])) == [] && Reconciled(view, []).rest == view
  {
  }
}
