/** Doubly linked lists threaded through the heads, next and prev index arrays of kernel/mm/pmm.c. */
module FreeLists {
  import opened Counting
  import opened BuddyPool
  import opened BuddySteps

  function First(q: seq<nat>): nat {
    if q == [] then INVALID else q[0]
  }

  function After(q: seq<nat>, i: nat): nat
    requires i < |q|
  {
    if i + 1 < |q| then q[i + 1] else INVALID
  }

  function Before(q: seq<nat>, i: nat): nat
    requires i < |q|
  {
    if i > 0 then q[i - 1] else INVALID
  }

  ghost predicate LinkAt(q: seq<nat>, next: seq<nat>, prev: seq<nat>, i: nat)
    requires i < |q|
  {
    q[i] < |next| && q[i] < |prev| && next[q[i]] == After(q, i) && prev[q[i]] == Before(q, i)
  }

  /** Following next from head visits q in order and prev leads back. */
  ghost predicate Chain(q: seq<nat>, head: nat, next: seq<nat>, prev: seq<nat>) {
    && head == First(q)
    && |next| == |prev| == MAX_PAGES
    && (forall i {:trigger LinkAt(q, next, prev, i)} :: 0 <= i < |q| ==> LinkAt(q, next, prev, i))
  }

  ghost predicate Apart(lists: seq<seq<nat>>) {
    && (forall k :: 0 <= k < |lists| ==> Distinct(lists[k]))
    && (forall k, l, x :: 0 <= k < |lists| && 0 <= l < |lists| && x in lists[k] && x in lists[l] ==> k == l)
  }

  /** The heads, next and prev arrays thread exactly these lists. */
  ghost predicate Linked(lists: seq<seq<nat>>, heads: seq<nat>, next: seq<nat>, prev: seq<nat>) {
    && |lists| == |heads| == MAX_ORDER + 1
    && Apart(lists)
    && (forall k {:trigger lists[k]} :: 0 <= k <= MAX_ORDER ==> Chain(lists[k], heads[k], next, prev))
  }

  function PushedPrev(prev: seq<nat>, head: nat, p: nat): seq<nat>
    requires p < |prev| && (head != INVALID ==> head < |prev|)
  {
    if head != INVALID then prev[p := INVALID][head := p] else prev[p := INVALID]
  }

  lemma {:induction false} PushChain(q: seq<nat>, head: nat, next: seq<nat>, prev: seq<nat>, p: nat)
    requires Chain(q, head, next, prev) && p < MAX_PAGES && p !in q && Distinct(q)
    ensures head != INVALID ==> head < MAX_PAGES
    ensures Chain([p] + q, p, next[p := head], PushedPrev(prev, head, p))
  {
    if q != [] {
      assert LinkAt(q, next, prev, 0);
    }
    var r := [p] + q;
    var next1, prev1 := next[p := head], PushedPrev(prev, head, p);
    forall i | 0 <= i < |r|
      ensures LinkAt(r, next1, prev1, i)
    {
      if i > 0 {
        assert LinkAt(q, next, prev, i - 1);
        assert r[i] == q[i - 1] && q[i - 1] in q;
      }
    }
  }

  lemma {:induction false} PushPast(r: seq<nat>, h: nat, next: seq<nat>, prev: seq<nat>, head: nat, p: nat)
    requires Chain(r, h, next, prev) && p < MAX_PAGES && p !in r && (head != INVALID ==> head < MAX_PAGES && head !in r)
    ensures Chain(r, h, next[p := head], PushedPrev(prev, head, p))
  {
    var next1, prev1 := next[p := head], PushedPrev(prev, head, p);
    forall i | 0 <= i < |r|
      ensures LinkAt(r, next1, prev1, i)
    {
      assert LinkAt(r, next, prev, i) && r[i] in r;
    }
  }

  lemma {:induction false} PushLinked(lists: seq<seq<nat>>, heads: seq<nat>, next: seq<nat>, prev: seq<nat>, k: nat, p: nat)
    requires Linked(lists, heads, next, prev) && k <= MAX_ORDER && p < MAX_PAGES
    requires forall j :: 0 <= j <= MAX_ORDER ==> p !in lists[j]
    ensures |prev| == |next| == MAX_PAGES && (heads[k] != INVALID ==> heads[k] < MAX_PAGES)
    ensures Linked(lists[k := [p] + lists[k]], heads[k := p], next[p := heads[k]], PushedPrev(prev, heads[k], p))
  {
    PushChain(lists[k], heads[k], next, prev, p);
    forall j | 0 <= j <= MAX_ORDER && j != k
      ensures Chain(lists[j], heads[j], next[p := heads[k]], PushedPrev(prev, heads[k], p))
    {
      if lists[k] != [] {
        assert lists[k][0] in lists[k];
      }
      PushPast(lists[j], heads[j], next, prev, heads[k], p);
    }
    PushApart(lists, k, p);
  }

  lemma {:induction false} PushApart(lists: seq<seq<nat>>, k: nat, p: nat)
    requires Apart(lists) && k < |lists| && forall j :: 0 <= j < |lists| ==> p !in lists[j]
    ensures Apart(lists[k := [p] + lists[k]])
  {
    var lists1 := lists[k := [p] + lists[k]];
    assert forall j :: 0 <= j < |lists| ==> forall x :: x in lists1[j] ==> x in lists[j] || (j == k && x == p);
  }

  function RemovedNext(q: seq<nat>, i: nat, next: seq<nat>): seq<nat>
    requires i < |q| && q[i] < |next| && (i > 0 ==> q[i - 1] < |next|)
  {
    (if i > 0 then next[q[i - 1] := After(q, i)] else next)[q[i] := INVALID]
  }

  function RemovedPrev(q: seq<nat>, i: nat, prev: seq<nat>): seq<nat>
    requires i < |q| && q[i] < |prev| && (i + 1 < |q| ==> q[i + 1] < |prev|)
  {
    (if i + 1 < |q| then prev[q[i + 1] := Before(q, i)] else prev)[q[i] := INVALID]
  }

  lemma {:induction false} CutChain(q: seq<nat>, head: nat, next: seq<nat>, prev: seq<nat>, i: nat)
    requires Chain(q, head, next, prev) && Distinct(q) && i < |q|
    ensures forall j :: 0 <= j < |q| ==> q[j] < MAX_PAGES
    ensures Chain(q[..i] + q[i + 1..], if i > 0 then head else After(q, 0), RemovedNext(q, i, next), RemovedPrev(q, i, prev))
  {
    forall j | 0 <= j < |q|
      ensures q[j] < MAX_PAGES
    {
      assert LinkAt(q, next, prev, j);
    }
    var r := q[..i] + q[i + 1..];
    var next1, prev1 := RemovedNext(q, i, next), RemovedPrev(q, i, prev);
    forall j | 0 <= j < |r|
      ensures LinkAt(r, next1, prev1, j)
    {
      assert LinkAt(q, next, prev, if j < i then j else j + 1);
    }
  }

  lemma {:induction false} OtherChain(q: seq<nat>, i: nat, r: seq<nat>, head: nat, next: seq<nat>, prev: seq<nat>)
    requires Chain(r, head, next, prev) && i < |q| && (forall j :: 0 <= j < |q| ==> q[j] < MAX_PAGES)
    requires forall x :: x in q ==> x !in r
    ensures Chain(r, head, RemovedNext(q, i, next), RemovedPrev(q, i, prev))
  {
    assert forall j :: 0 <= j < |q| ==> q[j] in q;
    forall j | 0 <= j < |r|
      ensures LinkAt(r, RemovedNext(q, i, next), RemovedPrev(q, i, prev), j)
    {
      assert LinkAt(r, next, prev, j) && r[j] in r;
    }
  }

  lemma {:induction false} RemoveLinked(lists: seq<seq<nat>>, heads: seq<nat>, next: seq<nat>, prev: seq<nat>, k: nat, i: nat)
    requires Linked(lists, heads, next, prev) && k <= MAX_ORDER && i < |lists[k]|
    ensures |prev| == |next| == MAX_PAGES && forall j :: 0 <= j < |lists[k]| ==> lists[k][j] < MAX_PAGES
    ensures next[lists[k][i]] == After(lists[k], i) && prev[lists[k][i]] == Before(lists[k], i)
    ensures Linked(lists[k := Without(lists[k], lists[k][i])],
                   if i > 0 then heads else heads[k := After(lists[k], 0)],
                   RemovedNext(lists[k], i, next), RemovedPrev(lists[k], i, prev))
  {
    var q := lists[k];
    assert LinkAt(q, next, prev, i);
    CutChain(q, heads[k], next, prev, i);
    WithoutAt(q, i);
    forall j | 0 <= j <= MAX_ORDER && j != k
      ensures Chain(lists[j], heads[j], RemovedNext(q, i, next), RemovedPrev(q, i, prev))
    {
      OtherChain(q, i, lists[j], heads[j], next, prev);
    }
    RemoveApart(lists, k, q[i]);
  }

  lemma {:induction false} RemoveApart(lists: seq<seq<nat>>, k: nat, x: nat)
    requires Apart(lists) && k < |lists|
    ensures Apart(lists[k := Without(lists[k], x)])
  {
    WithoutKeepsRest(lists[k], x);
  }
}
