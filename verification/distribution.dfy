/**
 * How a sequence binding of Runtime/DIContainer.cs hands its values out: views under
 * one parent scope each enter a scope of their own, resolve the key there and leave
 * again. The n-th such sibling receives the n-th value, and every sibling past the end
 * gets ViewModelExhausted. Siblings that observe the key instead are handed one new
 * cell per value, in the same order.
 */
module Distribution {
  import opened Wrappers
  import opened Errors
  import opened Arena
  import opened Scopes
  import opened Stacks
  import opened Entries
  import opened Containers
  import opened Handouts

  /** One sibling: enter a scope under the head, resolve `k` in it, leave it. */
  function Branch(w: World, c: Container, k: Key): (o: Outcome<Value>)
    requires Valid(w) && ContainerOk(w, c)
    ensures Valid(o.w) && ContainerOk(o.w, o.c) && Extends(w, o.w)
    ensures o.c.head == c.head && o.c.count == c.count && o.c.nextScopeId == c.nextScopeId + 1
  {
    var e := EnterScope(w, c);
    var r := Resolve(e.w, e.c, k);
    var x := ExitScope(r.w, r.c);
    Outcome(x.w, x.c, r.r)
  }

  datatype Dealt = Dealt(w: World, c: Container, results: seq<Result<Value, Error>>)

  /** `n` siblings in turn, with what each one's resolution returned or threw. */
  function Deal(w: World, c: Container, k: Key, n: nat): (d: Dealt)
    requires Valid(w) && ContainerOk(w, c)
    ensures Valid(d.w) && ContainerOk(d.w, d.c) && |d.results| == n
    ensures d.c.head == c.head && d.c.count == c.count && d.c.nextScopeId == c.nextScopeId + n
    decreases n
  {
    if n == 0 then Dealt(w, c, [])
    else
      var b := Branch(w, c, k);
      var rest := Deal(b.w, b.c, k, n - 1);
      Dealt(rest.w, rest.c, [b.r] + rest.results)
  }

  /** What the `t`-th read of a sequence of `vs` bound under `k` yields. */
  function Expected(vs: seq<Value>, t: int, k: Key): Result<Value, Error> {
    if 0 <= t < |vs| then Ok(vs[t]) else Err(ViewModelExhausted(k))
  }

  /**
   * Entry `i`, a sequence of `vs`, is what `k` means from the head, and its cursor was
   * last moved outside any scope the next sibling can have on its stack: either never
   * moved (a negative recorded id) or moved by an earlier sibling, whose id is below
   * the counter, at the depth of the siblings.
   */
  predicate Dealing(w: World, c: Container, k: Key, i: nat, vs: seq<Value>)
    requires ContainerOk(w, c)
  {
    && c.head.Some? && i < |w.entries|
    && Lookup(w, c.head.value, k) .Ref? && Lookup(w, c.head.value, k).entry == i
    && w.entries[i].Sequence? && w.entries[i].values == Some(vs)
    && w.entries[i].prevScopeId < c.nextScopeId
    && (w.entries[i].prevScopeId < 0 || w.entries[i].prevScopeDepth == c.count)
  }

  /** The sibling's new scope sees what the head sees: it has no bindings of its own. */
  lemma EnteredSeesHead(w: World, c: Container, k: Key)
    requires Valid(w) && ContainerOk(w, c) && c.head.Some?
    ensures var e := EnterScope(w, c);
      && Lookup(e.w, c.head.value, k) == Lookup(w, c.head.value, k)
      && Lookup(e.w, |w.scopes|, k) == Lookup(w, c.head.value, k)
  {
    var e := EnterScope(w, c);
    var h := c.head.value;
    forall u | u in Chain(w, h) ensures CacheAt(w, u, k) == CacheAt(e.w, u, k) {
      var ch := Chain(w, h);
      var x :| 0 <= x < |ch| && ch[x] == u;
      assert e.w.scopes[u] == w.scopes[u];
    }
    LookupAgree(w, e.w, h, k);
  }

  /**
   * A cursor never moved, or last moved by an earlier sibling at this depth, is outside
   * the branch of a newly entered scope: that scope has a fresh id at the siblings' depth.
   */
  lemma EnteredIsOutsideBranch(w: World, c: Container, x: Entry)
    requires Valid(w) && ContainerOk(w, c) && x.Sequence?
    requires x.prevScopeId < c.nextScopeId && (x.prevScopeId < 0 || x.prevScopeDepth == c.count)
    ensures var e := EnterScope(w, c); !InBranch(e.w, e.c, x)
  {
    var s := |w.scopes|;
    var e := EnterScope(w, c);
    if x.prevScopeId >= 0 && x.prevScopeDepth < e.c.count {
      var ch := Chain(e.w, s);
      assert |ch| == c.count + 1 && x.prevScopeDepth == c.count;
      assert ch[x.prevScopeDepth] == s;
      assert e.w.scopes[s].id == c.nextScopeId;
    }
  }

  /** In the sibling's new scope the cursor is outside the branch, so resolving moves it on. */
  lemma SiblingResolvesNext(w: World, c: Container, k: Key, i: nat, vs: seq<Value>)
    requires Valid(w) && ContainerOk(w, c) && Dealing(w, c, k, i, vs)
    ensures var e := EnterScope(w, c); var r := Resolve(e.w, e.c, k); var x := w.entries[i];
      && r.r == Translate(k, ElementAt(vs, x.currentIndex + 1))
      && r.w.entries[i] == x.(currentIndex := x.currentIndex + 1, prevScopeId := c.nextScopeId, prevScopeDepth := c.count)
      && Lookup(r.w, c.head.value, k) == Lookup(w, c.head.value, k)
  {
    var h := c.head.value;
    var s := |w.scopes|;
    var e := EnterScope(w, c);
    EnterScopeChain(w, c);
    EnteredSeesHead(w, c, k);
    var x := w.entries[i];
    assert e.w.entries[i] == x;
    EnteredIsOutsideBranch(w, c, x);
    ResolveMovesCursor(e.w, e.c, k);
    ResolveKeepsLookups(e.w, e.c, k, h, k);
  }

  /** One sibling reads the element after the cursor and leaves the entry ready for the next. */
  lemma BranchTakesNext(w: World, c: Container, k: Key, i: nat, vs: seq<Value>)
    requires Valid(w) && ContainerOk(w, c) && Dealing(w, c, k, i, vs)
    ensures var b := Branch(w, c, k);
      && b.r == Expected(vs, w.entries[i].currentIndex + 1, k)
      && Dealing(b.w, b.c, k, i, vs)
      && b.w.entries[i].currentIndex == w.entries[i].currentIndex + 1
  {
    var s := |w.scopes|;
    var e := EnterScope(w, c);
    var r := Resolve(e.w, e.c, k);
    SiblingResolvesNext(w, c, k, i, vs);
    assert r.w.scopes[s].id == c.nextScopeId && r.w.scopes[s].parent == c.head;
  }

  /** `rs` are the reads of a sequence of `vs` from its `j`-th element on. */
  predicate ReadsFrom(rs: seq<Result<Value, Error>>, vs: seq<Value>, j: int, k: Key) {
    forall t :: 0 <= t < |rs| ==> rs[t] == Expected(vs, j + t, k)
  }

  /**
   * Siblings read successive elements: with the cursor at `j - 1`, the `t`-th of `n`
   * siblings gets element `j + t`, or ViewModelExhausted once the values run out.
   */
  lemma {:induction false} DealInOrder(w: World, c: Container, k: Key, i: nat, vs: seq<Value>, j: int, n: nat)
    requires Valid(w) && ContainerOk(w, c) && Dealing(w, c, k, i, vs) && w.entries[i].currentIndex == j - 1
    ensures ReadsFrom(Deal(w, c, k, n).results, vs, j, k)
    decreases n
  {
    if n > 0 {
      var b := Branch(w, c, k);
      var m: nat := n - 1;
      BranchTakesNext(w, c, k, i, vs);
      DealInOrder(b.w, b.c, k, i, vs, j + 1, m);
      DealUnfold(w, c, k, n);
      ExpectedFrom(Deal(w, c, k, n).results, b.r, Deal(b.w, b.c, k, m).results, vs, j, k);
    }
  }

  /** The first sibling's read, then the rest. */
  lemma DealUnfold(w: World, c: Container, k: Key, n: nat)
    requires Valid(w) && ContainerOk(w, c) && n > 0
    ensures var b := Branch(w, c, k); Deal(w, c, k, n).results == [b.r] + Deal(b.w, b.c, k, n - 1).results
  {
  }

  /** Reads from `j` on are the read of `j` followed by the reads from `j + 1` on. */
  lemma ExpectedFrom(rs: seq<Result<Value, Error>>, r: Result<Value, Error>, rest: seq<Result<Value, Error>>,
                     vs: seq<Value>, j: int, k: Key)
    requires rs == [r] + rest && r == Expected(vs, j, k) && ReadsFrom(rest, vs, j + 1, k)
    ensures ReadsFrom(rs, vs, j, k)
  {
    forall t | 1 <= t < |rs| ensures rs[t] == Expected(vs, j + t, k) {
      assert rs[t] == rest[t - 1];
      assert j + 1 + (t - 1) == j + t;
    }
  }

  /**
   * `BindValues` under a key the head does not bind yet, then `n` siblings: sibling `t`
   * resolves the `t`-th value, and those past the last value are told the sequence is
   * exhausted.
   */
  lemma BoundSequenceIsDealt(w: World, c: Container, k: Key, vs: seq<Value>, n: nat)
    requires Valid(w) && ContainerOk(w, c) && c.head.Some? && !OwnedBy(w, c.head.value, k)
    ensures var b := Bind(w, c, k, [], BindValues(vs)); var d := Deal(b.w, b.c, k, n);
      && b.r == Ok(|w.entries|)
      && forall t :: 0 <= t < n ==> d.results[t] == (if t < |vs| then Ok(vs[t]) else Err(ViewModelExhausted(k)))
  {
    var b := Bind(w, c, k, [], BindValues(vs));
    BindShadowsOrConflicts(w, c, k, [], BindValues(vs), k);
    assert multiset([k] + [])[k] == 1;
    assert b.w.entries[|w.entries|] == NewSequence(Some(vs));
    DealInOrder(b.w, b.c, k, |w.entries|, vs, 0, n);
    assert ReadsFrom(Deal(b.w, b.c, k, n).results, vs, 0, k);
  }

  /** One sibling that observes instead: enter a scope under the head, observe `k` in it, leave it. */
  function ObserveBranch(w: World, c: Container, k: Key): (o: Outcome<nat>)
    requires Valid(w) && ContainerOk(w, c)
    ensures Valid(o.w) && ContainerOk(o.w, o.c) && Extends(w, o.w)
    ensures o.c.head == c.head && o.c.count == c.count && o.c.nextScopeId == c.nextScopeId + 1
  {
    var e := EnterScope(w, c);
    var r := Observe(e.w, e.c, k);
    var x := ExitScope(r.w, r.c);
    Outcome(x.w, x.c, r.r)
  }

  datatype Watched = Watched(w: World, c: Container, results: seq<Result<nat, Error>>)

  /** `n` observing siblings in turn, with the cell each one was handed or what it threw. */
  function ObserveDeal(w: World, c: Container, k: Key, n: nat): (d: Watched)
    requires Valid(w) && ContainerOk(w, c)
    ensures Valid(d.w) && ContainerOk(d.w, d.c) && |d.results| == n
    ensures d.c.head == c.head && d.c.count == c.count && d.c.nextScopeId == c.nextScopeId + n
    decreases n
  {
    if n == 0 then Watched(w, c, [])
    else
      var b := ObserveBranch(w, c, k);
      var rest := ObserveDeal(b.w, b.c, k, n - 1);
      Watched(rest.w, rest.c, [b.r] + rest.results)
  }

  /**
   * `Dealing`, with the cursor at `j - 1` and every slot from `j` on still empty: no
   * sibling has observed those values yet.
   */
  predicate ObserveDealing(w: World, c: Container, k: Key, i: nat, vs: seq<Value>, j: nat)
    requires ContainerOk(w, c)
  {
    && Dealing(w, c, k, i, vs) && w.entries[i].currentIndex == j - 1
    && EmptyFrom(w.entries[i].observed, |vs|, j)
  }

  /** In the sibling's new scope the cursor moves on, and the slot there is read. */
  lemma SiblingObservesNext(w: World, c: Container, k: Key, i: nat, vs: seq<Value>, j: nat)
    requires Valid(w) && ContainerOk(w, c) && ObserveDealing(w, c, k, i, vs, j)
    ensures var e := EnterScope(w, c); var r := Observe(e.w, e.c, k); var x := r.w.entries[i];
      && x.Sequence? && x.values == Some(vs) && x.currentIndex == j
      && x.prevScopeId == c.nextScopeId && x.prevScopeDepth == c.count
      && HandsOut(w, r, i, Slots(w.entries[i]), vs, j)
      && (r.r.Err? ==> r.r.error == ViewModelExhausted(k))
      && Lookup(r.w, c.head.value, k) == Lookup(w, c.head.value, k)
  {
    var h := c.head.value;
    var e := EnterScope(w, c);
    EnterScopeChain(w, c);
    EnteredSeesHead(w, c, k);
    var x := w.entries[i];
    assert e.w.entries[i] == x;
    EnteredIsOutsideBranch(w, c, x);
    ObserveMovesCursor(e.w, e.c, k);
    ObserveKeepsLookups(e.w, e.c, k, h, k);
  }

  /**
   * One observing sibling gets a new cell holding element `j`, or ViewModelExhausted past
   * the end, and leaves the entry ready for the next.
   */
  lemma ObserveBranchTakesNext(w: World, c: Container, k: Key, i: nat, vs: seq<Value>, j: nat)
    requires Valid(w) && ContainerOk(w, c) && ObserveDealing(w, c, k, i, vs, j)
    ensures var b := ObserveBranch(w, c, k);
      && (j < |vs| ==> b.r == Ok(|w.cells|) && |b.w.cells| == |w.cells| + 1)
      && (j >= |vs| ==> b.r == Err(ViewModelExhausted(k)) && |b.w.cells| == |w.cells|)
      && ObserveDealing(b.w, b.c, k, i, vs, j + 1)
  {
    var s := |w.scopes|;
    var e := EnterScope(w, c);
    var r := Observe(e.w, e.c, k);
    SiblingObservesNext(w, c, k, i, vs, j);
    assert r.w.scopes[s].id == c.nextScopeId && r.w.scopes[s].parent == c.head;
  }

  /** The one cell an observing sibling adds holds element `j`; past the end it adds none. */
  lemma ObserveBranchAddsCell(w: World, c: Container, k: Key, i: nat, vs: seq<Value>, j: nat)
    requires Valid(w) && ContainerOk(w, c) && ObserveDealing(w, c, k, i, vs, j)
    ensures ObserveBranch(w, c, k).w.cells == w.cells + (if j < |vs| then [Reactive.NewCell(vs[j])] else [])
  {
    SiblingObservesNext(w, c, k, i, vs, j);
  }

  /**
   * Observing siblings take successive slots: with the cursor at `j - 1` and the slots
   * from `j` on empty, the `t`-th of `n` siblings gets the `t`-th new cell while the
   * values last, and ViewModelExhausted after.
   */
  lemma {:induction false} ObserveDealInOrder(w: World, c: Container, k: Key, i: nat, vs: seq<Value>, j: nat, n: nat)
    requires Valid(w) && ContainerOk(w, c) && ObserveDealing(w, c, k, i, vs, j)
    ensures CellsFrom(ObserveDeal(w, c, k, n).results, |w.cells|, vs, j, k)
    decreases n
  {
    if n > 0 {
      var b := ObserveBranch(w, c, k);
      ObserveBranchTakesNext(w, c, k, i, vs, j);
      ObserveDealInOrder(b.w, b.c, k, i, vs, j + 1, n - 1);
      ObserveDealStep(w, c, k, i, vs, j, n);
    }
  }

  /** The first observing sibling's cell, then those the rest are handed from the next value on. */
  lemma ObserveDealStep(w: World, c: Container, k: Key, i: nat, vs: seq<Value>, j: nat, n: nat)
    requires Valid(w) && ContainerOk(w, c) && ObserveDealing(w, c, k, i, vs, j) && n > 0
    requires var b := ObserveBranch(w, c, k); CellsFrom(ObserveDeal(b.w, b.c, k, n - 1).results, |b.w.cells|, vs, j + 1, k)
    ensures CellsFrom(ObserveDeal(w, c, k, n).results, |w.cells|, vs, j, k)
  {
    var b := ObserveBranch(w, c, k);
    ObserveBranchTakesNext(w, c, k, i, vs, j);
    ObserveDealUnfold(w, c, k, n);
    CellsFromStep(ObserveDeal(w, c, k, n).results, b.r, ObserveDeal(b.w, b.c, k, n - 1).results, |w.cells|, |b.w.cells|, vs, j, k);
  }


  /** The same siblings add exactly one new cell per value they read, holding that value, in order. */
  lemma {:induction false} ObserveDealAddsCells(w: World, c: Container, k: Key, i: nat, vs: seq<Value>, j: nat, n: nat)
    requires Valid(w) && ContainerOk(w, c) && ObserveDealing(w, c, k, i, vs, j)
    ensures ObserveDeal(w, c, k, n).w.cells == w.cells + NewCells(ValuesFrom(vs, j, n))
    decreases n
  {
    if n > 0 {
      var b := ObserveBranch(w, c, k);
      var m: nat := n - 1;
      ObserveBranchTakesNext(w, c, k, i, vs, j);
      ObserveBranchAddsCell(w, c, k, i, vs, j);
      ObserveDealAddsCells(b.w, b.c, k, i, vs, j + 1, m);
      ObserveDealLast(w, c, k, n);
      NewCellsStep(w.cells, b.w.cells, vs, j, n);
    } else {
      assert ValuesFrom(vs, j, 0) == [];
    }
  }

  /** The first observing sibling, then the rest. */
  lemma ObserveDealUnfold(w: World, c: Container, k: Key, n: nat)
    requires Valid(w) && ContainerOk(w, c) && n > 0
    ensures var b := ObserveBranch(w, c, k); ObserveDeal(w, c, k, n).results == [b.r] + ObserveDeal(b.w, b.c, k, n - 1).results
  {
  }

  /** The world after the first observing sibling and the rest is the world after the rest. */
  lemma ObserveDealLast(w: World, c: Container, k: Key, n: nat)
    requires Valid(w) && ContainerOk(w, c) && n > 0
    ensures var b := ObserveBranch(w, c, k); ObserveDeal(w, c, k, n).w == ObserveDeal(b.w, b.c, k, n - 1).w
  {
  }

  /**
   * `BindValues` under a key the head does not bind yet, then `n` observing siblings:
   * sibling `t` is handed a new cell holding the `t`-th value, one cell per value and in
   * order, and those past the last value are told the sequence is exhausted.
   */
  lemma BoundSequenceIsObserved(w: World, c: Container, k: Key, vs: seq<Value>, n: nat)
    requires Valid(w) && ContainerOk(w, c) && c.head.Some? && !OwnedBy(w, c.head.value, k)
    ensures var b := Bind(w, c, k, [], BindValues(vs)); var d := ObserveDeal(b.w, b.c, k, n);
      && b.r == Ok(|w.entries|)
      && CellsFrom(d.results, |b.w.cells|, vs, 0, k)
      && (n < |vs| ==> d.w.cells == b.w.cells + NewCells(vs[..n]))
      && (n >= |vs| ==> d.w.cells == b.w.cells + NewCells(vs))
  {
    var b := Bind(w, c, k, [], BindValues(vs));
    BoundIsReady(w, c, k, vs);
    ObserveDealInOrder(b.w, b.c, k, |w.entries|, vs, 0, n);
    ObserveDealAddsCells(b.w, b.c, k, |w.entries|, vs, 0, n);
    ValuesFromStart(vs, n);
  }

  /** A freshly bound sequence is ready to be observed from its first value on. */
  lemma BoundIsReady(w: World, c: Container, k: Key, vs: seq<Value>)
    requires Valid(w) && ContainerOk(w, c) && c.head.Some? && !OwnedBy(w, c.head.value, k)
    ensures var b := Bind(w, c, k, [], BindValues(vs));
      b.r == Ok(|w.entries|) && ObserveDealing(b.w, b.c, k, |w.entries|, vs, 0)
  {
    var b := Bind(w, c, k, [], BindValues(vs));
    BindShadowsOrConflicts(w, c, k, [], BindValues(vs), k);
    assert multiset([k] + [])[k] == 1;
    assert b.w.entries[|w.entries|] == NewSequence(Some(vs));
  }

}
