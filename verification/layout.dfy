/**
 * The scope layouts that `View.Bind`, `View.BindMultiple` and `View.BindAll` of
 * Runtime/View.cs set up before injecting a view tree. `BindAll` binds the
 * GameObject's own view models in the root scope and the additional ones in a child
 * scope, so that an additional model shadows a root one of the same type instead of
 * conflicting with it.
 */
module Layouts {
  import opened Wrappers
  import opened Errors
  import opened Arena
  import opened Stacks
  import opened Containers
  import opened Distribution
  import opened Injection

  /** A view model to bind: its runtime type, that type's view-model interfaces, the instance. */
  datatype Component = Component(key: Key, ifs: seq<Key>, value: Value)

  /** The keys `container.Bind(vm, vm.GetType())` registers for one component. */
  function KeysOf(m: Component): seq<Key> {
    [m.key] + m.ifs
  }

  /** How many registrations under `j` binding all of `ms` makes. */
  function Count(ms: seq<Component>, j: Key): nat
    decreases |ms|
  {
    if ms == [] then 0 else multiset(KeysOf(ms[0]))[j] + Count(ms[1..], j)
  }

  /** A component that lists `j` contributes to its count. */
  lemma {:induction false} CountCovers(ms: seq<Component>, i: nat, j: Key)
    requires i < |ms| && j in KeysOf(ms[i])
    ensures Count(ms, j) >= 1
    decreases i
  {
    if i > 0 {
      CountCovers(ms[1..], i - 1, j);
    }
  }

  /** The `foreach` binding each component in the head scope, in order. */
  function BindEach(w: World, c: Container, ms: seq<Component>): (o: Outcome<()>)
    requires Valid(w) && ContainerOk(w, c)
    ensures Valid(o.w) && ContainerOk(o.w, o.c) && SameShape(w, o.w) && o.c == c
    ensures o.w.cells == w.cells && o.w.log == w.log && o.w.factoryCalls == w.factoryCalls
    ensures |o.w.entries| >= |w.entries| && forall x :: 0 <= x < |w.entries| ==> o.w.entries[x] == w.entries[x]
    ensures o.r.Ok? <==> c.head.Some? || ms == []
    ensures o.r.Err? ==> o.r.error == NullReference && o.w == w
    decreases |ms|
  {
    if ms == [] then Outcome(w, c, Ok(()))
    else
      var b := Bind(w, c, ms[0].key, ms[0].ifs, BindValue(ms[0].value));
      if b.r.Err? then Outcome(b.w, b.c, Err(b.r.error))
      else BindEach(b.w, b.c, ms[1..])
  }

  /** Keys none of `ms` lists, and scopes outside the head's branch, keep their lookups. */
  lemma {:induction false} BindEachFrame(w: World, c: Container, ms: seq<Component>, t: nat, j: Key)
    requires Valid(w) && ContainerOk(w, c) && c.head.Some? && t < |w.scopes|
    requires Count(ms, j) == 0 || c.head.value !in Chain(w, t)
    ensures Lookup(BindEach(w, c, ms).w, t, j) == Lookup(w, t, j)
    decreases |ms|
  {
    if ms != [] {
      var m := ms[0];
      var b := Bind(w, c, m.key, m.ifs, BindValue(m.value));
      assert Count(ms, j) == multiset(KeysOf(m))[j] + Count(ms[1..], j);
      assert Count(ms, j) == 0 ==> j !in KeysOf(m);
      BindFrame(w, c, m.key, m.ifs, BindValue(m.value), t, j);
      ChainStable(w, b.w, t);
      BindEachFrame(b.w, b.c, ms[1..], t, j);
      assert BindEach(w, c, ms) == BindEach(b.w, b.c, ms[1..]);
    }
  }

  /**
   * A key the head scope does not own yet and exactly one component lists ends up
   * owned by the head and bound to that component's instance.
   */
  lemma {:induction false} BindEachOwns(w: World, c: Container, ms: seq<Component>, j: Key, i: nat)
    requires Valid(w) && ContainerOk(w, c) && c.head.Some? && !OwnedBy(w, c.head.value, j)
    requires Count(ms, j) == 1 && i < |ms| && j in KeysOf(ms[i])
    ensures var o := BindEach(w, c, ms); var r := Lookup(o.w, c.head.value, j);
      r.Ref? && r.owner == c.head.value && o.w.entries[r.entry] == Single(true, ms[i].value, None)
    decreases |ms|
  {
    var h := c.head.value;
    var m := ms[0];
    var b := Bind(w, c, m.key, m.ifs, BindValue(m.value));
    if i == 0 {
      BindShadowsOrConflicts(w, c, m.key, m.ifs, BindValue(m.value), j);
      assert multiset(KeysOf(m))[j] == 1;
      BindEachFrame(b.w, b.c, ms[1..], h, j);
    } else {
      CountCovers(ms[1..], i - 1, j);
      assert j !in KeysOf(m);
      BindFrame(w, c, m.key, m.ifs, BindValue(m.value), h, j);
      BindEachOwns(b.w, b.c, ms[1..], j, i - 1);
    }
  }

  /** The head scope owns `j`, bound to a Conflicted entry for it. */
  predicate ConflictedAt(w: World, h: nat, j: Key)
    requires Valid(w) && h < |w.scopes|
  {
    OwnedBy(w, h, j) && w.entries[Lookup(w, h, j).entry] == Conflicted(j)
  }

  /**
   * A key listed twice (by two components, or twice by one), or listed once more when
   * the head already owns it, ends up Conflicted in the head scope; a Conflicted key
   * stays so.
   */
  lemma {:induction false} BindEachConflicts(w: World, c: Container, ms: seq<Component>, j: Key)
    requires Valid(w) && ContainerOk(w, c) && c.head.Some?
    requires || Count(ms, j) >= 2
             || (OwnedBy(w, c.head.value, j) && Count(ms, j) >= 1)
             || ConflictedAt(w, c.head.value, j)
    ensures ConflictedAt(BindEach(w, c, ms).w, c.head.value, j)
    decreases |ms|
  {
    if ms != [] {
      var m := ms[0];
      var b := Bind(w, c, m.key, m.ifs, BindValue(m.value));
      assert BindEach(w, c, ms).w == BindEach(b.w, b.c, ms[1..]).w;
      BindConflictStep(w, c, m, j, Count(ms[1..], j));
      BindEachConflicts(b.w, b.c, ms[1..], j);
    }
  }

  /**
   * One component towards a conflict: with `rest` more registrations of `j` to come,
   * enough registrations remain after binding `m`, or `j` is already Conflicted.
   */
  lemma BindConflictStep(w: World, c: Container, m: Component, j: Key, rest: nat)
    requires Valid(w) && ContainerOk(w, c) && c.head.Some?
    requires var n := multiset(KeysOf(m))[j] + rest;
      n >= 2 || (OwnedBy(w, c.head.value, j) && n >= 1) || ConflictedAt(w, c.head.value, j)
    ensures var b := Bind(w, c, m.key, m.ifs, BindValue(m.value)); var h := c.head.value;
      rest >= 2 || (OwnedBy(b.w, h, j) && rest >= 1) || ConflictedAt(b.w, h, j)
  {
    var h := c.head.value;
    var b := Bind(w, c, m.key, m.ifs, BindValue(m.value));
    if j in KeysOf(m) {
      BindShadowsOrConflicts(w, c, m.key, m.ifs, BindValue(m.value), j);
      if !(ConflictedAt(b.w, h, j)) {
        assert !OwnedBy(w, h, j) && multiset(KeysOf(m))[j] == 1;
      }
    } else {
      BindFrame(w, c, m.key, m.ifs, BindValue(m.value), h, j);
    }
  }

  /** A head scope whose every lookup is its own or none keeps that property while binding. */
  lemma BindEachKeepsOwnership(w: World, c: Container, ms: seq<Component>, j: Key)
    requires Valid(w) && ContainerOk(w, c) && c.head.Some?
    requires Lookup(w, c.head.value, j).Nil? || OwnedBy(w, c.head.value, j)
    ensures var o := BindEach(w, c, ms); Lookup(o.w, c.head.value, j).Nil? || OwnedBy(o.w, c.head.value, j)
  {
    if Count(ms, j) == 0 {
      BindEachFrame(w, c, ms, c.head.value, j);
    } else if Count(ms, j) >= 2 || OwnedBy(w, c.head.value, j) {
      BindEachConflicts(w, c, ms, j);
    } else {
      var i := FirstListing(ms, j);
      BindEachOwns(w, c, ms, j, i);
    }
  }

  /** The first component that lists `j`, when some component does. */
  function FirstListing(ms: seq<Component>, j: Key): (i: nat)
    requires Count(ms, j) >= 1
    ensures i < |ms| && j in KeysOf(ms[i])
    decreases |ms|
  {
    if j in KeysOf(ms[0]) then 0 else 1 + FirstListing(ms[1..], j)
  }

  /**
   * `BindAll`'s layout: a new container, the GameObject's components bound in its root
   * scope, a child scope entered, the additional components bound there.
   */
  function Layout(w: World, models: seq<Component>, extras: seq<Component>): (o: Outcome<()>)
    requires Valid(w)
    ensures Valid(o.w) && ContainerOk(o.w, o.c) && Extends(w, o.w) && o.r == Ok(())
    ensures |o.w.scopes| == |w.scopes| + 2
    ensures o.w.scopes[|w.scopes|].parent.None? && o.w.scopes[|w.scopes| + 1].parent == Some(|w.scopes|)
    ensures o.c == Container(Some(|w.scopes| + 1), 2, 0, 0)
  {
    var n := NewContainer(w);
    var a := BindEach(n.w, n.c, models);
    var e := EnterScope(a.w, a.c);
    var b := BindEach(e.w, e.c, extras);
    Outcome(b.w, b.c, Ok(()))
  }

  /** What the root scope of the layout binds `j` to: its own entry or nothing. */
  lemma RootLookup(w: World, models: seq<Component>, j: Key)
    requires Valid(w)
    ensures var n := NewContainer(w); var a := BindEach(n.w, n.c, models); var r := Lookup(a.w, |w.scopes|, j);
      && (r.Nil? || r.owner == |w.scopes|)
      && (Count(models, j) == 0 <==> r.Nil?)
  {
    var n := NewContainer(w);
    var root := |w.scopes|;
    assert Lookup(n.w, root, j).Nil?;
    BindEachKeepsOwnership(n.w, n.c, models, j);
    if Count(models, j) > 0 {
      if Count(models, j) >= 2 {
        BindEachConflicts(n.w, n.c, models, j);
      } else {
        BindEachOwns(n.w, n.c, models, j, FirstListing(models, j));
      }
    } else {
      BindEachFrame(n.w, n.c, models, root, j);
    }
  }

  /**
   * An additional component shadows: a key exactly one additional component lists is
   * bound, in the child scope, to that component's instance, whether or not a root
   * component lists it too.
   */
  lemma LayoutShadows(w: World, models: seq<Component>, extras: seq<Component>, j: Key, i: nat)
    requires Valid(w) && Count(extras, j) == 1 && i < |extras| && j in KeysOf(extras[i])
    ensures var o := Layout(w, models, extras); var r := Lookup(o.w, |w.scopes| + 1, j);
      r.Ref? && r.owner == |w.scopes| + 1 && o.w.entries[r.entry] == Single(true, extras[i].value, None)
  {
    var n := NewContainer(w);
    var a := BindEach(n.w, n.c, models);
    RootLookup(w, models, j);
    EnteredSeesHead(a.w, a.c, j);
    var e := EnterScope(a.w, a.c);
    BindEachOwns(e.w, e.c, extras, j, i);
  }

  /** A key no additional component lists reads, from the child scope, what the root binds. */
  lemma LayoutInherits(w: World, models: seq<Component>, extras: seq<Component>, j: Key)
    requires Valid(w) && Count(extras, j) == 0
    ensures var n := NewContainer(w); var a := BindEach(n.w, n.c, models); var o := Layout(w, models, extras);
      Lookup(o.w, |w.scopes| + 1, j) == Lookup(a.w, |w.scopes|, j)
  {
    var n := NewContainer(w);
    var a := BindEach(n.w, n.c, models);
    EnteredSeesHead(a.w, a.c, j);
    var e := EnterScope(a.w, a.c);
    BindEachFrame(e.w, e.c, extras, |w.scopes| + 1, j);
  }

  /**
   * Binding the same components in one scope instead would conflict: a key a root
   * component and an additional one both list is Conflicted there.
   */
  lemma FlatLayoutConflicts(w: World, models: seq<Component>, extras: seq<Component>, j: Key)
    requires Valid(w) && Count(models, j) >= 1 && Count(extras, j) >= 1
    ensures var n := NewContainer(w); var f := BindEach(n.w, n.c, models + extras);
      ConflictedAt(f.w, |w.scopes|, j)
  {
    var n := NewContainer(w);
    CountAppend(models, extras, j);
    BindEachConflicts(n.w, n.c, models + extras, j);
  }

  lemma {:induction false} CountAppend(a: seq<Component>, b: seq<Component>, j: Key)
    ensures Count(a + b, j) == Count(a, j) + Count(b, j)
    decreases |a|
  {
    if a == [] {
      assert a + b == b;
    } else {
      assert (a + b)[0] == a[0] && (a + b)[1..] == a[1..] + b;
      CountAppend(a[1..], b, j);
    }
  }

  /** The visitor `me` walking the tree from the root view, which is injected as a binding root. */
  function Inject(s: Walker, me: nat, root: Node, w: World, c: Container): (o: Walker)
    requires WalkerOk(s) && Valid(w) && ContainerOk(w, c) && Extends(s.w, w)
    ensures WalkerOk(o) && Extends(w, o.w) && o.c.head == c.head && o.c.count == c.count
  {
    Visit(s.(w := w, c := c), me, root, true)
  }

  /**
   * `View.BindAll`: the layout, the walk from the root view, then leaving the child
   * scope; the container is left with its root scope as head.
   */
  function BindAll(s: Walker, me: nat, root: Node, models: seq<Component>, extras: seq<Component>): (o: Walker)
    requires WalkerOk(s)
    ensures WalkerOk(o) && Extends(s.w, o.w)
    ensures o.c.head == Some(|s.w.scopes|) && o.c.count == 1
  {
    var l := Layout(s.w, models, extras);
    var v := Inject(s, me, root, l.w, l.c);
    var x := ExitScope(v.w, v.c);
    v.(c := x.c)
  }

  /**
   * Under `BindAll`, a root node that has views gets its scope as a child of the scope
   * of the additional components, so its views see those first and the GameObject's
   * own components behind them.
   */
  lemma BindAllNesting(s: Walker, me: nat, root: Node, models: seq<Component>, extras: seq<Component>)
    requires WalkerOk(s) && !Skipped(root, true) && |root.views| > 0
    ensures var o := BindAll(s, me, root, models, extras); var x := |s.w.scopes|;
      && x + 2 < |o.w.scopes|
      && o.w.scopes[x].parent.None? && o.w.scopes[x + 1].parent == Some(x) && o.w.scopes[x + 2].parent == Some(x + 1)
  {
    var l := Layout(s.w, models, extras);
    NodeScope(s.(w := l.w, c := l.c), me, root, true);
  }

  /**
   * `View.Bind(viewModel, type)`: a new container with the one component bound in its
   * root scope, then the walk; nothing is exited, so the root scope stays the head.
   */
  function BindSingle(s: Walker, me: nat, root: Node, m: Component): (o: Walker)
    requires WalkerOk(s)
    ensures WalkerOk(o) && Extends(s.w, o.w)
    ensures o.c.head == Some(|s.w.scopes|) && o.c.count == 1
  {
    var n := NewContainer(s.w);
    var b := Bind(n.w, n.c, m.key, m.ifs, BindValue(m.value));
    Inject(s, me, root, b.w, b.c)
  }

  /**
   * `View.BindMultiple`: every component bound in the root scope of a new container,
   * the walk, then `ExitScope`, which pops that root scope and leaves a null head.
   */
  function BindMultiple(s: Walker, me: nat, root: Node, ms: seq<Component>): (o: Walker)
    requires WalkerOk(s)
    ensures WalkerOk(o) && Extends(s.w, o.w)
    ensures o.c.head.None? && o.c.count == 0
  {
    var n := NewContainer(s.w);
    var b := BindEach(n.w, n.c, ms);
    var v := Inject(s, me, root, b.w, b.c);
    var x := ExitScope(v.w, v.c);
    v.(c := x.c)
  }
}
