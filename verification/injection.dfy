/**
 * `ViewTreeVisitor` of Runtime/View.cs: the depth-first walk that hands a container to
 * every view of a transform tree, one scope per node with views, together with the
 * static visitor map that keeps a visitor from injecting a view twice and the marked
 * set that `UpdateHandler` flushes from the views' scope pointers.
 *
 * A view's own code is abstracted: `OnInject` is a script of container calls that may
 * throw, and `OnPostInject` / `OnAfterInjectChildren` either return or throw.
 */
module Injection {
  import opened Wrappers
  import opened Errors
  import opened Arena
  import opened Stacks
  import opened Containers

  /** `InjectionOptions.InjectionType`; a node without that component has `None`. */
  datatype InjectionType = Normal | Ignore | IgnoreWhenInactive | OnlyAsBindingRoot

  /** One container call made by a view's `OnInject`, or an exception it throws. */
  datatype Op =
    | BindOp(k: Key, ifs: seq<Key>, b: Binding)
    | ResolveOp(k: Key)
    | ObserveOp(k: Key)
    | TryResolveOp(k: Key)
    | TryObserveOp(k: Key)
    | Throw(code: nat)

  /**
   * A `View` component: its identity, what `OnInject` does with the container, and the
   * code of the exception `OnPostInject` and `OnAfterInjectChildren` throw, if any.
   */
  datatype View = View(id: nat, onInject: seq<Op>, postInject: Option<nat>, afterChildren: Option<nat>)

  /** A transform: its `InjectionOptions`, `activeInHierarchy`, its views, its children in order. */
  datatype Node = Node(options: Option<InjectionType>, active: bool, views: seq<View>, children: seq<Node>)

  /** What the walk did, in order. `Logged` is an exception caught and logged. */
  datatype Event =
    | Entered(scope: nat)
    | Exited
    | Injecting(view: nat)
    | PostInjected(view: nat)
    | AfterChildren(view: nat)
    | Logged(view: nat, error: Error)

  /**
   * What a visitor works on: the arena and the container it currently drives, the
   * static visitor map (view to visitor), this visitor's marked set and its spare
   * buffer, every view's `diContainerPointer`, and the event log.
   */
  datatype Walker = Walker(
    w: World,
    c: Container,
    visitors: map<nat, nat>,
    marked: seq<nat>,
    cached: seq<nat>,
    pointers: map<nat, Pointer>,
    events: seq<Event>)

  predicate WalkerOk(s: Walker) {
    && Valid(s.w) && ContainerOk(s.w, s.c)
    && forall v :: v in s.pointers ==> s.pointers[v].scope < |s.w.scopes|
  }

  /** `WasViewInjected`: the visitor map sends view `v` to visitor `me`. */
  predicate Mapped(m: map<nat, nat>, me: nat, v: nat) {
    v in m && m[v] == me
  }

  /** Visitor `me` only adds or overwrites entries with itself: what it mapped stays mapped. */
  ghost predicate Grows(m: map<nat, nat>, m': map<nat, nat>, me: nat) {
    && (forall v :: v in m ==> v in m')
    && (forall v :: v in m' ==> (v in m && m'[v] == m[v]) || m'[v] == me)
  }

  /**
   * What any stretch of a walk by `me` keeps: the arena only grows, the log only
   * grows, views only become mapped to `me`, pointers are only added or set for
   * views `me` had not injected yet.
   */
  ghost predicate Advances(s: Walker, o: Walker, me: nat) {
    && Extends(s.w, o.w)
    && s.events <= o.events
    && Grows(s.visitors, o.visitors, me)
    && (forall v :: v in s.pointers ==> v in o.pointers)
    && (forall v :: Mapped(s.visitors, me, v) ==>
          (v in o.pointers <==> v in s.pointers) && (v in s.pointers ==> o.pointers[v] == s.pointers[v]))
  }

  /** A stretch of a walk: it also only removes views from the marked set and leaves the spare buffer. */
  ghost predicate Follows(s: Walker, o: Walker, me: nat) {
    && Advances(s, o, me)
    && (forall v :: v in o.marked ==> v in s.marked)
    && o.cached == s.cached
  }

  lemma AdvancesTrans(a: Walker, b: Walker, c: Walker, me: nat)
    requires Advances(a, b, me) && Advances(b, c, me)
    ensures Advances(a, c, me)
  {
    assert a.events <= c.events by {
      assert c.events[..|a.events|] == c.events[..|b.events|][..|a.events|];
    }
  }

  lemma FollowsTrans(a: Walker, b: Walker, c: Walker, me: nat)
    requires Follows(a, b, me) && Follows(b, c, me)
    ensures Follows(a, c, me)
  {
    AdvancesTrans(a, b, c, me);
  }

  /** The ids of `vs`, in order. */
  function Ids(vs: seq<View>): (r: seq<nat>)
    ensures |r| == |vs| && forall i :: 0 <= i < |vs| ==> r[i] == vs[i].id
  {
    if |vs| == 0 then [] else [vs[0].id] + Ids(vs[1..])
  }

  predicate NoDup(xs: seq<nat>) {
    forall i, j :: 0 <= i < j < |xs| ==> xs[i] != xs[j]
  }

  /** `HashSet.Remove`. */
  function Remove(xs: seq<nat>, v: nat): (r: seq<nat>)
    ensures forall x :: x in r <==> x in xs && x != v
    ensures NoDup(xs) ==> NoDup(r)
  {
    if |xs| == 0 then []
    else
      assert forall x :: x in xs <==> x == xs[0] || x in xs[1..];
      assert NoDup(xs) ==> NoDup(xs[1..]) && xs[0] !in xs[1..];
      if xs[0] == v then Remove(xs[1..], v)
      else [xs[0]] + Remove(xs[1..], v)
  }

  /** `MarkForInjection`: `HashSet.Add` of the view to this visitor's marked set. */
  function MarkForInjection(s: Walker, v: nat): (o: Walker)
    ensures forall x :: x in o.marked <==> x in s.marked || x == v
    ensures NoDup(s.marked) ==> NoDup(o.marked)
    ensures o.(marked := s.marked) == s
  {
    if v in s.marked then s else s.(marked := s.marked + [v])
  }

  /** `GetVisitor`: the visitor the static map records for a view, if any. */
  function GetVisitor(s: Walker, v: nat): (r: Option<nat>)
    ensures r.Some? <==> v in s.visitors
    ensures r.Some? ==> Mapped(s.visitors, r.value, v)
  {
    if v in s.visitors then Some(s.visitors[v]) else None
  }

  function Void<T>(r: Result<T, Error>): (u: Result<(), Error>)
    ensures u.Ok? <==> r.Ok?
    ensures r.Err? ==> u == Err(r.error)
  {
    match r
    case Ok(_) => Ok(())
    case Err(e) => Err(e)
  }

  /** One call of a view's `OnInject`: none of them moves the container's stack. */
  function Call(w: World, c: Container, op: Op): (o: Outcome<()>)
    requires Valid(w) && ContainerOk(w, c)
    ensures Valid(o.w) && ContainerOk(o.w, o.c) && SameShape(w, o.w)
    ensures o.c.head == c.head && o.c.count == c.count
    ensures op.Throw? ==> o == Outcome(w, c, Err(Thrown(op.code)))
  {
    match op
    case BindOp(k, ifs, b) => var x := Bind(w, c, k, ifs, b); Outcome(x.w, x.c, Void(x.r))
    case ResolveOp(k) => var x := Resolve(w, c, k); Outcome(x.w, x.c, Void(x.r))
    case ObserveOp(k) => var x := Observe(w, c, k); Outcome(x.w, x.c, Void(x.r))
    case TryResolveOp(k) => var x := TryResolve(w, c, k); Outcome(x.w, x.c, Void(x.r))
    case TryObserveOp(k) => var x := TryObserve(w, c, k); Outcome(x.w, x.c, Void(x.r))
    case Throw(code) => Outcome(w, c, Err(Thrown(code)))
  }

  /**
   * `OnInject`: its calls in order; the first exception ends it, with the effects of
   * the calls before it kept.
   */
  function RunScript(w: World, c: Container, ops: seq<Op>): (o: Outcome<()>)
    requires Valid(w) && ContainerOk(w, c)
    ensures Valid(o.w) && ContainerOk(o.w, o.c) && SameShape(w, o.w)
    ensures o.c.head == c.head && o.c.count == c.count
    ensures ops == [] ==> o == Outcome(w, c, Ok(()))
    decreases |ops|
  {
    if |ops| == 0 then Outcome(w, c, Ok(()))
    else
      var x := Call(w, c, ops[0]);
      if x.r.Err? then x else RunScript(x.w, x.c, ops[1..])
  }

  /** A script that reaches a `Throw` fails: either it throws there or an earlier call threw. */
  lemma {:induction false} ThrowingScriptFails(w: World, c: Container, ops: seq<Op>, i: nat)
    requires Valid(w) && ContainerOk(w, c) && i < |ops| && ops[i].Throw?
    ensures RunScript(w, c, ops).r.Err?
    decreases |ops|
  {
    var x := Call(w, c, ops[0]);
    if i > 0 && x.r.Ok? {
      assert ops[1..][i - 1] == ops[i];
      ThrowingScriptFails(x.w, x.c, ops[1..], i - 1);
    }
  }

  /** `View.Inject` returns normally: `OnInject` returned and then `OnPostInject` did. */
  predicate Succeeds(w: World, c: Container, v: View)
    requires Valid(w) && ContainerOk(w, c)
  {
    RunScript(w, c, v.onInject).r.Ok? && v.postInject.None?
  }

  /**
   * The try block for one view not yet injected by `me`: map it to `me`, run `Inject`
   * (OnInject, then OnPostInject), and store the scope pointer only if that returned;
   * an exception is logged. Either way the view leaves the marked set.
   */
  function InjectOne(s: Walker, me: nat, v: View, p: Pointer): (o: Walker)
    requires WalkerOk(s) && p.scope < |s.w.scopes| && !Mapped(s.visitors, me, v.id)
    ensures WalkerOk(o) && Follows(s, o, me)
    ensures o.c.head == s.c.head && o.c.count == s.c.count
    ensures o.visitors == s.visitors[v.id := me] && v.id !in o.marked
  {
    var x := RunScript(s.w, s.c, v.onInject);
    var s1 := s.(w := x.w, c := x.c, visitors := s.visitors[v.id := me], events := s.events + [Injecting(v.id)]);
    var s2 :=
      if x.r.Err? then s1.(events := s1.events + [Logged(v.id, x.r.error)])
      else match v.postInject
        case Some(code) => s1.(events := s1.events + [PostInjected(v.id), Logged(v.id, Thrown(code))])
        case None => s1.(events := s1.events + [PostInjected(v.id)], pointers := s1.pointers[v.id := p]);
    s2.(marked := Remove(s2.marked, v.id))
  }

  /**
   * An exception from `Inject` is isolated: the view stays mapped to `me`, its pointer
   * is not set and the exception is logged; `OnPostInject` ran only if `OnInject`
   * returned.
   */
  lemma InjectFailureIsIsolated(s: Walker, me: nat, v: View, p: Pointer)
    requires WalkerOk(s) && p.scope < |s.w.scopes| && !Mapped(s.visitors, me, v.id)
    requires !Succeeds(s.w, s.c, v)
    ensures var o := InjectOne(s, me, v, p); var x := RunScript(s.w, s.c, v.onInject);
      && Mapped(o.visitors, me, v.id) && o.pointers == s.pointers
      && o.events[|s.events|] == Injecting(v.id) && o.events[|o.events| - 1].Logged?
      && (PostInjected(v.id) in o.events[|s.events|..] <==> x.r.Ok?)
  {
    var o := InjectOne(s, me, v, p);
    var x := RunScript(s.w, s.c, v.onInject);
    if x.r.Err? {
      assert o.events[|s.events|..] == [Injecting(v.id), Logged(v.id, x.r.error)];
    } else {
      assert o.events[|s.events|..] == [Injecting(v.id), PostInjected(v.id), Logged(v.id, Thrown(v.postInject.value))];
    }
  }

  /** When `Inject` returns, the view's pointer is the node's scope and nothing is logged. */
  lemma InjectSuccessSetsPointer(s: Walker, me: nat, v: View, p: Pointer)
    requires WalkerOk(s) && p.scope < |s.w.scopes| && !Mapped(s.visitors, me, v.id)
    requires Succeeds(s.w, s.c, v)
    ensures var o := InjectOne(s, me, v, p);
      && Mapped(o.visitors, me, v.id)
      && o.pointers == s.pointers[v.id := p]
      && o.events == s.events + [Injecting(v.id), PostInjected(v.id)]
  {
  }

  /** The result of the loop over a node's views. */
  datatype Injected = Injected(s: Walker, after: seq<View>, already: nat)

  /**
   * The loop over a node's views: a view `me` already injected is removed from the
   * marked set and counted; every other one goes through `InjectOne` and onto the
   * after-list. Afterwards every view of the node is mapped to `me` and unmarked; the
   * count reaches the number of views exactly when all were injected before, and
   * then nothing but the marked set has changed.
   */
  function InjectViews(s: Walker, me: nat, vs: seq<View>, p: Pointer): (o: Injected)
    requires WalkerOk(s) && p.scope < |s.w.scopes|
    ensures WalkerOk(o.s) && Follows(s, o.s, me)
    ensures o.s.c.head == s.c.head && o.s.c.count == s.c.count
    ensures o.already <= |vs|
    decreases |vs|
  {
    if |vs| == 0 then Injected(s, [], 0)
    else
      var v := vs[0];
      var s1 := Step(s, me, v, p);
      var rest := InjectViews(s1, me, vs[1..], p);
      FollowsTrans(s, s1, rest.s, me);
      if Mapped(s.visitors, me, v.id) then Injected(rest.s, rest.after, rest.already + 1)
      else Injected(rest.s, [v] + rest.after, rest.already)
  }

  /** One turn of the loop: a view `me` already injected is only unmarked; any other is injected. */
  function Step(s: Walker, me: nat, v: View, p: Pointer): (o: Walker)
    requires WalkerOk(s) && p.scope < |s.w.scopes|
    ensures WalkerOk(o) && Follows(s, o, me) && p.scope < |o.w.scopes|
    ensures o.c.head == s.c.head && o.c.count == s.c.count
    ensures Mapped(o.visitors, me, v.id) && v.id !in o.marked
  {
    if Mapped(s.visitors, me, v.id) then s.(marked := Remove(s.marked, v.id)) else InjectOne(s, me, v, p)
  }

  /** After the loop every view of the node is mapped to `me` and out of the marked set. */
  lemma {:induction false} InjectViewsMarksAll(s: Walker, me: nat, vs: seq<View>, p: Pointer)
    requires WalkerOk(s) && p.scope < |s.w.scopes|
    ensures var o := InjectViews(s, me, vs, p);
      forall i :: 0 <= i < |vs| ==> Mapped(o.s.visitors, me, vs[i].id) && vs[i].id !in o.s.marked
    decreases |vs|
  {
    if |vs| > 0 {
      var s1 := Step(s, me, vs[0], p);
      var rest := InjectViews(s1, me, vs[1..], p).s;
      InjectViewsMarksAll(s1, me, vs[1..], p);
      MarkedStaysDone(s1, rest, me, vs[0].id);
      SettledCons(rest, me, vs);
      InjectViewsFirst(s, me, vs, p);
    }
  }

  /** The loop is its first turn followed by the loop over the remaining views. */
  lemma InjectViewsFirst(s: Walker, me: nat, vs: seq<View>, p: Pointer)
    requires WalkerOk(s) && p.scope < |s.w.scopes| && |vs| > 0
    ensures InjectViews(s, me, vs, p).s == InjectViews(Step(s, me, vs[0], p), me, vs[1..], p).s
  {
  }

  lemma SettledCons(o: Walker, me: nat, vs: seq<View>)
    requires |vs| > 0 && Mapped(o.visitors, me, vs[0].id) && vs[0].id !in o.marked
    requires forall i :: 0 <= i < |vs[1..]| ==> Mapped(o.visitors, me, vs[1..][i].id) && vs[1..][i].id !in o.marked
    ensures forall i :: 0 <= i < |vs| ==> Mapped(o.visitors, me, vs[i].id) && vs[i].id !in o.marked
  {
    forall i | 1 <= i < |vs| ensures Mapped(o.visitors, me, vs[i].id) && vs[i].id !in o.marked {
      assert vs[i] == vs[1..][i - 1];
    }
  }

  /** A view mapped to `me` and out of the marked set stays so along a stretch of the walk. */
  lemma MarkedStaysDone(a: Walker, b: Walker, me: nat, v: nat)
    requires Follows(a, b, me) && Mapped(a.visitors, me, v) && v !in a.marked
    ensures Mapped(b.visitors, me, v) && v !in b.marked
  {
  }

  /**
   * The count of views injected before reaches the number of views exactly when `me`
   * had injected all of them, and then the loop changed nothing but the marked set.
   */
  lemma {:induction false} InjectViewsCounts(s: Walker, me: nat, vs: seq<View>, p: Pointer)
    requires WalkerOk(s) && p.scope < |s.w.scopes|
    ensures var o := InjectViews(s, me, vs, p);
      && (o.already == |vs| <==> forall i :: 0 <= i < |vs| ==> Mapped(s.visitors, me, vs[i].id))
      && (o.already == |vs| ==> o.s == s.(marked := o.s.marked) && o.after == [])
    decreases |vs|
  {
    if |vs| > 0 {
      var v := vs[0];
      assert forall i :: 1 <= i < |vs| ==> vs[i] == vs[1..][i - 1];
      if Mapped(s.visitors, me, v.id) {
        InjectViewsCounts(s.(marked := Remove(s.marked, v.id)), me, vs[1..], p);
      }
    }
  }

  /**
   * The after-list holds exactly the views `me` had not injected before the loop, so a
   * view whose `Inject` threw stays on it.
   */
  lemma {:induction false} AfterListIsFresh(s: Walker, me: nat, vs: seq<View>, p: Pointer)
    requires WalkerOk(s) && p.scope < |s.w.scopes|
    ensures var o := InjectViews(s, me, vs, p);
      forall y :: y in Ids(o.after) <==> y in Ids(vs) && !Mapped(s.visitors, me, y)
    decreases |vs|
  {
    if |vs| > 0 {
      var v := vs[0];
      var o := InjectViews(s, me, vs, p);
      assert Ids(vs) == [v.id] + Ids(vs[1..]);
      if Mapped(s.visitors, me, v.id) {
        var s1 := s.(marked := Remove(s.marked, v.id));
        AfterListIsFresh(s1, me, vs[1..], p);
      } else {
        var s1 := InjectOne(s, me, v, p);
        AfterListIsFresh(s1, me, vs[1..], p);
        var rest := InjectViews(s1, me, vs[1..], p);
        assert Ids(o.after) == [v.id] + Ids(rest.after);
        forall y ensures Mapped(s1.visitors, me, y) <==> Mapped(s.visitors, me, y) || y == v.id { }
      }
    }
  }

  /**
   * The views of `vs` that `WasViewInjected` would let through, in order, starting from
   * the visitor map `m`: each one let through is then mapped to `me`, so a later copy of
   * it is passed over.
   */
  function Unseen(m: map<nat, nat>, me: nat, vs: seq<View>): seq<View>
    decreases |vs|
  {
    if |vs| == 0 then []
    else if Mapped(m, me, vs[0].id) then Unseen(m, me, vs[1..])
    else [vs[0]] + Unseen(m[vs[0].id := me], me, vs[1..])
  }

  /** The after-list is, in order, the views `WasViewInjected` let through. */
  lemma {:induction false} AfterListInOrder(s: Walker, me: nat, vs: seq<View>, p: Pointer)
    requires WalkerOk(s) && p.scope < |s.w.scopes|
    ensures InjectViews(s, me, vs, p).after == Unseen(s.visitors, me, vs)
    decreases |vs|
  {
    if |vs| > 0 {
      var s1 := Step(s, me, vs[0], p);
      AfterListInOrder(s1, me, vs[1..], p);
      if !Mapped(s.visitors, me, vs[0].id) {
        assert s1.visitors == s.visitors[vs[0].id := me];
      }
    }
  }

  /** The loop sets pointers only to the node's scope; every other pointer is kept. */
  lemma {:induction false} InjectViewsPointers(s: Walker, me: nat, vs: seq<View>, p: Pointer)
    requires WalkerOk(s) && p.scope < |s.w.scopes|
    ensures var o := InjectViews(s, me, vs, p);
      forall y :: y in o.s.pointers ==> o.s.pointers[y] == p || (y in s.pointers && o.s.pointers[y] == s.pointers[y])
    decreases |vs|
  {
    if |vs| > 0 {
      var s1 := Step(s, me, vs[0], p);
      if !Mapped(s.visitors, me, vs[0].id) {
        InjectOnePointers(s, me, vs[0], p);
      }
      InjectViewsPointers(s1, me, vs[1..], p);
      InjectViewsFirst(s, me, vs, p);
      PointersOnlyTo(s.pointers, s1.pointers, InjectViews(s1, me, vs[1..], p).s.pointers, p);
    }
  }

  /** Setting pointers only to `p`, twice over, sets them only to `p`. */
  lemma PointersOnlyTo(a: map<nat, Pointer>, b: map<nat, Pointer>, c: map<nat, Pointer>, p: Pointer)
    requires forall y :: y in b ==> b[y] == p || (y in a && b[y] == a[y])
    requires forall y :: y in c ==> c[y] == p || (y in b && c[y] == b[y])
    ensures forall y :: y in c ==> c[y] == p || (y in a && c[y] == a[y])
  {
  }

  /** A view's injection sets at most its own pointer, and only to `p`. */
  lemma InjectOnePointers(s: Walker, me: nat, v: View, p: Pointer)
    requires WalkerOk(s) && p.scope < |s.w.scopes| && !Mapped(s.visitors, me, v.id)
    ensures var o := InjectOne(s, me, v, p);
      forall y :: y in o.pointers ==> o.pointers[y] == p || (y in s.pointers && o.pointers[y] == s.pointers[y])
  {
    var o := InjectOne(s, me, v, p);
    var x := RunScript(s.w, s.c, v.onInject);
    if x.r.Ok? && v.postInject.None? {
      assert o.pointers == s.pointers[v.id := p];
    } else {
      assert o.pointers == s.pointers;
    }
  }

  /** `OnAfterInjectChildren` for each view of the after-list, in order, exceptions logged. */
  function AfterEvents(after: seq<View>): (evs: seq<Event>)
    ensures |evs| >= |after|
    ensures forall i :: 0 <= i < |evs| ==> evs[i].AfterChildren? || evs[i].Logged?
  {
    if |after| == 0 then []
    else
      var a := after[0];
      [AfterChildren(a.id)] + (if a.afterChildren.Some? then [Logged(a.id, Thrown(a.afterChildren.value))] else [])
      + AfterEvents(after[1..])
  }

  /** The views whose `OnAfterInjectChildren` an event sequence records, in order. */
  function Hooked(evs: seq<Event>): seq<nat> {
    if |evs| == 0 then []
    else (if evs[0].AfterChildren? then [evs[0].view] else []) + Hooked(evs[1..])
  }

  lemma {:induction false} HookedAppend(a: seq<Event>, b: seq<Event>)
    ensures Hooked(a + b) == Hooked(a) + Hooked(b)
    decreases |a|
  {
    if |a| > 0 {
      assert (a + b)[0] == a[0] && (a + b)[1..] == a[1..] + b;
      HookedAppend(a[1..], b);
    } else {
      assert a + b == b;
    }
  }

  /** Every view of the after-list gets exactly one `OnAfterInjectChildren`, in list order. */
  lemma {:induction false} AfterEventsHookEachOnce(after: seq<View>)
    ensures Hooked(AfterEvents(after)) == Ids(after)
    decreases |after|
  {
    if |after| > 0 {
      var a := after[0];
      var head := [AfterChildren(a.id)] + (if a.afterChildren.Some? then [Logged(a.id, Thrown(a.afterChildren.value))] else []);
      HookedAppend(head, AfterEvents(after[1..]));
      assert Hooked(head) == [a.id] by {
        if a.afterChildren.Some? {
          assert head[1..] == [Logged(a.id, Thrown(a.afterChildren.value))];
          assert head[1..][1..] == [];
        } else {
          assert head[1..] == [];
        }
      }
      AfterEventsHookEachOnce(after[1..]);
    }
  }

  /** `ExitScope` after a node's views and children. */
  function Leave(s: Walker, me: nat): (o: Walker)
    requires WalkerOk(s) && s.c.head.Some?
    ensures WalkerOk(o) && Follows(s, o, me)
    ensures o == s.(c := ExitScope(s.w, s.c).c, events := s.events + [Exited])
  {
    s.(c := ExitScope(s.w, s.c).c, events := s.events + [Exited])
  }

  /** The options checks at the top of `RecursiveInject`: the node is skipped before anything happens. */
  predicate Skipped(n: Node, isRoot: bool)
    ensures Skipped(n, isRoot) ==> n.options.Some? && n.options.value != Normal
    ensures n.options == Some(Ignore) ==> Skipped(n, isRoot)
    ensures isRoot && n.active ==> (Skipped(n, isRoot) <==> n.options == Some(Ignore))
  {
    match n.options
    case None => false
    case Some(t) =>
      || t == Ignore
      || (t == OnlyAsBindingRoot && !isRoot)
      || (!n.active && t == IgnoreWhenInactive)
  }

  /** The start of `RecursiveInject` for a node with views: enter its scope, then the loop over the views. */
  function Open(s: Walker, me: nat, vs: seq<View>): (iv: Injected)
    requires WalkerOk(s)
    ensures WalkerOk(iv.s) && Follows(s, iv.s, me) && iv.already <= |vs|
    ensures |s.w.scopes| < |iv.s.w.scopes| && iv.s.c.head == Some(|s.w.scopes|) && iv.s.c.count == s.c.count + 1
    ensures iv.s.w.scopes[|s.w.scopes|].parent == s.c.head && iv.s.w.scopes[|s.w.scopes|].id == s.c.nextScopeId
  {
    var e := EnterScope(s.w, s.c);
    var s1 := s.(w := e.w, c := e.c, events := s.events + [Entered(|s.w.scopes|)]);
    var iv := InjectViews(s1, me, vs, e.r.value);
    FollowsTrans(s, s1, iv.s, me);
    iv
  }

  /**
   * The rest of it: leave at once if every view had been injected before; otherwise
   * visit the children, run the after-list's `OnAfterInjectChildren`, then leave.
   */
  function Finish(iv: Injected, me: nat, n: Node): (o: Walker)
    requires WalkerOk(iv.s) && iv.s.c.head.Some?
    ensures WalkerOk(o) && Follows(iv.s, o, me)
    ensures o.c.head == iv.s.w.scopes[iv.s.c.head.value].parent && o.c.count == iv.s.c.count - 1
    decreases n, 0
  {
    var t :=
      if iv.already == |n.views| then iv.s
      else (
        var u := VisitAll(iv.s, me, n.children);
        var u' := u.(events := u.events + AfterEvents(iv.after));
        assert Follows(u, u', me);
        FollowsTrans(iv.s, u, u', me);
        u');
    var o := Leave(t, me);
    FollowsTrans(iv.s, t, o, me);
    o
  }

  /**
   * `RecursiveInject(node, container, isRoot, views)` for visitor `me`: a node its
   * options skip is left untouched; a node with views gets one scope, entered before
   * its views and left on every path; a node without views just has its children
   * visited. The container's stack is as it was afterwards.
   */
  function Visit(s: Walker, me: nat, n: Node, isRoot: bool): (o: Walker)
    requires WalkerOk(s)
    ensures WalkerOk(o) && Follows(s, o, me)
    ensures o.c.head == s.c.head && o.c.count == s.c.count
    ensures Skipped(n, isRoot) ==> o == s
    decreases n, 1
  {
    if Skipped(n, isRoot) then s
    else if |n.views| == 0 then VisitAll(s, me, n.children)
    else
      var iv := Open(s, me, n.views);
      var o := Finish(iv, me, n);
      FollowsTrans(s, iv.s, o, me);
      o
  }

  /** The `foreach` over a node's children: each child visited in order, never as root. */
  function VisitAll(s: Walker, me: nat, ns: seq<Node>): (o: Walker)
    requires WalkerOk(s)
    ensures WalkerOk(o) && Follows(s, o, me)
    ensures o.c.head == s.c.head && o.c.count == s.c.count
    decreases ns
  {
    if |ns| == 0 then s
    else
      var t := Visit(s, me, ns[0], false);
      var o := VisitAll(t, me, ns[1..]);
      FollowsTrans(s, t, o, me);
      o
  }

  /** Every view of `vs` was injected by `me`. */
  predicate AllMapped(m: map<nat, nat>, me: nat, vs: seq<View>) {
    forall i :: 0 <= i < |vs| ==> Mapped(m, me, vs[i].id)
  }

  /**
   * What a walk by `me` from this node finds already done: the node is skipped, or
   * all its views are mapped to `me` and, when it has none, so is every child subtree.
   */
  predicate Done(m: map<nat, nat>, me: nat, n: Node, isRoot: bool)
    decreases n
  {
    || Skipped(n, isRoot)
    || (AllMapped(m, me, n.views) && (|n.views| > 0 || DoneAll(m, me, n.children)))
  }

  predicate DoneAll(m: map<nat, nat>, me: nat, ns: seq<Node>)
    decreases ns
  {
    forall i :: 0 <= i < |ns| ==> Done(m, me, ns[i], false)
  }

  lemma {:induction false} DoneGrows(m: map<nat, nat>, m': map<nat, nat>, me: nat, n: Node, isRoot: bool)
    requires Grows(m, m', me) && Done(m, me, n, isRoot)
    ensures Done(m', me, n, isRoot)
    decreases n
  {
    if !Skipped(n, isRoot) && |n.views| == 0 {
      DoneAllGrows(m, m', me, n.children);
    }
  }

  lemma {:induction false} DoneAllGrows(m: map<nat, nat>, m': map<nat, nat>, me: nat, ns: seq<Node>)
    requires Grows(m, m', me) && DoneAll(m, me, ns)
    ensures DoneAll(m', me, ns)
    decreases ns
  {
    forall i | 0 <= i < |ns| ensures Done(m', me, ns[i], false) {
      DoneGrows(m, m', me, ns[i], false);
    }
  }

  /**
   * What the loop over a node's views did, seen from before the scope was entered:
   * it counted all views exactly when `me` had injected all of them, and then it only
   * entered the scope and unmarked them.
   */
  lemma OpenCounts(s: Walker, me: nat, vs: seq<View>)
    requires WalkerOk(s)
    ensures var iv := Open(s, me, vs);
      && (iv.already == |vs| <==> AllMapped(s.visitors, me, vs))
      && (iv.already == |vs| ==>
            && iv.s.events == s.events + [Entered(|s.w.scopes|)]
            && iv.s.visitors == s.visitors && iv.s.pointers == s.pointers && iv.after == [])
  {
    var e := EnterScope(s.w, s.c);
    var s1 := s.(w := e.w, c := e.c, events := s.events + [Entered(|s.w.scopes|)]);
    InjectViewsCounts(s1, me, vs, e.r.value);
  }

  /** After the loop all views of the node are mapped to `me` and unmarked. */
  lemma OpenMarks(s: Walker, me: nat, vs: seq<View>)
    requires WalkerOk(s)
    ensures var iv := Open(s, me, vs);
      && AllMapped(iv.s.visitors, me, vs)
      && forall i :: 0 <= i < |vs| ==> vs[i].id !in iv.s.marked
  {
    var e := EnterScope(s.w, s.c);
    var s1 := s.(w := e.w, c := e.c, events := s.events + [Entered(|s.w.scopes|)]);
    InjectViewsMarksAll(s1, me, vs, e.r.value);
  }

  /**
   * The loop's after-list holds the views `me` had not injected, and the only pointer it
   * sets is the new scope's, captured with the container's stamp.
   */
  lemma OpenAfterAndPointers(s: Walker, me: nat, vs: seq<View>)
    requires WalkerOk(s)
    ensures var iv := Open(s, me, vs);
      && s.events + [Entered(|s.w.scopes|)] <= iv.s.events
      && (forall y :: y in Ids(iv.after) <==> y in Ids(vs) && !Mapped(s.visitors, me, y))
      && forall y :: y in iv.s.pointers ==>
           iv.s.pointers[y] == Pointer(|s.w.scopes|, s.c.stamp) || (y in s.pointers && iv.s.pointers[y] == s.pointers[y])
  {
    var e := EnterScope(s.w, s.c);
    var s1 := s.(w := e.w, c := e.c, events := s.events + [Entered(|s.w.scopes|)]);
    AfterListIsFresh(s1, me, vs, e.r.value);
    InjectViewsPointers(s1, me, vs, e.r.value);
  }

  lemma PrefixTrans(a: seq<Event>, b: seq<Event>, c: seq<Event>)
    requires a <= b && b <= c
    ensures a <= c
  {
    assert c[..|a|] == c[..|b|][..|a|];
  }

  /** A walk leaves its node done: every view it reaches ends up mapped to `me`. */
  lemma {:induction false} VisitDone(s: Walker, me: nat, n: Node, isRoot: bool)
    requires WalkerOk(s)
    ensures Done(Visit(s, me, n, isRoot).visitors, me, n, isRoot)
    decreases n, 1
  {
    if !Skipped(n, isRoot) {
      if |n.views| == 0 {
        VisitAllDone(s, me, n.children);
      } else {
        OpenMarks(s, me, n.views);
        var iv := Open(s, me, n.views);
        var o := Finish(iv, me, n);
        assert Grows(iv.s.visitors, o.visitors, me);
      }
    }
  }

  lemma {:induction false} VisitAllDone(s: Walker, me: nat, ns: seq<Node>)
    requires WalkerOk(s)
    ensures DoneAll(VisitAll(s, me, ns).visitors, me, ns)
    decreases ns
  {
    if |ns| > 0 {
      var t := Visit(s, me, ns[0], false);
      VisitDone(s, me, ns[0], false);
      VisitAllDone(t, me, ns[1..]);
      var o := VisitAll(t, me, ns[1..]);
      assert o == VisitAll(s, me, ns);
      DoneGrows(t.visitors, o.visitors, me, ns[0], false);
      DoneAllCons(o.visitors, me, ns);
    }
  }

  lemma DoneAllCons(m: map<nat, nat>, me: nat, ns: seq<Node>)
    requires |ns| > 0 && Done(m, me, ns[0], false) && DoneAll(m, me, ns[1..])
    ensures DoneAll(m, me, ns)
  {
    forall i | 0 < i < |ns| ensures Done(m, me, ns[i], false) {
      assert ns[i] == ns[1..][i - 1];
    }
  }

  /** No view's `OnInject` started. */
  predicate Quiet(evs: seq<Event>) {
    forall i :: 0 <= i < |evs| ==> !evs[i].Injecting?
  }

  lemma QuietJoin(a: seq<Event>, b: seq<Event>, c: seq<Event>)
    requires a <= b && b <= c && Quiet(b[|a|..]) && Quiet(c[|b|..])
    ensures Quiet(c[|a|..])
  {
    forall i | 0 <= i < |c| - |a| ensures !c[|a|..][i].Injecting? {
      if |a| + i < |b| {
        assert c[|a|..][i] == b[|a|..][i];
      } else {
        assert c[|a|..][i] == c[|b|..][i - (|b| - |a|)];
      }
    }
  }

  /**
   * Short-circuit: when `me` had injected every view of the node, its scope is entered
   * and left at once, no child is visited, and the views only leave the marked set.
   */
  lemma ShortCircuit(s: Walker, me: nat, n: Node, isRoot: bool)
    requires WalkerOk(s) && !Skipped(n, isRoot) && |n.views| > 0 && AllMapped(s.visitors, me, n.views)
    ensures var o := Visit(s, me, n, isRoot);
      && o.events == s.events + [Entered(|s.w.scopes|), Exited]
      && o.visitors == s.visitors && o.pointers == s.pointers
      && forall i :: 0 <= i < |n.views| ==> n.views[i].id !in o.marked
  {
    var iv := Open(s, me, n.views);
    OpenCounts(s, me, n.views);
    OpenMarks(s, me, n.views);
    FinishShort(iv, me, n);
    assert Visit(s, me, n, isRoot) == Finish(iv, me, n);
  }

  /** A node whose views were all injected before is only left. */
  lemma {:induction false} FinishShort(iv: Injected, me: nat, n: Node)
    requires WalkerOk(iv.s) && iv.s.c.head.Some? && iv.already == |n.views|
    ensures Finish(iv, me, n) == Leave(iv.s, me)
  {
  }

  /**
   * A walk over a node that is already done injects nothing: it maps no view and sets
   * no pointer, entering and leaving scopes only.
   */
  lemma {:induction false} DoneIsQuiet(s: Walker, me: nat, n: Node, isRoot: bool)
    requires WalkerOk(s) && Done(s.visitors, me, n, isRoot)
    ensures var o := Visit(s, me, n, isRoot);
      o.visitors == s.visitors && o.pointers == s.pointers && Quiet(o.events[|s.events|..])
    decreases n, 1
  {
    if !Skipped(n, isRoot) {
      if |n.views| == 0 {
        DoneAllIsQuiet(s, me, n.children);
      } else {
        ShortCircuitIsQuiet(s, me, n, isRoot);
      }
    }
  }

  lemma ShortCircuitIsQuiet(s: Walker, me: nat, n: Node, isRoot: bool)
    requires WalkerOk(s) && !Skipped(n, isRoot) && |n.views| > 0 && AllMapped(s.visitors, me, n.views)
    ensures var o := Visit(s, me, n, isRoot);
      o.visitors == s.visitors && o.pointers == s.pointers && Quiet(o.events[|s.events|..])
  {
    ShortCircuit(s, me, n, isRoot);
    var o := Visit(s, me, n, isRoot);
    assert o.events[|s.events|..] == [Entered(|s.w.scopes|), Exited];
  }

  lemma {:induction false} DoneAllIsQuiet(s: Walker, me: nat, ns: seq<Node>)
    requires WalkerOk(s) && DoneAll(s.visitors, me, ns)
    ensures var o := VisitAll(s, me, ns);
      o.visitors == s.visitors && o.pointers == s.pointers && Quiet(o.events[|s.events|..])
    decreases ns
  {
    if |ns| > 0 {
      var t := Visit(s, me, ns[0], false);
      DoneIsQuiet(s, me, ns[0], false);
      assert DoneAll(t.visitors, me, ns[1..]) by {
        forall i | 0 <= i < |ns| - 1 ensures Done(t.visitors, me, ns[1..][i], false) {
          assert ns[1..][i] == ns[i + 1];
        }
      }
      DoneAllIsQuiet(t, me, ns[1..]);
      var o := VisitAll(t, me, ns[1..]);
      QuietJoin(s.events, t.events, o.events);
    }
  }

  /**
   * Once per visitor: walking the same tree again after a walk by `me` injects nothing,
   * maps nothing new and sets no pointer.
   */
  lemma SecondWalkInjectsNothing(s: Walker, me: nat, n: Node, isRoot: bool)
    requires WalkerOk(s)
    ensures var o := Visit(s, me, n, isRoot); var o2 := Visit(o, me, n, isRoot);
      o2.visitors == o.visitors && o2.pointers == o.pointers && Quiet(o2.events[|o.events|..])
  {
    VisitDone(s, me, n, isRoot);
    DoneIsQuiet(Visit(s, me, n, isRoot), me, n, isRoot);
  }

  /**
   * Ordering at a node with views not all injected before: its scope is entered first
   * and left last, and just before leaving come the `OnAfterInjectChildren` calls of
   * the loop's after-list, after everything the views and the children did; that list
   * holds exactly the views `me` had not injected.
   */
  lemma NodeOrder(s: Walker, me: nat, n: Node, isRoot: bool)
    requires WalkerOk(s) && !Skipped(n, isRoot) && |n.views| > 0 && !AllMapped(s.visitors, me, n.views)
    ensures var o := Visit(s, me, n, isRoot); var after := Open(s, me, n.views).after;
      var pre := s.events + [Entered(|s.w.scopes|)]; var post := AfterEvents(after) + [Exited];
      && Brackets(o.events, pre, post)
      && forall y :: y in Ids(after) <==> y in Ids(n.views) && !Mapped(s.visitors, me, y)
  {
    var iv := Open(s, me, n.views);
    OpenCounts(s, me, n.views);
    OpenAfterAndPointers(s, me, n.views);
    FinishOrder(iv, me, n, s.events + [Entered(|s.w.scopes|)]);
    assert Visit(s, me, n, isRoot) == Finish(iv, me, n);
  }

  /** Unless every view was injected before, leaving comes after the children and the after-list. */
  lemma FinishOrder(iv: Injected, me: nat, n: Node, pre: seq<Event>)
    requires WalkerOk(iv.s) && iv.s.c.head.Some? && iv.already != |n.views| && pre <= iv.s.events
    ensures Brackets(Finish(iv, me, n).events, pre, AfterEvents(iv.after) + [Exited])
  {
    var u := VisitAll(iv.s, me, n.children);
    var post := AfterEvents(iv.after) + [Exited];
    PrefixTrans(pre, iv.s.events, u.events);
    assert Finish(iv, me, n).events == u.events + post;
    Framed(pre, u.events, post);
  }

  /** `e` begins with `pre` and ends with `post`, the two not overlapping. */
  predicate Brackets(e: seq<Event>, pre: seq<Event>, post: seq<Event>) {
    |pre| + |post| <= |e| && e[..|pre|] == pre && e[|e| - |post|..] == post
  }

  lemma Framed(pre: seq<Event>, x: seq<Event>, post: seq<Event>)
    requires pre <= x
    ensures Brackets(x + post, pre, post)
  {
  }

  /** One scope per node with views: a new child of the head, with the next sibling id. */
  lemma NodeScope(s: Walker, me: nat, n: Node, isRoot: bool)
    requires WalkerOk(s) && !Skipped(n, isRoot) && |n.views| > 0
    ensures var o := Visit(s, me, n, isRoot); var x := |s.w.scopes|;
      x < |o.w.scopes| && o.w.scopes[x].parent == s.c.head && o.w.scopes[x].id == s.c.nextScopeId
  {
    var iv := Open(s, me, n.views);
    var o := Finish(iv, me, n);
    assert Extends(iv.s.w, o.w);
  }

  /**
   * Every view of the node whose pointer the walk changed now points at the node's
   * scope, captured with the container's stamp.
   */
  lemma NodeViewsShareScope(s: Walker, me: nat, n: Node, isRoot: bool)
    requires WalkerOk(s) && !Skipped(n, isRoot) && |n.views| > 0
    ensures var o := Visit(s, me, n, isRoot);
      forall y :: y in Ids(n.views) && y in o.pointers && !(y in s.pointers && o.pointers[y] == s.pointers[y]) ==>
        o.pointers[y] == Pointer(|s.w.scopes|, s.c.stamp)
  {
    OpenMarks(s, me, n.views);
    OpenAfterAndPointers(s, me, n.views);
    var iv := Open(s, me, n.views);
    var o := Finish(iv, me, n);
    PointersSettle(s, iv.s, o, me, n.views, Pointer(|s.w.scopes|, s.c.stamp));
  }

  /**
   * Pointers of views mapped to `me` no longer change: whatever the views' own loop set
   * them to, relative to `s`, is what they hold at the end.
   */
  lemma PointersSettle(s: Walker, m: Walker, o: Walker, me: nat, vs: seq<View>, p: Pointer)
    requires AllMapped(m.visitors, me, vs) && Advances(m, o, me)
    requires forall y :: y in m.pointers ==> m.pointers[y] == p || (y in s.pointers && m.pointers[y] == s.pointers[y])
    ensures forall y :: y in Ids(vs) && y in o.pointers && !(y in s.pointers && o.pointers[y] == s.pointers[y]) ==>
      o.pointers[y] == p
  {
    forall y | y in Ids(vs) && y in o.pointers && !(y in s.pointers && o.pointers[y] == s.pointers[y])
      ensures o.pointers[y] == p
    {
      var x :| 0 <= x < |vs| && Ids(vs)[x] == y;
      assert Mapped(m.visitors, me, vs[x].id);
    }
  }

  /** The views whose `OnInject` an event sequence records as started, in order. */
  function Injections(evs: seq<Event>): seq<nat> {
    if |evs| == 0 then []
    else (if evs[0].Injecting? then [evs[0].view] else []) + Injections(evs[1..])
  }

  lemma {:induction false} InjectionsAppend(a: seq<Event>, b: seq<Event>)
    ensures Injections(a + b) == Injections(a) + Injections(b)
    decreases |a|
  {
    if |a| > 0 {
      assert (a + b)[0] == a[0] && (a + b)[1..] == a[1..] + b;
      InjectionsAppend(a[1..], b);
    } else {
      assert a + b == b;
    }
  }

  /** A stretch of log in which no `OnInject` started records no injection. */
  lemma {:induction false} QuietInjectsNone(evs: seq<Event>)
    requires Quiet(evs)
    ensures Injections(evs) == []
    decreases |evs|
  {
    if |evs| > 0 {
      assert Quiet(evs[1..]) by {
        forall i | 0 <= i < |evs| - 1 ensures !evs[1..][i].Injecting? {
          assert evs[1..][i] == evs[i + 1];
        }
      }
      QuietInjectsNone(evs[1..]);
    }
  }

  /** The injections logged between three points of a walk split at the middle one. */
  lemma {:induction false} InjectionsSplit(a: seq<Event>, b: seq<Event>, c: seq<Event>)
    requires a <= b && b <= c
    ensures Injections(c[|a|..]) == Injections(b[|a|..]) + Injections(c[|b|..])
  {
    assert c[|a|..] == b[|a|..] + c[|b|..];
    InjectionsAppend(b[|a|..], c[|b|..]);
  }

  /** Events appended after a stretch that start no `OnInject` add no injection to it. */
  lemma {:induction false} InjectionsPadded(a: seq<Event>, u: seq<Event>, post: seq<Event>)
    requires a <= u && Quiet(post)
    ensures Injections((u + post)[|a|..]) == Injections(u[|a|..])
  {
    assert (u + post)[|a|..] == u[|a|..] + post;
    InjectionsAppend(u[|a|..], post);
    QuietInjectsNone(post);
  }

  /** One turn of the loop logs one injection, of its view, exactly when `me` had not injected it. */
  lemma {:induction false} StepInjections(s: Walker, me: nat, v: View, p: Pointer)
    requires WalkerOk(s) && p.scope < |s.w.scopes|
    ensures var o := Step(s, me, v, p);
      Injections(o.events[|s.events|..]) == if Mapped(s.visitors, me, v.id) then [] else [v.id]
  {
    var o := Step(s, me, v, p);
    if Mapped(s.visitors, me, v.id) {
      assert o.events[|s.events|..] == [];
    } else {
      InjectOneInjections(s, me, v, p);
    }
  }

  /** Injecting a view not yet injected by `me` starts `OnInject` for that view alone. */
  lemma {:induction false} InjectOneInjections(s: Walker, me: nat, v: View, p: Pointer)
    requires WalkerOk(s) && p.scope < |s.w.scopes| && !Mapped(s.visitors, me, v.id)
    ensures Injections(InjectOne(s, me, v, p).events[|s.events|..]) == [v.id]
  {
    InjectOneLogsOne(s, me, v, p);
    InjectionsFromOne(InjectOne(s, me, v, p).events, |s.events|, v.id);
  }

  /** Events from an `Injecting` on, with nothing injected after it, inject that one view. */
  lemma {:induction false} InjectionsFromOne(evs: seq<Event>, a: nat, v: nat)
    requires a < |evs| && evs[a] == Injecting(v) && Quiet(evs[a + 1..])
    ensures Injections(evs[a..]) == [v]
  {
    var tail := evs[a + 1..];
    assert evs[a..] == [Injecting(v)] + tail;
    InjectionsAppend([Injecting(v)], tail);
    QuietInjectsNone(tail);
  }

  /** Injecting a view logs its `Injecting` event first and starts no other `OnInject` after it. */
  lemma {:induction false} InjectOneLogsOne(s: Walker, me: nat, v: View, p: Pointer)
    requires WalkerOk(s) && p.scope < |s.w.scopes| && !Mapped(s.visitors, me, v.id)
    ensures var o := InjectOne(s, me, v, p);
      |s.events| < |o.events| && o.events[|s.events|] == Injecting(v.id) && Quiet(o.events[|s.events| + 1..])
  {
    var o := InjectOne(s, me, v, p);
    var x := RunScript(s.w, s.c, v.onInject);
    if x.r.Err? {
      assert o.events[|s.events| + 1..] == [Logged(v.id, x.r.error)];
    } else if v.postInject.Some? {
      assert o.events[|s.events| + 1..] == [PostInjected(v.id), Logged(v.id, Thrown(v.postInject.value))];
    } else {
      assert o.events[|s.events| + 1..] == [PostInjected(v.id)];
    }
  }

  /** The loop is its first turn followed by the loop over the remaining views, after-list included. */
  lemma {:induction false} InjectViewsUnfold(s: Walker, me: nat, vs: seq<View>, p: Pointer)
    requires WalkerOk(s) && p.scope < |s.w.scopes| && |vs| > 0
    ensures var rest := InjectViews(Step(s, me, vs[0], p), me, vs[1..], p);
      && InjectViews(s, me, vs, p).s == rest.s
      && InjectViews(s, me, vs, p).after == (if Mapped(s.visitors, me, vs[0].id) then [] else [vs[0]]) + rest.after
  {
  }

  /**
   * The after-list is in injection order: the `OnInject` calls the loop starts are,
   * one for one and in order, those of the views on the after-list.
   */
  lemma {:induction false} InjectViewsInOrder(s: Walker, me: nat, vs: seq<View>, p: Pointer)
    requires WalkerOk(s) && p.scope < |s.w.scopes|
    ensures var o := InjectViews(s, me, vs, p); Injections(o.s.events[|s.events|..]) == Ids(o.after)
    decreases |vs|
  {
    if |vs| == 0 {
      assert InjectViews(s, me, vs, p).s.events[|s.events|..] == [];
    } else {
      var s1 := Step(s, me, vs[0], p);
      var rest := InjectViews(s1, me, vs[1..], p);
      InjectViewsInOrder(s1, me, vs[1..], p);
      StepInjections(s, me, vs[0], p);
      InjectViewsUnfold(s, me, vs, p);
      InjectionsSplit(s.events, s1.events, rest.s.events);
      IdsCons(vs[0], rest.after);
    }
  }

  lemma {:induction false} IdsCons(v: View, vs: seq<View>)
    ensures Ids([v] + vs) == [v.id] + Ids(vs)
  {
  }

  /** None of the views `ys` is mapped to `me`. */
  predicate Unmapped(m: map<nat, nat>, me: nat, ys: seq<nat>) {
    forall i :: 0 <= i < |ys| ==> !Mapped(m, me, ys[i])
  }

  /** No view is on both lists. */
  predicate Apart(ys: seq<nat>, zs: seq<nat>) {
    forall i, j :: 0 <= i < |ys| && 0 <= j < |zs| ==> ys[i] != zs[j]
  }

  /** Between `m` and `m'`, `me` took over no view outside `ys`. */
  ghost predicate MapsOnly(m: map<nat, nat>, m': map<nat, nat>, me: nat, ys: seq<nat>) {
    forall y :: Mapped(m', me, y) ==> Mapped(m, me, y) || y in ys
  }

  lemma {:induction false} MapsOnlyTrans(a: map<nat, nat>, b: map<nat, nat>, c: map<nat, nat>, me: nat, ys: seq<nat>, zs: seq<nat>)
    requires MapsOnly(a, b, me, ys) && MapsOnly(b, c, me, zs)
    ensures MapsOnly(a, c, me, ys + zs)
  {
  }

  /** Distinct views, none mapped to `me`: after the first is mapped, the rest still are not. */
  lemma {:induction false} FreshTail(m: map<nat, nat>, me: nat, vs: seq<View>)
    requires |vs| > 0 && NoDup(Ids(vs)) && Unmapped(m, me, Ids(vs))
    ensures NoDup(Ids(vs[1..])) && Unmapped(m[vs[0].id := me], me, Ids(vs[1..]))
  {
    forall i | 0 <= i < |vs| - 1 ensures Ids(vs[1..])[i] == Ids(vs)[i + 1] && Ids(vs)[i + 1] != vs[0].id {
      assert Ids(vs)[0] == vs[0].id;
    }
  }

  /** The loop maps no view but the node's own. */
  lemma {:induction false} InjectViewsMapsOnly(s: Walker, me: nat, vs: seq<View>, p: Pointer)
    requires WalkerOk(s) && p.scope < |s.w.scopes|
    ensures MapsOnly(s.visitors, InjectViews(s, me, vs, p).s.visitors, me, Ids(vs))
    decreases |vs|
  {
    if |vs| > 0 {
      var s1 := Step(s, me, vs[0], p);
      InjectViewsMapsOnly(s1, me, vs[1..], p);
      InjectViewsUnfold(s, me, vs, p);
      assert MapsOnly(s.visitors, s1.visitors, me, [vs[0].id]);
      MapsOnlyTrans(s.visitors, s1.visitors, InjectViews(s1, me, vs[1..], p).s.visitors, me, [vs[0].id], Ids(vs[1..]));
      assert Ids(vs) == [vs[0].id] + Ids(vs[1..]);
    }
  }

  /** Distinct views none of which `me` had injected all go on the after-list, in their order. */
  lemma {:induction false} InjectViewsFresh(s: Walker, me: nat, vs: seq<View>, p: Pointer)
    requires WalkerOk(s) && p.scope < |s.w.scopes|
    requires NoDup(Ids(vs)) && Unmapped(s.visitors, me, Ids(vs))
    ensures InjectViews(s, me, vs, p).after == vs
    decreases |vs|
  {
    if |vs| > 0 {
      assert Ids(vs)[0] == vs[0].id;
      var s1 := Step(s, me, vs[0], p);
      FreshTail(s.visitors, me, vs);
      InjectViewsFresh(s1, me, vs[1..], p);
      InjectViewsUnfold(s, me, vs, p);
    }
  }

  /** Opening a node: the injections it logs are those of its after-list, in order. */
  lemma {:induction false} OpenInOrder(s: Walker, me: nat, vs: seq<View>)
    requires WalkerOk(s)
    ensures var iv := Open(s, me, vs); Injections(iv.s.events[|s.events|..]) == Ids(iv.after)
  {
    var e := EnterScope(s.w, s.c);
    var s1 := s.(w := e.w, c := e.c, events := s.events + [Entered(|s.w.scopes|)]);
    var iv := InjectViews(s1, me, vs, e.r.value);
    InjectViewsInOrder(s1, me, vs, e.r.value);
    InjectionsSplit(s.events, s1.events, iv.s.events);
    assert s1.events[|s.events|..] == [Entered(|s.w.scopes|)];
  }

  /**
   * `OnAfterInjectChildren` runs in injection order: the hooks at a node name, one for
   * one and in order, the views whose `OnInject` its loop started.
   */
  lemma {:induction false} HooksInInjectionOrder(s: Walker, me: nat, vs: seq<View>)
    requires WalkerOk(s)
    ensures var iv := Open(s, me, vs); Hooked(AfterEvents(iv.after)) == Injections(iv.s.events[|s.events|..])
  {
    OpenInOrder(s, me, vs);
    AfterEventsHookEachOnce(Open(s, me, vs).after);
  }

  /** Opening a node maps no view but its own. */
  lemma {:induction false} OpenMapsOnly(s: Walker, me: nat, vs: seq<View>)
    requires WalkerOk(s)
    ensures MapsOnly(s.visitors, Open(s, me, vs).s.visitors, me, Ids(vs))
  {
    var e := EnterScope(s.w, s.c);
    var s1 := s.(w := e.w, c := e.c, events := s.events + [Entered(|s.w.scopes|)]);
    InjectViewsMapsOnly(s1, me, vs, e.r.value);
  }

  /** Opening a node whose views are distinct and new to `me` injects all of them, in order. */
  lemma {:induction false} OpenFresh(s: Walker, me: nat, vs: seq<View>)
    requires WalkerOk(s) && |vs| > 0 && NoDup(Ids(vs)) && Unmapped(s.visitors, me, Ids(vs))
    ensures var iv := Open(s, me, vs); iv.after == vs && iv.already != |vs|
  {
    var e := EnterScope(s.w, s.c);
    var s1 := s.(w := e.w, c := e.c, events := s.events + [Entered(|s.w.scopes|)]);
    InjectViewsFresh(s1, me, vs, e.r.value);
    InjectViewsCounts(s1, me, vs, e.r.value);
    assert Ids(vs)[0] == vs[0].id && !Mapped(s.visitors, me, vs[0].id);
  }

  /**
   * The views of a tree in depth-first pre-order: a node's views, then each child's
   * subtree in order; a subtree its options skip contributes nothing.
   */
  function PreOrder(n: Node, isRoot: bool): seq<nat>
    decreases n
  {
    if Skipped(n, isRoot) then [] else Ids(n.views) + PreOrderAll(n.children)
  }

  function PreOrderAll(ns: seq<Node>): seq<nat>
    decreases ns
  {
    if |ns| == 0 then [] else PreOrder(ns[0], false) + PreOrderAll(ns[1..])
  }

  /** Splitting a list of distinct views, none mapped to `me`, keeps both halves so and apart. */
  lemma {:induction false} SplitFresh(m: map<nat, nat>, me: nat, ys: seq<nat>, zs: seq<nat>)
    requires NoDup(ys + zs) && Unmapped(m, me, ys + zs)
    ensures NoDup(ys) && NoDup(zs) && Unmapped(m, me, ys) && Unmapped(m, me, zs) && Apart(ys, zs)
  {
    assert forall i :: 0 <= i < |ys| ==> (ys + zs)[i] == ys[i];
    assert forall j :: 0 <= j < |zs| ==> (ys + zs)[|ys| + j] == zs[j];
  }

  /** Views `me` had not injected and that a stretch of walk did not map stay unmapped. */
  lemma {:induction false} FreshAfter(m: map<nat, nat>, m': map<nat, nat>, me: nat, ys: seq<nat>, zs: seq<nat>)
    requires Unmapped(m, me, zs) && MapsOnly(m, m', me, ys) && Apart(ys, zs)
    ensures Unmapped(m', me, zs)
  {
    forall j | 0 <= j < |zs| ensures !Mapped(m', me, zs[j]) {
      assert forall i :: 0 <= i < |ys| ==> ys[i] != zs[j];
      assert zs[j] !in ys;
    }
  }

  /** `Finish` on the long path: the children's walk, then the hooks, then the exit. */
  lemma {:induction false} FinishEvents(iv: Injected, me: nat, n: Node)
    requires WalkerOk(iv.s) && iv.s.c.head.Some? && iv.already != |n.views|
    ensures Finish(iv, me, n).events == VisitAll(iv.s, me, n.children).events + (AfterEvents(iv.after) + [Exited])
  {
  }

  lemma {:induction false} FinishVisitors(iv: Injected, me: nat, n: Node)
    requires WalkerOk(iv.s) && iv.s.c.head.Some?
    ensures Finish(iv, me, n).visitors ==
      if iv.already == |n.views| then iv.s.visitors else VisitAll(iv.s, me, n.children).visitors
  {
  }

  /** A walk maps no view outside the tree's pre-order. */
  lemma {:induction false} VisitMapsOnly(s: Walker, me: nat, n: Node, isRoot: bool)
    requires WalkerOk(s)
    ensures MapsOnly(s.visitors, Visit(s, me, n, isRoot).visitors, me, PreOrder(n, isRoot))
    decreases n, 1
  {
    if !Skipped(n, isRoot) {
      if |n.views| == 0 {
        VisitAllMapsOnly(s, me, n.children);
      } else {
        var iv := Open(s, me, n.views);
        OpenMapsOnly(s, me, n.views);
        FinishMapsOnly(iv, me, n);
        assert Visit(s, me, n, isRoot) == Finish(iv, me, n);
        MapsOnlyTrans(s.visitors, iv.s.visitors, Finish(iv, me, n).visitors, me, Ids(n.views), PreOrderAll(n.children));
      }
    }
  }

  lemma {:induction false} FinishMapsOnly(iv: Injected, me: nat, n: Node)
    requires WalkerOk(iv.s) && iv.s.c.head.Some?
    ensures MapsOnly(iv.s.visitors, Finish(iv, me, n).visitors, me, PreOrderAll(n.children))
    decreases n, 0
  {
    FinishVisitors(iv, me, n);
    if iv.already != |n.views| {
      VisitAllMapsOnly(iv.s, me, n.children);
    }
  }

  lemma {:induction false} VisitAllMapsOnly(s: Walker, me: nat, ns: seq<Node>)
    requires WalkerOk(s)
    ensures MapsOnly(s.visitors, VisitAll(s, me, ns).visitors, me, PreOrderAll(ns))
    decreases ns
  {
    if |ns| > 0 {
      var t := Visit(s, me, ns[0], false);
      VisitMapsOnly(s, me, ns[0], false);
      VisitAllMapsOnly(t, me, ns[1..]);
      var o := VisitAll(t, me, ns[1..]);
      assert o == VisitAll(s, me, ns);
      MapsOnlyTrans(s.visitors, t.visitors, o.visitors, me, PreOrder(ns[0], false), PreOrderAll(ns[1..]));
    }
  }

  /**
   * Depth-first pre-order: walking a tree whose views are distinct and new to `me`
   * starts their `OnInject` calls exactly in the tree's pre-order, each node's views
   * before its children's and the children in order.
   */
  lemma {:induction false} VisitPreOrder(s: Walker, me: nat, n: Node, isRoot: bool)
    requires WalkerOk(s) && NoDup(PreOrder(n, isRoot)) && Unmapped(s.visitors, me, PreOrder(n, isRoot))
    ensures Injections(Visit(s, me, n, isRoot).events[|s.events|..]) == PreOrder(n, isRoot)
    decreases n, 1
  {
    if Skipped(n, isRoot) {
      assert Visit(s, me, n, isRoot).events[|s.events|..] == [];
    } else if |n.views| == 0 {
      assert PreOrder(n, isRoot) == PreOrderAll(n.children);
      VisitAllPreOrder(s, me, n.children);
    } else {
      var iv := Open(s, me, n.views);
      SplitFresh(s.visitors, me, Ids(n.views), PreOrderAll(n.children));
      OpenFresh(s, me, n.views);
      OpenInOrder(s, me, n.views);
      OpenMapsOnly(s, me, n.views);
      FreshAfter(s.visitors, iv.s.visitors, me, Ids(n.views), PreOrderAll(n.children));
      FinishPreOrder(iv, me, n);
      var o := Finish(iv, me, n);
      assert Visit(s, me, n, isRoot) == o;
      InjectionsSplit(s.events, iv.s.events, o.events);
    }
  }

  lemma {:induction false} FinishPreOrder(iv: Injected, me: nat, n: Node)
    requires WalkerOk(iv.s) && iv.s.c.head.Some? && iv.already != |n.views|
    requires NoDup(PreOrderAll(n.children)) && Unmapped(iv.s.visitors, me, PreOrderAll(n.children))
    ensures Injections(Finish(iv, me, n).events[|iv.s.events|..]) == PreOrderAll(n.children)
    decreases n, 0
  {
    var u := VisitAll(iv.s, me, n.children);
    VisitAllPreOrder(iv.s, me, n.children);
    FinishEvents(iv, me, n);
    HooksAndExitQuiet(iv.after);
    InjectionsPadded(iv.s.events, u.events, AfterEvents(iv.after) + [Exited]);
  }

  /** The after-children hooks and the exit start no `OnInject`. */
  lemma {:induction false} HooksAndExitQuiet(after: seq<View>)
    ensures Quiet(AfterEvents(after) + [Exited])
  {
    var evs := AfterEvents(after) + [Exited];
    forall i | 0 <= i < |evs| ensures !evs[i].Injecting? {
      if i < |AfterEvents(after)| {
        assert evs[i] == AfterEvents(after)[i];
      }
    }
  }

  lemma {:induction false} VisitAllPreOrder(s: Walker, me: nat, ns: seq<Node>)
    requires WalkerOk(s) && NoDup(PreOrderAll(ns)) && Unmapped(s.visitors, me, PreOrderAll(ns))
    ensures Injections(VisitAll(s, me, ns).events[|s.events|..]) == PreOrderAll(ns)
    decreases ns
  {
    if |ns| == 0 {
      assert VisitAll(s, me, ns).events[|s.events|..] == [];
    } else {
      var t := Visit(s, me, ns[0], false);
      SplitFresh(s.visitors, me, PreOrder(ns[0], false), PreOrderAll(ns[1..]));
      VisitPreOrder(s, me, ns[0], false);
      VisitMapsOnly(s, me, ns[0], false);
      FreshAfter(s.visitors, t.visitors, me, PreOrder(ns[0], false), PreOrderAll(ns[1..]));
      VisitAllPreOrder(t, me, ns[1..]);
      var o := VisitAll(t, me, ns[1..]);
      assert o == VisitAll(s, me, ns);
      InjectionsSplit(s.events, t.events, o.events);
    }
  }
}
