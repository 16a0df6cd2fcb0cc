/**
 * Deferred injection in Runtime/View.cs: views marked for injection while a visitor
 * is not walking are collected in its marked set, and `UpdateHandler` later injects
 * the children of each from the scope its pointer captured.
 */
module Flushing {
  import opened Wrappers
  import opened Errors
  import opened Arena
  import opened Stacks
  import opened Injection

  /** A walker after a flush, and whether the flush ran to its end or threw. */
  datatype Flushed = Flushed(s: Walker, r: Result<(), Error>)

  /**
   * `View.InstantiateView`: a new child under view `v` asks the visitor that injected
   * `v` to inject it later. Only a view the map sends to `me` reaches `me`'s set.
   */
  function Instantiate(s: Walker, me: nat, v: nat): (o: Walker)
    ensures forall x :: x in o.marked <==> x in s.marked || (x == v && Mapped(s.visitors, me, v))
    ensures o.(marked := s.marked) == s
  {
    if GetVisitor(s, v) == Some(me) then MarkForInjection(s, v) else s
  }

  /**
   * The `foreach` over the swapped-out set: for each view, rebuild a container from
   * its pointer and walk its children there. A view whose pointer was never set (its
   * injection threw) makes `ToContainer` throw a null reference, which ends the flush.
   * `kids(v)` is the tree under view `v`'s transform.
   */
  function Flush(s: Walker, me: nat, kids: nat -> seq<Node>, todo: seq<nat>): (f: Flushed)
    requires WalkerOk(s)
    ensures WalkerOk(f.s) && Follows(s, f.s, me)
    ensures f.r.Err? ==> f.r.error == NullReference
    decreases |todo|
  {
    if |todo| == 0 then Flushed(s, Ok(()))
    else if todo[0] !in s.pointers then Flushed(s, Err(NullReference))
    else
      var s1 := s.(c := ToContainer(s.w, s.pointers[todo[0]]));
      var t := VisitAll(s1, me, kids(todo[0]));
      var f := Flush(t, me, kids, todo[1..]);
      FollowsTrans(s1, t, f.s, me);
      FollowsTrans(s, s1, f.s, me);
      f
  }

  /**
   * A flush throws only when it reaches a view without a pointer: one over views whose
   * pointers are all set when it starts runs to its end, as pointers are never removed
   * along the way.
   */
  lemma {:induction false} FlushWithPointersSucceeds(s: Walker, me: nat, kids: nat -> seq<Node>, todo: seq<nat>)
    requires WalkerOk(s)
    requires forall i :: 0 <= i < |todo| ==> todo[i] in s.pointers
    ensures Flush(s, me, kids, todo).r.Ok?
    decreases |todo|
  {
    if |todo| > 0 {
      var s1 := s.(c := ToContainer(s.w, s.pointers[todo[0]]));
      var t := VisitAll(s1, me, kids(todo[0]));
      forall i | 0 <= i < |todo[1..]| ensures todo[1..][i] in t.pointers {
        assert todo[1..][i] == todo[i + 1];
      }
      FlushWithPointersSucceeds(t, me, kids, todo[1..]);
      assert Flush(s, me, kids, todo) == Flush(t, me, kids, todo[1..]);
    }
  }

  /**
   * A flush that runs to its end leaves every flushed view's children done for `me`:
   * a further walk of them by `me` injects nothing.
   */
  lemma {:induction false} FlushCompletes(s: Walker, me: nat, kids: nat -> seq<Node>, todo: seq<nat>)
    requires WalkerOk(s)
    ensures var f := Flush(s, me, kids, todo);
      f.r.Ok? ==> forall i :: 0 <= i < |todo| ==> DoneAll(f.s.visitors, me, kids(todo[i]))
    decreases |todo|
  {
    var f := Flush(s, me, kids, todo);
    if |todo| > 0 && todo[0] in s.pointers && f.r.Ok? {
      var s1 := s.(c := ToContainer(s.w, s.pointers[todo[0]]));
      var t := VisitAll(s1, me, kids(todo[0]));
      assert f == Flush(t, me, kids, todo[1..]);
      FlushCompletes(t, me, kids, todo[1..]);
      VisitAllDone(s1, me, kids(todo[0]));
      DoneAllGrows(t.visitors, f.s.visitors, me, kids(todo[0]));
      forall i | 1 <= i < |todo| ensures DoneAll(f.s.visitors, me, kids(todo[i])) {
        assert todo[i] == todo[1..][i - 1];
      }
    }
  }

  /**
   * One round of `UpdateHandler`'s loop: swap the marked and cached sets, flush the
   * views now cached (the walks remove from the marked set, which is the old cached
   * one), and clear the cached set. A throw leaves the sets as they were swapped.
   */
  function Pass(s: Walker, me: nat, kids: nat -> seq<Node>): (p: Flushed)
    requires WalkerOk(s)
    ensures WalkerOk(p.s) && Advances(s, p.s, me)
    ensures p.r.Err? ==> p.r.error == NullReference
    ensures p.r.Ok? ==> p.s.cached == [] && forall x :: x in p.s.marked ==> x in s.cached
    ensures p.r.Ok? && s.cached == [] ==> p.s.marked == []
  {
    var swapped := s.(marked := s.cached, cached := s.marked);
    var f := Flush(swapped, me, kids, s.marked);
    AdvancesTrans(s, swapped, f.s, me);
    if f.r.Ok? then
      ClearCached(s, f.s, me);
      WithinEmpty(f.s.marked, s.cached);
      Flushed(f.s.(cached := []), Ok(()))
    else f
  }

  /** Emptying the cached set keeps a walker well formed and its stretch of walk as it was. */
  lemma ClearCached(a: Walker, b: Walker, me: nat)
    requires WalkerOk(b) && Advances(a, b, me)
    ensures WalkerOk(b.(cached := [])) && Advances(a, b.(cached := []), me)
  {
  }

  lemma WithinEmpty(xs: seq<nat>, ys: seq<nat>)
    requires forall x :: x in xs ==> x in ys
    ensures ys == [] ==> xs == []
  {
    if xs != [] {
      assert xs[0] in ys;
    }
  }

  /** A round flushes every marked view: when each has a pointer, all their children end up done. */
  lemma PassCompletes(s: Walker, me: nat, kids: nat -> seq<Node>)
    requires WalkerOk(s)
    ensures var p := Pass(s, me, kids);
      && ((forall i :: 0 <= i < |s.marked| ==> s.marked[i] in s.pointers) ==> p.r.Ok?)
      && (p.r.Ok? ==> forall i :: 0 <= i < |s.marked| ==> DoneAll(p.s.visitors, me, kids(s.marked[i])))
  {
    var swapped := s.(marked := s.cached, cached := s.marked);
    if forall i :: 0 <= i < |s.marked| ==> s.marked[i] in s.pointers {
      FlushWithPointersSucceeds(swapped, me, kids, s.marked);
    }
    FlushCompletes(swapped, me, kids, s.marked);
  }

  /**
   * `UpdateHandler`: rounds until the marked set is empty. A round after an earlier
   * throw also flushes what that throw left in the cached set, so the loop can take
   * two rounds; a throw leaves the handler at once.
   */
  function UpdateHandler(s: Walker, me: nat, kids: nat -> seq<Node>): (o: Flushed)
    requires WalkerOk(s)
    ensures WalkerOk(o.s) && Advances(s, o.s, me)
    ensures o.r.Ok? ==> o.s.marked == []
    ensures o.r.Err? ==> o.r.error == NullReference
    decreases (if |s.marked| > 0 then 1 else 0) + (if |s.cached| > 0 then 1 else 0)
  {
    if |s.marked| == 0 then Flushed(s, Ok(()))
    else
      var p := Pass(s, me, kids);
      if p.r.Err? then p
      else
        var o := UpdateHandler(p.s, me, kids);
        AdvancesTrans(s, p.s, o.s, me);
        o
  }

  /** When every marked or cached view has a pointer, `UpdateHandler` returns normally. */
  lemma {:induction false} UpdateHandlerSucceeds(s: Walker, me: nat, kids: nat -> seq<Node>)
    requires WalkerOk(s) && forall v :: v in s.marked || v in s.cached ==> v in s.pointers
    ensures UpdateHandler(s, me, kids).r.Ok?
    decreases (if |s.marked| > 0 then 1 else 0) + (if |s.cached| > 0 then 1 else 0)
  {
    if |s.marked| > 0 {
      var p := Pass(s, me, kids);
      PassCompletes(s, me, kids);
      assert p.r.Ok?;
      assert UpdateHandler(s, me, kids) == UpdateHandler(p.s, me, kids);
      StillPointed(s, p.s, me);
      UpdateHandlerSucceeds(p.s, me, kids);
    }
  }

  /** After a round, what is left to flush came from the old cached set, so it still has pointers. */
  lemma StillPointed(s: Walker, o: Walker, me: nat)
    requires Advances(s, o, me) && o.cached == [] && forall x :: x in o.marked ==> x in s.cached
    requires forall v :: v in s.marked || v in s.cached ==> v in s.pointers
    ensures forall v :: v in o.marked || v in o.cached ==> v in o.pointers
  {
  }

  /** When `UpdateHandler` returns normally, the children of every view that was marked are done for `me`. */
  lemma UpdateHandlerCompletes(s: Walker, me: nat, kids: nat -> seq<Node>)
    requires WalkerOk(s)
    ensures var o := UpdateHandler(s, me, kids);
      o.r.Ok? ==> forall i :: 0 <= i < |s.marked| ==> DoneAll(o.s.visitors, me, kids(s.marked[i]))
  {
    if |s.marked| > 0 {
      var p := Pass(s, me, kids);
      PassCompletes(s, me, kids);
      if p.r.Ok? {
        var o := UpdateHandler(p.s, me, kids);
        forall i | 0 <= i < |s.marked| ensures DoneAll(o.s.visitors, me, kids(s.marked[i])) {
          DoneAllGrows(p.s.visitors, o.s.visitors, me, kids(s.marked[i]));
        }
      }
    }
  }

  /**
   * A first marked view whose injection threw (so its pointer was never set) makes the
   * handler throw before any walk, with the marked set left in the cached one and the
   * old cached set now marked.
   */
  lemma PointerlessViewThrows(s: Walker, me: nat, kids: nat -> seq<Node>)
    requires WalkerOk(s) && |s.marked| > 0 && s.marked[0] !in s.pointers
    ensures UpdateHandler(s, me, kids) == Flushed(s.(marked := s.cached, cached := s.marked), Err(NullReference))
  {
    var swapped := s.(marked := s.cached, cached := s.marked);
    assert Flush(swapped, me, kids, s.marked) == Flushed(swapped, Err(NullReference));
  }
}
