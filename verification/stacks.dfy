/**
 * `ScopeStack`, `ScopePointer` and the container's `EnterScope`/`ExitScope` of
 * Runtime/DIContainer.cs. The stack is a head scope plus a cached count; pushing
 * creates a child of the head, popping moves the head to its parent.
 */
module Stacks {
  import opened Wrappers
  import opened Errors
  import opened Arena

  /** Append a scope with an empty dictionary under an existing (or no) parent. */
  function AddScope(w: World, top: Scope): (w': World)
    requires Valid(w) && top.cache == map[] && (top.parent.Some? ==> top.parent.value < |w.scopes|)
    ensures Valid(w') && Extends(w, w')
    ensures w'.entries == w.entries && w'.cells == w.cells && w'.log == w.log && w'.factoryCalls == w.factoryCalls
    ensures |w'.scopes| == |w.scopes| + 1 && forall i :: 0 <= i < |w.scopes| ==> w'.scopes[i] == w.scopes[i]
    ensures w'.scopes[|w.scopes|] == top
  {
    var w' := w.(scopes := w.scopes + [top]);
    assert forall i :: 0 <= i < |w.scopes| ==> w'.scopes[i] == w.scopes[i];
    w'
  }

  /** The chain of an added scope is its parent's chain extended by it, or just itself for a root. */
  lemma AddScopeChain(w: World, top: Scope)
    requires Valid(w) && top.cache == map[] && (top.parent.Some? ==> top.parent.value < |w.scopes|)
    ensures top.parent.None? ==> Chain(AddScope(w, top), |w.scopes|) == [|w.scopes|]
    ensures top.parent.Some? ==> Chain(AddScope(w, top), |w.scopes|) == Chain(w, top.parent.value) + [|w.scopes|]
  {
    var w' := AddScope(w, top);
    if top.parent.Some? { ChainStable(w, w', top.parent.value); }
  }

  /** `new DIContainer()`: a fresh root scope with id 0, a stack of one, stamp 0, next id 0. */
  function NewContainer(w: World): (o: Outcome<()>)
    requires Valid(w)
    ensures Valid(o.w) && ContainerOk(o.w, o.c) && Extends(w, o.w)
    ensures o.w.entries == w.entries && o.w.cells == w.cells && o.w.log == w.log && o.w.factoryCalls == w.factoryCalls
    ensures |o.w.scopes| == |w.scopes| + 1 && forall i :: 0 <= i < |w.scopes| ==> o.w.scopes[i] == w.scopes[i]
    ensures o.c.head == Some(|w.scopes|) && Chain(o.w, |w.scopes|) == [|w.scopes|]
    ensures o.w.scopes[|w.scopes|] == Scope(0, None, map[])
    ensures o.c.count == 1 && o.c.stamp == 0 && o.c.nextScopeId == 0 && o.r == Ok(())
  {
    var w' := AddScope(w, Scope(0, None, map[]));
    AddScopeChain(w, Scope(0, None, map[]));
    Outcome(w', Container(Some(|w.scopes|), 1, 0, 0), Ok(()))
  }

  /**
   * `EnterScope`: push a child of the head (or a new root over a null head) with id
   * `_nextScopeId`, reset the counter, and return a pointer to the new head.
   */
  function EnterScope(w: World, c: Container): (o: Outcome<Pointer>)
    requires Valid(w) && ContainerOk(w, c)
    ensures Valid(o.w) && ContainerOk(o.w, o.c) && Extends(w, o.w)
    ensures o.w.entries == w.entries && o.w.cells == w.cells && o.w.log == w.log && o.w.factoryCalls == w.factoryCalls
    ensures |o.w.scopes| == |w.scopes| + 1 && forall i :: 0 <= i < |w.scopes| ==> o.w.scopes[i] == w.scopes[i]
    ensures o.w.scopes[|w.scopes|] == Scope(c.nextScopeId, c.head, map[])
    ensures o.c == Container(Some(|w.scopes|), c.count + 1, c.stamp, 0)
    ensures o.r == Ok(Pointer(|w.scopes|, c.stamp))
  {
    var top := Scope(c.nextScopeId, c.head, map[]);
    var w' := AddScope(w, top);
    AddScopeChain(w, top);
    Outcome(w', Container(Some(|w.scopes|), c.count + 1, c.stamp, 0), Ok(Pointer(|w.scopes|, c.stamp)))
  }

  /** The new head's chain is the old head's chain extended by it. */
  lemma EnterScopeChain(w: World, c: Container)
    requires Valid(w) && ContainerOk(w, c)
    ensures var e := EnterScope(w, c);
      Chain(e.w, |w.scopes|) == (if c.head.None? then [] else Chain(w, c.head.value)) + [|w.scopes|]
  {
    AddScopeChain(w, Scope(c.nextScopeId, c.head, map[]));
  }

  /**
   * `ExitScope`: pop the head and continue sibling numbering after its id. Popping a
   * null head dereferences it and throws before anything changes.
   */
  function ExitScope(w: World, c: Container): (o: Outcome<()>)
    requires ContainerOk(w, c)
    ensures o.w == w && ContainerOk(o.w, o.c)
    ensures o.r.Err? <==> c.head.None?
    ensures o.r.Err? ==> o.r.error == NullReference && o.c == c
    ensures o.r.Ok? ==> var s := c.head.value;
      o.c == Container(w.scopes[s].parent, c.count - 1, c.stamp, w.scopes[s].id + 1)
  {
    match c.head
    case None => Outcome(w, c, Err(NullReference))
    case Some(s) =>
      var ch := Chain(w, s);
      assert w.scopes[s].parent.Some? ==> ch == Chain(w, w.scopes[s].parent.value) + [s];
      Outcome(w, Container(w.scopes[s].parent, c.count - 1, c.stamp, w.scopes[s].id + 1), Ok(()))
  }

  /** `ScopeStack.GetCount`: walk the parent links from `head` and count the scopes met. */
  method GetCount(w: World, head: Option<nat>) returns (n: nat)
    requires ParentsBefore(w) && (head.Some? ==> head.value < |w.scopes|)
    ensures n == Depth(w, head)
  {
    n := 0;
    var cur: Option<nat> := head;
    while cur.Some?
      invariant cur.Some? ==> cur.value < |w.scopes|
      invariant (cur.Some? ==> n + |Chain(w, cur.value)| == Depth(w, head)) && (cur.None? ==> n == Depth(w, head))
      decreases if cur.Some? then cur.value + 1 else 0
    {
      var s := cur.value;
      match w.scopes[s].parent {
        case None =>
        case Some(p) => assert Chain(w, s) == Chain(w, p) + [s];
      }
      n := n + 1;
      cur := w.scopes[s].parent;
    }
  }

  /**
   * `ScopePointer.ToContainer`: a new container whose stack head is the captured scope,
   * whose count is recomputed from the chain and whose stamp is the captured one.
   */
  function ToContainer(w: World, p: Pointer): (c: Container)
    requires ParentsBefore(w) && p.scope < |w.scopes|
    ensures ContainerOk(w, c)
    ensures c.head == Some(p.scope) && c.count == |Chain(w, p.scope)| && c.stamp == p.stamp && c.nextScopeId == 0
  {
    Container(Some(p.scope), Depth(w, Some(p.scope)), p.stamp, 0)
  }

  /** Follow `n` parent links from `h`; following the parent of a null scope throws. */
  function Up(w: World, h: Option<nat>, n: nat): (r: Result<Option<nat>, Error>)
    requires ParentsBefore(w) && (h.Some? ==> h.value < |w.scopes|)
    ensures r.Ok? && r.value.Some? ==> r.value.value < |w.scopes|
    ensures r.Ok? && r.value.Some? ==> h.Some? && r.value.value <= h.value
    ensures r.Err? ==> r == Err(NullReference)
    ensures h.None? ==> (r.Ok? <==> n == 0)
    decreases n
  {
    if n == 0 then Ok(h)
    else match h
      case None => Err(NullReference)
      case Some(s) => Up(w, w.scopes[s].parent, n - 1)
  }

  /** `ScopeStack[depth]`: from the head, step to the parent `Count - 1 - depth` times. */
  function AncestorAt(w: World, c: Container, d: int): (r: Result<Option<nat>, Error>)
    requires ContainerOk(w, c)
    ensures r.Ok? && r.value.Some? ==> r.value.value < |w.scopes|
    ensures r.Ok? && r.value.Some? ==> c.head.Some? && r.value.value <= c.head.value
    ensures r.Err? ==> r == Err(NullReference)
    ensures d >= c.count - 1 ==> r == Ok(c.head)
  {
    Up(w, c.head, if c.count - 1 - d > 0 then c.count - 1 - d else 0)
  }

  /** Walking `n` links up from `s` lands `n` places from the end of its chain, or past the root. */
  lemma {:induction false} UpFollowsChain(w: World, s: nat, n: nat)
    requires ParentsBefore(w) && s < |w.scopes|
    ensures var ch := Chain(w, s);
      && (n < |ch| ==> Up(w, Some(s), n) == Ok(Some(ch[|ch| - 1 - n])))
      && (n == |ch| ==> Up(w, Some(s), n) == Ok(None))
      && (n > |ch| ==> Up(w, Some(s), n) == Err(NullReference))
    decreases n
  {
    var ch := Chain(w, s);
    if n > 0 {
      match w.scopes[s].parent
      case None =>
        assert ch == [s];
        if n > 1 {
          assert Up(w, None, n - 1) == Err(NullReference);
        }
      case Some(p) =>
        UpFollowsChain(w, p, n - 1);
        assert ch == Chain(w, p) + [s];
    }
  }

  /**
   * The indexer returns the scope at position `d` of the chain (root at depth 0) for
   * every depth on the stack, the head for deeper requests, null one step above the
   * root and a null dereference further up.
   */
  lemma AncestorAtIsChain(w: World, c: Container, d: int)
    requires ContainerOk(w, c)
    ensures 0 <= d < c.count ==> AncestorAt(w, c, d) == Ok(Some(Chain(w, c.head.value)[d]))
    ensures d >= c.count - 1 ==> AncestorAt(w, c, d) == Ok(c.head)
    ensures d == -1 ==> AncestorAt(w, c, d) == Ok(None)
    ensures d < -1 ==> AncestorAt(w, c, d) == Err(NullReference)
  {
    var n := if c.count - 1 - d > 0 then c.count - 1 - d else 0;
    match c.head
    case None =>
    case Some(s) => UpFollowsChain(w, s, n);
  }

  /** Leaving a scope just entered restores the stack and numbers the next sibling one higher. */
  lemma ExitUndoesEnter(w: World, c: Container)
    requires Valid(w) && ContainerOk(w, c)
    ensures var e := EnterScope(w, c); var x := ExitScope(e.w, e.c);
      && x.r == Ok(())
      && x.c == c.(nextScopeId := c.nextScopeId + 1)
  {
    var e := EnterScope(w, c);
    var s := |w.scopes|;
    assert e.c.head == Some(s);
    assert e.w.scopes[s] == Scope(c.nextScopeId, c.head, map[]);
  }

  datatype Run = Run(w: World, c: Container, ids: seq<nat>)

  /**
   * One sibling: enter a scope under the head and leave it again. The stack is as
   * before and the counter has moved past the id the sibling was given.
   */
  function Sibling(w: World, c: Container): (r: Run)
    requires Valid(w) && ContainerOk(w, c)
    ensures Valid(r.w) && ContainerOk(r.w, r.c)
    ensures r.c == c.(nextScopeId := c.nextScopeId + 1) && r.ids == [c.nextScopeId]
  {
    var e := EnterScope(w, c);
    var id := e.w.scopes[e.c.head.value].id;
    var x := ExitScope(e.w, e.c);
    ExitUndoesEnter(w, c);
    Run(x.w, x.c, [id])
  }

  /**
   * `n` sibling scopes entered and left in turn, with the ids they were given:
   * consecutive numbers from the counter (0, 1, 2, ... under a freshly entered scope),
   * the stack itself unchanged.
   */
  function Siblings(w: World, c: Container, n: nat): (r: Run)
    requires Valid(w) && ContainerOk(w, c)
    ensures Valid(r.w) && ContainerOk(r.w, r.c) && |r.ids| == n
    ensures r.c == c.(nextScopeId := c.nextScopeId + n)
    ensures forall i :: 0 <= i < n ==> r.ids[i] == c.nextScopeId + i
    decreases n
  {
    if n == 0 then Run(w, c, [])
    else
      var x := Sibling(w, c);
      var rest := Siblings(x.w, x.c, n - 1);
      var ids := x.ids + rest.ids;
      assert forall i :: 0 <= i < n ==> ids[i] == c.nextScopeId + i by {
        forall i | 0 <= i < n ensures ids[i] == c.nextScopeId + i {
          if i > 0 { assert ids[i] == rest.ids[i - 1]; }
        }
      }
      Run(rest.w, rest.c, ids)
  }

  /**
   * A container rebuilt from the pointer `EnterScope` returned has the stack that was
   * current at capture, even after the arena has grown.
   */
  lemma PointerRestoresStack(w: World, c: Container, w2: World)
    requires Valid(w) && ContainerOk(w, c)
    requires var e := EnterScope(w, c); ParentsBefore(w2) && Extends(e.w, w2)
    ensures var e := EnterScope(w, c); ToContainer(w2, e.r.value) == e.c
  {
    var e := EnterScope(w, c);
    ChainStable(e.w, w2, e.c.head.value);
  }
}
