/**
 * The object graph of Runtime/DIContainer.cs laid out as arenas: scope records
 * (`BindingScopeInfo`) that point at their parent by index, binding entries that
 * binding references share by index, and the reactive cells entries memoize.
 *
 * Also the reference definitions the operations are proved against: the parent
 * chain of a scope (`Chain`) and what a key means from a scope (`Lookup`).
 */
module Arena {
  import opened Wrappers
  import opened Errors
  import Reactive

  /** A view model object; `Made(f, n)` is what factory `f` returns on its `n`-th invocation overall. */
  datatype Value = Null | Model(id: nat) | Made(factory: nat, call: nat)

  /** `BindingReference`: `Nil` is the default struct (null entry); `owner` is `enclosingScope`. */
  datatype Ref = Nil | Ref(entry: nat, owner: nat)

  /** `BindingScopeInfo`: an id, a parent, and the per-scope dictionary of references. */
  datatype Scope = Scope(id: nat, parent: Option<nat>, cache: map<Key, Ref>)

  /** The four kinds of binding entry, with their mutable fields. */
  datatype Entry =
    | Single(hasValue: bool, value: Value, cell: Option<nat>)
    | Sequence(values: Option<seq<Value>>, observed: Option<seq<Option<nat>>>,
               currentIndex: int, prevScopeId: int, prevScopeDepth: int, stackStamp: int)
    | Factory(factory: nat)
    | Conflicted(key: Key)

  /** Everything the container's objects reach, plus what observers received and how often factories ran. */
  datatype World = World(
    scopes: seq<Scope>,
    entries: seq<Entry>,
    cells: seq<Reactive.Cell<Value>>,
    log: seq<Reactive.Delivery<Value>>,
    factoryCalls: nat)

  /**
   * A `DIContainer`: its `ScopeStack` (head, count, state stamp) and `_nextScopeId`.
   * `head == None` is the null head left after the root scope is popped.
   */
  datatype Container = Container(head: Option<nat>, count: nat, stamp: nat, nextScopeId: nat)

  /** `ScopePointer`: a captured scope and the state stamp at capture. */
  datatype Pointer = Pointer(scope: nat, stamp: nat)

  /** The state after a container call, and what the call returned or threw. */
  datatype Outcome<T> = Outcome(w: World, c: Container, r: Result<T, Error>)

  /** A scope's parent was created before it: the arena order is a topological order. */
  predicate ParentsBefore(w: World) {
    forall i :: 0 <= i < |w.scopes| && w.scopes[i].parent.Some? ==> w.scopes[i].parent.value < i
  }

  predicate RefsInArena(w: World) {
    forall i, k :: 0 <= i < |w.scopes| && k in w.scopes[i].cache && w.scopes[i].cache[k].Ref? ==>
      w.scopes[i].cache[k].entry < |w.entries|
  }

  /** Observed slots of a sequence point at cells of the arena, each at its own cell. */
  predicate SlotsOk(obs: seq<Option<nat>>, ncells: nat) {
    && (forall j :: 0 <= j < |obs| && obs[j].Some? ==> obs[j].value < ncells)
    && (forall i, j :: 0 <= i < j < |obs| && obs[i].Some? && obs[j].Some? ==> obs[i].value != obs[j].value)
  }

  predicate EntryOk(e: Entry, ncells: nat) {
    match e
    case Single(_, _, cell) => cell.Some? ==> cell.value < ncells
    case Sequence(values, obs, _, _, depth, stackStamp) =>
      && stackStamp == 0
      && depth >= 0
      && (obs.Some? ==> values.Some? && |obs.value| >= |values.value| && SlotsOk(obs.value, ncells))
    case _ => true
  }

  predicate EntriesOk(w: World) {
    forall i :: 0 <= i < |w.entries| ==> EntryOk(w.entries[i], |w.cells|)
  }

  predicate CellsOk(w: World) {
    forall i :: 0 <= i < |w.cells| ==> Reactive.WellFormed(w.cells[i])
  }

  predicate Valid(w: World) {
    ParentsBefore(w) && RefsInArena(w) && EntriesOk(w) && CellsOk(w)
  }

  /** The scopes from the root down to `s`, each the parent of the next. */
  function Chain(w: World, s: nat): (ch: seq<nat>)
    requires ParentsBefore(w) && s < |w.scopes|
    ensures |ch| >= 1 && ch[|ch| - 1] == s
    ensures forall i :: 0 <= i < |ch| ==> ch[i] <= s
    ensures forall i :: 0 <= i < |ch| - 1 ==> ch[i] < s
    ensures w.scopes[ch[0]].parent.None?
    ensures forall i, j :: 0 <= i < j < |ch| && j == i + 1 ==> w.scopes[ch[j]].parent == Some(ch[i])
    decreases s
  {
    match w.scopes[s].parent
    case None => [s]
    case Some(p) => Chain(w, p) + [s]
  }

  /** Number of scopes on the chain ending at `head` (zero for a null head). */
  function Depth(w: World, head: Option<nat>): nat
    requires ParentsBefore(w) && (head.Some? ==> head.value < |w.scopes|)
  {
    if head.None? then 0 else |Chain(w, head.value)|
  }

  /** A container's head is in the arena and its count is the length of the head's chain. */
  predicate ContainerOk(w: World, c: Container) {
    && ParentsBefore(w)
    && (c.head.Some? ==> c.head.value < |w.scopes|)
    && c.count == Depth(w, c.head)
  }

  /** What `k` means from scope `s`: the nearest reference on the chain, cached or not. */
  function Lookup(w: World, s: nat, k: Key): (r: Ref)
    requires ParentsBefore(w) && s < |w.scopes|
    ensures RefsInArena(w) && r.Ref? ==> r.entry < |w.entries|
    decreases s
  {
    if k in w.scopes[s].cache then w.scopes[s].cache[k]
    else match w.scopes[s].parent
      case None => Nil
      case Some(p) => Lookup(w, p, k)
  }

  /** `k` is bound in scope `s` itself: a second registration there conflicts. */
  predicate OwnedBy(w: World, s: nat, k: Key)
    requires ParentsBefore(w) && s < |w.scopes|
  {
    Lookup(w, s, k).Ref? && Lookup(w, s, k).owner == s
  }

  function CacheAt(w: World, s: nat, k: Key): Option<Ref>
    requires s < |w.scopes|
  {
    if k in w.scopes[s].cache then Some(w.scopes[s].cache[k]) else None
  }

  /** `w'` keeps every scope of `w` with the same id and parent (it may add scopes). */
  predicate Extends(w: World, w': World) {
    && |w.scopes| <= |w'.scopes|
    && forall i :: 0 <= i < |w.scopes| ==> w'.scopes[i].id == w.scopes[i].id && w'.scopes[i].parent == w.scopes[i].parent
  }

  predicate SameShape(w: World, w': World) {
    |w.scopes| == |w'.scopes| && Extends(w, w')
  }

  /** A container stays well formed when the arena only grows around its scopes. */
  lemma ExtendsKeepsContainer(w: World, w': World, c: Container)
    requires ContainerOk(w, c) && ParentsBefore(w') && Extends(w, w')
    ensures ContainerOk(w', c)
  {
    if c.head.Some? { ChainStable(w, w', c.head.value); }
  }

  /** Worlds with the same scopes have the same chains and accept the same containers. */
  lemma SameScopes(w: World, w': World, c: Container)
    requires ParentsBefore(w) && w'.scopes == w.scopes
    ensures ParentsBefore(w') && (ContainerOk(w', c) <==> ContainerOk(w, c))
    ensures forall s :: 0 <= s < |w.scopes| ==> Chain(w', s) == Chain(w, s)
  {
    forall s | 0 <= s < |w.scopes| ensures Chain(w', s) == Chain(w, s) {
      ChainStable(w, w', s);
    }
  }

  lemma {:induction false} ChainStable(w: World, w': World, s: nat)
    requires ParentsBefore(w) && ParentsBefore(w') && Extends(w, w') && s < |w.scopes|
    ensures Chain(w', s) == Chain(w, s)
    decreases s
  {
    match w.scopes[s].parent
    case None =>
    case Some(p) => ChainStable(w, w', p);
  }

  /** A lookup reads only the caches on the chain: worlds that agree there agree on it. */
  lemma {:induction false} LookupAgree(w: World, w': World, t: nat, k: Key)
    requires ParentsBefore(w) && ParentsBefore(w') && Extends(w, w') && t < |w.scopes|
    requires forall u :: u in Chain(w, t) ==> CacheAt(w, u, k) == CacheAt(w', u, k)
    ensures Lookup(w', t, k) == Lookup(w, t, k)
    decreases t
  {
    assert CacheAt(w, t, k) == CacheAt(w', t, k);
    match w.scopes[t].parent
    case None =>
    case Some(p) =>
      assert Chain(w, t) == Chain(w, p) + [t];
      LookupAgree(w, w', p, k);
  }
}
