/**
 * The public surface of `DIContainer` (Runtime/DIContainer.cs): the Bind and Create
 * registrations, which register one entry under a key and all of its view-model
 * interfaces in the head scope, and Resolve/Observe/TryResolve/TryObserve with their
 * translation of the internal exceptions.
 */
module Containers {
  import opened Wrappers
  import opened Errors
  import opened Arena
  import opened Scopes
  import opened Entries

  /** What a registration binds: the argument of the Bind* or Create* overload used. */
  datatype Binding =
    | BindValue(v: Value)              // Bind(value)
    | CreateEmpty                      // CreateBinding()
    | BindValues(vs: seq<Value>)       // BindSequence(values)
    | CreateEmptySequence              // CreateSequenceBinding()
    | BindFactory(f: nat)              // Bind(factory)

  /** The entry each overload constructs. */
  function NewEntry(b: Binding): (e: Entry)
    ensures forall n :: EntryOk(e, n)
    ensures e.Single? <==> b.BindValue? || b.CreateEmpty?
    ensures e.Sequence? <==> b.BindValues? || b.CreateEmptySequence?
    ensures e.Single? ==> e.hasValue == b.BindValue? && e.cell.None?
    ensures e.Sequence? ==> e.values.Some? == b.BindValues? && e.currentIndex == -1
  {
    match b
    case BindValue(v) => Single(true, v, None)
    case CreateEmpty => Single(false, Null, None)
    case BindValues(vs) => NewSequence(Some(vs))
    case CreateEmptySequence => NewSequence(None)
    case BindFactory(f) => Factory(f)
  }

  /** `AddBindingWithInterfaces`' loop: `AddBinding` for every key of the list, in order. */
  function Register(w: World, s: nat, keys: seq<Key>, e: nat): (w': World)
    requires Valid(w) && s < |w.scopes| && e < |w.entries|
    ensures Valid(w') && SameShape(w, w')
    ensures w'.cells == w.cells && w'.log == w.log && w'.factoryCalls == w.factoryCalls
    ensures |w'.entries| >= |w.entries| && forall x :: 0 <= x < |w.entries| ==> w'.entries[x] == w.entries[x]
    ensures forall t :: s < t < |w.scopes| ==> w'.scopes[t] == w.scopes[t]
    decreases |keys|
  {
    if keys == [] then w
    else
      var w1 := AddBinding(w, s, keys[0], e);
      Register(w1, s, keys[1..], e)
  }

  /** Keys not registered, and scopes that do not see the registering scope, keep their lookups. */
  lemma {:induction false} RegisterFrame(w: World, s: nat, keys: seq<Key>, e: nat, t: nat, j: Key)
    requires Valid(w) && s < |w.scopes| && e < |w.entries| && t < |w.scopes|
    requires j !in keys || s !in Chain(w, t)
    ensures Lookup(Register(w, s, keys, e), t, j) == Lookup(w, t, j)
    decreases |keys|
  {
    if keys != [] {
      var w1 := AddBinding(w, s, keys[0], e);
      AddBindingFrame(w, s, keys[0], e, t, j);
      ChainStable(w, w1, t);
      assert j in keys[1..] ==> j in keys;
      RegisterFrame(w1, s, keys[1..], e, t, j);
    }
  }

  /**
   * After registering `keys`, every listed key is owned by the scope. It is bound to the
   * entry exactly when the scope did not already own it and the list names it once;
   * otherwise it is bound to a Conflicted entry for that key.
   */
  lemma {:induction false} RegisterBinds(w: World, s: nat, keys: seq<Key>, e: nat, j: Key)
    requires Valid(w) && s < |w.scopes| && e < |w.entries| && j in keys
    ensures var w' := Register(w, s, keys, e); var r := Lookup(w', s, j);
      && r.Ref? && r.owner == s && r.entry < |w'.entries|
      && (r.entry == e <==> !OwnedBy(w, s, j) && multiset(keys)[j] == 1)
      && (r.entry != e ==> w'.entries[r.entry] == Conflicted(j))
    decreases |keys|
  {
    var w' := Register(w, s, keys, e);
    var w1 := AddBinding(w, s, keys[0], e);
    var rest: seq<Key> := keys[1..];
    assert keys == [keys[0]] + rest;
    assert multiset(keys)[j] == multiset(rest)[j] + (if j == keys[0] then 1 else 0);
    if j == keys[0] {
      assert OwnedBy(w1, s, j);
      if j in rest {
        RegisterBinds(w1, s, rest, e, j);
      } else {
        RegisterFrame(w1, s, rest, e, s, j);
        assert multiset(rest)[j] == 0;
      }
    } else {
      assert j in rest;
      AddBindingFrame(w, s, keys[0], e, s, j);
      RegisterBinds(w1, s, rest, e, j);
    }
  }

  /**
   * Bind, CreateBinding, BindSequence, CreateSequenceBinding, Bind(factory): construct the
   * entry and register it in the head scope under `k` and then under each of `ifs`,
   * the view-model interfaces of `k`. Returns the entry as the rebinding handle.
   */
  function Bind(w: World, c: Container, k: Key, ifs: seq<Key>, b: Binding): (o: Outcome<nat>)
    requires Valid(w) && ContainerOk(w, c)
    ensures Valid(o.w) && ContainerOk(o.w, o.c) && SameShape(w, o.w) && o.c == c
    ensures o.w.cells == w.cells && o.w.log == w.log && o.w.factoryCalls == w.factoryCalls
    ensures c.head.None? ==> o == Outcome(w, c, Err(NullReference))
    ensures c.head.Some? ==>
      && o.r == Ok(|w.entries|)
      && |o.w.entries| > |w.entries| && o.w.entries[|w.entries|] == NewEntry(b)
      && forall x :: 0 <= x < |w.entries| ==> o.w.entries[x] == w.entries[x]
  {
    match c.head
    case None => Outcome(w, c, Err(NullReference))
    case Some(s) =>
      var w' := Register(Append(w, b), s, [k] + ifs, |w.entries|);
      ExtendsKeepsContainer(w, w', c);
      Outcome(w', c, Ok(|w.entries|))
  }

  /** The new entry, added to the arena before it is registered anywhere. */
  function Append(w: World, b: Binding): (w1: World)
    requires Valid(w)
    ensures Valid(w1) && w1.scopes == w.scopes && w1.cells == w.cells && w1.log == w.log
    ensures w1.factoryCalls == w.factoryCalls
    ensures |w1.entries| == |w.entries| + 1 && w1.entries[|w.entries|] == NewEntry(b)
    ensures forall x :: 0 <= x < |w.entries| ==> w1.entries[x] == w.entries[x]
  {
    var w1 := w.(entries := w.entries + [NewEntry(b)]);
    assert forall x :: 0 <= x < |w.entries| ==> w1.entries[x] == w.entries[x];
    w1
  }

  /** Adding an entry changes no scope, so no lookup and no chain. */
  lemma AppendKeepsLookups(w: World, b: Binding, t: nat, j: Key)
    requires Valid(w) && t < |w.scopes|
    ensures Lookup(Append(w, b), t, j) == Lookup(w, t, j) && Chain(Append(w, b), t) == Chain(w, t)
  {
    ChainStable(w, Append(w, b), t);
    LookupAgree(w, Append(w, b), t, j);
  }

  /**
   * A binding shadows what an outer scope binds under the same key, and binding a key
   * twice in one scope (two calls, or a key repeated among the interfaces) leaves a
   * Conflicted entry there.
   */
  lemma BindShadowsOrConflicts(w: World, c: Container, k: Key, ifs: seq<Key>, b: Binding, j: Key)
    requires Valid(w) && ContainerOk(w, c) && c.head.Some? && j in [k] + ifs
    ensures var o := Bind(w, c, k, ifs, b); var r := Lookup(o.w, c.head.value, j);
      && r.Ref? && r.owner == c.head.value
      && (r.entry == o.r.value <==> !OwnedBy(w, c.head.value, j) && multiset([k] + ifs)[j] == 1)
      && (r.entry != o.r.value ==> o.w.entries[r.entry] == Conflicted(j))
  {
    var s := c.head.value;
    var w1 := Append(w, b);
    assert Bind(w, c, k, ifs, b).w == Register(w1, s, [k] + ifs, |w.entries|);
    RegisterBinds(w1, s, [k] + ifs, |w.entries|, j);
    AppendKeepsLookups(w, b, s, j);
    assert OwnedBy(w1, s, j) == OwnedBy(w, s, j);
  }

  /** A registration changes no lookup of a key it does not list, nor of a scope outside the head's branch. */
  lemma BindFrame(w: World, c: Container, k: Key, ifs: seq<Key>, b: Binding, t: nat, j: Key)
    requires Valid(w) && ContainerOk(w, c) && c.head.Some? && t < |w.scopes|
    requires j !in [k] + ifs || c.head.value !in Chain(w, t)
    ensures Lookup(Bind(w, c, k, ifs, b).w, t, j) == Lookup(w, t, j)
  {
    var s := c.head.value;
    var w1 := Append(w, b);
    assert Bind(w, c, k, ifs, b).w == Register(w1, s, [k] + ifs, |w.entries|);
    AppendKeepsLookups(w, b, t, j);
    RegisterFrame(w1, s, [k] + ifs, |w.entries|, t, j);
  }

  /** The container's catch clauses: the internal exceptions become the public ones for `k`. */
  function Translate<T>(k: Key, r: Result<T, Error>): (t: Result<T, Error>)
    ensures t.Err? <==> r.Err?
    ensures t.Err? ==> !IsCaughtInternally(t.error)
    ensures r.Ok? || !IsCaughtInternally(r.error) ==> t == r
    ensures r == Err(BindingNotFound) ==> t == Err(MissingViewModel(k))
    ensures r == Err(ConflictedValue) ==> t == Err(ConflictedViewModel(k))
    ensures r == Err(SequenceReachEnd) ==> t == Err(ViewModelExhausted(k))
  {
    match r
    case Err(BindingNotFound) => Err(MissingViewModel(k))
    case Err(ConflictedValue) => Err(ConflictedViewModel(k))
    case Err(SequenceReachEnd) => Err(ViewModelExhausted(k))
    case _ => r
  }

  /** The entry `k` is bound to as seen from the head; `None` for a null head or an unbound key. */
  function Bound(w: World, c: Container, k: Key): Option<Entry>
    requires Valid(w) && ContainerOk(w, c)
  {
    if c.head.None? then None
    else match Lookup(w, c.head.value, k)
      case Nil => None
      case Ref(i, _) => Some(w.entries[i])
  }

  /** `Resolve(type)`: look the key up from the head and read its entry. */
  function Resolve(w: World, c: Container, k: Key): (o: Outcome<Value>)
    requires Valid(w) && ContainerOk(w, c)
    ensures Valid(o.w) && ContainerOk(o.w, o.c) && SameShape(w, o.w)
    ensures o.c.head == c.head && o.c.count == c.count && o.c.nextScopeId == c.nextScopeId
    ensures o.w.cells == w.cells && o.w.log == w.log && |o.w.entries| == |w.entries|
    ensures o.r.Err? ==> !IsCaughtInternally(o.r.error)
    ensures c.head.None? ==> o == Outcome(w, c, Err(NullReference))
    ensures o.r == Err(MissingViewModel(k)) <==> c.head.Some? && Lookup(w, c.head.value, k).Nil?
    ensures var b := Bound(w, c, k); b.Some? && b.value.Single? ==>
      o.c == c && o.r == (if b.value.hasValue then Ok(b.value.value) else Err(NoValue))
    ensures var b := Bound(w, c, k); b.Some? && b.value.Factory? ==>
      o.c == c && o.w.factoryCalls == w.factoryCalls + 1 && o.r == Ok(Made(b.value.factory, w.factoryCalls))
    ensures var b := Bound(w, c, k); b.Some? && b.value.Conflicted? ==>
      o.c == c && o.r == Err(ConflictedViewModel(k))
    ensures var b := Bound(w, c, k); b.Some? && b.value.Sequence? && b.value.values.None? ==>
      o.r == Err(NoValue)
    ensures var b := Bound(w, c, k); b.Some? && b.value.Sequence? && b.value.values.Some? ==>
      o.w.entries[Lookup(w, c.head.value, k).entry].Sequence? &&
      o.r == Translate(k, ElementAt(b.value.values.value, o.w.entries[Lookup(w, c.head.value, k).entry].currentIndex))
  {
    match c.head
    case None => Outcome(w, c, Err(NullReference))
    case Some(s) =>
      var f := FindRef(w, s, k);
      FilledKeepsValid(w, f.w, k);
      ExtendsKeepsContainer(w, f.w, c);
      if f.ref.Nil? then Outcome(f.w, c, Err(MissingViewModel(k)))
      else ResolveAt(f.w, c, k, f.ref.entry)
  }

  /** The body of `Resolve` once `k` is found bound to entry `i`: its `GetValue`, translated. */
  function ResolveAt(w: World, c: Container, k: Key, i: nat): (o: Outcome<Value>)
    requires Valid(w) && ContainerOk(w, c) && c.head.Some? && i < |w.entries|
    ensures Valid(o.w) && ContainerOk(o.w, o.c) && o.w.scopes == w.scopes
    ensures o.c.head == c.head && o.c.count == c.count && o.c.nextScopeId == c.nextScopeId
    ensures o.w.cells == w.cells && o.w.log == w.log && |o.w.entries| == |w.entries|
    ensures o.r.Err? ==> !IsCaughtInternally(o.r.error) && o.r.error != MissingViewModel(k)
    ensures var e := w.entries[i]; e.Single? ==>
      o.c == c && o.r == (if e.hasValue then Ok(e.value) else Err(NoValue))
    ensures var e := w.entries[i]; e.Factory? ==>
      o.c == c && o.w.factoryCalls == w.factoryCalls + 1 && o.r == Ok(Made(e.factory, w.factoryCalls))
    ensures w.entries[i].Conflicted? ==> o.c == c && o.r == Err(ConflictedViewModel(k))
    ensures var e := w.entries[i]; e.Sequence? && e.values.None? ==> o.r == Err(NoValue)
    ensures var e := w.entries[i]; e.Sequence? && e.values.Some? ==>
      o.w.entries[i].Sequence? && o.r == Translate(k, ElementAt(e.values.value, o.w.entries[i].currentIndex))
  {
    var g := GetValue(w, c, i);
    Outcome(g.w, g.c, Translate(k, g.r))
  }

  /** `Observe(type)`: look the key up from the head and observe its entry. */
  function Observe(w: World, c: Container, k: Key): (o: Outcome<nat>)
    requires Valid(w) && ContainerOk(w, c)
    ensures Valid(o.w) && ContainerOk(o.w, o.c) && SameShape(w, o.w)
    ensures o.c.head == c.head && o.c.count == c.count && o.c.nextScopeId == c.nextScopeId
    ensures o.w.log == w.log && |o.w.entries| == |w.entries| && |o.w.cells| >= |w.cells|
    ensures o.r.Ok? ==> o.r.value < |o.w.cells|
    ensures o.r.Err? ==> !IsCaughtInternally(o.r.error)
    ensures c.head.None? ==> o == Outcome(w, c, Err(NullReference))
    ensures o.r == Err(MissingViewModel(k)) <==> c.head.Some? && Lookup(w, c.head.value, k).Nil?
    ensures var b := Bound(w, c, k); b.Some? && b.value.Single? && !b.value.hasValue ==>
      o.r == Err(NoValue)
    ensures var b := Bound(w, c, k); b.Some? && b.value.Single? && b.value.hasValue && b.value.cell.Some? ==>
      o.r == Ok(b.value.cell.value)
    ensures var b := Bound(w, c, k); b.Some? && b.value.Single? && b.value.hasValue && b.value.cell.None? ==>
      o.r == Ok(|w.cells|) && o.w.cells[|w.cells|].value == b.value.value
    ensures var b := Bound(w, c, k); b.Some? && b.value.Factory? ==>
      o.r == Ok(|w.cells|) && o.w.cells[|w.cells|].value == Made(b.value.factory, w.factoryCalls)
    ensures var b := Bound(w, c, k); b.Some? && b.value.Conflicted? ==>
      o.r == Err(ConflictedViewModel(k))
    ensures var b := Bound(w, c, k); b.Some? && b.value.Sequence? && b.value.values.None? ==>
      o.r == Err(NoValue)
    ensures var b := Bound(w, c, k); b.Some? && b.value.Sequence? && b.value.values.Some? && o.r.Err? ==>
      o.r.error == ViewModelExhausted(k)
  {
    match c.head
    case None => Outcome(w, c, Err(NullReference))
    case Some(s) =>
      var f := FindRef(w, s, k);
      FilledKeepsValid(w, f.w, k);
      ExtendsKeepsContainer(w, f.w, c);
      if f.ref.Nil? then Outcome(f.w, c, Err(MissingViewModel(k)))
      else ObserveAt(f.w, c, k, f.ref.entry)
  }

  /** The body of `Observe` once `k` is found bound to entry `i`: its `ObserveValue`, translated. */
  function ObserveAt(w: World, c: Container, k: Key, i: nat): (o: Outcome<nat>)
    requires Valid(w) && ContainerOk(w, c) && c.head.Some? && i < |w.entries|
    ensures Valid(o.w) && ContainerOk(o.w, o.c) && o.w.scopes == w.scopes
    ensures o.c.head == c.head && o.c.count == c.count && o.c.nextScopeId == c.nextScopeId
    ensures o.w.log == w.log && |o.w.entries| == |w.entries| && |o.w.cells| >= |w.cells|
    ensures o.r.Ok? ==> o.r.value < |o.w.cells|
    ensures o.r.Err? ==> !IsCaughtInternally(o.r.error) && o.r.error != MissingViewModel(k)
    ensures var e := w.entries[i]; e.Single? && !e.hasValue ==> o.r == Err(NoValue)
    ensures var e := w.entries[i]; e.Single? && e.hasValue && e.cell.Some? ==> o.r == Ok(e.cell.value)
    ensures var e := w.entries[i]; e.Single? && e.hasValue && e.cell.None? ==>
      o.r == Ok(|w.cells|) && o.w.cells[|w.cells|].value == e.value
    ensures var e := w.entries[i]; e.Factory? ==>
      o.r == Ok(|w.cells|) && o.w.cells[|w.cells|].value == Made(e.factory, w.factoryCalls)
    ensures w.entries[i].Conflicted? ==> o.r == Err(ConflictedViewModel(k))
    ensures var e := w.entries[i]; e.Sequence? && e.values.None? ==> o.r == Err(NoValue)
    ensures var e := w.entries[i]; e.Sequence? && e.values.Some? && o.r.Err? ==> o.r.error == ViewModelExhausted(k)
  {
    var g := ObserveValue(w, c, i);
    Outcome(g.w, g.c, Translate(k, g.r))
  }

  /** A successful read reports its value as present. */
  function Present<T>(r: Result<T, Error>): (p: Result<Option<T>, Error>)
    ensures r.Ok? ==> p == Ok(Some(r.value))
    ensures r.Err? ==> p == Err(r.error)
  {
    match r
    case Ok(v) => Ok(Some(v))
    case Err(e) => Err(e)
  }

  /**
   * `TryResolve(type, out value)`: false (here `None`) when nothing is bound; a bound
   * entry is read as `Resolve` reads it, conflicts and exhaustion still throwing.
   */
  function TryResolve(w: World, c: Container, k: Key): (o: Outcome<Option<Value>>)
    requires Valid(w) && ContainerOk(w, c)
    ensures Valid(o.w) && ContainerOk(o.w, o.c) && SameShape(w, o.w)
    ensures o.c.head == c.head && o.c.count == c.count && o.c.nextScopeId == c.nextScopeId
    ensures c.head.None? ==> o == Outcome(w, c, Err(NullReference))
    ensures o.r == Ok(None) <==> c.head.Some? && Lookup(w, c.head.value, k).Nil?
    ensures o.r.Err? ==> !IsCaughtInternally(o.r.error) && !o.r.error.MissingViewModel?
  {
    match c.head
    case None => Outcome(w, c, Err(NullReference))
    case Some(s) =>
      var f := FindRef(w, s, k);
      FilledKeepsValid(w, f.w, k);
      ExtendsKeepsContainer(w, f.w, c);
      if f.ref.Nil? then Outcome(f.w, c, Ok(None))
      else
        var g := GetValue(f.w, c, f.ref.entry);
        Outcome(g.w, g.c, Present(Translate(k, g.r)))
  }

  /** `TryObserve(type, out value)`: `Observe` that reports an unbound key as `None`. */
  function TryObserve(w: World, c: Container, k: Key): (o: Outcome<Option<nat>>)
    requires Valid(w) && ContainerOk(w, c)
    ensures Valid(o.w) && ContainerOk(o.w, o.c) && SameShape(w, o.w)
    ensures o.c.head == c.head && o.c.count == c.count && o.c.nextScopeId == c.nextScopeId
    ensures c.head.None? ==> o == Outcome(w, c, Err(NullReference))
    ensures o.r == Ok(None) <==> c.head.Some? && Lookup(w, c.head.value, k).Nil?
    ensures o.r.Err? ==> !IsCaughtInternally(o.r.error) && !o.r.error.MissingViewModel?
  {
    match c.head
    case None => Outcome(w, c, Err(NullReference))
    case Some(s) =>
      var f := FindRef(w, s, k);
      FilledKeepsValid(w, f.w, k);
      ExtendsKeepsContainer(w, f.w, c);
      if f.ref.Nil? then Outcome(f.w, c, Ok(None))
      else
        var g := ObserveValue(f.w, c, f.ref.entry);
        ExtendsKeepsContainer(f.w, g.w, g.c);
        Outcome(g.w, g.c, Present(Translate(k, g.r)))
  }

  /**
   * `TryResolve` and `Resolve` differ only on an unbound key: `None` instead of
   * MissingViewModel. Otherwise they leave the same state and report the same outcome.
   */
  lemma TryResolveAgreesWithResolve(w: World, c: Container, k: Key)
    requires Valid(w) && ContainerOk(w, c)
    ensures var t := TryResolve(w, c, k); var r := Resolve(w, c, k);
      && t.w == r.w && t.c == r.c
      && (r.r == Err(MissingViewModel(k)) ==> t.r == Ok(None))
      && (r.r != Err(MissingViewModel(k)) ==> t.r == Present(r.r))
  {
  }

  /** `TryObserve` and `Observe` differ only on an unbound key. */
  lemma TryObserveAgreesWithObserve(w: World, c: Container, k: Key)
    requires Valid(w) && ContainerOk(w, c)
    ensures var t := TryObserve(w, c, k); var r := Observe(w, c, k);
      && t.w == r.w && t.c == r.c
      && (r.r == Err(MissingViewModel(k)) ==> t.r == Ok(None))
      && (r.r != Err(MissingViewModel(k)) ==> t.r == Present(r.r))
  {
  }

  /**
   * Resolving a key bound to a sequence keeps the cursor, and re-reads its element, while
   * the stack is in the cursor's branch; otherwise it moves the cursor to the next
   * element and records the head.
   */
  lemma ResolveMovesCursor(w: World, c: Container, k: Key)
    requires Valid(w) && ContainerOk(w, c) && c.head.Some? && Lookup(w, c.head.value, k).Ref?
    requires var i := Lookup(w, c.head.value, k).entry; w.entries[i].Sequence? && w.entries[i].values.Some?
    ensures var i := Lookup(w, c.head.value, k).entry; var e := w.entries[i]; var o := Resolve(w, c, k);
      && (forall j :: 0 <= j < |w.entries| && j != i ==> o.w.entries[j] == w.entries[j])
      && (InBranch(w, c, e) ==>
            && o.w.entries[i] == e && o.c == c
            && o.r == Translate(k, ElementAt(e.values.value, e.currentIndex)))
      && (!InBranch(w, c, e) ==>
            && o.w.entries[i] == e.(currentIndex := e.currentIndex + 1, prevScopeId := w.scopes[c.head.value].id,
                                    prevScopeDepth := c.count - 1)
            && o.c == c.(stamp := c.stamp + 1)
            && o.r == Translate(k, ElementAt(e.values.value, e.currentIndex + 1)))
  {
    var s := c.head.value;
    var f := FindRef(w, s, k);
    FilledKeepsValid(w, f.w, k);
    ExtendsKeepsContainer(w, f.w, c);
    var i := f.ref.entry;
    InBranchStable(w, f.w, c, w.entries[i]);
  }

  /**
   * Observing a key bound to a sequence keeps the cursor while the stack is in the
   * cursor's branch and otherwise moves it to the next element, as `Resolve` does; then
   * it hands out the cell of the cursor's slot: the cell already there, or a new cell
   * holding the element. Past the end it reports the key exhausted.
   */
  lemma ObserveMovesCursor(w: World, c: Container, k: Key)
    requires Valid(w) && ContainerOk(w, c) && c.head.Some? && Lookup(w, c.head.value, k).Ref?
    requires var i := Lookup(w, c.head.value, k).entry; w.entries[i].Sequence? && w.entries[i].values.Some?
    ensures var i := Lookup(w, c.head.value, k).entry; var e := w.entries[i]; var o := Observe(w, c, k);
      var x := o.w.entries[i];
      && (forall j :: 0 <= j < |w.entries| && j != i ==> o.w.entries[j] == w.entries[j])
      && x.Sequence? && x.values == e.values
      && (InBranch(w, c, e) ==>
            o.c == c && x.currentIndex == e.currentIndex && x.prevScopeId == e.prevScopeId && x.prevScopeDepth == e.prevScopeDepth)
      && (!InBranch(w, c, e) ==>
            && o.c == c.(stamp := c.stamp + 1) && x.currentIndex == e.currentIndex + 1
            && x.prevScopeId == w.scopes[c.head.value].id && x.prevScopeDepth == c.count - 1)
      && HandsOut(w, o, i, Slots(e), e.values.value, x.currentIndex)
      && (o.r.Err? ==> o.r.error == ViewModelExhausted(k))
  {
    var s := c.head.value;
    var f := FindRef(w, s, k);
    FilledKeepsValid(w, f.w, k);
    ExtendsKeepsContainer(w, f.w, c);
    var i := f.ref.entry;
    InBranchStable(w, f.w, c, w.entries[i]);
    InBranchStable(w, f.w, c, WithSlots(f.w, i));
  }

  /** Resolving changes what no key means from any scope: lookups only fill caches. */
  lemma ResolveKeepsLookups(w: World, c: Container, k: Key, t: nat, j: Key)
    requires Valid(w) && ContainerOk(w, c) && t < |w.scopes|
    ensures Lookup(Resolve(w, c, k).w, t, j) == Lookup(w, t, j)
  {
    if c.head.Some? {
      var s := c.head.value;
      var f := FindRef(w, s, k);
      FindRefIsTransparent(w, s, k, t, j);
      var o := Resolve(w, c, k);
      assert o.w.scopes == f.w.scopes;
      ChainStable(f.w, o.w, t);
      LookupAgree(f.w, o.w, t, j);
    }
  }

  /** Observing changes what no key means from any scope either. */
  lemma ObserveKeepsLookups(w: World, c: Container, k: Key, t: nat, j: Key)
    requires Valid(w) && ContainerOk(w, c) && t < |w.scopes|
    ensures Lookup(Observe(w, c, k).w, t, j) == Lookup(w, t, j)
  {
    if c.head.Some? {
      var s := c.head.value;
      var f := FindRef(w, s, k);
      FindRefIsTransparent(w, s, k, t, j);
      var o := Observe(w, c, k);
      ObserveOnlyFills(w, c, k);
      ChainStable(f.w, o.w, t);
      LookupAgree(f.w, o.w, t, j);
    }
  }

  /** Observing changes the scopes only as the lookup of `k` fills their caches. */
  lemma ObserveOnlyFills(w: World, c: Container, k: Key)
    requires Valid(w) && ContainerOk(w, c) && c.head.Some?
    ensures Observe(w, c, k).w.scopes == FindRef(w, c.head.value, k).w.scopes
  {
  }
}
