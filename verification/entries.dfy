/**
 * The four binding entries of Runtime/DIContainer.cs: `SingleBindingEntry`,
 * `SequenceBindingEntry` (with its cursor `MoveCurrent`), `FactoryBindingEntry` and
 * `ConflictedBindingEntry`, each with `GetValue` and `ObserveValue`, and the
 * rebinding operations of the handles the container returns.
 */
module Entries {
  import opened Wrappers
  import opened Errors
  import opened Arena
  import opened Stacks
  import Reactive

  /** Replace entry `i` of the arena. */
  function SetEntry(w: World, i: nat, e: Entry): (w': World)
    requires i < |w.entries|
    ensures w'.scopes == w.scopes && w'.cells == w.cells && w'.log == w.log && w'.factoryCalls == w.factoryCalls
    ensures w'.entries == w.entries[i := e]
    ensures Valid(w) && EntryOk(e, |w.cells|) ==> Valid(w')
  {
    w.(entries := w.entries[i := e])
  }

  datatype Allocated = Allocated(w: World, cell: nat)

  /** `new ReactiveValue<T>(v)`, placed at the end of the cell arena. */
  function AllocCell(w: World, v: Value): (a: Allocated)
    ensures a.cell == |w.cells| && a.w.cells == w.cells + [Reactive.NewCell(v)]
    ensures a.w.scopes == w.scopes && a.w.entries == w.entries && a.w.log == w.log && a.w.factoryCalls == w.factoryCalls
    ensures a.w.cells[a.cell].value == v && a.w.cells[a.cell].subs == []
    ensures Valid(w) ==> Valid(a.w)
  {
    var w' := w.(cells := w.cells + [Reactive.NewCell(v)]);
    assert Valid(w) ==> EntriesOk(w') by {
      if Valid(w) {
        forall i | 0 <= i < |w'.entries| ensures EntryOk(w'.entries[i], |w'.cells|) {
          assert EntryOk(w.entries[i], |w.cells|);
        }
      }
    }
    Allocated(w', |w.cells|)
  }

  /** `cell.OnNext(v)` on cell `x` of the arena; what its observers receive is appended to the log. */
  function Publish(w: World, x: nat, v: Value): (w': World)
    requires x < |w.cells|
    ensures w'.scopes == w.scopes && w'.entries == w.entries && w'.factoryCalls == w.factoryCalls
    ensures |w'.cells| == |w.cells| && w'.cells[x].value == v && w'.cells[x].subs == w.cells[x].subs
    ensures forall y :: 0 <= y < |w.cells| && y != x ==> w'.cells[y] == w.cells[y]
    ensures w'.log == w.log + Reactive.OnNext(w.cells[x], v).log
    ensures Valid(w) ==> Valid(w')
  {
    var p := Reactive.OnNext(w.cells[x], v);
    w.(cells := w.cells[x := p.cell], log := w.log + p.log)
  }

  /** A fresh `SequenceBindingEntry`: no value read yet, no branch recorded. */
  function NewSequence(values: Option<seq<Value>>): (e: Entry)
    ensures e.Sequence? && e.values == values && e.observed.None? && e.currentIndex == -1
    ensures forall n :: EntryOk(e, n)
  {
    Sequence(values, None, -1, -1, 0, 0)
  }

  /**
   * The cursor stays where it is: the scope it recorded is, with the same id, on the
   * current stack at the recorded depth (this branch, or a scope inside it).
   */
  predicate InBranch(w: World, c: Container, e: Entry)
    requires ContainerOk(w, c) && e.Sequence?
    ensures InBranch(w, c, e) <==>
      && 0 <= e.prevScopeDepth < c.count
      && var a := AncestorAt(w, c, e.prevScopeDepth);
         a.Ok? && a.value.Some? && w.scopes[a.value.value].id == e.prevScopeId
  {
    AncestorAtIsChain(w, c, e.prevScopeDepth);
    && 0 <= e.prevScopeDepth < c.count
    && w.scopes[Chain(w, c.head.value)[e.prevScopeDepth]].id == e.prevScopeId
  }

  datatype Moved = Moved(e: Entry, c: Container, r: Result<(), Error>)

  /** The cursor moves on: next index, and the head's id and depth are recorded. */
  function Advance(w: World, c: Container, e: Entry): (m: Moved)
    requires ContainerOk(w, c) && e.Sequence?
    ensures m.e.Sequence? && m.e.currentIndex == e.currentIndex + 1
    ensures m.e.values == e.values && m.e.observed == e.observed && m.e.stackStamp == e.stackStamp
    ensures m.r.Err? <==> c.head.None?
    ensures m.r.Ok? ==> m.c == c.(stamp := c.stamp + 1) && ContainerOk(w, m.c) && InBranch(w, m.c, m.e)
  {
    var e1 := e.(currentIndex := e.currentIndex + 1);
    match c.head
    case None => Moved(e1, c, Err(NullReference))
    case Some(h) => Moved(e1.(prevScopeId := w.scopes[h].id, prevScopeDepth := c.count - 1), c.(stamp := c.stamp + 1), Ok(()))
  }

  /**
   * `MoveCurrent`: refuse a stack older than the entry, then advance unless the stack
   * still holds the recorded scope id at the recorded depth.
   */
  function MoveCurrent(w: World, c: Container, e: Entry): (m: Moved)
    requires ContainerOk(w, c) && e.Sequence? && EntryOk(e, |w.cells|)
    ensures m.e.Sequence? && m.e.values == e.values && m.e.observed == e.observed && m.e.stackStamp == e.stackStamp
    ensures m.c.head == c.head && m.c.count == c.count && m.c.nextScopeId == c.nextScopeId
    ensures m.r.Err? <==> c.head.None?
    ensures m.r.Err? ==> m.r.error == NullReference
    ensures c.head.Some? && InBranch(w, c, e) ==> m.e == e && m.c == c
    ensures c.head.Some? && !InBranch(w, c, e) ==>
      && m.e == e.(currentIndex := e.currentIndex + 1, prevScopeId := w.scopes[c.head.value].id, prevScopeDepth := c.count - 1)
      && m.c == c.(stamp := c.stamp + 1)
    ensures EntryOk(m.e, |w.cells|)
  {
    AncestorAtIsChain(w, c, e.prevScopeDepth);
    if c.stamp < e.stackStamp then Moved(e, c, Err(StateDiscrepancy))
    else if c.count - 1 < e.prevScopeDepth then Advance(w, c, e)
    else match AncestorAt(w, c, e.prevScopeDepth)
      case Err(x) => Moved(e, c, Err(x))
      case Ok(None) => Moved(e, c, Err(NullReference))
      case Ok(Some(a)) => if w.scopes[a].id != e.prevScopeId then Advance(w, c, e) else Moved(e, c, Ok(()))
  }

  /** The value, or the exception, a read of the sequence at position `i` ends with. */
  function ElementAt(values: seq<Value>, i: int): Result<Value, Error> {
    if 0 <= i < |values| then Ok(values[i]) else Err(SequenceReachEnd)
  }

  /** `BindingEntry.GetValue` for entry `i`, with the stack of container `c`. */
  function GetValue(w: World, c: Container, i: nat): (o: Outcome<Value>)
    requires Valid(w) && ContainerOk(w, c) && i < |w.entries|
    ensures Valid(o.w) && SameShape(w, o.w) && o.w.scopes == w.scopes && o.w.cells == w.cells && o.w.log == w.log
    ensures o.c.head == c.head && o.c.count == c.count && o.c.nextScopeId == c.nextScopeId
    ensures ContainerOk(o.w, o.c)
    ensures |o.w.entries| == |w.entries| && forall j :: 0 <= j < |w.entries| && j != i ==> o.w.entries[j] == w.entries[j]
    ensures o.w.entries[i].Sequence? <==> w.entries[i].Sequence?
    ensures match w.entries[i]
      case Single(has, v, _) => o.w == w && o.c == c && o.r == (if has then Ok(v) else Err(NoValue))
      case Factory(f) => o.w == w.(factoryCalls := w.factoryCalls + 1) && o.c == c && o.r == Ok(Made(f, w.factoryCalls))
      case Conflicted(_) => o.w == w && o.c == c && o.r == Err(ConflictedValue)
      case Sequence(values, _, _, _, _, _) =>
        && o.w.factoryCalls == w.factoryCalls
        && (values.None? ==> o.w == w && o.c == c && o.r == Err(NoValue))
        && (values.Some? && c.head.None? ==> o.r == Err(NullReference))
        && (values.Some? && c.head.Some? ==> o.r == ElementAt(values.value, o.w.entries[i].currentIndex))
        && (values.Some? ==> var m := MoveCurrent(w, c, w.entries[i]); o.w.entries[i] == m.e && o.c == m.c)
  {
    var o :=
      match w.entries[i]
      case Single(has, v, _) => Outcome(w, c, if has then Ok(v) else Err(NoValue))
      case Factory(f) => Outcome(w.(factoryCalls := w.factoryCalls + 1), c, Ok(Made(f, w.factoryCalls)))
      case Conflicted(_) => Outcome(w, c, Err(ConflictedValue))
      case Sequence(values, _, _, _, _, _) =>
        if values.None? then Outcome(w, c, Err(NoValue))
        else
          var m := MoveCurrent(w, c, w.entries[i]);
          var w1 := SetEntry(w, i, m.e);
          if m.r.Err? then Outcome(w1, m.c, Err(m.r.error))
          else Outcome(w1, m.c, ElementAt(values.value, m.e.currentIndex));
    SameScopes(w, o.w, o.c);
    o
  }

  /** The slot list of a sequence entry: one empty slot per value until the first observation creates it. */
  function Slots(e: Entry): seq<Option<nat>>
    requires e.Sequence? && e.values.Some?
  {
    if e.observed.None? then seq(|e.values.value|, _ => None) else e.observed.value
  }

  /**
   * Reading slot `k` of `slots` over `values` into entry `i` of `o.w`: past the end of the
   * slots, or at an empty slot past the values, it fails; a filled slot hands out its
   * cell again; an empty one gets a new cell holding value `k`. Only slot `k` changes.
   */
  predicate HandsOut(w: World, o: Outcome<nat>, i: nat, slots: seq<Option<nat>>, values: seq<Value>, k: int)
    requires i < |o.w.entries| && o.w.entries[i].Sequence?
  {
    var after := o.w.entries[i].observed;
    && (o.r.Err? <==> !(0 <= k < |slots|) || (slots[k].None? && k >= |values|))
    && after.Some? && |after.value| == |slots|
    && (forall t :: 0 <= t < |slots| && t != k ==> after.value[t] == slots[t])
    && (o.r.Ok? ==> after.value[k] == Some(o.r.value))
    && (o.r.Ok? && slots[k].Some? ==> o.r.value == slots[k].value && o.w.cells == w.cells)
    && (o.r.Ok? && slots[k].None? ==> o.r.value == |w.cells| && o.w.cells == w.cells + [Reactive.NewCell(values[k])])
  }

  /** The entry with its slot list: created empty, one slot per value, on the first observation. */
  function WithSlots(w: World, i: nat): (e: Entry)
    requires Valid(w) && i < |w.entries| && w.entries[i].Sequence? && w.entries[i].values.Some?
    ensures e.Sequence? && e == w.entries[i].(observed := e.observed) && e.observed.Some?
    ensures w.entries[i].observed.Some? ==> e.observed == w.entries[i].observed
    ensures w.entries[i].observed.None? ==>
      |e.observed.value| == |w.entries[i].values.value| && forall k :: 0 <= k < |e.observed.value| ==> e.observed.value[k].None?
    ensures e.observed == Some(Slots(w.entries[i])) && EntryOk(e, |w.cells|)
  {
    assert EntryOk(w.entries[i], |w.cells|);
    w.entries[i].(observed := Some(Slots(w.entries[i])))
  }

  /**
   * The tail of `SequenceBindingEntry.ObserveValue`, once the cursor has moved: the
   * cell in the current slot, created from the current element when the slot is empty.
   */
  function TakeSlot(w: World, c: Container, i: nat): (o: Outcome<nat>)
    requires Valid(w) && i < |w.entries|
    requires w.entries[i].Sequence? && w.entries[i].values.Some? && w.entries[i].observed.Some?
    ensures Valid(o.w) && o.w.scopes == w.scopes && o.w.log == w.log && o.w.factoryCalls == w.factoryCalls && o.c == c
    ensures |o.w.entries| == |w.entries| && forall j :: 0 <= j < |w.entries| && j != i ==> o.w.entries[j] == w.entries[j]
    ensures |o.w.cells| >= |w.cells| && forall x :: 0 <= x < |w.cells| ==> o.w.cells[x] == w.cells[x]
    ensures o.w.entries[i].Sequence?
    ensures var e := o.w.entries[i]; var k := e.currentIndex; var slots := w.entries[i].observed.value;
      && e == w.entries[i].(observed := e.observed) && e.observed.Some? && |e.observed.value| == |slots|
      && (o.r.Err? <==> !(0 <= k < |slots|) || (slots[k].None? && k >= |w.entries[i].values.value|))
      && (o.r.Err? ==> o.r.error == SequenceReachEnd && o.w == w)
      && (o.r.Ok? ==> 0 <= k < |slots| && o.r.value < |o.w.cells| && e.observed.value[k] == Some(o.r.value))
      && (o.r.Ok? && slots[k].Some? ==> o.w == w && o.r.value == slots[k].value)
      && (o.r.Ok? && slots[k].None? ==>
            o.r.value == |w.cells| && o.w.cells == w.cells + [Reactive.NewCell(w.entries[i].values.value[k])])
    ensures HandsOut(w, o, i, w.entries[i].observed.value, w.entries[i].values.value, w.entries[i].currentIndex)
  {
    var values := w.entries[i].values.value;
    var slots := w.entries[i].observed.value;
    var k := w.entries[i].currentIndex;
    if !(0 <= k < |slots|) then Outcome(w, c, Err(SequenceReachEnd))
    else if slots[k].Some? then Outcome(w, c, Ok(slots[k].value))
    else if !(k < |values|) then Outcome(w, c, Err(SequenceReachEnd))
    else
      var a := AllocCell(w, values[k]);
      var e2 := w.entries[i].(observed := Some(slots[k := Some(a.cell)]));
      assert EntryOk(e2, |a.w.cells|) by {
        assert EntryOk(w.entries[i], |w.cells|);
      }
      Outcome(SetEntry(a.w, i, e2), c, Ok(a.cell))
  }

  /**
   * `SequenceBindingEntry.ObserveValue`: allocate the slot array on first use (kept even
   * if the read then fails), move the cursor, then take the current slot.
   */
  function ObserveSequence(w: World, c: Container, i: nat): (o: Outcome<nat>)
    requires Valid(w) && ContainerOk(w, c) && i < |w.entries| && w.entries[i].Sequence? && w.entries[i].values.Some?
    ensures Valid(o.w) && o.w.scopes == w.scopes && o.w.log == w.log && o.w.factoryCalls == w.factoryCalls
    ensures o.c.head == c.head && o.c.count == c.count && o.c.nextScopeId == c.nextScopeId
    ensures ContainerOk(o.w, o.c)
    ensures |o.w.entries| == |w.entries| && forall j :: 0 <= j < |w.entries| && j != i ==> o.w.entries[j] == w.entries[j]
    ensures |o.w.cells| >= |w.cells| && forall x :: 0 <= x < |w.cells| ==> o.w.cells[x] == w.cells[x]
    ensures o.r.Ok? ==> o.r.value < |o.w.cells|
    ensures var e := o.w.entries[i];
      && e.Sequence? && e.values == w.entries[i].values && e.observed.Some?
      && |e.observed.value| == (if w.entries[i].observed.None? then |w.entries[i].values.value| else |w.entries[i].observed.value|)
      && (c.head.None? ==> o.r == Err(NullReference))
      && (c.head.Some? && o.r.Err? ==> o.r.error == SequenceReachEnd)
      && (o.r.Ok? ==> 0 <= e.currentIndex < |e.observed.value| && e.observed.value[e.currentIndex] == Some(o.r.value))
    ensures var m := MoveCurrent(w, c, WithSlots(w, i)); var e := o.w.entries[i];
      && o.c == m.c && e.currentIndex == m.e.currentIndex
      && e.prevScopeId == m.e.prevScopeId && e.prevScopeDepth == m.e.prevScopeDepth && e.stackStamp == m.e.stackStamp
    ensures c.head.Some? ==>
      HandsOut(w, o, i, Slots(w.entries[i]), w.entries[i].values.value, o.w.entries[i].currentIndex)
  {
    var o :=
      var e := WithSlots(w, i);
      var m := MoveCurrent(w, c, e);
      var w1 := SetEntry(w, i, m.e);
      if m.r.Err? then Outcome(w1, m.c, Err(m.r.error))
      else TakeSlot(w1, m.c, i);
    SameScopes(w, o.w, o.c);
    o
  }

  /** `BindingEntry.ObserveValue` for entry `i`: the index of the reactive cell handed out. */
  function ObserveValue(w: World, c: Container, i: nat): (o: Outcome<nat>)
    requires Valid(w) && ContainerOk(w, c) && i < |w.entries|
    ensures Valid(o.w) && o.w.scopes == w.scopes && o.w.log == w.log
    ensures o.c.head == c.head && o.c.count == c.count && o.c.nextScopeId == c.nextScopeId
    ensures ContainerOk(o.w, o.c)
    ensures |o.w.entries| == |w.entries| && forall j :: 0 <= j < |w.entries| && j != i ==> o.w.entries[j] == w.entries[j]
    ensures |o.w.cells| >= |w.cells| && forall x :: 0 <= x < |w.cells| ==> o.w.cells[x] == w.cells[x]
    ensures o.r.Ok? ==> o.r.value < |o.w.cells|
    ensures match w.entries[i]
      case Single(has, v, cell) =>
        && o.c == c
        && (!has ==> o.w == w && o.r == Err(NoValue))
        && (has && cell.Some? ==> o.w == w && o.r == Ok(cell.value))
        && (has && cell.None? ==> o.r == Ok(|w.cells|) && o.w.cells == w.cells + [Reactive.NewCell(v)]
                                  && o.w.entries[i] == Single(has, v, Some(|w.cells|)) && o.w.factoryCalls == w.factoryCalls)
      case Factory(f) =>
        && o.c == c && o.w.factoryCalls == w.factoryCalls + 1 && o.w.entries == w.entries
        && o.r == Ok(|w.cells|) && o.w.cells == w.cells + [Reactive.NewCell(Made(f, w.factoryCalls))]
      case Conflicted(_) => o.w == w && o.c == c && o.r == Err(ConflictedValue)
      case Sequence(values, _, _, _, _, _) =>
        && (values.None? ==> o.w == w && o.c == c && o.r == Err(NoValue))
        && (values.Some? ==> o == ObserveSequence(w, c, i))
  {
    var o :=
      match w.entries[i]
      case Single(has, v, cell) =>
        if !has then Outcome(w, c, Err(NoValue))
        else if cell.Some? then Outcome(w, c, Ok(cell.value))
        else
          var a := AllocCell(w, v);
          Outcome(SetEntry(a.w, i, Single(has, v, Some(a.cell))), c, Ok(a.cell))
      case Factory(f) =>
        var a := AllocCell(w.(factoryCalls := w.factoryCalls + 1), Made(f, w.factoryCalls));
        Outcome(a.w, c, Ok(a.cell))
      case Conflicted(_) => Outcome(w, c, Err(ConflictedValue))
      case Sequence(values, _, _, _, _, _) =>
        if values.None? then Outcome(w, c, Err(NoValue))
        else ObserveSequence(w, c, i);
    SameScopes(w, o.w, o.c);
    o
  }

  datatype Changed = Changed(w: World, r: Result<(), Error>)

  /**
   * `Rebind` on the handle of entry `i`: a single entry takes the value and publishes
   * it to its cell if one was ever handed out; a factory entry refuses.
   */
  function Rebind(w: World, i: nat, v: Value): (o: Changed)
    requires Valid(w) && i < |w.entries| && (w.entries[i].Single? || w.entries[i].Factory?)
    ensures Valid(o.w) && o.w.scopes == w.scopes && o.w.factoryCalls == w.factoryCalls && |o.w.cells| == |w.cells|
    ensures w.entries[i].Factory? ==> o == Changed(w, Err(NotSupported))
    ensures w.entries[i].Single? ==>
      && o.r == Ok(())
      && o.w.entries == w.entries[i := Single(true, v, w.entries[i].cell)]
      && (w.entries[i].cell.None? ==> o.w.cells == w.cells && o.w.log == w.log)
      && (w.entries[i].cell.Some? ==> var x := w.entries[i].cell.value;
            && o.w.cells[x].value == v && o.w.cells[x].subs == w.cells[x].subs
            && o.w.log == w.log + Reactive.Notify(w.cells[x].subs, v))
      && forall y :: 0 <= y < |w.cells| && Some(y) != w.entries[i].cell ==> o.w.cells[y] == w.cells[y]
  {
    match w.entries[i]
    case Factory(_) => Changed(w, Err(NotSupported))
    case Single(_, _, cell) =>
      assert EntryOk(w.entries[i], |w.cells|);
      var w1 := SetEntry(w, i, Single(true, v, cell));
      match cell
      case None => Changed(w1, Ok(()))
      case Some(x) => Changed(Publish(w1, x, v), Ok(()))
  }

  /**
   * `RebindItem`: write element `index` (no values yet: null dereference; outside the
   * array: index error), then publish it to the slot's cell. The element is written
   * even when the slot array is still missing and the publication throws.
   */
  function RebindItem(w: World, i: nat, index: int, v: Value): (o: Changed)
    requires Valid(w) && i < |w.entries| && w.entries[i].Sequence?
    ensures Valid(o.w) && o.w.scopes == w.scopes && o.w.factoryCalls == w.factoryCalls && |o.w.cells| == |w.cells|
    ensures var e := w.entries[i];
      && (e.values.None? ==> o == Changed(w, Err(NullReference)))
      && (e.values.Some? && !(0 <= index < |e.values.value|) ==> o == Changed(w, Err(IndexOutOfRange)))
      && (e.values.Some? && 0 <= index < |e.values.value| ==>
            && o.w.entries == w.entries[i := e.(values := Some(e.values.value[index := v]))]
            && (e.observed.None? ==> o.r == Err(NullReference) && o.w.cells == w.cells && o.w.log == w.log)
            && (e.observed.Some? ==> o.r == Ok(()))
            && (e.observed.Some? && e.observed.value[index].None? ==> o.w.cells == w.cells && o.w.log == w.log)
            && (e.observed.Some? && e.observed.value[index].Some? ==> var x := e.observed.value[index].value;
                  && o.w.cells[x].value == v && o.w.cells[x].subs == w.cells[x].subs
                  && o.w.log == w.log + Reactive.Notify(w.cells[x].subs, v)))
  {
    var e := w.entries[i];
    assert EntryOk(e, |w.cells|);
    if e.values.None? then Changed(w, Err(NullReference))
    else if !(0 <= index < |e.values.value|) then Changed(w, Err(IndexOutOfRange))
    else
      var w1 := SetEntry(w, i, e.(values := Some(e.values.value[index := v])));
      if e.observed.None? then Changed(w1, Err(NullReference))
      else if index >= |e.observed.value| then Changed(w1, Err(IndexOutOfRange))
      else match e.observed.value[index]
        case None => Changed(w1, Ok(()))
        case Some(x) => Changed(Publish(w1, x, v), Ok(()))
  }

  /** What slot `t` is republished with: the new element, or the default past the new length. */
  function SlotValue(vs: seq<Value>, t: nat): Value {
    if t < |vs| then vs[t] else Null
  }

  /** The republishing loop of `RebindAll`, from slot `j` to the end. */
  function Republish(w: World, slots: seq<Option<nat>>, vs: seq<Value>, j: nat): (w': World)
    requires Valid(w) && SlotsOk(slots, |w.cells|) && j <= |slots|
    ensures Valid(w') && w'.scopes == w.scopes && w'.entries == w.entries && w'.factoryCalls == w.factoryCalls
    ensures |w'.cells| == |w.cells| && |w'.log| >= |w.log| && w'.log[..|w.log|] == w.log
    ensures forall t :: j <= t < |slots| && slots[t].Some? ==>
      w'.cells[slots[t].value].value == SlotValue(vs, t) && w'.cells[slots[t].value].subs == w.cells[slots[t].value].subs
    ensures forall y :: 0 <= y < |w.cells| && (forall t :: j <= t < |slots| ==> slots[t] != Some(y)) ==> w'.cells[y] == w.cells[y]
    decreases |slots| - j
  {
    if j == |slots| then w
    else
      var w1 := if slots[j].Some? then Publish(w, slots[j].value, SlotValue(vs, j)) else w;
      var w2 := Republish(w1, slots, vs, j + 1);
      assert w2.log[..|w.log|] == w.log by {
        assert w2.log[..|w1.log|] == w1.log;
        assert w1.log[..|w.log|] == w.log;
      }
      w2
  }

  /** The slot array after `RebindAll`: allocated at the new length, or grown to it, never shrunk. */
  function GrownSlots(obs: Option<seq<Option<nat>>>, n: nat): (slots: seq<Option<nat>>)
    ensures obs.None? ==> |slots| == n
    ensures obs.Some? ==> |slots| == (if |obs.value| < n then n else |obs.value|)
    ensures obs.Some? ==> slots[..|obs.value|] == obs.value
    ensures forall t :: 0 <= t < |slots| && (obs.None? || t >= |obs.value|) ==> slots[t].None?
  {
    if obs.None? then seq(n, _ => None)
    else if |obs.value| < n then obs.value + seq(n - |obs.value|, _ => None)
    else obs.value
  }

  /**
   * `RebindAll`: replace the elements, grow the slot array to the new length if needed,
   * and republish every slot that has a cell.
   */
  function RebindAll(w: World, i: nat, vs: seq<Value>): (w': World)
    requires Valid(w) && i < |w.entries| && w.entries[i].Sequence?
    ensures Valid(w') && w'.scopes == w.scopes && w'.factoryCalls == w.factoryCalls && |w'.cells| == |w.cells|
    ensures |w'.entries| == |w.entries| && forall j :: 0 <= j < |w.entries| && j != i ==> w'.entries[j] == w.entries[j]
    ensures w'.entries[i].Sequence?
    ensures var e := w.entries[i]; var e' := w'.entries[i];
      && e' == e.(values := Some(vs), observed := e'.observed)
      && e'.observed == Some(GrownSlots(e.observed, |vs|))
      && forall t :: 0 <= t < |e'.observed.value| && e'.observed.value[t].Some? ==>
           w'.cells[e'.observed.value[t].value].value == SlotValue(vs, t)
    ensures |w'.log| >= |w.log| && w'.log[..|w.log|] == w.log
  {
    var e := w.entries[i];
    assert EntryOk(e, |w.cells|);
    var slots := GrownSlots(e.observed, |vs|);
    assert SlotsOk(slots, |w.cells|) by {
      if e.observed.Some? {
        var obs := e.observed.value;
        forall t | 0 <= t < |obs| ensures slots[t] == obs[t] {
          assert slots[..|obs|][t] == obs[t];
        }
      }
    }
    var w1 := SetEntry(w, i, e.(values := Some(vs), observed := Some(slots)));
    Republish(w1, slots, vs, 0)
  }

  /** The first read of a fresh sequence yields its first element (or runs off an empty one). */
  lemma FirstReadYieldsFirst(w: World, c: Container, i: nat, vs: seq<Value>)
    requires Valid(w) && ContainerOk(w, c) && c.head.Some? && i < |w.entries|
    requires w.entries[i] == NewSequence(Some(vs))
    ensures var o := GetValue(w, c, i);
      && o.w.entries[i].currentIndex == 0
      && o.r == (if |vs| > 0 then Ok(vs[0]) else Err(SequenceReachEnd))
      && o.c == c.(stamp := c.stamp + 1)
  {
    assert !InBranch(w, c, w.entries[i]);
  }

  /** After a move the cursor records a scope of the current stack: the stack is now in its branch. */
  lemma MovedIsInBranch(w: World, c: Container, e: Entry)
    requires ContainerOk(w, c) && c.head.Some? && e.Sequence? && EntryOk(e, |w.cells|)
    ensures var m := MoveCurrent(w, c, e); InBranch(w, m.c, m.e)
  {
    if !InBranch(w, c, e) {
      assert Chain(w, c.head.value)[c.count - 1] == c.head.value;
    }
  }

  /** Whether a stack is in the cursor's branch depends only on scope ids and parents. */
  lemma InBranchStable(w: World, w': World, c: Container, e: Entry)
    requires ContainerOk(w, c) && ContainerOk(w', c) && SameShape(w, w') && e.Sequence?
    ensures InBranch(w', c, e) == InBranch(w, c, e)
  {
    if c.head.Some? { ChainStable(w, w', c.head.value); }
  }

  /** A cursor in the branch of a stack is in the branch of every stack that extends it. */
  lemma InBranchBelow(w: World, c: Container, c2: Container, e: Entry)
    requires ContainerOk(w, c) && ContainerOk(w, c2) && c.head.Some? && c2.head.Some? && e.Sequence?
    requires Chain(w, c.head.value) <= Chain(w, c2.head.value)
    requires InBranch(w, c, e)
    ensures InBranch(w, c2, e)
  {
    assert Chain(w, c2.head.value)[e.prevScopeDepth] == Chain(w, c.head.value)[e.prevScopeDepth];
  }

  /** A read whose stack is in the cursor's branch changes nothing and returns the current element. */
  lemma ReadInBranchIsStill(w: World, c: Container, i: nat)
    requires Valid(w) && ContainerOk(w, c) && c.head.Some? && i < |w.entries|
    requires w.entries[i].Sequence? && w.entries[i].values.Some? && InBranch(w, c, w.entries[i])
    ensures GetValue(w, c, i) == Outcome(w, c, ElementAt(w.entries[i].values.value, w.entries[i].currentIndex))
  {
    assert w.entries[i := w.entries[i]] == w.entries;
  }

  /**
   * Reading again from the same scope, or from any scope below it, returns the same
   * element and moves nothing: a branch keeps its element.
   */
  lemma ReadAgainInBranch(w: World, c: Container, i: nat, c2: Container)
    requires Valid(w) && ContainerOk(w, c) && c.head.Some? && i < |w.entries|
    requires w.entries[i].Sequence? && w.entries[i].values.Some?
    requires var o := GetValue(w, c, i); ContainerOk(o.w, c2) && c2.head.Some?
    requires Chain(w, c.head.value) <= Chain(w, c2.head.value)
    ensures var o := GetValue(w, c, i); GetValue(o.w, c2, i) == Outcome(o.w, c2, o.r)
  {
    var o := GetValue(w, c, i);
    var e1 := o.w.entries[i];
    SameScopes(w, o.w, c2);
    SameScopes(w, o.w, o.c);
    MovedIsInBranch(w, c, w.entries[i]);
    InBranchBelow(w, o.c, c2, e1);
    ReadInBranchIsStill(o.w, c2, i);
  }

  /** A single entry hands out the same cell on every observation. */
  lemma SingleObserveIsMemoized(w: World, c: Container, i: nat, c2: Container)
    requires Valid(w) && ContainerOk(w, c) && i < |w.entries| && w.entries[i].Single?
    requires var o := ObserveValue(w, c, i); ContainerOk(o.w, c2)
    ensures var o := ObserveValue(w, c, i); var o2 := ObserveValue(o.w, c2, i);
      o2.r == o.r && o2.w == o.w
  {
  }

  /** An observer of a single entry's cell receives every later `Rebind`. */
  lemma ObservedRebindDelivers(w: World, c: Container, i: nat, v: Value)
    requires Valid(w) && ContainerOk(w, c) && i < |w.entries| && w.entries[i].Single? && w.entries[i].hasValue
    ensures var o := ObserveValue(w, c, i);
      && o.r.Ok?
      && var r := Rebind(o.w, i, v); var x := o.r.value;
      && r.w.cells[x].value == v
      && r.w.log == o.w.log + Reactive.Notify(o.w.cells[x].subs, v)
      && r.w.entries[i] == Single(true, v, Some(x))
  {
  }

  /** Observing a sequence again within the branch that observed it returns the same cell. */
  lemma SequenceObserveInBranchIsMemoized(w: World, c: Container, i: nat)
    requires Valid(w) && ContainerOk(w, c) && c.head.Some? && i < |w.entries|
    requires w.entries[i].Sequence? && w.entries[i].values.Some?
    requires ObserveValue(w, c, i).r.Ok?
    ensures var o := ObserveValue(w, c, i); var o2 := ObserveValue(o.w, o.c, i);
      o2.r == o.r && o2.w == o.w
  {
    var o := ObserveValue(w, c, i);
    var e := w.entries[i];
    var e1 := o.w.entries[i];
    var ch := Chain(w, c.head.value);
    SameScopes(w, o.w, c);
    assert InBranch(o.w, o.c, e1) by {
      assert EntryOk(e, |w.cells|);
      assert ch[c.count - 1] == c.head.value;
    }
  }
}
