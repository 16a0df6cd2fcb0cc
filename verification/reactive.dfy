/**
 * The single-slot reactive cell (`ReactiveValue<T>`), the replay-less `Subject<T>`
 * and subscription disposal (`ObserverSubscription.Dispose`) of Runtime/Reactive.cs.
 *
 * An observer list is a sequence of subscription nodes in subscription order; what
 * observers receive is returned as a delivery log instead of calling back into them.
 */
module Reactive {
  import opened Wrappers
  import opened Errors

  type ObserverId = nat

  /** One node of a linked observer list: `node` names the subscription, `observer` the receiver. */
  datatype Sub = Sub(node: nat, observer: ObserverId)

  /** One call made on an observer. */
  datatype Delivery<T> = Next(node: nat, observer: ObserverId, value: T) | Completed(node: nat, observer: ObserverId)

  /** A `ReactiveValue<T>`: its `Value` and its observer list; `nextNode` numbers the next subscription. */
  datatype Cell<T> = Cell(value: T, subs: seq<Sub>, nextNode: nat)

  /** A `Subject<T>`: an observer list without a stored value. */
  datatype Subject = Subject(subs: seq<Sub>, nextNode: nat)

  datatype Published<T> = Published(cell: Cell<T>, log: seq<Delivery<T>>)

  datatype Subscribed<T> = Subscribed(cell: Cell<T>, handle: nat, log: seq<Delivery<T>>)

  datatype Joined = Joined(subject: Subject, handle: nat)

  /** Subscription nodes are numbered below the counter and are pairwise distinct. */
  predicate NodesOk(subs: seq<Sub>, next: nat) {
    && (forall i :: 0 <= i < |subs| ==> subs[i].node < next)
    && (forall i, j :: 0 <= i < j < |subs| ==> subs[i].node != subs[j].node)
  }

  predicate WellFormed<T>(c: Cell<T>) {
    NodesOk(c.subs, c.nextNode)
  }

  predicate Subscribes(subs: seq<Sub>, h: nat) {
    exists i :: 0 <= i < |subs| && subs[i].node == h
  }

  /** `new ReactiveValue<T>(value)`. */
  function NewCell<T>(v: T): (c: Cell<T>)
    ensures c.value == v && c.subs == [] && WellFormed(c)
  {
    Cell(v, [], 0)
  }

  /** Calls `OnNext(v)` on every node of `subs`, first registered first. */
  function Notify<T>(subs: seq<Sub>, v: T): (log: seq<Delivery<T>>)
    ensures |log| == |subs|
    ensures forall i :: 0 <= i < |subs| ==> log[i] == Next(subs[i].node, subs[i].observer, v)
  {
    if subs == [] then [] else [Next(subs[0].node, subs[0].observer, v)] + Notify(subs[1..], v)
  }

  /** Calls `OnCompleted()` on every node of `subs`, first registered first. */
  function CompleteAll<T>(subs: seq<Sub>): (log: seq<Delivery<T>>)
    ensures |log| == |subs|
    ensures forall i :: 0 <= i < |subs| ==> log[i] == Completed(subs[i].node, subs[i].observer)
  {
    if subs == [] then [] else [Completed(subs[0].node, subs[0].observer)] + CompleteAll(subs[1..])
  }

  /** `ReactiveValue.OnNext`: the value is stored, then every observer receives it once, in order. */
  function OnNext<T>(c: Cell<T>, v: T): (p: Published<T>)
    ensures p.cell.value == v && p.cell.subs == c.subs && p.cell.nextNode == c.nextNode
    ensures |p.log| == |c.subs|
    ensures forall i :: 0 <= i < |c.subs| ==> p.log[i] == Next(c.subs[i].node, c.subs[i].observer, v)
  {
    Published(c.(value := v), Notify(c.subs, v))
  }

  /** `ReactiveValue.OnCompleted`: every observer is completed in order; the value stays. */
  function OnCompleted<T>(c: Cell<T>): (p: Published<T>)
    ensures p.cell == c
    ensures |p.log| == |c.subs|
    ensures forall i :: 0 <= i < |c.subs| ==> p.log[i] == Completed(c.subs[i].node, c.subs[i].observer)
  {
    Published(c, CompleteAll(c.subs))
  }

  /** `ReactiveValue.Subscribe`: append a node, then replay the current value to that observer only. */
  function Subscribe<T>(c: Cell<T>, o: ObserverId): (s: Subscribed<T>)
    ensures s.cell.value == c.value
    ensures s.cell.subs == c.subs + [Sub(s.handle, o)]
    ensures s.log == [Next(s.handle, o, c.value)]
    ensures WellFormed(c) ==> WellFormed(s.cell) && !Subscribes(c.subs, s.handle)
  {
    Subscribed(c.(subs := c.subs + [Sub(c.nextNode, o)], nextNode := c.nextNode + 1), c.nextNode, [Next(c.nextNode, o, c.value)])
  }

  /** Position of the first node named `h` (the node a subscription handle points at). */
  function IndexOf(subs: seq<Sub>, h: nat): (i: nat)
    requires Subscribes(subs, h)
    ensures i < |subs| && subs[i].node == h
    ensures forall j :: 0 <= j < i ==> subs[j].node != h
  {
    if subs[0].node == h then 0
    else
      assert Subscribes(subs[1..], h) by {
        var k :| 0 <= k < |subs| && subs[k].node == h;
        assert subs[1..][k - 1].node == h;
      }
      1 + IndexOf(subs[1..], h)
  }

  /**
   * `ObserverSubscription.Dispose`: unlink the node named `h`. Disposing a node that is no
   * longer in a list dereferences its null `List` and throws.
   */
  function Unlink(subs: seq<Sub>, h: nat): (r: Result<seq<Sub>, Error>)
    ensures r.Ok? <==> Subscribes(subs, h)
    ensures r.Err? ==> r.error == NullReference
    ensures r.Ok? ==> |r.value| == |subs| - 1
    ensures r.Ok? ==> var i := IndexOf(subs, h);
      forall j :: 0 <= j < |r.value| ==> r.value[j] == (if j < i then subs[j] else subs[j + 1])
  {
    if Subscribes(subs, h) then
      var i := IndexOf(subs, h);
      Ok(subs[..i] + subs[i + 1..])
    else Err(NullReference)
  }

  function Dispose<T>(c: Cell<T>, h: nat): (r: Result<Cell<T>, Error>)
    ensures r.Ok? <==> Subscribes(c.subs, h)
    ensures r.Err? ==> r.error == NullReference
    ensures r.Ok? ==> r.value.value == c.value && r.value.nextNode == c.nextNode
    ensures r.Ok? && WellFormed(c) ==> WellFormed(r.value) && !Subscribes(r.value.subs, h)
  {
    match Unlink(c.subs, h)
    case Err(e) => Err(e)
    case Ok(subs) =>
      var i := IndexOf(c.subs, h);
      assert WellFormed(c) ==> forall k :: 0 <= k < |subs| ==> subs[k].node != h by {
        if WellFormed(c) {
          forall k | 0 <= k < |subs| ensures subs[k].node != h {
            if k < i { assert c.subs[k].node != c.subs[i].node; }
            else { assert c.subs[k + 1].node != c.subs[i].node; }
          }
        }
      }
      Ok(c.(subs := subs))
  }

  /** `Subject.Subscribe`: append a node; nothing is replayed. */
  function Join(s: Subject, o: ObserverId): (j: Joined)
    ensures j.subject.subs == s.subs + [Sub(j.handle, o)]
    ensures NodesOk(s.subs, s.nextNode) ==> NodesOk(j.subject.subs, j.subject.nextNode)
  {
    Joined(Subject(s.subs + [Sub(s.nextNode, o)], s.nextNode + 1), s.nextNode)
  }

  /** `Subject.OnNext`: every observer receives the value once, in subscription order. */
  function Emit<T>(s: Subject, v: T): (log: seq<Delivery<T>>)
    ensures |log| == |s.subs|
    ensures forall i :: 0 <= i < |s.subs| ==> log[i] == Next(s.subs[i].node, s.subs[i].observer, v)
  {
    Notify(s.subs, v)
  }

  /** Disposing a fresh subscription restores the observer list it was added to. */
  lemma SubscribeThenDispose<T>(c: Cell<T>, o: ObserverId)
    requires WellFormed(c)
    ensures var s := Subscribe(c, o); Dispose(s.cell, s.handle) == Ok(c.(nextNode := c.nextNode + 1))
  {
    var s := Subscribe(c, o);
    assert s.cell.subs[|c.subs|].node == s.handle;
    assert IndexOf(s.cell.subs, s.handle) == |c.subs|;
    assert s.cell.subs[..|c.subs|] + s.cell.subs[|c.subs| + 1..] == c.subs;
    assert Unlink(s.cell.subs, s.handle) == Ok(c.subs);
  }

  /** A disposed observer receives nothing afterwards; the others keep their order. */
  lemma DisposedReceivesNothing<T>(c: Cell<T>, h: nat, v: T)
    requires WellFormed(c) && Subscribes(c.subs, h)
    ensures Dispose(c, h).Ok?
    ensures var p := OnNext(Dispose(c, h).value, v); var i := IndexOf(c.subs, h);
      && (forall d :: d in p.log ==> d.node != h)
      && p.log == OnNext(c, v).log[..i] + OnNext(c, v).log[i + 1..]
  {
    var c' := Dispose(c, h).value;
    var i := IndexOf(c.subs, h);
    var p := OnNext(c', v);
    var q := OnNext(c, v);
    assert p.log == q.log[..i] + q.log[i + 1..];
    forall d | d in p.log ensures d.node != h {
      var j :| 0 <= j < |p.log| && p.log[j] == d;
      assert d.node == c'.subs[j].node;
    }
  }

  /** Disposing the same subscription twice throws. */
  lemma DisposeTwiceThrows<T>(c: Cell<T>, h: nat)
    requires WellFormed(c) && Dispose(c, h).Ok?
    ensures Dispose(Dispose(c, h).value, h) == Err(NullReference)
  {
  }

  /** Publishing the values `vs` one after another with `OnNext`. */
  function Updates<T>(c: Cell<T>, vs: seq<T>): (p: Published<T>)
    ensures p.cell.subs == c.subs && p.cell.nextNode == c.nextNode
    ensures forall i :: 0 <= i < |p.log| ==> p.log[i].Next?
    decreases |vs|
  {
    if vs == [] then Published(c, [])
    else
      var first := OnNext(c, vs[0]);
      var rest := Updates(first.cell, vs[1..]);
      Published(rest.cell, first.log + rest.log)
  }

  /**
   * A subscriber added after any run of updates is replayed only the latest published
   * value, or the initial one when nothing was published.
   */
  lemma {:induction false} LateSubscriberSeesLatestOnly<T>(c: Cell<T>, vs: seq<T>, o: ObserverId)
    ensures var s := Subscribe(Updates(c, vs).cell, o);
      s.log == [Next(s.handle, o, if vs == [] then c.value else vs[|vs| - 1])]
    decreases |vs|
  {
    if vs != [] {
      var first := OnNext(c, vs[0]);
      LateSubscriberSeesLatestOnly(first.cell, vs[1..], o);
      if |vs| > 1 {
        assert vs[1..][|vs[1..]| - 1] == vs[|vs| - 1];
      }
    }
  }
}
