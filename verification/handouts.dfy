/**
 * What observing siblings are handed, as plain sequences: the results a run of reads
 * yields, and the cells it adds. These are the reference definitions the observing
 * half of `Distribution` is proved against.
 */
module Handouts {
  import opened Wrappers
  import opened Errors
  import opened Arena
  import Reactive

  /** Fresh cells holding `vs`, in order. */
  function NewCells(vs: seq<Value>): (cs: seq<Reactive.Cell<Value>>)
    ensures |cs| == |vs|
  {
    if vs == [] then [] else [Reactive.NewCell(vs[0])] + NewCells(vs[1..])
  }

  /** The values that `n` siblings from the `j`-th on read, the list cut off at its end. */
  function ValuesFrom(vs: seq<Value>, j: nat, n: nat): seq<Value> {
    if j >= |vs| then [] else vs[j..if j + n < |vs| then j + n else |vs|]
  }

  /** No slot list yet, or one slot per value with every slot from `j` on empty. */
  predicate EmptyFrom(observed: Option<seq<Option<nat>>>, n: nat, j: nat) {
    observed.Some? ==> |observed.value| == n && forall t :: j <= t < n ==> observed.value[t].None?
  }

  /**
   * The cells `rs` handed to siblings from the `j`-th read on: each sibling within the
   * values gets the next new cell after `base`; the rest are told the key is exhausted.
   */
  predicate CellsFrom(rs: seq<Result<nat, Error>>, base: nat, vs: seq<Value>, j: nat, k: Key) {
    forall t :: 0 <= t < |rs| ==> rs[t] == (if j + t < |vs| then Ok(base + t) else Err(ViewModelExhausted(k)))
  }

  /** Cells handed out from `j` on are the first sibling's, then those from `j + 1` on. */
  lemma CellsFromStep(rs: seq<Result<nat, Error>>, r: Result<nat, Error>, rest: seq<Result<nat, Error>>,
                      base: nat, next: nat, vs: seq<Value>, j: nat, k: Key)
    requires rs == [r] + rest && CellsFrom(rest, next, vs, j + 1, k)
    requires j < |vs| ==> r == Ok(base) && next == base + 1
    requires j >= |vs| ==> r == Err(ViewModelExhausted(k)) && next == base
    ensures CellsFrom(rs, base, vs, j, k)
  {
    forall t | 1 <= t < |rs|
      ensures rs[t] == (if j + t < |vs| then Ok(base + t) else Err(ViewModelExhausted(k)))
    {
      assert rs[t] == rest[t - 1];
      assert j + 1 + (t - 1) == j + t;
    }
  }



  /** The cells one sibling adds, followed by those the rest add. */
  lemma NewCellsStep(cs: seq<Reactive.Cell<Value>>, cs1: seq<Reactive.Cell<Value>>, vs: seq<Value>, j: nat, n: nat)
    requires n > 0 && cs1 == cs + (if j < |vs| then [Reactive.NewCell(vs[j])] else [])
    ensures cs1 + NewCells(ValuesFrom(vs, j + 1, n - 1)) == cs + NewCells(ValuesFrom(vs, j, n))
  {
    var m: nat := n - 1;
    var b := ValuesFrom(vs, j + 1, m);
    if j < |vs| {
      var x := Reactive.NewCell(vs[j]);
      ValuesFromStep(vs, j, m);
      assert NewCells(ValuesFrom(vs, j, n)) == [x] + NewCells(b);
      assert cs1 + NewCells(b) == cs + ([x] + NewCells(b));
    } else {
      assert b == [] && ValuesFrom(vs, j, n) == [];
    }
  }

  /** Within the list, the values from `j` on are element `j`, then those from `j + 1` on. */
  lemma ValuesFromStep(vs: seq<Value>, j: nat, m: nat)
    requires j < |vs|
    ensures var a := ValuesFrom(vs, j, m + 1); a != [] && a[0] == vs[j] && a[1..] == ValuesFrom(vs, j + 1, m)
  {
  }

  /** From the first value on, `n` reads cover the first `n` values, or all of them. */
  lemma ValuesFromStart(vs: seq<Value>, n: nat)
    ensures n < |vs| ==> ValuesFrom(vs, 0, n) == vs[..n]
    ensures n >= |vs| ==> ValuesFrom(vs, 0, n) == vs
  {
  }
}
