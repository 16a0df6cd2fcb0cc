/**
 * `BindingScopeInfo` of Runtime/DIContainer.cs: lazy parent-fallback lookup that caches
 * its answer in every scope it passes (even a nil answer), registration with conflict
 * detection, and the listing of every binding visible from a scope.
 */
module Scopes {
  import opened Wrappers
  import opened Errors
  import opened Arena

  /** `_bindings[k] = r` on scope `s`. */
  function SetCache(w: World, s: nat, k: Key, r: Ref): (w': World)
    requires s < |w.scopes|
    ensures SameShape(w, w') && (ParentsBefore(w) ==> ParentsBefore(w'))
    ensures w'.entries == w.entries && w'.cells == w.cells && w'.log == w.log && w'.factoryCalls == w.factoryCalls
    ensures w'.scopes[s].cache == w.scopes[s].cache[k := r]
    ensures forall t :: 0 <= t < |w.scopes| && t != s ==> w'.scopes[t] == w.scopes[t]
  {
    w.(scopes := w.scopes[s := w.scopes[s].(cache := w.scopes[s].cache[k := r])])
  }

  /** Scope `t` of `w'` is scope `t` of `w`, except that a missing `k` may have been filled with its lookup. */
  predicate Filled(w: World, w': World, t: nat, k: Key)
    requires ParentsBefore(w) && t < |w.scopes| && t < |w'.scopes|
  {
    || w'.scopes[t].cache == w.scopes[t].cache
    || (k !in w.scopes[t].cache && w'.scopes[t].cache == w.scopes[t].cache[k := Lookup(w, t, k)])
  }

  predicate AllFilled(w: World, w': World, k: Key)
    requires ParentsBefore(w)
  {
    SameShape(w, w') && forall t :: 0 <= t < |w.scopes| ==> Filled(w, w', t, k)
  }

  datatype Found = Found(w: World, ref: Ref)

  /**
   * `FindBindingReference`: the cached reference if there is one; otherwise the parent's
   * answer (nil at the root), cached in this scope before it is returned.
   */
  function FindRef(w: World, s: nat, k: Key): (f: Found)
    requires ParentsBefore(w) && s < |w.scopes|
    ensures ParentsBefore(f.w) && AllFilled(w, f.w, k)
    ensures f.ref == Lookup(w, s, k)
    ensures CacheAt(f.w, s, k) == Some(f.ref)
    ensures forall t :: s < t < |w.scopes| ==> f.w.scopes[t] == w.scopes[t]
    ensures f.w.entries == w.entries && f.w.cells == w.cells && f.w.log == w.log && f.w.factoryCalls == w.factoryCalls
    decreases s
  {
    if k in w.scopes[s].cache then Found(w, w.scopes[s].cache[k])
    else
      var up := match w.scopes[s].parent
        case None => Found(w, Nil)
        case Some(p) => FindRef(w, p, k);
      var w' := SetCache(up.w, s, k, up.ref);
      assert AllFilled(w, w', k) by {
        forall t | 0 <= t < |w.scopes| ensures Filled(w, w', t, k) {
          assert Filled(w, up.w, t, k);
        }
      }
      Found(w', up.ref)
  }

  /** Filling caches with their own lookups changes no lookup, of any key, from any scope. */
  lemma {:induction false} FilledKeepsLookups(w: World, w': World, k: Key, t: nat, j: Key)
    requires ParentsBefore(w) && ParentsBefore(w') && AllFilled(w, w', k) && t < |w.scopes|
    ensures Lookup(w', t, j) == Lookup(w, t, j)
    decreases t
  {
    assert Filled(w, w', t, k);
    if j in w.scopes[t].cache {
    } else if j == k && k in w'.scopes[t].cache {
    } else {
      match w.scopes[t].parent
      case None =>
      case Some(p) => FilledKeepsLookups(w, w', k, p, j);
    }
  }

  lemma FilledKeepsValid(w: World, w': World, k: Key)
    requires Valid(w) && ParentsBefore(w') && AllFilled(w, w', k)
    requires w'.entries == w.entries && w'.cells == w.cells
    ensures Valid(w')
  {
    forall i, j | 0 <= i < |w'.scopes| && j in w'.scopes[i].cache && w'.scopes[i].cache[j].Ref?
      ensures w'.scopes[i].cache[j].entry < |w'.entries|
    {
      assert Filled(w, w', i, k);
    }
  }

  /**
   * Caching is transparent: after a lookup, every scope answers every key as before,
   * and asking again returns the same reference without changing anything.
   */
  lemma FindRefIsTransparent(w: World, s: nat, k: Key, t: nat, j: Key)
    requires Valid(w) && s < |w.scopes| && t < |w.scopes|
    ensures var f := FindRef(w, s, k);
      && Valid(f.w)
      && Lookup(f.w, t, j) == Lookup(w, t, j)
      && FindRef(f.w, s, k) == f
  {
    var f := FindRef(w, s, k);
    FilledKeepsValid(w, f.w, k);
    FilledKeepsLookups(w, f.w, k, t, j);
  }

  /**
   * `AddBinding`: a key that is unbound here or only inherited becomes bound to the entry
   * and owned by this scope; a key this scope already owns is replaced by a new
   * Conflicted entry. Either way the lookup first fills the caches on the way up.
   */
  function AddBinding(w: World, s: nat, k: Key, e: nat): (w': World)
    requires Valid(w) && s < |w.scopes| && e < |w.entries|
    ensures Valid(w') && SameShape(w, w')
    ensures w'.cells == w.cells && w'.log == w.log && w'.factoryCalls == w.factoryCalls
    ensures |w'.entries| >= |w.entries| && w'.entries[..|w.entries|] == w.entries
    ensures OwnedBy(w, s, k) ==>
      w'.entries == w.entries + [Conflicted(k)] && CacheAt(w', s, k) == Some(Ref(|w.entries|, s))
    ensures !OwnedBy(w, s, k) ==>
      w'.entries == w.entries && CacheAt(w', s, k) == Some(Ref(e, s))
    ensures forall t :: s < t < |w.scopes| ==> w'.scopes[t] == w.scopes[t]
  {
    var f := FindRef(w, s, k);
    FilledKeepsValid(w, f.w, k);
    if f.ref.Nil? || f.ref.owner != s then
      SetCacheKeepsValid(f.w, s, k, Ref(e, s));
      SetCache(f.w, s, k, Ref(e, s))
    else
      var grown := f.w.(entries := f.w.entries + [Conflicted(k)]);
      assert Valid(grown) by {
        assert forall i :: 0 <= i < |f.w.entries| ==> grown.entries[i] == f.w.entries[i];
      }
      SetCacheKeepsValid(grown, s, k, Ref(|f.w.entries|, s));
      SetCache(grown, s, k, Ref(|f.w.entries|, s))
  }

  lemma SetCacheKeepsValid(w: World, s: nat, k: Key, r: Ref)
    requires Valid(w) && s < |w.scopes| && (r.Ref? ==> r.entry < |w.entries|)
    ensures Valid(SetCache(w, s, k, r))
  {
    var w' := SetCache(w, s, k, r);
    forall i, j | 0 <= i < |w'.scopes| && j in w'.scopes[i].cache && w'.scopes[i].cache[j].Ref?
      ensures w'.scopes[i].cache[j].entry < |w'.entries|
    {
      if i != s {
        assert w'.scopes[i] == w.scopes[i];
      }
    }
  }

  /**
   * Registration changes nothing but the key registered, and only for scopes whose
   * chain passes through the registering scope.
   */
  lemma AddBindingFrame(w: World, s: nat, k: Key, e: nat, t: nat, j: Key)
    requires Valid(w) && s < |w.scopes| && e < |w.entries| && t < |w.scopes|
    requires j != k || s !in Chain(w, t)
    ensures Lookup(AddBinding(w, s, k, e), t, j) == Lookup(w, t, j)
  {
    var f := FindRef(w, s, k);
    var w' := AddBinding(w, s, k, e);
    FilledKeepsLookups(w, f.w, k, t, j);
    ChainStable(w, f.w, t);
    forall u | u in Chain(f.w, t) ensures CacheAt(f.w, u, j) == CacheAt(w', u, j) {
      AddBindingTouchesOneCache(w, s, k, e, u, j);
    }
    LookupAgree(f.w, w', t, j);
  }

  /** Apart from the lookup's own caching, registration changes only `k` in scope `s`. */
  lemma AddBindingTouchesOneCache(w: World, s: nat, k: Key, e: nat, u: nat, j: Key)
    requires Valid(w) && s < |w.scopes| && e < |w.entries| && u < |w.scopes| && (u != s || j != k)
    ensures CacheAt(AddBinding(w, s, k, e), u, j) == CacheAt(FindRef(w, s, k).w, u, j)
  {
  }

  /** A scope that had already cached `k` keeps its answer when an ancestor binds `k` later. */
  lemma CachedDescendantIgnoresNewBinding(w: World, s: nat, k: Key, e: nat, d: nat)
    requires Valid(w) && s < |w.scopes| && e < |w.entries| && d < |w.scopes| && d != s
    requires k in w.scopes[d].cache
    ensures Lookup(AddBinding(w, s, k, e), d, k) == w.scopes[d].cache[k]
  {
    var f := FindRef(w, s, k);
    assert Filled(w, f.w, d, k);
  }

  /**
   * A descendant whose chain below the registering scope has not cached `k` sees the
   * new binding: lookups stay lazy until they first touch a key.
   */
  lemma {:induction false} UncachedDescendantSeesNewBinding(w: World, s: nat, k: Key, e: nat, d: nat)
    requires Valid(w) && s < |w.scopes| && e < |w.entries| && d < |w.scopes|
    requires s in Chain(w, d)
    requires forall u :: u in Chain(w, d) && u > s ==> k !in w.scopes[u].cache
    ensures var w' := AddBinding(w, s, k, e); Lookup(w', d, k) == Lookup(w', s, k)
    decreases d
  {
    var w' := AddBinding(w, s, k, e);
    if d != s {
      var ch := Chain(w, d);
      assert w.scopes[d].parent.Some?;
      var p := w.scopes[d].parent.value;
      assert ch == Chain(w, p) + [d];
      assert s in Chain(w, p);
      UncachedDescendantSeesNewBinding(w, s, k, e, p);
      assert w'.scopes[d] == w.scopes[d];
    }
  }

  /** The references this scope owns itself (`enclosingScope == this`). */
  function Owned(w: World, s: nat): map<Key, nat>
    requires s < |w.scopes|
  {
    map k | k in w.scopes[s].cache && w.scopes[s].cache[k].Ref? && w.scopes[s].cache[k].owner == s
      :: w.scopes[s].cache[k].entry
  }

  /** `GetAllBindings`: this scope's own bindings first, then the parent's for keys not yet listed. */
  function GetAllBindings(w: World, s: nat): (r: map<Key, nat>)
    requires ParentsBefore(w) && s < |w.scopes|
    ensures forall k :: k in Owned(w, s) ==> k in r && r[k] == Owned(w, s)[k]
    ensures w.scopes[s].parent.None? ==> r == Owned(w, s)
    decreases s
  {
    var rest := match w.scopes[s].parent
      case None => map[]
      case Some(p) => GetAllBindings(w, p);
    rest + Owned(w, s)
  }

  /** A key is listed exactly when some scope on the chain owns it. */
  lemma {:induction false} GetAllBindingsListsOwned(w: World, s: nat, k: Key)
    requires ParentsBefore(w) && s < |w.scopes|
    ensures k in GetAllBindings(w, s) <==> exists i :: 0 <= i < |Chain(w, s)| && k in Owned(w, Chain(w, s)[i])
    decreases s
  {
    var ch := Chain(w, s);
    var last := |ch| - 1;
    assert ch[last] == s;
    match w.scopes[s].parent
    case None =>
      assert ch == [s];
      assert GetAllBindings(w, s) == Owned(w, s);
      if k in Owned(w, s) {
        assert ch[0] == s && k in GetAllBindings(w, s);
        assert 0 <= 0 < |Chain(w, s)| && k in Owned(w, Chain(w, s)[0]);
      } else {
        forall i | 0 <= i < |ch| ensures k !in Owned(w, ch[i]) {
          assert ch[i] == s;
        }
      }
    case Some(p) =>
      GetAllBindingsListsOwned(w, p, k);
      var up := Chain(w, p);
      assert ch == up + [s];
      assert GetAllBindings(w, s) == GetAllBindings(w, p) + Owned(w, s);
      if k in Owned(w, s) {
        assert k in GetAllBindings(w, s);
        assert k in Owned(w, ch[last]);
      } else if k in GetAllBindings(w, p) {
        assert k in GetAllBindings(w, s);
        var i :| 0 <= i < |up| && k in Owned(w, up[i]);
        assert ch[i] == up[i];
        assert k in Owned(w, ch[i]);
      } else {
        assert k !in GetAllBindings(w, s);
        forall i | 0 <= i < |ch| ensures k !in Owned(w, ch[i]) {
          if i < |up| { assert ch[i] == up[i]; }
        }
      }
  }

  /** A listed key carries the entry of the nearest scope on the chain that owns it. */
  lemma {:induction false} GetAllBindingsIsNearestOwner(w: World, s: nat, k: Key)
    requires ParentsBefore(w) && s < |w.scopes|
    requires k in GetAllBindings(w, s)
    ensures exists i :: (0 <= i < |Chain(w, s)| && k in Owned(w, Chain(w, s)[i]) &&
                         GetAllBindings(w, s)[k] == Owned(w, Chain(w, s)[i])[k] &&
                         forall j :: i < j < |Chain(w, s)| ==> k !in Owned(w, Chain(w, s)[j]))
    decreases s
  {
    var ch := Chain(w, s);
    var last := |ch| - 1;
    assert ch[last] == s;
    match w.scopes[s].parent
    case None =>
      assert ch == [s];
      assert GetAllBindings(w, s) == Owned(w, s);
      assert k in Owned(w, ch[0]);
    case Some(p) =>
      var up := Chain(w, p);
      assert ch == up + [s];
      assert GetAllBindings(w, s) == GetAllBindings(w, p) + Owned(w, s);
      if k in Owned(w, s) {
        assert k in Owned(w, ch[last]);
      } else {
        GetAllBindingsIsNearestOwner(w, p, k);
        var i :| 0 <= i < |up| && k in Owned(w, up[i]) && GetAllBindings(w, p)[k] == Owned(w, up[i])[k] &&
                 forall j :: i < j < |up| ==> k !in Owned(w, up[j]);
        assert ch[i] == up[i];
        forall j | i < j < |ch| ensures k !in Owned(w, ch[j]) {
          if j < |up| { assert ch[j] == up[j]; }
        }
      }
  }
}
