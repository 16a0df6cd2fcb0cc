# Ramify dependency injection, modelled in Dafny

Ramify hands view models to Unity views. The model covers three parts of it:

- **A DI container** (`DIContainer`):
  - It is a stack of binding scopes.
  - Each scope caches, per key, a reference to the binding entry that the key means there: its own entry, or the nearest ancestor's.
  - There are four kinds of entry: a single value, a sequence read by a cursor, a factory, and a conflict marker for a key bound twice in one scope.
  - `Resolve` and `Observe` follow the reference and hand out the value. `Observe` hands it out as a reactive cell.
  - A sequence moves its cursor only when it is read from outside the scope branch that last moved it. That is how sibling views each get the next element.
- **The reactive value** (`ReactiveValue`, `Subject`, `ObserverSubscription`): a last-value cell with an ordered observer list.
- **The view-tree visitor** (`View.ViewTreeVisitor`):
  - It walks a transform tree depth-first.
  - At a node with views, it enters one scope, injects each view not injected before, walks the children, calls the after-children hooks, and leaves the scope.
  - A static map records which visitor injected each view.
  - Views marked for injection later are flushed by `UpdateHandler` from each view's scope pointer.

## Layout of the Dafny modules

| Module | File | What it models |
|---|---|---|
| `Wrappers` | wrappers.dfy | `Option` and `Result` |
| `Errors` | errors.dfy | The exceptions of Runtime/Exceptions.cs, and the internal ones the container catches |
| `Reactive` | reactive.dfy | `ReactiveValue`, `Subject` and `ObserverSubscription` |
| `Arena` | arena.dfy | The shared state, a `World`. It is an arena of scopes, binding entries, reactive cells, the delivery log and the factory call count. The container is a head index plus the stack's counters. `Chain` and `Lookup` are the reference meaning of a key at a scope. |
| `Scopes` | scopes.dfy | `BindingScopeInfo`: the caching lookup, `AddBinding`, `GetAllBindings` |
| `Stacks` | stacks.dfy | `ScopeStack`, `ScopePointer`, `EnterScope` / `ExitScope` |
| `Entries` | entries.dfy | `SingleBindingEntry`, `SequenceBindingEntry`, `FactoryBindingEntry`, `ConflictedBindingEntry` |
| `Containers` | container.dfy | The `Bind*` / `Create*` family, `Resolve`, `Observe`, `TryResolve`, `TryObserve` |
| `Handouts` | handouts.dfy | The results and new cells a run of observing siblings is expected to get, as plain sequences |
| `Distribution` | distribution.dfy | How a sequence is dealt out to sibling scopes, resolving or observing |
| `Injection` | injection.dfy | `RecursiveInject`, the visitor map, `MarkForInjection` |
| `Flushing` | flush.dfy | `InstantiateView` and `UpdateHandler` |
| `Layouts` | layout.dfy | `View.Bind`, `BindMultiple`, `BindAll` |

## Model

| member | source | states |
|---|---|---|
| Reactive.NewCell | Runtime/Reactive.cs:12-14 | A new cell holds the given value and has no observers. |
| Reactive.OnNext | Runtime/Reactive.cs:16-21 | The cell takes the new value and keeps its observers. Each observer receives the value once, in subscription order. |
| Reactive.OnCompleted | Runtime/Reactive.cs:23-27 | The cell is unchanged. Each observer receives one completion, in subscription order. |
| Reactive.Subscribe | Runtime/Reactive.cs:29-33 | The observer is appended last under a fresh node. It alone receives the current value at once. |
| Reactive.Unlink | Runtime/Reactive.cs:60-62 | Removes the subscription's node only if it is still on the list, keeping the others in order. A node already removed gives NullReference. |
| Reactive.Dispose | Runtime/Reactive.cs:60-62 | Disposing succeeds exactly when the handle is still subscribed. The value is kept and the node is gone afterwards. A second disposal throws. |
| Reactive.Join | Runtime/Reactive.cs:41-44 | `Subject.Subscribe` appends the observer with a fresh node and delivers nothing. |
| Reactive.Emit | Runtime/Reactive.cs:46-50 | `Subject.OnNext` delivers the value to every observer, in subscription order. |
| Reactive.SubscribeThenDispose | Runtime/Reactive.cs:29-62 | Subscribing and then disposing the returned handle restores the cell. Only the node counter has moved. |
| Reactive.DisposedReceivesNothing | Runtime/Reactive.cs:16-62 | After disposal the node receives no further values. The others receive exactly what they would have received, in the same order. |
| Reactive.DisposeTwiceThrows | Runtime/Reactive.cs:60-62 | Disposing the same subscription twice throws NullReference. |
| Reactive.LateSubscriberSeesLatestOnly | Runtime/Reactive.cs:16-33 | A subscriber added after any run of `OnNext` calls receives only the last value published, or the initial value when there was none. |
| Arena.Chain | Runtime/DIContainer.cs:245-251 | The scopes from the root down to `s`. It ends at `s`, starts at a scope without a parent, and links each scope to its parent. |
| Arena.Lookup | Runtime/DIContainer.cs:256-263 | The reference meaning of a key at a scope: the nearest cached reference on the chain, or none. |
| Arena.ChainStable | Runtime/DIContainer.cs:340-344 | Adding scopes after an existing one never changes that scope's chain. |
| Arena.LookupAgree | Runtime/DIContainer.cs:256-263 | Two worlds whose caches agree on a key along a chain give the same lookup. |
| Scopes.FindRef | Runtime/DIContainer.cs:256-263 | `FindBindingReference` returns what `Lookup` means. It caches that answer at the scope and fills the caches on the way up. Scopes below are untouched. |
| Scopes.FilledKeepsLookups | Runtime/DIContainer.cs:256-263 | Filling caches along a chain never changes the lookup of any key at any scope. |
| Scopes.FindRefIsTransparent | Runtime/DIContainer.cs:256-272 | A lookup keeps the world valid and changes no lookup anywhere. Repeating it returns the same reference and world. |
| Scopes.AddBinding | Runtime/DIContainer.cs:274-283 | A key this scope does not own becomes owned by it with the new entry. A key it already owns is replaced by a new Conflicted entry. |
| Scopes.AddBindingFrame | Runtime/DIContainer.cs:274-283 | Adding a binding changes no other key. It also changes nothing at a scope whose chain avoids the binding scope. |
| Scopes.CachedDescendantIgnoresNewBinding | Runtime/DIContainer.cs:256-283 | A descendant that already cached the key keeps its old reference after an ancestor rebinds it. |
| Scopes.UncachedDescendantSeesNewBinding | Runtime/DIContainer.cs:256-283 | A descendant with no cached key between it and the binding scope sees the new binding. |
| Scopes.GetAllBindings | Runtime/DIContainer.cs:285-299 | A scope's own bindings are listed with its own entries, whatever its ancestors bind. A root scope lists exactly what it owns. |
| Scopes.GetAllBindingsListsOwned | Runtime/DIContainer.cs:285-299 | A key is listed exactly when some scope on the chain owns it. |
| Scopes.GetAllBindingsIsNearestOwner | Runtime/DIContainer.cs:285-299 | A listed key carries the entry of the nearest owning scope, so a child's binding shadows its parent's. |
| Stacks.AddScopeChain | Runtime/DIContainer.cs:340-344 | A pushed scope's chain is its parent's chain plus itself, or itself alone at the root. |
| Stacks.NewContainer | Runtime/DIContainer.cs:11-14 | A new container has one parentless root scope as head, with depth 1 and both counters at 0. |
| Stacks.EnterScope | Runtime/DIContainer.cs:20-24 | Pushes a child of the head whose id is the next sibling id. Depth grows by one and the sibling counter resets. The pointer returned captures the new scope and the stamp. |
| Stacks.EnterScopeChain | Runtime/DIContainer.cs:340-344 | The entered scope's chain is the old head's chain plus the new scope. |
| Stacks.ExitScope | Runtime/DIContainer.cs:346-351 | With a head, pops to its parent, lowers the depth, and sets the next sibling id to one past the popped id. Without a head it throws NullReference and changes nothing. |
| Stacks.ExitUndoesEnter | Runtime/DIContainer.cs:20-30 | Entering then exiting restores the container, except that the next sibling id has moved on by one. |
| Stacks.GetCount | Runtime/DIContainer.cs:357-364 | Counting scopes along the parent links gives the depth of the head's chain. |
| Stacks.ToContainer | Runtime/DIContainer.cs:311-313 | A pointer rebuilds a container whose head is the captured scope. Its depth is that scope's chain length, and it carries the captured stamp. |
| Stacks.UpFollowsChain | Runtime/DIContainer.cs:366-376 | Stepping up `n` parents reaches the scope `n` from the end of the chain. Stepping past the root gives none, and stepping further throws. |
| Stacks.Up | Runtime/DIContainer.cs:366-376 | Stepping up lands on the start or an ancestor of it. The only error is NullReference, and from no scope at all every step but zero throws. |
| Stacks.AncestorAt | Runtime/DIContainer.cs:366-376 | The indexer yields the head or an ancestor of it, or throws NullReference. At or past the top depth the loop does not run and it yields the head. |
| Stacks.AncestorAtIsChain | Runtime/DIContainer.cs:366-376 | The indexer at depth `d` is the `d`-th scope of the chain. At or past the top it is the head, at -1 none, and below that it throws. |
| Stacks.Siblings | Runtime/DIContainer.cs:20-30 | `n` enter/exit pairs give their scopes the ids `next`, `next+1`, and so on, and leave the container otherwise as it was. |
| Stacks.PointerRestoresStack | Runtime/DIContainer.cs:302-314 | A pointer taken at `EnterScope` rebuilds exactly the container `EnterScope` produced, in any later world. |
| Entries.NewSequence | Runtime/DIContainer.cs:450-457 | A new sequence entry has not been observed, and its cursor is before the first element. |
| Entries.MoveCurrent | Runtime/DIContainer.cs:517-529 | Inside the branch that last moved it, the cursor stays put. Outside it, the cursor advances and records the head's id and depth, and the stamp is bumped. Without a head it throws NullReference. |
| Entries.GetValue | Runtime/DIContainer.cs:403-575 | A single entry returns its value, or NoValue when it has none. A sequence moves its cursor and returns that element, or SequenceReachEnd past the end. A factory calls its function once. A conflicted entry throws ConflictedValue. |
| Entries.ObserveSequence | Runtime/DIContainer.cs:477-529 | The slot list is created on first use, one empty slot per value. The cursor and stamp end where `MoveCurrent` puts them. A filled slot at the cursor hands out its cell again and allocates nothing. An empty slot within the values gets a new cell holding that value, recorded in the slot. SequenceReachEnd is thrown exactly when the cursor is past the slots, or at an empty slot past the values. No other slot changes. Without a head it throws NullReference. |
| Entries.ObserveValue | Runtime/DIContainer.cs:408-575 | A single entry allocates its cell once and returns it every time after. A factory allocates a fresh cell on each call. An entry without a value throws NoValue. |
| Entries.Rebind | Runtime/DIContainer.cs:417-421 | A single entry takes the new value, and its cell, if any, delivers it to the cell's observers. A factory throws NotSupported. |
| Entries.RebindItem | Runtime/DIContainer.cs:493-496 | Replaces one element and pushes it to that slot's cell when the slot has one. An index out of range throws. A sequence never observed throws NullReference after the value is stored. |
| Entries.Republish | Runtime/DIContainer.cs:498-514 | Every existing slot cell from `j` on is set to the new value at its index, or to the default value past the new end. Other cells are untouched. |
| Entries.GrownSlots | Runtime/DIContainer.cs:498-514 | The slot list keeps its old cells and grows with empty slots up to the new length. |
| Entries.RebindAll | Runtime/DIContainer.cs:498-514 | The values are replaced, the slots are grown, and every observed cell now shows its new element. The log only grows. |
| Entries.FirstReadYieldsFirst | Runtime/DIContainer.cs:466-475 | The first read of a fresh sequence returns its first element, or SequenceReachEnd when it is empty, and bumps the stamp. |
| Entries.InBranch | Runtime/DIContainer.cs:520-528 | The branch test holds exactly when the recorded depth is on the stack and the indexer at that depth yields a scope with the recorded id. |
| Entries.Advance | Runtime/DIContainer.cs:520-528 | The cursor index moves on by one, and the values and cells are kept. With a head, the stamp is bumped and the same container is then inside the new branch. Without a head it throws NullReference. |
| Entries.MovedIsInBranch | Runtime/DIContainer.cs:517-529 | After a move, the same container is inside the entry's branch. |
| Entries.InBranchBelow | Runtime/DIContainer.cs:517-529 | A scope below one inside the branch is inside it too. |
| Entries.ReadInBranchIsStill | Runtime/DIContainer.cs:466-475 | A read from inside the branch changes nothing and returns the current element. |
| Entries.ReadAgainInBranch | Runtime/DIContainer.cs:466-529 | Reading again from the same scope or a scope below it repeats the previous answer. |
| Entries.SingleObserveIsMemoized | Runtime/DIContainer.cs:408-411 | Observing a single entry twice returns the same cell and changes nothing the second time. |
| Entries.ObservedRebindDelivers | Runtime/DIContainer.cs:408-421 | After observing a single entry, a `Rebind` updates that cell and delivers the value to its observers. |
| Entries.SequenceObserveInBranchIsMemoized | Runtime/DIContainer.cs:477-487 | Observing a sequence again within its branch returns the same cell and changes nothing. |
| Containers.NewEntry | Runtime/DIContainer.cs:32-89 | Each `Bind*`/`Create*` call makes its kind of entry. `Bind` makes a single entry with a value. `Create` makes one without. `BindSequence` makes a sequence with values, and `CreateSequenceBinding` one without. |
| Containers.Register | Runtime/DIContainer.cs:92-101 | Registering the keys keeps the world valid and its shape. It adds no cell or log entry, keeps every existing entry, and leaves the scopes created after the binding scope untouched. |
| Containers.RegisterBinds | Runtime/DIContainer.cs:92-106 | Each listed key becomes owned by the head. It refers to the new entry exactly when the scope did not own it and it is listed once; otherwise it is Conflicted. |
| Containers.RegisterFrame | Runtime/DIContainer.cs:92-106 | A key not listed, or a scope whose chain avoids the head, keeps its lookup. |
| Containers.Bind | Runtime/DIContainer.cs:32-106 | Binding appends exactly one new entry and returns its index. Without a head it throws NullReference and changes nothing. |
| Containers.BindShadowsOrConflicts | Runtime/DIContainer.cs:92-106 | The type key and each interface key resolve at the head to the new entry, or to a Conflicted entry when that key was already bound in the scope or listed twice. |
| Containers.BindFrame | Runtime/DIContainer.cs:92-106 | Binding changes no lookup for other keys, nor at scopes outside the head's subtree. |
| Containers.Translate | Runtime/DIContainer.cs:116-134 | The internal BindingNotFound, ConflictedValue and SequenceReachEnd errors become the public MissingViewModel, ConflictedViewModel and ViewModelExhausted errors for the key. Every other outcome passes through. |
| Containers.Resolve | Runtime/DIContainer.cs:116-134 | An unbound key throws MissingViewModel, and only then. Otherwise the result is what the entry's `GetValue` gives, translated. No internal error escapes. Without a head it throws NullReference. |
| Containers.Observe | Runtime/DIContainer.cs:136-154 | An unbound key throws MissingViewModel, and only then. A single entry without a value throws NoValue. A single entry with a value hands out its cell, allocated with the value on first use. A factory hands out a new cell holding a new product. A conflicted entry throws ConflictedViewModel. A sequence without values throws NoValue; otherwise its only error is ViewModelExhausted, and its cursor and slots behave as `ObserveMovesCursor` states. No internal error escapes. Without a head it throws NullReference. |
| Containers.TryResolve | Runtime/DIContainer.cs:166-186 | An unbound key gives none, and only then. MissingViewModel is never thrown. |
| Containers.TryObserve | Runtime/DIContainer.cs:198-218 | An unbound key gives none, and only then. MissingViewModel is never thrown. |
| Containers.TryResolveAgreesWithResolve | Runtime/DIContainer.cs:166-186 | `TryResolve` is `Resolve` with MissingViewModel turned into none. The state effects are identical. |
| Containers.TryObserveAgreesWithObserve | Runtime/DIContainer.cs:198-218 | `TryObserve` is `Observe` with MissingViewModel turned into none. The state effects are identical. |
| Containers.ResolveMovesCursor | Runtime/DIContainer.cs:466-529 | Resolving a sequence from outside its branch advances the cursor and returns the next element. From inside, it returns the current one and changes nothing. |
| Containers.ResolveKeepsLookups | Runtime/DIContainer.cs:116-134 | Resolving changes no lookup of any key at any scope. |
| Containers.ObserveMovesCursor | Runtime/DIContainer.cs:477-529 | Observing a sequence moves its cursor as resolving does. Inside the cursor's branch the cursor and stamp stay. Outside it the cursor advances, records the head, and the stamp is bumped. Then it hands out the cell of the cursor's slot: the cell already there, or a new cell holding that element. Past the end it throws ViewModelExhausted. No other entry or slot changes. |
| Containers.ObserveKeepsLookups | Runtime/DIContainer.cs:136-139 | Observing changes no lookup of any key at any scope. |
| Distribution.Branch | Runtime/DIContainer.cs:20-30 | One sibling's enter, resolve and exit leaves the same head and depth, and advances the sibling id by one. |
| Distribution.Deal | Runtime/DIContainer.cs:20-30 | `n` siblings give `n` results, with the head and depth unchanged. |
| Distribution.EnteredSeesHead | Runtime/DIContainer.cs:256-263 | A freshly entered scope sees every key as its parent does. |
| Distribution.EnteredIsOutsideBranch | Runtime/DIContainer.cs:517-529 | A cursor moved by an earlier sibling is outside the branch of the next sibling's scope. |
| Distribution.SiblingResolvesNext | Runtime/DIContainer.cs:466-529 | A sibling's resolution advances the cursor and returns the next element. |
| Distribution.BranchTakesNext | Runtime/DIContainer.cs:466-529 | After a sibling, the cursor has moved by one and the entry is ready for the next sibling. |
| Distribution.DealInOrder | Runtime/DIContainer.cs:466-529 | With the cursor at `j-1`, the `t`-th sibling gets element `j+t`, or ViewModelExhausted past the end. |
| Distribution.BoundSequenceIsDealt | Runtime/DIContainer.cs:61-71 | After `BindSequence`, sibling `t` receives the `t`-th value, and siblings past the last value are told the sequence is exhausted. |
| Distribution.ObserveBranch | Runtime/DIContainer.cs:20-30 | One observing sibling's enter, observe and exit leaves the same head and depth, and advances the sibling id by one. |
| Distribution.ObserveDeal | Runtime/DIContainer.cs:20-30 | `n` observing siblings give `n` results, with the head and depth unchanged. |
| Distribution.SiblingObservesNext | Runtime/DIContainer.cs:477-529 | In a sibling's new scope, observing advances the cursor to the next slot, records the sibling's scope, and hands out that slot's cell. |
| Distribution.ObserveBranchTakesNext | Runtime/DIContainer.cs:477-487 | A sibling observing a dealt sequence gets the next new cell, or ViewModelExhausted past the end. The slots after it stay empty for the next sibling. |
| Distribution.ObserveBranchAddsCell | Runtime/DIContainer.cs:477-487 | That sibling adds exactly one cell, holding the next element, or none past the end. |
| Distribution.ObserveDealInOrder | Runtime/DIContainer.cs:477-529 | With the cursor at `j-1` and the later slots empty, the `t`-th observing sibling gets the `t`-th new cell while the values last, then ViewModelExhausted. |
| Distribution.ObserveDealAddsCells | Runtime/DIContainer.cs:477-529 | The same siblings add exactly one new cell per value they read, holding that value, in order. |
| Distribution.BoundIsReady | Runtime/DIContainer.cs:61-65 | A freshly bound sequence is what its key means from the head, with its cursor unmoved and no slot list. |
| Distribution.BoundSequenceIsObserved | Runtime/DIContainer.cs:61-65 | After `BindSequence`, observing sibling `t` is handed a new cell holding the `t`-th value. Siblings past the last value are told the sequence is exhausted. Exactly one cell per value read is added, in order. |
| Injection.Remove | Runtime/View.cs:145 | Removing a view from the marked set removes that view only. |
| Injection.MarkForInjection | Runtime/View.cs:195-199 | Adds the view to the marked set and changes nothing else. |
| Injection.GetVisitor | Runtime/View.cs:201-204 | Some visitor exactly when the map has the view, and it is the visitor mapped to it. |
| Injection.RunScript | Runtime/View.cs:11-14 | A view's calls keep the head and depth. An empty script does nothing. |
| Injection.ThrowingScriptFails | Runtime/View.cs:11-14 | A script containing a throwing call fails. |
| Injection.InjectOne | Runtime/View.cs:133-143 | A view not injected by this visitor is mapped to it and removed from the marked set, even when its injection throws. |
| Injection.InjectFailureIsIsolated | Runtime/View.cs:133-143 | A throwing injection is logged, leaves every pointer unchanged, and calls `OnPostInject` only if `OnInject` returned. |
| Injection.InjectSuccessSetsPointer | Runtime/View.cs:133-143 | A successful injection sets the view's pointer to the node's scope. It logs the inject and post-inject calls and nothing else. |
| Injection.Step | Runtime/View.cs:128-145 | One turn of the loop leaves its view mapped to this visitor and unmarked, and keeps the head and depth. |
| Injection.StepInjections | Runtime/View.cs:128-143 | One turn starts `OnInject` for its view exactly when this visitor had not injected it. |
| Injection.InjectViews | Runtime/View.cs:127-146 | The loop keeps the walker valid, keeps the head and depth, and counts at most as many views as the node has. |
| Injection.InjectViewsMarksAll | Runtime/View.cs:127-146 | After the loop, every view of the node is mapped to this visitor and out of the marked set. |
| Injection.InjectViewsCounts | Runtime/View.cs:127-146 | The count of views injected before reaches the number of views exactly when all were injected before. The walker is then unchanged except for the marked set. |
| Injection.AfterListIsFresh | Runtime/View.cs:127-146 | The after-list holds exactly the views not injected before, including those whose injection threw. |
| Injection.AfterListInOrder | Runtime/View.cs:127-146 | The after-list is, in order, the views that `WasViewInjected` lets through. A repeated view goes on it once. |
| Injection.InjectViewsInOrder | Runtime/View.cs:127-146 | The loop starts `OnInject` for the views in the order of the after-list, once each. |
| Injection.InjectViewsMapsOnly | Runtime/View.cs:136 | The loop maps to this visitor only views of the node. |
| Injection.InjectViewsFresh | Runtime/View.cs:127-146 | With distinct views, none injected by this visitor before, the after-list is all the views, in order. |
| Injection.InjectViewsPointers | Runtime/View.cs:127-146 | The loop only sets pointers to the node's scope. Every other pointer is kept. |
| Injection.AfterEvents | Runtime/View.cs:159-167 | The hooks log at least one event per view, and only after-children calls and logged exceptions. |
| Injection.AfterEventsHookEachOnce | Runtime/View.cs:159-167 | Every view of the after-list gets its after-children hook once, in order. |
| Injection.HooksInInjectionOrder | Runtime/View.cs:127-167 | The after-children hooks run in the order in which the views' `OnInject` started. |
| Injection.Skipped | Runtime/View.cs:109-119 | A node is skipped only when it has options other than Normal. Ignore always skips it. An active root is skipped by Ignore alone. |
| Injection.Leave | Runtime/View.cs:169 | Leaving exits the node's scope and logs it. |
| Injection.Open | Runtime/View.cs:124-146 | A node's scope is a new child of the head, with the next sibling id, and it becomes the head. |
| Injection.Finish | Runtime/View.cs:148-169 | Finishing a node returns the head to the node scope's parent, one level up. |
| Injection.Visit | Runtime/View.cs:108-170 | The walk keeps the world valid and keeps the container's head and depth. It only grows the visitor map with this visitor's views. A skipped node changes nothing. |
| Injection.VisitAll | Runtime/View.cs:155-157 | Walking the children in order keeps the container's head and depth. The order of the walk is stated by VisitAllPreOrder. |
| Injection.OpenInOrder | Runtime/View.cs:124-146 | Opening a node starts `OnInject` for the views of its after-list, in order. |
| Injection.OpenFresh | Runtime/View.cs:124-152 | With distinct views, none injected by this visitor before, every view goes on the after-list and the node is not cut short. |
| Injection.VisitMapsOnly | Runtime/View.cs:108-170 | A walk maps to this visitor only views of nodes it does not skip. |
| Injection.VisitPreOrder | Runtime/View.cs:108-170 | On a tree whose walked views are distinct and not yet injected by this visitor, the walk starts `OnInject` in pre-order: a node's views in order, then each child's subtree in order. |
| Injection.FinishPreOrder | Runtime/View.cs:155-169 | After a node's views, the children's subtrees are injected in pre-order, and the hooks and exit inject nothing. |
| Injection.VisitAllPreOrder | Runtime/View.cs:155-157 | The children are walked one after another, each subtree in pre-order. |
| Injection.OpenCounts | Runtime/View.cs:124-152 | When every view was injected before, opening only enters the scope. |
| Injection.OpenMarks | Runtime/View.cs:127-146 | After opening, all the node's views are mapped to this visitor and none is marked. |
| Injection.OpenAfterAndPointers | Runtime/View.cs:124-146 | Opening logs the enter first. The after-list is exactly the views not injected before. New pointers point at the node's scope. |
| Injection.VisitDone | Runtime/View.cs:108-170 | After a walk, the tree is done for the visitor: every non-skipped view is mapped to it. |
| Injection.DoneGrows | Runtime/View.cs:97 | A done tree stays done as the map only grows for this visitor. |
| Injection.ShortCircuit | Runtime/View.cs:148-152 | When all of a node's views were injected before, the walk enters and exits its scope and skips the children and hooks. |
| Injection.DoneIsQuiet | Runtime/View.cs:108-170 | Walking a done node injects nothing, maps nothing, and sets no pointer. |
| Injection.SecondWalkInjectsNothing | Runtime/View.cs:108-170 | A second walk of the same tree by the same visitor injects nothing. |
| Injection.NodeOrder | Runtime/View.cs:124-169 | The node's scope is entered first and left last. Just before leaving come the after-children hooks of exactly the views not injected before. |
| Injection.FinishOrder | Runtime/View.cs:155-169 | Children come before the after-children hooks, and the exit comes last. |
| Injection.NodeScope | Runtime/View.cs:124 | A node with views gets a new scope under the head, with the next sibling id. |
| Injection.NodeViewsShareScope | Runtime/View.cs:136-139 | Every pointer the walk sets for a node's views points at the node's scope, with the current stamp. |
| Flushing.Instantiate | Runtime/View.cs:80-84 | A parent view is marked only for the visitor that the map assigns it to. |
| Flushing.Flush | Runtime/View.cs:180-186 | Flushing keeps the world valid, and the only error it can throw is NullReference. |
| Flushing.FlushWithPointersSucceeds | Runtime/View.cs:180-193 | A flush over views that all have pointers runs to the end. |
| Flushing.FlushCompletes | Runtime/View.cs:180-186 | After a successful flush, the children of every flushed view are done for this visitor. |
| Flushing.Pass | Runtime/View.cs:178-188 | One round swaps the two sets, flushes, and clears the cached set. Only views that were cached can be marked afterwards. |
| Flushing.PassCompletes | Runtime/View.cs:178-188 | A round whose marked views all have pointers succeeds, and leaves their children done. |
| Flushing.UpdateHandler | Runtime/View.cs:177-189 | On return, nothing is marked. The only throw is NullReference. |
| Flushing.UpdateHandlerSucceeds | Runtime/View.cs:177-193 | When every marked or cached view has a pointer, the handler returns normally. |
| Flushing.UpdateHandlerCompletes | Runtime/View.cs:177-189 | On a normal return, the children of every originally marked view are done for this visitor. |
| Flushing.PointerlessViewThrows | Runtime/View.cs:191-193 | A first marked view with no pointer makes the handler throw NullReference before any walk, with the two sets left swapped. |
| Layouts.BindEach | Runtime/View.cs:62-64 | Binding a list of components appends entries and keeps the old ones. It succeeds exactly when there is a head or nothing to bind. |
| Layouts.BindEachFrame | Runtime/View.cs:62-64 | Keys no component lists keep their lookups. |
| Layouts.BindEachOwns | Runtime/View.cs:62-64 | A key listed by exactly one component, and not yet owned, resolves at the head to that component's value. |
| Layouts.BindEachConflicts | Runtime/View.cs:62-64 | A key listed twice, or listed once but already owned, or already conflicted, is Conflicted at the head. |
| Layouts.BindEachKeepsOwnership | Runtime/View.cs:62-64 | A key that is unbound or owned by the head stays so. |
| Layouts.Layout | Runtime/View.cs:56-69 | Creates a root scope and a child scope. The container's head is the child, at depth 2. |
| Layouts.RootLookup | Runtime/View.cs:62-64 | In the root scope, a key is bound exactly when some GameObject component lists it. |
| Layouts.LayoutShadows | Runtime/View.cs:66-69 | An additional view model listed once is owned by the child scope. It shadows a GameObject component of the same type. |
| Layouts.LayoutInherits | Runtime/View.cs:66-69 | A key that no additional view model lists reads, from the child scope, what the root binds. |
| Layouts.FlatLayoutConflicts | Runtime/View.cs:56-69 | Binding both lists in one scope would make a key they share Conflicted. |
| Layouts.Inject | Runtime/View.cs:104-106 | The walk from the root view keeps the container's head and depth. |
| Layouts.BindAll | Runtime/View.cs:56-74 | After the walk and the final `ExitScope`, the container's head is the root scope, at depth 1. |
| Layouts.BindAllNesting | Runtime/View.cs:56-74 | The root view's scope is a child of the additional-models scope, which is a child of the root scope. |
| Layouts.BindSingle | Runtime/View.cs:34-43 | `View.Bind` leaves the container at its root scope, at depth 1. |
| Layouts.BindMultiple | Runtime/View.cs:45-54 | `BindMultiple` pops the root scope at the end, leaving no head and depth 0. |

## Left out

- **Integer width.** Stamps, scope ids and counters are unbounded integers. The 32-bit wrap-around of C# `int` is not modelled, because it needs about 2^31 scope entries.
- **`_stackstamp` is inert.** `SequenceBindingEntry._stackstamp` is compared in `MoveCurrent` but never assigned. The model keeps the field and the comparison as written. So the stamp guard never stops the cursor, and the branch test alone decides.
- **NoValue passes through untranslated.** `Resolve` and `Observe` translate only BindingNotFound, ConflictedValue and SequenceReachEnd. An entry without a value, from `Create` or `CreateSequenceBinding`, throws the internal NoValue exception to the caller. The model follows the code here. So a caller resolving a key bound with `Create` sees NoValue, not MissingViewModel.
- **Exception messages.** Their text and the type names in them are left out. Errors carry only the key.
- **Editor-only diagnostics.** The `UNITY_EDITOR` parts are left out: `onResolveFor`, `currentView`, `SetDefaultSource`, `onBind` and `DumpInfo`. They are editor tooling that does not affect the container's state.
- **Copy constructor.** The `SequenceBindingEntry` copy constructor is not used by the container's operations.
- **`FactoryBindingEntry._observedValue`.** The field is declared but never used. Each `ObserveValue` call makes a new cell, as the model does.
- **Rebind on conflicts and sequences.** `Rebind` is modelled for single and factory entries only. `ConflictedBindingEntry` has no `Rebind`. A sequence uses `RebindItem` / `RebindAll`.
- **`MoveCurrent` with a null head.** The model reports NullReference, which is what dereferencing the null scope throws.
- **Types and interfaces.** Reflection (`TypeMap`, `GetInterfaces`) is left out. A binding's interface keys are passed in as the list `ifs`.
- **`View<TViewModel>` and `ContainerView`.** Their `OnInject` (Runtime/View.cs:257-275, 343-346) makes container calls that a script can express: `Observe` or `TryObserve` of the view model, `CreateBinding` for each child view-model type, and `CreateSequenceBinding` in `ContainerView`. A script is fixed in advance, though. The source picks the child types from the observed value, and it disables the view when `TryObserve` finds nothing.
- **What `OnPostInject` does to cells and entries.** In `View<TViewModel>`, `OnPostInject` (Runtime/View.cs:278-280) subscribes to the observed cell. The cell replays its current value at once into `AssignNewViewModel` (234-250). That rebinds each child binding, and in an active `ContainerView` it calls `RebindAll` on the child sequence (348-350). None of these effects is modelled: the model's `OnPostInject` only returns or throws.
- **Entries.GetValue:** a factory entry's delegate is assumed to return. If `_factory()` (Runtime/DIContainer.cs:540-542) throws, nothing in the entry or in `Resolve` catches it, and the exception reaches the caller untranslated. The model always returns the delegate's product.
- **Entries.ObserveValue:** the same assumption holds for `_factory()` at Runtime/DIContainer.cs:544-546. If it throws, no cell is allocated and the exception reaches the caller. The model always allocates the cell.
- **Containers.Resolve:** for a factory binding it inherits the assumption above. An exception thrown by the delegate is not among the errors it reports.
- **Containers.Observe:** the same holds for a factory binding here.
- **What a view's `OnInject` may do.** It is a script of container calls on the current scope: bind, resolve, observe, or throw. A view cannot push or pop scopes itself.
- **After-children hooks.** An exception from `OnAfterInjectChildren` is only logged. The model records it as an event and goes on, as the code does.
- **The transform tree.** It is a `Node` tree. `UpdateHandler` gets each view's children as a parameter `kids(v)`, because the model has no scene graph.
- **`HashSet` order.** The marked sets are sequences in insertion order. `HashSet<View>` iteration order is unspecified, and no property here depends on it.
- **Scheduling.** `ViewUpdateManager` is left out: its per-frame scheduling, its cap, and `AddHandler`. `UpdateHandler` is modelled as one call.
- **Marks made during a walk.** `InstantiateView` (Runtime/View.cs:80-84) marks the calling view for its visitor. A view's `OnInject`, `OnPostInject` or `OnAfterInjectChildren` may call it during any walk: from `Inject`, from `BindAll`, or from an `UpdateHandler` round. A mark made by `OnInject` or `OnPostInject` lands after the loop has already added the view, and one made by `OnAfterInjectChildren` lands after the loop has removed it, so the view stays marked after `RecursiveInject` returns. The model's hooks only make container calls, return or throw, so no walk marks a view, and each `UpdateHandler` round flushes only what was marked before it started.
- **Observer reentrancy.** An observer that subscribes or disposes while being notified is left out. Observers are identities, and deliveries are a log.
- **Layouts.BindAll:** states only the final head and depth, not the stamp or next sibling id. A sequence read during the walk may bump the stamp, and the sibling counter depends on the tree.
