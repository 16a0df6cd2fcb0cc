/**
 * The exceptions the injection core raises or lets escape (Runtime/Exceptions.cs),
 * together with the .NET runtime exceptions its code paths can throw.
 */
module Errors {

  /** A binding key: the .NET `Type` a view model is registered or requested under. */
  type Key = nat

  datatype Error =
    // internal exceptions, thrown by binding entries and scopes
    | NoValue
    | BindingNotFound
    | ConflictedValue
    | SequenceReachEnd
    // public exceptions, produced by the container's translation of the internal ones
    | MissingViewModel(key: Key)
    | ConflictedViewModel(key: Key)
    | ViewModelExhausted(key: Key)
    // runtime exceptions of the code paths that are modelled
    | StateDiscrepancy    // InvalidOperationException raised by the sequence cursor
    | NotSupported
    | NullReference
    | IndexOutOfRange
    // an exception raised by a view's own code
    | Thrown(code: nat)

  /** The three exceptions a caller of Resolve/Observe is meant to see. */
  predicate IsPublic(e: Error) {
    e.MissingViewModel? || e.ConflictedViewModel? || e.ViewModelExhausted?
  }

  /** Exceptions that never leave the container: Resolve and Observe catch them. */
  predicate IsCaughtInternally(e: Error) {
    e.BindingNotFound? || e.ConflictedValue? || e.SequenceReachEnd?
  }
}
