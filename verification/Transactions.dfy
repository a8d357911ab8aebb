/** What every contract call has in common: it commits or it leaves no trace.

A panic in a Soroban contract rolls back every write of the call, so the model
gives each entry point the type `Txn`. `Require` is a panicking guard, to be
used with `:-` both in the functions that specify a call and in the methods
that carry it out.
 */
module Transactions {
  import opened Numeric

  /** Accounts and contracts share one address space. */
  type Address = nat
  type ProjectId = nat
  type Digest = nat

  datatype Option<+T> = None | Some(value: T)

  datatype Txn<+T> = Reverted | Committed(value: T) {
    predicate IsFailure() {
      Reverted?
    }

    function PropagateFailure<U>(): Txn<U>
      requires Reverted?
    {
      Reverted
    }

    function Extract(): T
      requires Committed?
    {
      value
    }
  }

  /** The outcome of a guard; it carries no value. */
  datatype Guard = Pass | Fail {
    predicate IsFailure() {
      Fail?
    }

    function PropagateFailure<U>(): Txn<U>
      requires Fail?
    {
      Reverted
    }
  }

  function Require(condition: bool): Guard {
    if condition then Pass else Fail
  }

  /** Checked `i128` arithmetic: a result out of range reverts the call. */
  function Checked(x: int): Txn<int> {
    if IsI128(x) then Committed(x) else Reverted
  }

  /** The call answered `r` and moved the storage from `before` to `after`,
  exactly as `spec` prescribes. */
  ghost predicate Settled<S, V>(r: Txn<V>, spec: Txn<S>, before: S, after: S) {
    if spec.Committed? then r.Committed? && after == spec.value else r.Reverted? && after == before
  }

  /** As `Settled`, for calls that also return a value. */
  ghost predicate Answered<S, V>(r: Txn<V>, spec: Txn<(S, V)>, before: S, after: S) {
    if spec.Committed? then r == Committed(spec.value.1) && after == spec.value.0
    else r.Reverted? && after == before
  }
}
