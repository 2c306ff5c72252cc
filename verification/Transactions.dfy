// The states of a maintenance transaction.

module Transactions {
  datatype State = Precheck | Snapshot | Validated | Applied | Verified | Committed | RolledBack | Ambiguous | Failed

  predicate CanTransition(s: State, to: State) {
    match s
    case Precheck => to.Snapshot? || to.Failed?
    case Snapshot => to.Validated? || to.Failed?
    case Validated => to.Applied? || to.Failed?
    case Applied => to.Verified? || to.RolledBack? || to.Ambiguous? || to.Failed?
    case Verified => to.Committed? || to.RolledBack? || to.Ambiguous?
    case RolledBack | Committed | Ambiguous | Failed => false
  }

  predicate Terminal(s: State) { s in {RolledBack, Committed, Ambiguous, Failed} }

  // The terminal states are exactly those without a way out.
  lemma TerminalIsFinal(s: State)
    ensures Terminal(s) <==> forall to :: !CanTransition(s, to)
  {
    assert s.Precheck? || s.Snapshot? || s.Validated? || s.Applied? ==> CanTransition(s, Failed);
    assert s.Verified? ==> CanTransition(s, Committed);
  }

  class Transaction {
    var state: State

    constructor ()
      ensures state == Precheck
    {
      state := Precheck;
    }

    method Advance(to: State) returns (ok: bool)
      modifies this
      ensures ok <==> CanTransition(old(state), to)
      ensures state == if ok then to else old(state)
    {
      ok := CanTransition(state, to);
      if ok { state := to; }
    }
  }
}
