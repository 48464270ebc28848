/**
 Importing earlier exports. The join state and the ledger are exported and imported
 separately, each replacing its own part and nothing else, so the two imported
 blobs may come from different moments of the client's past.
 */
module Imports {
  import Join
  import Ledger
  import opened Client
  import opened ClientProps
  import Provenance

  /** `import_state` and `import_ledger_state`: the rebase guard and the ancestor cache stay as they are. */
  function Import(c: ClientState, local: Join.LocalState, ledger: Ledger.LedgerState): ClientState {
    c.(local := local, ledger := ledger)
  }

  /** No routing pin, balance or pending order. */
  predicate Unbound(st: Ledger.LedgerState) {
    st.pinned.None? && st.balance.None? && st.pending == []
  }

  /**
   The pair of a join state exported after `steps` and a ledger exported after
   `earlier` keeps the client bound exactly when the join state is attached or the
   ledger carries nothing of a parent.
   */
  lemma ImportedPairIsBound(env: Env, c: ClientState, steps: seq<Step>, earlier: seq<Step>)
    ensures Bound(Import(c, Run(env, steps).local, Run(env, earlier).ledger))
       <==> Run(env, steps).local.parent.Some? || Unbound(Run(env, earlier).ledger)
  {
    ReachableIsBound(env, steps);
    ReachableIsBound(env, earlier);
  }

  /** It does break: an old ledger export imported after leaving brings the routing pin of the parent left. */
  lemma OldLedgerUnbinds(env: Env, c: ClientState, joined: seq<Step>)
    requires Run(env, joined).ledger.pinned.Some?
    ensures Run(env, joined + [LeaveDone]).local.parent.None?
    ensures !Bound(Import(c, Run(env, joined + [LeaveDone]).local, Run(env, joined).ledger))
  {
    assert (joined + [LeaveDone])[..|joined|] == joined;
    ReachableIsBound(env, joined);
    ImportedPairIsBound(env, c, joined + [LeaveDone], joined);
  }

  /**
   A balance that an import brings was attested for the edge from the parent its
   ledger was exported under, whatever parent the imported join state names.
   */
  lemma ImportedBalance(env: Env, c: ClientState, steps: seq<Step>, earlier: seq<Step>) returns (i: nat)
    requires Import(c, Run(env, steps).local, Run(env, earlier).ledger).ledger.balance.Some?
    ensures Run(env, earlier).local.parent.Some? && i < |earlier|
    ensures Provenance.AttestedBy(env, Run(env, earlier[..i]), earlier[i],
                       Import(c, Run(env, steps).local, Run(env, earlier).ledger).ledger.balance.value,
                       Run(env, earlier).local.parent.value.node)
  {
    i := Provenance.BalanceProvenance(env, earlier);
  }

  /** Whatever pair was imported, the next applied approval binds the client again. */
  lemma ApprovalBindsAgain(env: Env, c: ClientState, steps: seq<Step>, earlier: seq<Step>, s: Step)
    requires Provenance.InstallsLink(env, Import(c, Run(env, steps).local, Run(env, earlier).ledger), s)
    ensures Bound(ApplyStep(env, Import(c, Run(env, steps).local, Run(env, earlier).ledger), s))
  {
    ReachableIsBound(env, earlier);
  }
}
