/**
 Nonces over any run of blocks, including blocks that fail half-way: every applied
 transaction carries its sender's next nonce, so none is applied twice.
 */
module Replay {
  import opened Base
  import opened Sums
  import opened Ledger
  import opened OrderIndependence

  /** The transactions that a run of blocks really applied, in order. */
  ghost function AppliedLog(w: World, blocks: seq<seq<Tx>>): seq<Tx>
    decreases |blocks|
  {
    if blocks == [] then []
    else
      var e := ExecuteBlock(w, blocks[0]);
      blocks[0][..e.applied] + AppliedLog(e.world, blocks[1..])
  }

  /** How many of these transactions `a` sent. */
  ghost function SentBy(log: seq<Tx>, a: Address): int {
    SumOver(log, Sends(a))
  }

  /** The accounts that a run leaves are those that its applied transactions lead to. */
  lemma {:induction false} LogExplainsAccounts(w: World, blocks: seq<seq<Tx>>)
    ensures AllApply(w.accounts, AppliedLog(w, blocks))
    ensures ExecuteChain(w, blocks).accounts == AccountsAfter(w.accounts, AppliedLog(w, blocks))
    decreases |blocks|
  {
    hide ExecuteBlock, ExecuteTx, MoveFunds, CheckTransaction;
    if blocks != [] {
      var e := ExecuteBlock(w, blocks[0]);
      var done := blocks[0][..e.applied];
      AppliedPrefix(w, blocks[0]);
      ExecuteBlockAccounts(w, done);
      if e.error.Some? {
        RefusedKeepsAccounts(ExecuteBlock(w, done).world, blocks[0][e.applied]);
      }
      LogExplainsAccounts(e.world, blocks[1..]);
      AllApplyAppend(w.accounts, done, AppliedLog(e.world, blocks[1..]));
    }
  }

  /** Each applied transaction carries its sender's starting nonce plus the number of its
      applied predecessors from that sender, plus one. */
  lemma {:induction false} NoncesConsecutive(w: World, blocks: seq<seq<Tx>>, i: nat)
    requires i < |AppliedLog(w, blocks)|
    ensures var log := AppliedLog(w, blocks);
            log[i].nonce == Wrap(GetAccount(w.accounts, log[i].from).nonce + SentBy(log[..i], log[i].from) + 1)
  {
    hide AppliedLog, ExecuteChain;
    LogExplainsAccounts(w, blocks);
    NextNonce(w.accounts, AppliedLog(w, blocks), i);
  }

  lemma NextNonce(m: Accounts, log: seq<Tx>, i: nat)
    requires i < |log| && AllApply(m, log)
    ensures log[i].nonce == Wrap(GetAccount(m, log[i].from).nonce + SentBy(log[..i], log[i].from) + 1)
  {
    hide AccountsAfter, MoveFunds, CheckTransaction, SumOver, Wrap;
    AllApplyAppend(m, log[..i], log[i..]);
    assert log == log[..i] + log[i..];
    var before := AccountsAfter(m, log[..i]);
    assert log[i].nonce == Plus(GetAccount(before, log[i].from).nonce, 1) by { CheckedNonce(before, log[i]); }
    BlockAccount(m, log[..i], log[i].from);
    WrapAbsorbs(GetAccount(m, log[i].from).nonce + SentBy(log[..i], log[i].from), 1);
  }

  lemma CheckedNonce(m: Accounts, tx: Tx)
    requires CheckTransaction(m, tx).None?
    ensures tx.nonce == Plus(GetAccount(m, tx.from).nonce, 1)
  {
  }

  /** And the number of sends is all that ever moves an account's nonce. */
  lemma NonceMovesOnlyBySending(w: World, blocks: seq<seq<Tx>>, a: Address)
    ensures GetAccount(ExecuteChain(w, blocks).accounts, a).nonce
         == Wrap(GetAccount(w.accounts, a).nonce + SentBy(AppliedLog(w, blocks), a))
  {
    hide AppliedLog, ExecuteChain, AllApply, AccountsAfter, SumOver, Wrap;
    LogExplainsAccounts(w, blocks);
    BlockAccount(w.accounts, AppliedLog(w, blocks), a);
  }

  /** The sends from one of `a`'s transactions to a later one. */
  lemma SendsBetween(log: seq<Tx>, i: nat, j: nat)
    requires i < j < |log|
    ensures SentBy(log[..j], log[i].from) == SentBy(log[..i], log[i].from) + SentBy(log[i..j], log[i].from)
    ensures 1 <= SentBy(log[i..j], log[i].from)
    ensures log[i].from == log[j].from ==> SentBy(log[i..j], log[i].from) < SentBy(log, log[i].from)
  {
    var a := log[i].from;
    SumOverAppend(log[..i], log[i..j], Sends(a));
    assert log[..j] == log[..i] + log[i..j];
    SumOverAppend(log[..j], log[j..], Sends(a));
    assert log == log[..j] + log[j..];
    CountNonNegative(log[..i], Sends(a));
    CountNonNegative(log[i..j][1..], Sends(a));
    CountNonNegative(log[j..][1..], Sends(a));
  }

  /** Two applied transactions of one sender carry the same nonce exactly when the sends
      from the one to the other fill whole rounds of the 64-bit counter. */
  lemma ReplayOnlyAfterWrap(w: World, blocks: seq<seq<Tx>>, i: nat, j: nat)
    requires i < j < |AppliedLog(w, blocks)|
    requires AppliedLog(w, blocks)[i].from == AppliedLog(w, blocks)[j].from
    ensures var log := AppliedLog(w, blocks);
            log[i].nonce == log[j].nonce <==> SentBy(log[i..j], log[i].from) % WORD == 0
  {
    hide AppliedLog, SentBy, GetAccount;
    var log := AppliedLog(w, blocks);
    var a := log[i].from;
    NoncesConsecutive(w, blocks, i);
    NoncesConsecutive(w, blocks, j);
    SendsBetween(log, i, j);
    WrapInjective(GetAccount(w.accounts, a).nonce + SentBy(log[..i], a) + 1, SentBy(log[i..j], a));
  }

  lemma WrapInjective(x: int, d: int)
    ensures Wrap(x) == Wrap(x + d) <==> d % WORD == 0
  {
  }

  /** Hence no (sender, nonce) pair is applied twice while a sender has at most 2^64
      applied transactions. */
  lemma {:induction false} NoReplay(w: World, blocks: seq<seq<Tx>>, i: nat, j: nat)
    requires i < j < |AppliedLog(w, blocks)|
    requires AppliedLog(w, blocks)[i].from == AppliedLog(w, blocks)[j].from
    requires SentBy(AppliedLog(w, blocks), AppliedLog(w, blocks)[i].from) <= WORD
    ensures AppliedLog(w, blocks)[i].nonce != AppliedLog(w, blocks)[j].nonce
  {
    hide AppliedLog, SentBy;
    ReplayOnlyAfterWrap(w, blocks, i, j);
    SendsBetween(AppliedLog(w, blocks), i, j);
  }
}
