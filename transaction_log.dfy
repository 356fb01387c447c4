/**
 * The transaction repository as an append-only sequence of records:
 * lookup by transactionId, the derived child link, the invariants the
 * service keeps on the log, and what appending one record does to them.
 */
module TransactionLog {
  import opened Wrappers
  import opened Codes
  import opened Transactions

  /** findByTransactionId: the first record carrying `id`, or None when no record does. */
  function FindTransaction(log: seq<Transaction>, id: TxId): (r: Option<Transaction>)
    ensures r.Some? ==> r.value in log && r.value.transactionId == id
    ensures r.None? <==> forall t :: t in log ==> t.transactionId != id
    ensures r.Some? ==>
              exists k :: 0 <= k < |log| && log[k] == r.value && forall j :: 0 <= j < k ==> log[j].transactionId != id
  {
    if log == [] then None
    else if log[0].transactionId == id then Some(log[0])
    else FindTransaction(log[1..], id)
  }

  /** No record of the log carries `id` yet. */
  predicate IsFresh(log: seq<Transaction>, id: TxId)
  {
    FindTransaction(log, id).None?
  }

  /** The record with transactionId `id` has a non-null child: some record names it as parent. */
  predicate HasChild(log: seq<Transaction>, id: TxId)
  {
    exists i :: 0 <= i < |log| && log[i].parent == Some(id)
  }

  ghost predicate UniqueIds(log: seq<Transaction>)
  {
    forall i, j :: 0 <= i < j < |log| ==> log[i].transactionId != log[j].transactionId
  }

  /** The parent link is one-to-one: no two records name the same parent. */
  ghost predicate AtMostOneChild(log: seq<Transaction>)
  {
    forall i, j :: 0 <= i < j < |log| && log[i].parent.Some? ==> log[i].parent != log[j].parent
  }

  /**
   * `c` is a successful cancel of a record already in `earlier`, on the same
   * account, for the same amount, and no more than `oneYear` after it.
   */
  predicate IsReversal(earlier: seq<Transaction>, c: Transaction, oneYear: nat)
    requires c.parent.Some?
  {
    && c.transactionType == Cancel
    && c.transactionResultType == S
    && var original := FindTransaction(earlier, c.parent.value);
    && original.Some?
    && original.value.account == c.account
    && original.value.amount == c.amount
    && c.transactedAt - oneYear <= original.value.transactedAt
  }

  /** Only successful cancels carry a parent, and each reverses a record written before it. */
  ghost predicate ParentsLinked(log: seq<Transaction>, oneYear: nat)
  {
    forall i :: 0 <= i < |log| && log[i].parent.Some? ==> IsReversal(log[..i], log[i], oneYear)
  }

  ghost predicate LogWellFormed(log: seq<Transaction>, oneYear: nat)
  {
    UniqueIds(log) && AtMostOneChild(log) && ParentsLinked(log, oneYear)
  }

  /** The total amount the log has moved the balance of account `id` by. */
  ghost function Net(log: seq<Transaction>, id: AccountId): int
  {
    if log == [] then 0 else Net(log[..|log| - 1], id) + Effect(log[|log| - 1], id)
  }

  /** The balance snapshot of the latest record of account `id`, if there is one. */
  ghost function LatestSnapshot(log: seq<Transaction>, id: AccountId): Option<int>
  {
    if log == [] then None
    else if log[|log| - 1].account == id then Some(log[|log| - 1].balanceSnapshot)
    else LatestSnapshot(log[..|log| - 1], id)
  }

  /** A saved record is found by its id afterwards, and every other lookup is as before. */
  lemma {:induction false} FindAfterAppend(log: seq<Transaction>, r: Transaction, id: TxId)
    ensures FindTransaction(log + [r], id) ==
      if FindTransaction(log, id).Some? then FindTransaction(log, id)
      else if r.transactionId == id then Some(r)
      else None
  {
    if log == [] {
      assert log + [r] == [r];
    } else {
      assert (log + [r])[1..] == log[1..] + [r];
      FindAfterAppend(log[1..], r, id);
    }
  }

  /**
   * The child link of a well-formed log is one-to-one: a record that has a
   * child is in the log, and exactly one record names it as parent.
   */
  lemma ChildIsUnique(log: seq<Transaction>, oneYear: nat, id: TxId)
    requires LogWellFormed(log, oneYear) && HasChild(log, id)
    ensures FindTransaction(log, id).Some?
    ensures exists k :: 0 <= k < |log| && log[k].parent == Some(id) &&
                        forall j :: 0 <= j < |log| && j != k ==> log[j].parent != Some(id)
  {
    var k :| 0 <= k < |log| && log[k].parent == Some(id);
    assert IsReversal(log[..k], log[k], oneYear);
    var original := FindTransaction(log[..k], id).value;
    assert original in log[..k];
    assert original in log;
    forall j | 0 <= j < |log| && j != k
      ensures log[j].parent != Some(id)
    {
      if j < k {
        assert log[j].parent != log[k].parent;
      }
    }
  }

  /** Once a record naming `r.parent` as parent is appended, that parent has a child. */
  lemma ChildAfterAppend(log: seq<Transaction>, r: Transaction)
    requires r.parent.Some?
    ensures HasChild(log + [r], r.parent.value)
  {
    assert (log + [r])[|log|] == r;
  }

  /** Appending keeps HasChild for every record that already had a child. */
  lemma ChildStaysAfterAppend(log: seq<Transaction>, r: Transaction, id: TxId)
    requires HasChild(log, id)
    ensures HasChild(log + [r], id)
  {
    var i :| 0 <= i < |log| && log[i].parent == Some(id);
    assert (log + [r])[i] == log[i];
  }

  /**
   * Appending a record with a fresh id keeps the log well formed, provided a
   * record with a parent does not give that parent a second child and
   * reverses a record already in the log.
   */
  lemma AppendKeepsWellFormed(log: seq<Transaction>, r: Transaction, oneYear: nat)
    requires LogWellFormed(log, oneYear)
    requires IsFresh(log, r.transactionId)
    requires r.parent.Some? ==> !HasChild(log, r.parent.value) && IsReversal(log, r, oneYear)
    ensures LogWellFormed(log + [r], oneYear)
  {
    var log' := log + [r];
    assert log'[..|log|] == log;
    forall i | 0 <= i < |log|
      ensures log'[i] == log[i] && log'[..i] == log[..i]
    {
    }
    assert r in log' && r == log'[|log|];
    forall i | 0 <= i < |log|
      ensures log'[i].transactionId != r.transactionId
    {
      assert log[i] in log;
    }
    forall i | 0 <= i < |log| && log'[i].parent.Some?
      ensures log'[i].parent != r.parent
    {
      if r.parent.Some? {
        assert !(0 <= i < |log| && log[i].parent == Some(r.parent.value));
      }
    }
  }

  /** What one appended record does to the running total and to the latest snapshot of every account. */
  lemma AppendEffects(log: seq<Transaction>, r: Transaction)
    ensures forall id :: Net(log + [r], id) == Net(log, id) + Effect(r, id)
    ensures forall id :: LatestSnapshot(log + [r], id) ==
                         if r.account == id then Some(r.balanceSnapshot) else LatestSnapshot(log, id)
  {
  }
}
