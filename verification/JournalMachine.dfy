/** The journal object. */
module JournalMachine {
  import opened Wrappers
  import opened Journal

  class JournalFile {
    var entries: seq<Entry>
    var nextSeq: nat
    var committedSeq: nat

    constructor ()
      ensures entries == [] && nextSeq == 1 && committedSeq == 0
    {
      entries, nextSeq, committedSeq := [], 1, 0;
    }

    method BeginTxn() returns (txn: nat)
      modifies this`entries, this`nextSeq
      ensures txn == old(nextSeq) && nextSeq == old(nextSeq) + 1
      ensures entries == old(entries) + [Entry(txn, Begin, 0, [])]
    {
      txn := nextSeq;
      nextSeq := nextSeq + 1;
      entries := entries + [Entry(txn, Begin, 0, [])];
    }

    method Append(txn: nat, op: JournalOp, target: nat, data: seq<nat>)
      modifies this`entries
      ensures entries == old(entries) + [Entry(txn, op, target, data)]
    {
      entries := entries + [Entry(txn, op, target, data)];
    }

    method CommitTxn(txn: nat)
      modifies this`entries, this`committedSeq
      ensures entries == old(entries) + [Entry(txn, Commit, 0, [])] && committedSeq == txn
    {
      entries := entries + [Entry(txn, Commit, 0, [])];
      committedSeq := txn;
    }

    /** A writer that keeps to itself: one transaction from begin to commit or abandonment. */
    method Write(t: Txn) returns (txn: nat)
      modifies this
      ensures txn == old(nextSeq) && nextSeq == old(nextSeq) + 1
      ensures entries == old(entries) + Block(txn, t)
      ensures committedSeq == if t.committed then txn else old(committedSeq)
    {
      txn := BeginTxn();
      ghost var started := entries;
      for i := 0 to |t.changes|
        invariant nextSeq == old(nextSeq) + 1 && committedSeq == old(committedSeq)
        invariant entries + ChangeEntries(txn, t.changes[i..]) == started + ChangeEntries(txn, t.changes)
      {
        var c := t.changes[i];
        Append(txn, c.op, c.target, c.data);
        assert t.changes[i..][1..] == t.changes[i + 1..];
        assert [Entry(txn, c.op, c.target, c.data)] + ChangeEntries(txn, t.changes[i + 1..]) ==
          ChangeEntries(txn, t.changes[i..]);
      }
      assert entries == started + ChangeEntries(txn, t.changes);
      if t.committed {
        CommitTxn(txn);
      }
      assert entries == old(entries) + Block(txn, t);
    }

    /** The loop over the log; the list of gathered positions is kept as the code keeps it. */
    method Replay() returns (count: nat)
      ensures count == |ReplayAll(entries).applied|
    {
      count := 0;
      var currentTxn: Option<nat> := None;
      var txnEntries: seq<nat> := [];
      ghost var applied: seq<Applied> := [];
      for i := 0 to |entries|
        invariant count == |applied|
        invariant ReplayAll(entries[..i]) == Journal.Replay.Replay(currentTxn, txnEntries, applied)
      {
        ReplaySnoc(entries, i);
        var e := entries[i];
        match e.op {
          case Begin =>
            currentTxn := Some(e.txn);
            txnEntries := [i];
          case Commit =>
            if currentTxn == Some(e.txn) {
              applied := applied + [Applied(e.txn, txnEntries)];
              count := count + 1;
              currentTxn := None;
            }
          case _ =>
            if currentTxn.Some? {
              txnEntries := txnEntries + [i];
            }
        }
      }
      assert entries[..|entries|] == entries;
    }
  }
}
