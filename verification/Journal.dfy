/** The write-ahead journal: what replay applies after a crash. */
module Journal {
  import opened Wrappers

  datatype JournalOp =
    | Begin | Commit | CreateInode | UnlinkInode | WriteBlock | FreeBlock | XattrSet | SnapshotCreate

  datatype Entry = Entry(txn: nat, op: JournalOp, target: nat, data: seq<nat>)

  /** One replayed transaction: its number and the entries gathered for it. */
  datatype Applied = Applied(txn: nat, indices: seq<nat>)

  /** The variables of the replay loop, with the transactions applied so far. */
  datatype Replay = Replay(current: Option<nat>, gathered: seq<nat>, applied: seq<Applied>)

  const START: Replay := Replay(None, [], [])

  /** The loop body for entry `e` at position `i`. */
  function Step(r: Replay, e: Entry, i: nat): Replay {
    match e.op
    case Begin => r.(current := Some(e.txn), gathered := [i])
    case Commit =>
      if r.current == Some(e.txn) then r.(applied := r.applied + [Applied(e.txn, r.gathered)], current := None) else r
    case _ => if r.current.Some? then r.(gathered := r.gathered + [i]) else r
  }

  /** Replay of the entries `es`, which start at position `at` of the log. */
  function ReplayFrom(r: Replay, es: seq<Entry>, at: nat): Replay
    decreases |es|
  {
    if es == [] then r else ReplayFrom(Step(r, es[0], at), es[1..], at + 1)
  }

  function ReplayAll(es: seq<Entry>): Replay {
    ReplayFrom(START, es, 0)
  }

  lemma {:induction false} ReplayAppend(r: Replay, a: seq<Entry>, b: seq<Entry>, at: nat)
    ensures ReplayFrom(r, a + b, at) == ReplayFrom(ReplayFrom(r, a, at), b, at + |a|)
    decreases |a|
  {
    if a == [] {
      assert a + b == b;
    } else {
      ReplayAppend(Step(r, a[0], at), a[1..], b, at + 1);
      assert (a + b)[1..] == a[1..] + b;
    }
  }

  lemma ReplaySnoc(es: seq<Entry>, n: nat)
    requires n < |es|
    ensures ReplayAll(es[..n + 1]) == Step(ReplayAll(es[..n]), es[n], n)
  {
    assert es[..n + 1] == es[..n] + [es[n]];
    ReplayAppend(START, es[..n], [es[n]], 0);
    var r := ReplayAll(es[..n]);
    assert [es[n]][1..] == [];
    assert ReplayFrom(r, [es[n]], n) == Step(r, es[n], n);
  }

  // ------------------------------------------------------------- any log at all

  predicate Ordinary(e: Entry) {
    !e.op.Begin? && !e.op.Commit?
  }

  /** A Begin, or the Commit of transaction `txn`. */
  predicate Ends(e: Entry, txn: nat) {
    e.op.Begin? || (e.op.Commit? && e.txn == txn)
  }

  /** Position `b` holds the Begin of the transaction still open before position `n`. */
  ghost predicate OpenAt(es: seq<Entry>, n: nat, b: nat) {
    b < n <= |es| && es[b].op.Begin? && forall j :: b < j < n ==> !Ends(es[j], es[b].txn)
  }

  /** The positions from `lo` up to `n` that hold ordinary operations. */
  function OpsBetween(es: seq<Entry>, lo: nat, n: nat): seq<nat>
    requires n <= |es|
  {
    if n <= lo then [] else OpsBetween(es, lo, n - 1) + if Ordinary(es[n - 1]) then [n - 1] else []
  }

  lemma OpenUnique(es: seq<Entry>, n: nat, b: nat, c: nat)
    requires OpenAt(es, n, b) && OpenAt(es, n, c)
    ensures b == c
  {
  }

  /** The open transaction replay sees is the one of the last Begin, and what it has
      gathered is that Begin and every ordinary entry since. */
  ghost predicate OpenOk(es: seq<Entry>, n: nat, r: Replay)
    requires n <= |es|
  {
    if r.current.None? then forall b: nat :: !OpenAt(es, n, b)
    else exists b: nat ::
      OpenAt(es, n, b) && r.current.value == es[b].txn && r.gathered == [b] + OpsBetween(es, b + 1, n)
  }

  lemma {:induction false} OpenState(es: seq<Entry>, n: nat)
    requires n <= |es|
    ensures OpenOk(es, n, ReplayAll(es[..n]))
    decreases n
  {
    if n > 0 {
      OpenState(es, n - 1);
      ReplaySnoc(es, n - 1);
      OpenStep(es, n - 1, ReplayAll(es[..n - 1]));
    }
  }

  lemma OpenStep(es: seq<Entry>, n: nat, r: Replay)
    requires n < |es| && OpenOk(es, n, r)
    ensures OpenOk(es, n + 1, Step(r, es[n], n))
  {
    var e, r', m := es[n], Step(r, es[n], n), n + 1;
    if e.op.Begin? {
      assert OpenAt(es, m, n);
    } else if r.current.None? {
      forall b: nat ensures !OpenAt(es, m, b) { assert !OpenAt(es, n, b); }
    } else {
      var b: nat :| OpenAt(es, n, b) && r.current.value == es[b].txn && r.gathered == [b] + OpsBetween(es, b + 1, n);
      if e.op.Commit? && e.txn == es[b].txn {
        forall c: nat ensures !OpenAt(es, m, c) {
          if OpenAt(es, m, c) { OpenUnique(es, n, b, c); }
        }
      } else {
        assert OpenAt(es, m, b);
      }
    }
  }

  /** For any log: a Commit is counted exactly when the last Begin before it has its
      number and no Commit of that number lies between; the indices gathered for it
      are that Begin and every ordinary entry in between, whoever wrote it. */
  lemma CommitCounts(es: seq<Entry>, i: nat)
    requires i < |es| && es[i].op.Commit?
    ensures var before, after := ReplayAll(es[..i]).applied, ReplayAll(es[..i + 1]).applied;
      && (after != before <==> exists b: nat :: OpenAt(es, i, b) && es[b].txn == es[i].txn)
      && forall b: nat :: OpenAt(es, i, b) && es[b].txn == es[i].txn ==>
           after == before + [Applied(es[i].txn, [b] + OpsBetween(es, b + 1, i))]
  {
    OpenState(es, i);
    ReplaySnoc(es, i);
    forall b: nat, c: nat | OpenAt(es, i, b) && OpenAt(es, i, c) ensures b == c { OpenUnique(es, i, b, c); }
  }

  /** Other entries never count. */
  lemma OthersDoNotCount(es: seq<Entry>, i: nat)
    requires i < |es| && !es[i].op.Commit?
    ensures ReplayAll(es[..i + 1]).applied == ReplayAll(es[..i]).applied
  {
    ReplaySnoc(es, i);
  }

  lemma {:induction false} OpsBetweenMembers(es: seq<Entry>, lo: nat, n: nat, j: nat)
    requires n <= |es|
    ensures j in OpsBetween(es, lo, n) <==> lo <= j < n && Ordinary(es[j])
    decreases n
  {
    if n > lo { OpsBetweenMembers(es, lo, n - 1, j); }
  }

  /** All listed positions hold entries of transaction `txn`. */
  predicate AllOf(es: seq<Entry>, indices: seq<nat>, txn: nat) {
    forall j :: j in indices ==> j < |es| && es[j].txn == txn
  }

  /** Nobody but transaction `txn` wrote an operation between `b` and `i`. */
  predicate NoneBut(es: seq<Entry>, b: nat, i: nat, txn: nat)
    requires i <= |es|
  {
    forall j :: b < j < i && Ordinary(es[j]) ==> es[j].txn == txn
  }

  /** The entries gathered at a counted Commit all belong to its transaction exactly
      when no other transaction wrote an operation since its Begin. */
  lemma GathersOwnOnly(es: seq<Entry>, i: nat, b: nat)
    requires OpenAt(es, i, b)
    ensures AllOf(es, [b] + OpsBetween(es, b + 1, i), es[b].txn) <==> NoneBut(es, b, i, es[b].txn)
  {
    var ops, txn := OpsBetween(es, b + 1, i), es[b].txn;
    if AllOf(es, [b] + ops, txn) {
      forall j: nat | b < j < i && Ordinary(es[j]) ensures es[j].txn == txn {
        OpsBetweenMembers(es, b + 1, i, j);
        assert j in [b] + ops;
      }
    }
    if NoneBut(es, b, i, txn) {
      forall j | j in [b] + ops ensures j < |es| && es[j].txn == txn {
        OpsBetweenMembers(es, b + 1, i, j);
      }
    }
  }

  // ------------------------------------------------------- histories and cuts

  datatype Change = Change(op: JournalOp, target: nat, data: seq<nat>)

  /** A transaction as its writer made it; without `committed` it was abandoned. */
  datatype Txn = Txn(changes: seq<Change>, committed: bool)

  predicate ChangesOk(cs: seq<Change>) {
    forall i :: 0 <= i < |cs| ==> !cs[i].op.Begin? && !cs[i].op.Commit?
  }

  function ChangeEntries(txn: nat, cs: seq<Change>): (r: seq<Entry>)
    ensures |r| == |cs|
    decreases |cs|
  {
    if cs == [] then [] else [Entry(txn, cs[0].op, cs[0].target, cs[0].data)] + ChangeEntries(txn, cs[1..])
  }

  /** What `begin`, the calls of `append`, and perhaps `commit` write for one transaction. */
  function Block(txn: nat, t: Txn): (r: seq<Entry>)
    ensures |r| == BlockSize(t)
  {
    [Entry(txn, Begin, 0, [])] + ChangeEntries(txn, t.changes) + if t.committed then [Entry(txn, Commit, 0, [])] else []
  }

  function BlockSize(t: Txn): nat {
    1 + |t.changes| + if t.committed then 1 else 0
  }

  /** The log of transactions written one after the other, numbered from `txn`. */
  function Log(txn: nat, h: seq<Txn>): seq<Entry>
    decreases |h|
  {
    if h == [] then [] else Block(txn, h[0]) + Log(txn + 1, h[1..])
  }

  function Range(lo: nat, n: nat): seq<nat>
    decreases n
  {
    if n == 0 then [] else Range(lo, n - 1) + [lo + n - 1]
  }

  /** What should be applied when only `cut` entries from position `at` on survive:
      each committed transaction whose Commit is among them, with its Begin and
      operations in order. */
  function Survivors(txn: nat, h: seq<Txn>, at: nat, cut: nat): seq<Applied>
    decreases |h|
  {
    if h == [] || cut < BlockSize(h[0]) then [] else
    var own := if h[0].committed then [Applied(txn, Range(at, 1 + |h[0].changes|))] else [];
    own + Survivors(txn + 1, h[1..], at + BlockSize(h[0]), cut - BlockSize(h[0]))
  }

  lemma {:induction false} RangeSnocFirst(lo: nat, n: nat)
    ensures Range(lo, n + 1) == [lo] + Range(lo + 1, n)
    decreases n
  {
    if n > 0 { RangeSnocFirst(lo, n - 1); }
  }

  /** Any prefix of a transaction's operations is gathered in order. */
  lemma {:induction false} ReplayChanges(r: Replay, txn: nat, cs: seq<Change>, n: nat, at: nat)
    requires r.current == Some(txn) && ChangesOk(cs) && n <= |cs|
    ensures ReplayFrom(r, ChangeEntries(txn, cs)[..n], at) == r.(gathered := r.gathered + Range(at, n))
    decreases n
  {
    if n > 0 {
      var es := ChangeEntries(txn, cs)[..n];
      assert es[1..] == ChangeEntries(txn, cs[1..])[..n - 1];
      assert ChangesOk(cs[1..]);
      ReplayChanges(Step(r, es[0], at), txn, cs[1..], n - 1, at + 1);
      RangeSnocFirst(at, n - 1);
      assert r.gathered + [at] + Range(at + 1, n - 1) == r.gathered + ([at] + Range(at + 1, n - 1));
    }
  }

  /** A block cut off before its end applies nothing. */
  lemma ReplayCutBlock(r: Replay, txn: nat, t: Txn, n: nat, at: nat)
    requires ChangesOk(t.changes) && n < BlockSize(t)
    ensures ReplayFrom(r, Block(txn, t)[..n], at).applied == r.applied
  {
    if n > 0 {
      var es := Block(txn, t)[..n];
      assert es[1..] == ChangeEntries(txn, t.changes)[..n - 1];
      ReplayChanges(Step(r, es[0], at), txn, t.changes, n - 1, at + 1);
    }
  }

  /** A complete block applies its transaction exactly when it committed. */
  lemma ReplayBlock(r: Replay, txn: nat, t: Txn, at: nat)
    requires ChangesOk(t.changes)
    ensures ReplayFrom(r, Block(txn, t), at).applied ==
      r.applied + if t.committed then [Applied(txn, Range(at, 1 + |t.changes|))] else []
  {
    var k := |t.changes|;
    var head, tail := Block(txn, t)[..k + 1], if t.committed then [Entry(txn, Commit, 0, [])] else [];
    assert Block(txn, t) == head + tail;
    assert head[1..] == ChangeEntries(txn, t.changes)[..k];
    ReplayChanges(Step(r, head[0], at), txn, t.changes, k, at + 1);
    RangeSnocFirst(at, k);
    ReplayAppend(r, head, tail, at);
    if t.committed {
      var r1 := ReplayFrom(r, head, at);
      assert r1.current == Some(txn) && r1.gathered == Range(at, k + 1);
      assert tail[1..] == [];
      assert ReplayFrom(r1, tail, at + k + 1) == Step(r1, tail[0], at + k + 1);
    }
  }

  lemma {:induction false} ReplayCut(r: Replay, txn: nat, h: seq<Txn>, at: nat, cut: nat)
    requires (forall t :: t in h ==> ChangesOk(t.changes)) && cut <= |Log(txn, h)|
    ensures ReplayFrom(r, Log(txn, h)[..cut], at).applied == r.applied + Survivors(txn, h, at, cut)
    decreases |h|
  {
    if h != [] {
      var b, rest := Block(txn, h[0]), Log(txn + 1, h[1..]);
      if cut < BlockSize(h[0]) {
        assert Log(txn, h)[..cut] == b[..cut];
        ReplayCutBlock(r, txn, h[0], cut, at);
      } else {
        var n := cut - BlockSize(h[0]);
        assert Log(txn, h)[..cut] == b + rest[..n];
        ReplayAppend(r, b, rest[..n], at);
        ReplayBlock(r, txn, h[0], at);
        ReplayCut(ReplayFrom(r, b, at), txn + 1, h[1..], at + BlockSize(h[0]), n);
      }
    }
  }

  /** Crash at any entry of any history of transactions written one after the other,
      some abandoned: replay applies exactly those whose Commit survived, each with
      its Begin and operations in order. */
  lemma CrashCut(txn: nat, h: seq<Txn>, cut: nat)
    requires (forall t :: t in h ==> ChangesOk(t.changes)) && cut <= |Log(txn, h)|
    ensures ReplayAll(Log(txn, h)[..cut]).applied == Survivors(txn, h, 0, cut)
  {
    ReplayCut(START, txn, h, 0, cut);
  }

  /** The number of transactions whose Commit lies before the cut. */
  function CommitsBefore(h: seq<Txn>, cut: nat): nat
    decreases |h|
  {
    if h == [] || cut < BlockSize(h[0]) then 0
    else (if h[0].committed then 1 else 0) + CommitsBefore(h[1..], cut - BlockSize(h[0]))
  }

  lemma {:induction false} SurvivorCount(txn: nat, h: seq<Txn>, at: nat, cut: nat)
    ensures |Survivors(txn, h, at, cut)| == CommitsBefore(h, cut)
    decreases |h|
  {
    if h != [] && cut >= BlockSize(h[0]) {
      SurvivorCount(txn + 1, h[1..], at + BlockSize(h[0]), cut - BlockSize(h[0]));
    }
  }
}
