/** A well-formed chain on which the counters of the backward search wrap: every transaction has two
    outputs, and the next one refers to both. */
module WrappingChain {
  import opened Wrappers
  import opened BitBuffers
  import opened ChainDb
  import opened AncestryGraph
  import opened AncestryTool

  /** The two outputs of step h have the keys and offsets 2h and 2h + 1. Step 0 is a coinbase
      transaction. */
  function Outs(h: nat): seq<TxOut> { [ToKeyOut(2 * h), ToKeyOut(2 * h + 1)] }

  /** The hash of step h. */
  function Step(h: nat): Hash { if h == 0 then 0 else 2 * h + 1 }

  /** Even hashes are those of miner transactions; the hash 1 is not used. */
  function TxOf(t: Hash): Transaction {
    if t == 0 then Transaction([Gen], Outs(0))
    else if t == 1 || t % 2 == 0 then Transaction([Gen], [])
    else Transaction([ToKey(0, [t - 3, t - 2])], Outs(t / 2))
  }

  function BlockAt(h: nat): Block { Block(TxOf(2 * h), 2 * h, if h == 0 then [] else [2 * h + 1]) }

  function TxTable(n: nat): map<Hash, Transaction> { map t | 0 <= t < 2 * n && t != 1 :: TxOf(t) }

  function OutputTable(n: nat): map<Ancestor, OutputData> {
    map a: Ancestor | a in set k | 0 <= k < 2 * n :: Ancestor(0, k) :: OutputData(a.offset, a.offset / 2)
  }

  /** n blocks, with one step each. */
  function Chain(n: nat): Db { Db(seq(n, h requires 0 <= h < n => BlockAt(h)), TxTable(n), OutputTable(n)) }

  lemma TxTableIs(n: nat, t: Hash)
    ensures t in TxTable(n) <==> t < 2 * n && t != 1
    ensures t in TxTable(n) ==> TxTable(n)[t] == TxOf(t)
  {
  }

  lemma OutputTableIs(n: nat, k: nat)
    requires k < 2 * n
    ensures Ancestor(0, k) in OutputTable(n) && OutputTable(n)[Ancestor(0, k)] == OutputData(k, k / 2)
  {
    var keys := set k | 0 <= k < 2 * n :: Ancestor(0, k);
    assert Ancestor(0, k) in keys;
  }

  // ----- what the database answers

  lemma MinerData(n: nat, h: nat)
    requires h < n
    ensures var d := DbTx(Chain(n), 2 * h); d.Some? && d.value.coinbase && Refs(Chain(n), 2 * h) == []
  {
    hide TxTable, OutputTable;
    TxTableIs(n, 2 * h);
    var tx := TxOf(2 * h);
    assert |tx.vin| == 1 && tx.vin[0].Gen?;
  }

  lemma StepData(n: nat, h: nat)
    requires 0 < h < n
    ensures DbTx(Chain(n), 2 * h + 1) == Some(TxData([Ring(0, [2 * h - 2, 2 * h - 1])], [2 * h, 2 * h + 1], false))
  {
    hide TxTable, OutputTable;
    TxTableIs(n, 2 * h + 1);
    var tx := TxOf(2 * h + 1);
    assert |tx.vin| == 1 && !tx.vin[0].Gen?;
    assert RingsOf(tx.vin) == [Ring(0, [2 * h - 2, 2 * h - 1])];
    assert KeysOf(tx.vout) == [2 * h, 2 * h + 1];
  }

  lemma StepRefs(n: nat, h: nat)
    requires 0 < h < n
    ensures Refs(Chain(n), 2 * h + 1) == [Ancestor(0, 2 * h - 2), Ancestor(0, 2 * h - 1)]
  {
    hide Chain, DbTx;
    StepData(n, h);
    var ring := Ring(0, [2 * h - 2, 2 * h - 1]);
    assert [ring][..0] == [];
    assert Flatten([ring]) == Flatten([]) + RingRefs(ring);
  }

  lemma OwnerIs(n: nat, h: nat, k: nat)
    requires h < n && (k == 2 * h || k == 2 * h + 1)
    ensures DbOwner(Chain(n), Ancestor(0, k)) == Some(Step(h))
  {
    hide TxTable, OutputTable, DbTx;
    OutputTableIs(n, k);
    assert k / 2 == h;
    var db := Chain(n);
    assert DbBlock(db, h) == Some(BlockAt(h));
    if h > 0 {
      StepData(n, h);
      assert TxOf(2 * h).vout == [];
      assert SearchMiner([], k, 0) == Absent;
      assert SearchTxs(db, [2 * h + 1], k, 0) == Some(2 * h + 1);
    } else {
      assert SearchMiner(Outs(0), k, 1) == if k == 1 then Found else SearchMiner(Outs(0), k, 2);
    }
  }

  // ----- the chain is well-formed

  lemma {:induction false} TxidsAre(n: nat, h: nat)
    requires h <= n
    ensures var ts := Txids(Chain(n).blocks, h);
            && |ts| == (if h == 0 then 0 else 2 * h - 1)
            && forall i :: 0 <= i < |ts| ==> ts[i] == if i == 0 then 0 else i + 1
  {
    hide TxTable, OutputTable, TxOf;
    if h > 0 {
      TxidsAre(n, h - 1);
      assert BlockTxids(BlockAt(h - 1)) == if h == 1 then [0] else [2 * h - 2, 2 * h - 1];
    }
  }

  lemma RankIs(n: nat, t: Hash)
    ensures t in AllTxids(Chain(n)) <==> t < 2 * n && t != 1
    ensures t in AllTxids(Chain(n)) ==> Rank(Chain(n), t) == if t == 0 then 0 else t - 1
    ensures Distinct(AllTxids(Chain(n)))
  {
    hide TxTable, OutputTable, TxOf, Txids, IndexOf;
    TxidsAre(n, n);
    var ts := AllTxids(Chain(n));
    if t < 2 * n && t != 1 {
      var i := if t == 0 then 0 else t - 1;
      assert ts[i] == t;
      IndexOfDistinct(ts, i);
    }
  }

  lemma StepsResolve(n: nat, t: Hash)
    requires t < 2 * n && t != 1
    ensures DbTx(Chain(n), t).Some? && RefsResolve(Chain(n), t)
  {
    hide Chain, DbTx, DbOwner, Refs, AllTxids, Rank;
    var db, h := Chain(n), t / 2;
    if t % 2 == 0 {
      MinerData(n, h);
    } else {
      StepData(n, h);
      StepRefs(n, h);
      OwnerIs(n, h - 1, 2 * h - 2); OwnerIs(n, h - 1, 2 * h - 1);
      RankIs(n, t); RankIs(n, Step(h - 1));
    }
  }

  lemma IsWellFormed(n: nat)
    ensures WellFormed(Chain(n))
  {
    hide DbTx, DbOwner, Refs, AllTxids, Rank, RefsResolve, Distinct, TxOf, TxTable, OutputTable;
    var db := Chain(n);
    RankIs(n, 0);
    forall t
      ensures t in db.txs <==> t in AllTxids(db)
      ensures t in AllTxids(db) ==> DbTx(db, t).Some? && RefsResolve(db, t)
    {
      RankIs(n, t); TxTableIs(n, t);
      if t in AllTxids(db) { StepsResolve(n, t); }
    }
    forall h | 0 <= h < |db.blocks|
      ensures var d := DbTx(db, db.blocks[h].minerHash); d.Some? && d.value.coinbase
    {
      MinerData(n, h);
    }
  }

  // ----- the paths double at every step

  lemma {:induction false} PathsDouble(n: nat, h: nat)
    requires 0 < h < n
    ensures WellFormed(Chain(n)) && Bag(Chain(n), Step(h))[Ancestor(0, 0)] == Pow2(h - 1)
  {
    hide Chain, WellFormed, Refs, Bag, BagSum, OwnerOf, DbOwner;
    IsWellFormed(n);
    var db, t, a := Chain(n), Step(h), Ancestor(0, 0);
    StepRefs(n, h);
    OwnerIs(n, h - 1, 2 * h - 2); OwnerIs(n, h - 1, 2 * h - 1);
    TwoOwners(db, t, Step(h - 1));
    if h == 1 {
      MinerBag(n);
    } else {
      PathsDouble(n, h - 1);
    }
  }

  /** The bag of a transaction with two references to outputs of one owner. */
  lemma TwoOwners(db: Db, t: Hash, o: Hash)
    requires WellFormed(db) && |Refs(db, t)| == 2
    requires DbOwner(db, Refs(db, t)[0]) == Some(o) && DbOwner(db, Refs(db, t)[1]) == Some(o)
    ensures Bag(db, t) == multiset{Refs(db, t)[0], Refs(db, t)[1]} + Bag(db, o) + Bag(db, o)
  {
    hide WellFormed, Refs, Bag, BagTo, DbOwner, Source;
    BagIs(db, t);
    BagToStep(db, t, 0); BagToStep(db, t, 1);
    assert Source(db, t, 0) == o && Source(db, t, 1) == o;
  }

  lemma MinerBag(n: nat)
    requires 0 < n && WellFormed(Chain(n))
    ensures Bag(Chain(n), 0) == multiset{}
  {
    hide Chain, WellFormed, Refs, Bag, BagTo;
    MinerData(n, 0);
    BagIs(Chain(n), 0);
  }

  lemma TwoTo32()
    ensures Pow2(32) == UINT_RANGE
  {
    assert Pow2(8) == 256;
    assert Pow2(16) == 65536;
    assert Pow2(24) == 0x100_0000;
  }

  /** On the chain of 34 blocks, 2^32 paths lead from the last transaction to the first output. Its
      counter is 0, and the reported total is not the number of paths. */
  lemma CounterWraps(m: Counts, n: nat)
    requires n == 34 && WellFormed(Chain(n)) && CountsOf(m, Bag(Chain(n), Step(n - 1)))
    ensures |Walks(Chain(n), Step(n - 1), Ancestor(0, 0))| == UINT_RANGE
    ensures Ancestor(0, 0) in m && m[Ancestor(0, 0)] == 0
    ensures SumValues(m) % SIZE_RANGE != |Bag(Chain(n), Step(n - 1))|
  {
    hide Chain, WellFormed, Bag, Walks, Closure, SumValues, Step, Pow2, IsWalk;
    PathsDouble(n, n - 1);
    TwoTo32();
    BagCountsPaths(Chain(n), Step(n - 1), Ancestor(0, 0));
    ReportedTotal(m, Bag(Chain(n), Step(n - 1)));
  }
}
