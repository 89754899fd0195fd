/** Runs whose transactions agree on their amounts: the store is always the one built from the
    current chain alone, and the reported RingCT outputs can be compared with the stored ones. */
module BlockCounts {
  import opened Wrappers
  import opened BlockStore
  import opened BlockUndo
  import opened BlockRuns

  /** The store after adding only these blocks. */
  ghost function Build(chain: seq<Entry>): Option<Store> {
    if chain == [] then Some(Empty)
    else
      match Build(chain[..|chain| - 1])
      case None => None
      case Some(s) => AddBlock(s, chain[|chain| - 1].block, chain[|chain| - 1].txs)
  }

  lemma BuildSnoc(chain: seq<Entry>, e: Entry)
    ensures Build(chain + [e]) == if Build(chain).None? then None else AddBlock(Build(chain).value, e.block, e.txs)
  {
    hide AddBlock;
    assert (chain + [e])[..|chain|] == chain;
  }

  ghost predicate Agrees(e: Entry) { AllAgree(e.txs) && AmountsAgree(e.block.minerTx) }

  ghost predicate AllAgreed(ops: seq<Op>) { forall i :: 0 <= i < |ops| && ops[i].Add? ==> Agrees(ops[i].entry) }

  lemma AddBlockValid(s: Store, b: Block, txs: seq<Transaction>)
    requires Valid(s) && AddBlock(s, b, txs).Some?
    ensures Valid(AddBlock(s, b, txs).value)
  {
    hide AddTxs, ValidOutputs, RctOuts, Attaches;
    AddTxsValid(s, b, txs, |txs|);
  }

  lemma {:induction false} BuildValid(chain: seq<Entry>)
    requires Build(chain).Some?
    ensures Valid(Build(chain).value)
  {
    hide AddBlock;
    if chain == [] {
    } else {
      BuildValid(chain[..|chain| - 1]);
      hide Valid;
      AddBlockValid(Build(chain[..|chain| - 1]).value, chain[|chain| - 1].block, chain[|chain| - 1].txs);
    }
  }

  /** Popping a built store gives the store built without the latest block. */
  lemma BuildPop(chain: seq<Entry>, e: Entry)
    requires Build(chain + [e]).Some? && Agrees(e)
    ensures Build(chain).Some?
    ensures PopBlock(Build(chain + [e]).value) == Some(Popped(Build(chain).value, e.block, Reversed(e.txs)))
  {
    hide Build, AddBlock, PopBlock, AmountsAgree, AllAgree, Valid;
    BuildSnoc(chain, e);
    BuildValid(chain);
    BlockUndoIff(Build(chain).value, e.block, e.txs);
  }

  /** After every run whose transactions agree, the store is the one built from the current chain
      alone: popped blocks leave no trace. */
  lemma {:induction false} RunIsBuild(ops: seq<Op>)
    requires AllAgreed(ops)
    ensures Build(Run(ops).chain) == Some(Run(ops).store)
    ensures forall i :: 0 <= i < |Run(ops).chain| ==> Agrees(Run(ops).chain[i])
  {
    hide AddBlock, PopBlock, Agrees, Holds, Build;
    if ops == [] {
      BuildNone();
    } else {
      var y, op := Run(ops[..|ops| - 1]), ops[|ops| - 1];
      RunIsBuild(ops[..|ops| - 1]);
      match op
      case Add(e) =>
        BuildSnoc(y.chain, e);
      case Pop =>
        EveryRun(ops[..|ops| - 1]);
        EmptyIsNotPopped(y);
        if y.chain != [] {
          var n := |y.chain| - 1;
          assert y.chain == y.chain[..n] + [y.chain[n]];
          BuildPop(y.chain[..n], y.chain[n]);
        }
    }
  }

  lemma BuildNone()
    ensures Build([]) == Some(Empty)
  {
  }

  /** Hence a pop fails only on the empty chain. */
  lemma PopFailsOnlyWhenEmpty(ops: seq<Op>)
    requires AllAgreed(ops)
    ensures PopBlock(Run(ops).store).None? <==> Run(ops).chain == []
  {
    hide *;
    var y := Run(ops);
    RunIsBuild(ops);
    EveryRun(ops);
    EmptyIsNotPopped(y);
    if y.chain != [] {
      var n := |y.chain| - 1;
      assert y.chain == y.chain[..n] + [y.chain[n]];
      BuildPop(y.chain[..n], y.chain[n]);
    }
  }

  // ----- outputs of amount 0

  /** How many of the first n outputs are stored under amount 0. */
  ghost function ZeroStored(tx: Transaction, n: nat): nat
    requires n <= |tx.vout|
  {
    if n == 0 then 0 else ZeroStored(tx, n - 1) + if StoredAmount(tx, n - 1) == 0 then 1 else 0
  }

  lemma {:induction false} OutputsAdded(o: Outputs, tx: Transaction, hash: Hash, height: nat, n: nat)
    requires n <= |tx.vout| && ValidOutputs(o) && AddOutputs(o, tx, hash, height, n).Some?
    ensures NumOutputs(AddOutputs(o, tx, hash, height, n).value.0, 0) == NumOutputs(o, 0) + ZeroStored(tx, n)
  {
    hide AddOutputs, StoredAmount, ValidOutputs, RemoveOutput, NumOutputs;
    AddNoOutputs(o, tx, hash, height);
    if n > 0 {
      AddOutputsStep(o, tx, hash, height, n);
      AddOutputsValid(o, tx, hash, height, n - 1);
      OutputsAdded(o, tx, hash, height, n - 1);
      var before := AddOutputs(o, tx, hash, height, n - 1).value.0;
      var (after, ids) := AddOutputs(o, tx, hash, height, n).value;
      IndicesAfter(before, after, SlotOf(tx, ids, n - 1), 0);
    }
  }

  lemma TxAdded(s: Store, tx: Transaction, hash: Hash)
    requires Valid(s) && AddTransaction(s, tx, hash).Some?
    ensures NumOutputs(AddTransaction(s, tx, hash).value.outputs, 0)
        == NumOutputs(s.outputs, 0) + ZeroStored(tx, |tx.vout|)
  {
    hide AddOutputs, ValidOutputs, SpendInputs, NumOutputs, ZeroStored;
    OutputsAdded(s.outputs, tx, hash, |s.blocks|, |tx.vout|);
  }

  /** How many outputs of a block are stored under amount 0. */
  ghost function BlockZeros(b: Block, txs: seq<Transaction>, n: nat): nat
    requires n <= |txs|
  {
    if n == 0 then ZeroStored(b.minerTx, |b.minerTx.vout|)
    else BlockZeros(b, txs, n - 1) + ZeroStored(txs[n - 1], |txs[n - 1].vout|)
  }

  lemma {:induction false} TxsAdded(s: Store, b: Block, txs: seq<Transaction>, n: nat)
    requires n <= |txs| == |b.txHashes| && Valid(s) && AddTxs(s, b, txs, n).Some?
    ensures NumOutputs(AddTxs(s, b, txs, n).value.outputs, 0) == NumOutputs(s.outputs, 0) + BlockZeros(b, txs, n)
  {
    hide AddTransaction, Valid, NumOutputs, ZeroStored;
    if n == 0 {
      TxAdded(s, b.minerTx, b.minerHash);
    } else {
      TxsAdded(s, b, txs, n - 1);
      AddTxsValid(s, b, txs, n - 1);
      TxAdded(AddTxs(s, b, txs, n - 1).value, txs[n - 1], b.txHashes[n - 1]);
    }
  }

  /** The sum of the RingCT output counts that the block table holds. */
  ghost function RctTotal(blocks: seq<BlockInfo>): nat {
    if blocks == [] then 0 else RctTotal(blocks[..|blocks| - 1]) + blocks[|blocks| - 1].numRctOuts
  }

  lemma RctTotalSnoc(blocks: seq<BlockInfo>, info: BlockInfo)
    ensures RctTotal(blocks + [info]) == RctTotal(blocks) + info.numRctOuts
  {
    assert (blocks + [info])[..|blocks|] == blocks;
  }

  lemma BlockAdded(s: Store, b: Block, txs: seq<Transaction>)
    requires Valid(s) && AddBlock(s, b, txs).Some?
    ensures var t := AddBlock(s, b, txs).value;
            && NumOutputs(t.outputs, 0) == NumOutputs(s.outputs, 0) + BlockZeros(b, txs, |txs|)
            && RctTotal(t.blocks) == RctTotal(s.blocks) + RctOuts(b, txs, |txs|)
  {
    hide AddTxs, Valid, NumOutputs, BlockZeros, RctOuts, Attaches, RctTotal;
    TxsAdded(s, b, txs, |txs|);
    AddTxsValid(s, b, txs, |txs|);
    RctTotalSnoc(s.blocks, BlockInfo(b, RctOuts(b, txs, |txs|)));
  }

  // ----- reported against stored

  /** A stored transaction of version 1 has no output of amount 0, as it has no commitments. */
  lemma NoZeroInVersion1(s: Store, tx: Transaction, hash: Hash)
    requires AddTransaction(s, tx, hash).Some?
    ensures tx.version == 2 || forall i :: 0 <= i < |tx.vout| ==> tx.vout[i].amount != 0
  {
    hide AddTransaction, Spendable, Images, KnownInputs;
    AddTransactionSucceeds(s, tx, hash);
    forall i | tx.version == 1 && 0 <= i < |tx.vout|
      ensures tx.vout[i].amount != 0
    {
      assert StoredAmount(tx, i) == tx.vout[i].amount && CommitmentOf(tx, i).None?;
    }
  }

  lemma {:induction false} ZerosAre(tx: Transaction, n: nat)
    requires n <= |tx.vout|
    ensures ZeroStored(tx, n) == if StoresAsRct(tx) then n else ZeroOutputs(tx, n)
    ensures ZeroOutputs(tx, n) <= n
    ensures ZeroOutputs(tx, n) == n <==> forall i :: 0 <= i < n ==> tx.vout[i].amount == 0
    ensures ZeroOutputs(tx, n) == 0 <==> forall i :: 0 <= i < n ==> tx.vout[i].amount != 0
  {
    hide HasGen;
    if n > 0 { ZerosAre(tx, n - 1); }
  }

  /** The outputs with a positive amount. */
  ghost function Positive(tx: Transaction): (p: nat)
    ensures p == 0 <==> forall i :: 0 <= i < |tx.vout| ==> tx.vout[i].amount == 0
  {
    ZerosAre(tx, |tx.vout|);
    |tx.vout| - ZeroOutputs(tx, |tx.vout|)
  }

  /** Outputs that a block stores under amount 0 and does not report: the positive ones of ordinary
      transactions that are stored like coinbase transactions. */
  ghost function Unreported(txs: seq<Transaction>, n: nat): (u: nat)
    requires n <= |txs|
    ensures u == 0 <==> forall i :: 0 <= i < n ==> !StoresAsRct(txs[i]) || Positive(txs[i]) == 0
  {
    if n == 0 then 0
    else Unreported(txs, n - 1) + if StoresAsRct(txs[n - 1]) then Positive(txs[n - 1]) else 0
  }

  /** Outputs that a block reports and does not store under amount 0: the positive ones of a version 2
      miner transaction without a coinbase input. */
  ghost function Unstored(tx: Transaction): nat {
    if tx.version == 2 && !HasGen(tx) then Positive(tx) else 0
  }

  lemma {:induction false} BlockAccount(s: Store, e: Entry, n: nat)
    requires n <= |e.txs| && AddTransaction(s, e.block.minerTx, e.block.minerHash).Some?
    ensures RctOuts(e.block, e.txs, n) + Unreported(e.txs, n)
        == BlockZeros(e.block, e.txs, n) + Unstored(e.block.minerTx)
  {
    hide AddTransaction, HasGen, ZeroStored, ZeroOutputs;
    if n == 0 {
      NoZeroInVersion1(s, e.block.minerTx, e.block.minerHash);
      ZerosAre(e.block.minerTx, |e.block.minerTx.vout|);
    } else {
      BlockAccount(s, e, n - 1);
      ZerosAre(e.txs[n - 1], |e.txs[n - 1].vout|);
    }
  }

  ghost function AllUnreported(chain: seq<Entry>): (u: nat)
    ensures (forall i :: 0 <= i < |chain| ==> Unreported(chain[i].txs, |chain[i].txs|) == 0) <==> u == 0
  {
    if chain == [] then 0
    else AllUnreported(chain[..|chain| - 1]) + Unreported(chain[|chain| - 1].txs, |chain[|chain| - 1].txs|)
  }

  ghost function AllUnstored(chain: seq<Entry>): (u: nat)
    ensures (forall i :: 0 <= i < |chain| ==> HasGen(chain[i].block.minerTx)) ==> u == 0
  {
    if chain == [] then 0 else AllUnstored(chain[..|chain| - 1]) + Unstored(chain[|chain| - 1].block.minerTx)
  }

  lemma {:induction false} BuildAccount(chain: seq<Entry>)
    requires Build(chain).Some?
    ensures var s := Build(chain).value;
            RctTotal(s.blocks) + AllUnreported(chain) == NumOutputs(s.outputs, 0) + AllUnstored(chain)
  {
    if chain == [] {
      NoOutputs();
    } else {
      hide AddBlock, BlockZeros, RctOuts, HasGen, Valid, NumOutputs, RctTotal, Unreported, Unstored;
      var n := |chain| - 1;
      var prefix, e := chain[..n], chain[n];
      BuildAccount(prefix);
      BuildValid(prefix);
      BlockAdded(Build(prefix).value, e.block, e.txs);
      MinerAdded(Build(prefix).value, e.block, e.txs);
      BlockAccount(Build(prefix).value, e, |e.txs|);
    }
  }

  lemma NoOutputs()
    ensures NumOutputs(Empty.outputs, 0) == 0
  {
    assert IndicesOf(Empty.outputs, 0) == {};
  }

  lemma MinerAdded(s: Store, b: Block, txs: seq<Transaction>)
    requires Valid(s) && AddBlock(s, b, txs).Some?
    ensures AddTransaction(s, b.minerTx, b.minerHash).Some?
  {
    hide AddTransaction, Valid, RctOuts, Attaches;
    Stage(s, b, txs, 0, |txs|);
  }

  /** After every run, the RingCT outputs that the current blocks report, with those not reported, are
      the outputs stored under amount 0, with those not stored there. */
  lemma RctAccount(ops: seq<Op>)
    requires AllAgreed(ops)
    ensures var y := Run(ops);
            RctTotal(y.store.blocks) + AllUnreported(y.chain) == NumOutputs(y.store.outputs, 0) + AllUnstored(y.chain)
  {
    hide *;
    RunIsBuild(ops);
    BuildAccount(Run(ops).chain);
  }

  ghost predicate HasCoinbase(chain: seq<Entry>) {
    forall i :: 0 <= i < |chain| ==> HasGen(chain[i].block.minerTx)
  }

  /** When all miner transactions have a coinbase input, the blocks report at most what is stored, and
      all of it exactly when no ordinary transaction with positive amounts is stored like a coinbase. */
  lemma ReportedAgainstStored(ops: seq<Op>)
    requires AllAgreed(ops)
    ensures var y := Run(ops);
            HasCoinbase(y.chain) ==>
              && RctTotal(y.store.blocks) <= NumOutputs(y.store.outputs, 0)
              && (RctTotal(y.store.blocks) == NumOutputs(y.store.outputs, 0) <==>
                  forall i :: 0 <= i < |y.chain| ==> Unreported(y.chain[i].txs, |y.chain[i].txs|) == 0)
  {
    hide Run, AllAgreed, RctTotal, NumOutputs, AllUnreported, AllUnstored, Unreported;
    RctAccount(ops);
  }

  ghost predicate CoinbaseOnlyFirst(e: Entry) {
    HasGen(e.block.minerTx) && forall i :: 0 <= i < |e.txs| ==> !HasGen(e.txs[i])
  }

  /** When exactly the miner transactions have coinbase inputs, the current blocks report exactly the
      outputs stored under amount 0. */
  lemma ReportedIsStored(ops: seq<Op>)
    requires AllAgreed(ops) && forall i :: 0 <= i < |Run(ops).chain| ==> CoinbaseOnlyFirst(Run(ops).chain[i])
    ensures RctTotal(Run(ops).store.blocks) == NumOutputs(Run(ops).store.outputs, 0)
  {
    hide Run, HasGen, AllAgreed, RctTotal, NumOutputs;
    ReportedAgainstStored(ops);
    var chain := Run(ops).chain;
    forall i | 0 <= i < |chain|
      ensures Unreported(chain[i].txs, |chain[i].txs|) == 0 && HasGen(chain[i].block.minerTx)
    {
      assert CoinbaseOnlyFirst(chain[i]);
    }
  }

  /** A version 2 transaction with only a coinbase input and one output of this amount. */
  function Lone(amount: nat): Transaction { Transaction(2, 60, [Gen], [TxOut(amount, KeyTarget(1))], []) }

  lemma LoneAgrees(amount: nat)
    ensures HasGen(Lone(amount)) && AmountsAgree(Lone(amount)) && ZeroStored(Lone(amount), 1) == 1
    ensures KnownInputs(Lone(amount).vin, 1) && Images(Lone(amount).vin, 1) == [] && Storable(Lone(amount), 1)
  {
    var tx := Lone(amount);
    assert tx.vin[0].Gen?;
    assert Images(tx.vin, 0) == [] && ZeroStored(tx, 0) == 0;
  }

  lemma LoneIsStored(s: Store, amount: nat, hash: Hash)
    requires Valid(s) && hash !in s.indices
    ensures AddTransaction(s, Lone(amount), hash).Some? && Valid(AddTransaction(s, Lone(amount), hash).value)
    ensures var t := AddTransaction(s, Lone(amount), hash).value;
            t.indices.Keys == s.indices.Keys + {hash} && t.blocks == s.blocks && t.heights == s.heights
  {
    hide AddTransaction, Images, KnownInputs, Storable, HasGen, AmountsAgree, ZeroStored, ValidOutputs, Valid;
    var tx := Lone(amount);
    assert |tx.vin| == 1 && |tx.vout| == 1;
    LoneAgrees(amount);
    ValidIsValid(s);
    assert CanAdd(s, tx, hash);
    AddTransactionSucceeds(s, tx, hash);
    TxStored(s, tx, hash);
  }

  /** A block with an ordinary transaction that has only a coinbase input. */
  function MixedBlock(): Entry { Entry(Block(1, 100, 0, Lone(7), 200, [300]), [Lone(5)]) }

  /** It reports one output and stores two under amount 0, although all amounts agree. */
  lemma UnreportedOutput()
    ensures var e := MixedBlock();
            && Agrees(e) && AddBlock(Empty, e.block, e.txs).Some?
            && RctTotal(AddBlock(Empty, e.block, e.txs).value.blocks) == 1
            && NumOutputs(AddBlock(Empty, e.block, e.txs).value.outputs, 0) == 2
  {
    hide AddTransaction, NumOutputs, RctTotal, ZeroStored, AmountsAgree, HasGen, Valid;
    BuildNone(); BuildValid([]);
    var e := MixedBlock();
    var b := e.block;
    LoneIsStored(Empty, 7, 200);
    var t := AddTransaction(Empty, Lone(7), 200).value;
    LoneIsStored(t, 5, 300);
    LoneAgrees(7); LoneAgrees(5);
    assert AddTxs(Empty, b, e.txs, 0) == Some(t);
    assert AddBlock(Empty, b, e.txs).Some?;
    BlockAdded(Empty, b, e.txs);
    NoOutputs();
    assert RctTotal([]) == 0 by { NothingReported(); }
    assert RctOuts(b, e.txs, 0) == 1 && BlockZeros(b, e.txs, 0) == 1;
    assert ZeroOutputs(Lone(5), 0) == 0;
  }

  lemma NothingReported()
    ensures RctTotal([]) == 0
  {
  }
}
