/** The database object: the block operations as loops over storage primitives that change its
    tables in place. An operation returns false or None where the program throws; what it has
    written until then is discarded with the write transaction. */
module BlockchainDbs {
  import opened Wrappers
  import opened BlockStore
  import opened BlockOutputs

  class BlockchainDb {
    var blocks: seq<BlockInfo>
    var heights: map<Hash, nat>
    var indices: map<Hash, TxIndex>
    var txs: map<nat, Transaction>
    var txOutputs: map<nat, seq<nat>>
    var outputs: Outputs
    var spent: set<KeyImage>

    ghost function View(): Store
      reads this
    {
      Store(blocks, heights, indices, txs, txOutputs, outputs, spent)
    }

    constructor ()
      ensures View() == Empty
    {
      blocks, heights, indices, txs, txOutputs := [], map[], map[], map[], map[];
      outputs, spent := Outputs(map[], map[]), {};
    }

    method AddSpentKey(image: KeyImage) returns (ok: bool)
      modifies `spent
      ensures ok <==> image !in old(spent)
      ensures spent == old(spent) + {image}
    {
      ok := image !in spent;
      spent := spent + {image};
    }

    /** Spends the key images of the inputs; miner tells whether there is a coinbase input. */
    method SpendAll(tx: Transaction) returns (ok: bool, miner: bool)
      modifies `spent
      ensures ok <==> SpendInputs(old(spent), tx.vin, |tx.vin|).Some?
      ensures ok ==> SpendInputs(old(spent), tx.vin, |tx.vin|) == Some(spent) && miner == HasGen(tx)
    {
      miner := false;
      for i := 0 to |tx.vin|
        invariant SpendInputs(old(spent), tx.vin, i) == Some(spent)
        invariant miner <==> exists j :: 0 <= j < i && tx.vin[j].Gen?
      {
        match tx.vin[i]
        case ToKey(image) =>
          var unspent := AddSpentKey(image);
          if !unspent { SpendFails(old(spent), tx.vin, i + 1, |tx.vin|); return false, miner; }
        case Gen => miner := true;
        case OtherIn => SpendFails(old(spent), tx.vin, i + 1, |tx.vin|); return false, miner;
      }
      ok := true;
    }

    method AddTransactionData(tx: Transaction, hash: Hash) returns (id: Option<nat>)
      modifies `indices, `txs
      ensures id.None? <==> hash in old(indices) || !(1 <= tx.version <= 2)
      ensures id.Some? ==> id.value == |old(txs)|
      ensures id.Some? ==> indices == old(indices)[hash := TxIndex(id.value, tx.unlockTime, |blocks|)]
      ensures id.Some? ==> txs == old(txs)[id.value := tx]
    {
      if hash in indices { return None; }
      if !KnownVersion(tx) { return None; }
      var n := |txs|;
      indices := indices[hash := TxIndex(n, tx.unlockTime, |blocks|)];
      txs := txs[n := tx];
      id := Some(n);
    }

    /** Appends an output to those of its amount and returns its index there. */
    method AddOutput(hash: Hash, out: TxOut, local: nat, unlock: nat, commitment: Option<Commitment>)
      returns (index: Option<nat>)
      modifies `outputs
      ensures var r :=
                BlockStore.AddOutput(old(outputs), hash, out.amount, out.target, local, unlock, |blocks|, commitment);
              if r.None? then index.None? else index == Some(r.value.1) && outputs == r.value.0
    {
      if !out.target.KeyTarget? || (out.amount == 0 && commitment.None?) { return None; }
      if !Appends(outputs, out.amount) { return None; }
      var n, id := NumOutputs(outputs, out.amount), NextId(outputs.global);
      var key := OutKey(id, out.target.key, unlock, |blocks|, if out.amount == 0 then commitment else None);
      outputs := Outputs(outputs.byAmount[Slot(out.amount, n) := key], outputs.global[id := OutTx(hash, local)]);
      index := Some(n);
    }

    /** Stores the outputs of a transaction, those of a version 2 miner transaction under amount 0. */
    method StoreOutputs(tx: Transaction, hash: Hash, miner: bool) returns (ids: Option<seq<nat>>)
      requires miner == HasGen(tx)
      modifies `outputs
      ensures var r := AddOutputs(old(outputs), tx, hash, |blocks|, |tx.vout|);
              if r.None? then ids.None? else ids == Some(r.value.1) && outputs == r.value.0
      ensures ids.Some? && ValidOutputs(old(outputs)) ==>
        Keeps(old(outputs), outputs) && DescribesAll(outputs, tx, hash, |blocks|, ids.value)
    {
      hide HasGen, BlockStore.AddOutput, ValidOutputs, Describes, Keeps;
      var all: seq<nat> := [];
      for i := 0 to |tx.vout|
        invariant AddOutputs(old(outputs), tx, hash, |blocks|, i) == Some((outputs, all))
      {
        var index;
        if miner && tx.version == 2 {
          var out := tx.vout[i].(amount := 0);
          index := AddOutput(hash, out, i, tx.unlockTime, Some(ZeroCommit(tx.vout[i].amount)));
        } else {
          var mask := if tx.version > 1 && i < |tx.outPk| then Some(Mask(tx.outPk[i])) else None;
          index := AddOutput(hash, tx.vout[i], i, tx.unlockTime, mask);
        }
        if index.None? { OutputsFail(old(outputs), tx, hash, |blocks|, i + 1, |tx.vout|); return None; }
        all := all + [index.value];
      }
      ids := Some(all);
      if ValidOutputs(old(outputs)) { AddOutputsDescribes(old(outputs), tx, hash, |blocks|, |tx.vout|); }
    }

    method AddTransaction(tx: Transaction, hash: Hash) returns (ok: bool)
      modifies `spent, `indices, `txs, `outputs, `txOutputs
      ensures ok <==> BlockStore.AddTransaction(old(View()), tx, hash).Some?
      ensures ok ==> BlockStore.AddTransaction(old(View()), tx, hash) == Some(View())
    {
      hide SpendInputs, AddOutputs, HasGen;
      var miner;
      ok, miner := SpendAll(tx);
      if !ok { return; }
      var id := AddTransactionData(tx, hash);
      if id.None? { return false; }
      var ids := StoreOutputs(tx, hash, miner);
      if ids.None? { return false; }
      txOutputs := txOutputs[id.value := ids.value];
    }

    method RemoveOutput(slot: Slot) returns (ok: bool)
      modifies `outputs
      ensures var r := BlockStore.RemoveOutput(old(outputs), slot); ok == r.Some? && (ok ==> outputs == r.value)
    {
      if slot !in outputs.byAmount { return false; }
      var id := outputs.byAmount[slot].outputId;
      if id !in outputs.global { return false; }
      outputs := Outputs(outputs.byAmount - {slot}, outputs.global - {id});
      ok := true;
    }

    /** Removes the outputs of a transaction from the last to the first. */
    method RemoveTxOutputs(tx: Transaction, ids: seq<nat>) returns (ok: bool)
      modifies `outputs
      ensures ok <==> |ids| >= |tx.vout| && RemoveOutputs(old(outputs), tx, ids, |tx.vout|).Some?
      ensures ok ==> RemoveOutputs(old(outputs), tx, ids, |tx.vout|) == Some(outputs)
    {
      if |ids| < |tx.vout| { return false; }
      hide BlockStore.RemoveOutput;
      var pseudoRct := tx.version >= 2 && |tx.vin| == 1 && tx.vin[0].Gen?;
      var i := |tx.vout|;
      while i > 0
        invariant 0 <= i <= |tx.vout|
        invariant RemoveOutputs(old(outputs), tx, ids, |tx.vout|) == RemoveOutputs(outputs, tx, ids, i)
      {
        i := i - 1;
        var amount := if pseudoRct then 0 else tx.vout[i].amount;
        var done := RemoveOutput(Slot(amount, ids[i]));
        if !done { return false; }
      }
      ok := true;
    }

    method RemoveTransaction(hash: Hash) returns (ok: bool)
      modifies `spent, `indices, `txs, `outputs, `txOutputs
      ensures ok <==> BlockStore.RemoveTransaction(old(View()), hash).Some?
      ensures ok ==> BlockStore.RemoveTransaction(old(View()), hash) == Some(View())
    {
      hide RemoveOutputs;
      if hash !in indices || indices[hash].id !in txs { return false; }
      var id := indices[hash].id;
      var tx := txs[id];
      for i := 0 to |tx.vin|
        invariant spent == UnspendInputs(old(spent), tx.vin, i)
        invariant indices == old(indices) && txs == old(txs) && outputs == old(outputs) && txOutputs == old(txOutputs)
      {
        if tx.vin[i].ToKey? { spent := spent - {tx.vin[i].image}; }
      }
      hide UnspendInputs;
      txs := txs - {id};
      if id !in txOutputs { return false; }
      ok := RemoveTxOutputs(tx, txOutputs[id]);
      if !ok { return; }
      txOutputs := txOutputs - {id};
      indices := indices - {hash};
    }

    method AddBlockData(b: Block, numRctOuts: nat) returns (ok: bool)
      modifies `blocks, `heights
      ensures ok <==> Attaches(old(View()), b)
      ensures ok <==>
        && b.hash !in old(heights)
        && (old(blocks) == [] ==> b.majorVersion < 4)
        && (old(blocks) != [] ==> b.prev in old(heights) && old(heights)[b.prev] == |old(blocks)| - 1)
      ensures ok ==> blocks == old(blocks) + [BlockInfo(b, numRctOuts)]
      ensures ok ==> heights == old(heights)[b.hash := |old(blocks)|]
    {
      if b.hash in heights { return false; }
      if |blocks| > 0 && (b.prev !in heights || heights[b.prev] != |blocks| - 1) { return false; }
      if b.majorVersion >= 4 && |blocks| == 0 { return false; }
      heights := heights[b.hash := |blocks|];
      blocks := blocks + [BlockInfo(b, numRctOuts)];
      ok := true;
    }

    method CountZeroOutputs(tx: Transaction) returns (count: nat)
      ensures count == ZeroOutputs(tx, |tx.vout|)
    {
      count := 0;
      for i := 0 to |tx.vout|
        invariant count == ZeroOutputs(tx, i)
      {
        if tx.vout[i].amount == 0 { count := count + 1; }
      }
    }

    /** Adds a block with its transactions, the miner transaction first, and returns its height. */
    method AddBlock(b: Block, transactions: seq<Transaction>) returns (height: Option<nat>)
      modifies this
      ensures height.Some? <==> BlockStore.AddBlock(old(View()), b, transactions).Some?
      ensures height.Some? ==> BlockStore.AddBlock(old(View()), b, transactions) == Some(View())
      ensures height.Some? ==> height.value == |old(blocks)|
    {
      hide BlockStore.AddTransaction, ZeroOutputs;
      if |b.txHashes| != |transactions| { return None; }
      var prevHeight, numRctOuts := |blocks|, 0;
      ghost var s := View();
      var ok := AddTransaction(b.minerTx, b.minerHash);
      if !ok { TxsFail(s, b, transactions, 0, |transactions|); return None; }
      if b.minerTx.version == 2 { numRctOuts := |b.minerTx.vout|; }
      for i := 0 to |transactions|
        invariant AddTxs(s, b, transactions, i) == Some(View()) && numRctOuts == RctOuts(b, transactions, i)
        invariant blocks == s.blocks && heights == s.heights
      {
        ok := AddTransaction(transactions[i], b.txHashes[i]);
        if !ok { TxsFail(s, b, transactions, i + 1, |transactions|); return None; }
        var zeros := CountZeroOutputs(transactions[i]);
        numRctOuts := numRctOuts + zeros;
      }
      hide AddTxs, RctOuts;
      ok := AddBlockData(b, numRctOuts);
      height := if ok then Some(prevHeight) else None;
    }

    /** Removes the latest block and returns it with its transactions, the last one first. */
    method PopBlock() returns (popped: Option<(Block, seq<Transaction>)>)
      modifies this
      ensures popped.Some? <==> BlockStore.PopBlock(old(View())).Some?
      ensures popped.Some? ==> BlockStore.PopBlock(old(View())) == Some(Popped(View(), popped.value.0, popped.value.1))
    {
      hide BlockStore.RemoveTransaction;
      if |blocks| == 0 { return None; }
      var b := blocks[|blocks| - 1].block;
      if b.hash !in heights { return None; }
      blocks, heights := blocks[..|blocks| - 1], heights - {b.hash};
      ghost var s := View();
      var removed: seq<Transaction> := [];
      var i := |b.txHashes|;
      AfterNothing(RemoveTxs(s, b.txHashes, i));
      while i > 0
        invariant 0 <= i <= |b.txHashes|
        invariant RemoveTxs(s, b.txHashes, |b.txHashes|) == After(removed, RemoveTxs(View(), b.txHashes, i))
      {
        i := i - 1;
        var h := b.txHashes[i];
        if h !in indices || indices[h].id !in txs { return None; }
        var tx := txs[indices[h].id];
        var ok := RemoveTransaction(h);
        if !ok { return None; }
        AfterSnoc(removed, tx, RemoveTxs(View(), b.txHashes, i));
        removed := removed + [tx];
      }
      assert removed + [] == removed;
      var ok := RemoveTransaction(b.minerHash);
      popped := if ok then Some((b, removed)) else None;
    }
  }

  /** A result of removing, with what was removed before it. */
  ghost function After(removed: seq<Transaction>, r: Option<(Store, seq<Transaction>)>)
    : Option<(Store, seq<Transaction>)>
  {
    match r
    case None => None
    case Some((s, more)) => Some((s, removed + more))
  }

  lemma AfterNothing(r: Option<(Store, seq<Transaction>)>)
    ensures After([], r) == r
  {
    if r.Some? { assert [] + r.value.1 == r.value.1; }
  }

  lemma AfterSnoc(removed: seq<Transaction>, tx: Transaction, r: Option<(Store, seq<Transaction>)>)
    ensures After(removed + [tx], r) == After(removed, After([tx], r))
  {
    if r.Some? { assert removed + [tx] + r.value.1 == removed + ([tx] + r.value.1); }
  }

  // ----- a failed step is final

  lemma {:induction false} SpendFails(spent: set<KeyImage>, vin: seq<TxIn>, n: nat, m: nat)
    requires n <= m <= |vin| && SpendInputs(spent, vin, n).None?
    ensures SpendInputs(spent, vin, m).None?
  {
    if n < m { SpendFails(spent, vin, n, m - 1); }
  }

  lemma {:induction false} OutputsFail(o: Outputs, tx: Transaction, hash: Hash, height: nat, n: nat, m: nat)
    requires n <= m <= |tx.vout| && AddOutputs(o, tx, hash, height, n).None?
    ensures AddOutputs(o, tx, hash, height, m).None?
  {
    hide BlockStore.AddOutput;
    if n < m { OutputsFail(o, tx, hash, height, n, m - 1); }
  }

  lemma {:induction false} TxsFail(s: Store, b: Block, txs: seq<Transaction>, n: nat, m: nat)
    requires n <= m <= |txs| == |b.txHashes| && AddTxs(s, b, txs, n).None?
    ensures AddTxs(s, b, txs, m).None?
  {
    hide AddTransaction;
    if n < m { TxsFail(s, b, txs, n, m - 1); }
  }
}
