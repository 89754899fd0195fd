/** What the output tables mean: every output of every stored transaction is found under its amount
    and index, with its own data, and there are no others. */
module BlockOutputs {
  import opened Wrappers
  import opened BlockStore
  import opened BlockUndo
  import opened BlockRuns
  import opened BlockCounts

  /** A version 2 transaction with a coinbase input: its outputs are stored under amount 0. */
  ghost predicate Minted(tx: Transaction) { tx.version == 2 && exists j :: 0 <= j < |tx.vin| && tx.vin[j].Gen? }

  /** The place of the i-th output of a transaction whose outputs got these indices. */
  ghost function PlaceOf(tx: Transaction, ids: seq<nat>, i: nat): Slot
    requires i < |tx.vout| && i < |ids|
  {
    Slot(if Minted(tx) then 0 else tx.vout[i].amount, ids[i])
  }

  /** The commitment that is stored with the i-th output: to its amount with a mask of zero when it is
      minted, the one of the signature when its amount is hidden, and none when its amount is known. */
  ghost predicate Commits(tx: Transaction, i: nat, c: Option<Commitment>)
    requires i < |tx.vout|
  {
    if Minted(tx) then c == Some(ZeroCommit(tx.vout[i].amount))
    else if tx.vout[i].amount == 0 then tx.version > 1 && i < |tx.outPk| && c == Some(Mask(tx.outPk[i]))
    else c == None
  }

  /** The tables describe the i-th output of a transaction whose outputs got these indices. */
  ghost predicate Describes(o: Outputs, tx: Transaction, hash: Hash, height: nat, ids: seq<nat>, i: nat)
    requires i < |tx.vout| && i < |ids|
  {
    var slot := PlaceOf(tx, ids, i);
    && tx.vout[i].target.KeyTarget?
    && slot in o.byAmount
    && o.byAmount[slot].key == tx.vout[i].target.key
    && o.byAmount[slot].unlockTime == tx.unlockTime
    && o.byAmount[slot].height == height
    && Commits(tx, i, o.byAmount[slot].commitment)
    && o.byAmount[slot].outputId in o.global
    && o.global[o.byAmount[slot].outputId] == OutTx(hash, i)
  }

  lemma StoredAsMinted(tx: Transaction, ids: seq<nat>, i: nat)
    requires i < |tx.vout|
    ensures StoredAmount(tx, i) == if Minted(tx) then 0 else tx.vout[i].amount
    ensures i < |ids| ==> PlaceOf(tx, ids, i) == SlotOf(tx, ids, i)
    ensures StoredAmount(tx, i) == 0 && CommitmentOf(tx, i).Some? ==> Commits(tx, i, CommitmentOf(tx, i))
    ensures StoredAmount(tx, i) != 0 ==> Commits(tx, i, None)
  {
    assert Minted(tx) <==> HasGen(tx) && tx.version == 2;
  }

  /** When all outputs of a transaction can be stored: each has a key, and the ones whose amount is
      hidden have a commitment. */
  lemma StorableMeans(tx: Transaction)
    ensures Storable(tx, |tx.vout|) <==>
      forall i :: 0 <= i < |tx.vout| ==>
        tx.vout[i].target.KeyTarget?
        && (Minted(tx) || tx.vout[i].amount != 0 || (tx.version > 1 && i < |tx.outPk|))
  {
    assert Minted(tx) <==> HasGen(tx) && tx.version == 2;
  }

  ghost predicate DescribesAll(o: Outputs, tx: Transaction, hash: Hash, height: nat, ids: seq<nat>) {
    |ids| == |tx.vout| && forall i :: 0 <= i < |ids| ==> Describes(o, tx, hash, height, ids, i)
  }

  /** Nothing that is stored changes. */
  ghost predicate Keeps(o: Outputs, after: Outputs) {
    && (forall k :: k in o.byAmount ==> k in after.byAmount && after.byAmount[k] == o.byAmount[k])
    && (forall id :: id in o.global ==> id in after.global && after.global[id] == o.global[id])
  }

  lemma KeepsDescription(o: Outputs, after: Outputs, tx: Transaction, hash: Hash, height: nat, ids: seq<nat>, i: nat)
    requires i < |tx.vout| && i < |ids| && Keeps(o, after) && Describes(o, tx, hash, height, ids, i)
    ensures Describes(after, tx, hash, height, ids, i)
  {
    hide Minted, Commits;
  }

  /** Storing the i-th output of a transaction. */
  ghost function StoreOutput(o: Outputs, tx: Transaction, hash: Hash, height: nat, i: nat): Option<(Outputs, nat)>
    requires i < |tx.vout|
  {
    AddOutput(o, hash, StoredAmount(tx, i), tx.vout[i].target, i, tx.unlockTime, height, CommitmentOf(tx, i))
  }

  lemma InsertKeeps(o: Outputs, slot: Slot, key: OutKey, id: nat, out: OutTx)
    requires slot !in o.byAmount && id !in o.global
    ensures var after := Outputs(o.byAmount[slot := key], o.global[id := out]);
            Keeps(o, after) && |after.byAmount| == |o.byAmount| + 1 && |after.global| == |o.global| + 1
  {
    Forget(o.byAmount, slot, key);
    Forget(o.global, id, out);
  }

  lemma StoreOutputKeeps(o: Outputs, tx: Transaction, hash: Hash, height: nat, i: nat)
    requires ValidOutputs(o) && i < |tx.vout| && StoreOutput(o, tx, hash, height, i).Some?
    ensures var after := StoreOutput(o, tx, hash, height, i).value.0;
            Keeps(o, after) && |after.byAmount| == |o.byAmount| + 1 && |after.global| == |o.global| + 1
  {
    hide StoredAmount, CommitmentOf, NumOutputs, NextId, NoGaps, Keeps;
    var slot, id := Slot(StoredAmount(tx, i), NumOutputs(o, StoredAmount(tx, i))), NextId(o.global);
    var commitment := if slot.amount == 0 then CommitmentOf(tx, i) else None;
    var key := OutKey(id, tx.vout[i].target.key, tx.unlockTime, height, commitment);
    InsertKeeps(o, slot, key, id, OutTx(hash, i));
  }

  lemma StoreOutputDescribes(o: Outputs, tx: Transaction, hash: Hash, height: nat, ids: seq<nat>, i: nat)
    requires i < |tx.vout| && StoreOutput(o, tx, hash, height, i).Some?
    requires i < |ids| && ids[i] == StoreOutput(o, tx, hash, height, i).value.1
    ensures Describes(StoreOutput(o, tx, hash, height, i).value.0, tx, hash, height, ids, i)
  {
    hide StoredAmount, CommitmentOf, NumOutputs, Minted, Commits;
    StoredAsMinted(tx, ids, i);
  }

  lemma AddOutputsUnfold(o: Outputs, tx: Transaction, hash: Hash, height: nat, n: nat)
    requires 0 < n <= |tx.vout| && AddOutputs(o, tx, hash, height, n).Some?
    ensures AddOutputs(o, tx, hash, height, n - 1).Some?
    ensures var (before, ids) := AddOutputs(o, tx, hash, height, n - 1).value;
            var r := StoreOutput(before, tx, hash, height, n - 1);
            r.Some? && AddOutputs(o, tx, hash, height, n) == Some((r.value.0, ids + [r.value.1]))
  {
    hide AddOutput, StoredAmount, CommitmentOf;
  }

  /** Adding the outputs of a transaction describes all of them, keeps what was there, and adds
      nothing else. */
  lemma {:induction false} AddOutputsDescribes(o: Outputs, tx: Transaction, hash: Hash, height: nat, n: nat)
    requires n <= |tx.vout| && ValidOutputs(o) && AddOutputs(o, tx, hash, height, n).Some?
    ensures var (after, ids) := AddOutputs(o, tx, hash, height, n).value;
            && Keeps(o, after)
            && |after.byAmount| == |o.byAmount| + n && |after.global| == |o.global| + n
            && forall i :: 0 <= i < n ==> Describes(after, tx, hash, height, ids, i)
  {
    hide ValidOutputs, AddOutputs, StoreOutput, Describes;
    AddNoOutputs(o, tx, hash, height);
    if n > 0 {
      AddOutputsUnfold(o, tx, hash, height, n);
      AddOutputsDescribes(o, tx, hash, height, n - 1);
      AddOutputsValid(o, tx, hash, height, n - 1);
      var (before, ids) := AddOutputs(o, tx, hash, height, n - 1).value;
      var (after, all) := AddOutputs(o, tx, hash, height, n).value;
      StoreOutputKeeps(before, tx, hash, height, n - 1);
      StoreOutputDescribes(before, tx, hash, height, all, n - 1);
      forall i | 0 <= i < n - 1
        ensures Describes(after, tx, hash, height, all, i)
      {
        SameIds(before, tx, hash, height, ids, all, i);
        KeepsDescription(before, after, tx, hash, height, all, i);
      }
    }
  }

  lemma SameIds(o: Outputs, tx: Transaction, hash: Hash, height: nat, ids: seq<nat>, all: seq<nat>, i: nat)
    requires i < |tx.vout| && i < |ids| && i < |all| && ids[i] == all[i] && Describes(o, tx, hash, height, ids, i)
    ensures Describes(o, tx, hash, height, all, i)
  {
    hide Minted, Commits;
  }

  ghost function SumOutputs(items: seq<Item>): nat {
    if items == [] then 0 else SumOutputs(items[..|items| - 1]) + |items[|items| - 1].tx.vout|
  }

  /** The slot belongs to an output of one of these transactions. */
  ghost predicate Owned(txOutputs: map<nat, seq<nat>>, items: seq<Item>, k: Slot) {
    exists i, j ::
      && 0 <= i < |items| && i in txOutputs && 0 <= j < |items[i].tx.vout| && j < |txOutputs[i]|
      && k == PlaceOf(items[i].tx, txOutputs[i], j)
  }

  /** The output tables describe exactly these transactions: all their outputs, and no others. */
  ghost predicate Described(s: Store, items: seq<Item>) {
    && (forall i :: 0 <= i < |items| ==>
          i in s.txOutputs && DescribesAll(s.outputs, items[i].tx, items[i].hash, items[i].height, s.txOutputs[i]))
    && (forall k :: k in s.outputs.byAmount ==> Owned(s.txOutputs, items, k))
    && |s.outputs.byAmount| == |s.outputs.global| == SumOutputs(items)
  }

  /** A new slot belongs to an output of the added transaction. */
  lemma {:induction false} AddOutputsOwned(o: Outputs, tx: Transaction, hash: Hash, height: nat, n: nat, k: Slot)
    requires n <= |tx.vout| && ValidOutputs(o) && AddOutputs(o, tx, hash, height, n).Some?
    ensures var (after, ids) := AddOutputs(o, tx, hash, height, n).value;
            k in after.byAmount && k !in o.byAmount ==> exists j :: 0 <= j < n && k == PlaceOf(tx, ids, j)
  {
    hide AddOutputs, StoredAmount, ValidOutputs, RemoveOutput, NumOutputs, Minted, Commits;
    AddNoOutputs(o, tx, hash, height);
    if n > 0 {
      AddOutputsStep(o, tx, hash, height, n);
      AddOutputsValid(o, tx, hash, height, n - 1);
      AddOutputsOwned(o, tx, hash, height, n - 1, k);
      var (before, ids) := AddOutputs(o, tx, hash, height, n - 1).value;
      var (after, all) := AddOutputs(o, tx, hash, height, n).value;
      if k in before.byAmount && k !in o.byAmount {
        var j :| 0 <= j < n - 1 && k == PlaceOf(tx, ids, j);
        assert all[..n - 1][j] == all[j];
        assert k == PlaceOf(tx, all, j);
      }
      StoredAsMinted(tx, all, n - 1);
      assert k in after.byAmount && k !in before.byAmount ==> k == PlaceOf(tx, all, n - 1);
    }
  }

  lemma OwnedPush(s: Store, items: seq<Item>, x: Item, k: Slot)
    requires Valid(s) && Described(s, items) && |s.txs| == |items|
    requires AddTransaction(s, x.tx, x.hash).Some? && x.height == |s.blocks|
    requires k in AddTransaction(s, x.tx, x.hash).value.outputs.byAmount
    ensures Owned(AddTransaction(s, x.tx, x.hash).value.txOutputs, items + [x], k)
  {
    hide AddOutputs, SpendInputs, DescribesAll, ValidOutputs, Minted, SumOutputs;
    var t, all, n := AddTransaction(s, x.tx, x.hash).value, items + [x], |items|;
    assert all[n] == x;
    if k in s.outputs.byAmount {
      assert Owned(s.txOutputs, items, k);
      var i, j :| && 0 <= i < |items| && i in s.txOutputs && 0 <= j < |items[i].tx.vout| && j < |s.txOutputs[i]|
                  && k == PlaceOf(items[i].tx, s.txOutputs[i], j);
      assert all[i] == items[i] && k == PlaceOf(all[i].tx, t.txOutputs[i], j);
    } else {
      AddOutputsOwned(s.outputs, x.tx, x.hash, x.height, |x.tx.vout|, k);
      var j :| 0 <= j < |x.tx.vout| && k == PlaceOf(x.tx, t.txOutputs[n], j);
      assert k == PlaceOf(all[n].tx, t.txOutputs[n], j);
    }
  }

  lemma DescribedPush(s: Store, items: seq<Item>, x: Item)
    requires Valid(s) && Described(s, items) && |s.txs| == |items|
    requires AddTransaction(s, x.tx, x.hash).Some? && x.height == |s.blocks|
    ensures Described(AddTransaction(s, x.tx, x.hash).value, items + [x])
  {
    hide AddOutputs, SpendInputs, Describes, ValidOutputs, Keeps, Owned;
    var t, all, n := AddTransaction(s, x.tx, x.hash).value, items + [x], |items|;
    assert all[..n] == items;
    AddOutputsDescribes(s.outputs, x.tx, x.hash, x.height, |x.tx.vout|);
    forall k | k in t.outputs.byAmount ensures Owned(t.txOutputs, all, k) { OwnedPush(s, items, x, k); }
    forall i | 0 <= i < |all|
      ensures i in t.txOutputs && DescribesAll(t.outputs, all[i].tx, all[i].hash, all[i].height, t.txOutputs[i])
    {
      if i < n {
        var ids := s.txOutputs[i];
        forall j | 0 <= j < |ids|
          ensures Describes(t.outputs, items[i].tx, items[i].hash, items[i].height, ids, j)
        {
          KeepsDescription(s.outputs, t.outputs, items[i].tx, items[i].hash, items[i].height, ids, j);
        }
      }
    }
  }

  lemma {:induction false} DescribedTxs(s: Store, items: seq<Item>, b: Block, txs: seq<Transaction>, n: nat)
    requires n <= |txs| == |b.txHashes| && AddTxs(s, b, txs, n).Some?
    requires Valid(s) && Stack(s, items) && Described(s, items)
    ensures Described(AddTxs(s, b, txs, n).value, items + Items(b, txs, |s.blocks|, n))
  {
    hide Valid, Stack, Described, AddTransaction;
    if n == 0 {
      StackSize(s, items);
      DescribedPush(s, items, Item(b.minerHash, b.minerTx, |s.blocks|));
    } else {
      DescribedTxs(s, items, b, txs, n - 1);
      PushTxs(s, items, b, txs, |s.blocks|, n - 1);
      AddTxsValid(s, b, txs, n - 1);
      var before, more := AddTxs(s, b, txs, n - 1).value, items + Items(b, txs, |s.blocks|, n - 1);
      var x := Item(b.txHashes[n - 1], txs[n - 1], |s.blocks|);
      StackSize(before, more);
      DescribedPush(before, more, x);
      assert more + [x] == items + Items(b, txs, |s.blocks|, n);
    }
  }

  lemma StackSize(s: Store, items: seq<Item>)
    requires Stack(s, items)
    ensures |s.txs| == |items|
  {
  }

  lemma {:induction false} BuildDescribed(chain: seq<Entry>)
    requires Build(chain).Some?
    ensures Holds(System(Build(chain).value, chain)) && Described(Build(chain).value, ChainItems(chain))
  {
    hide AddTxs, Stack, Linked, Items, RctOuts, Attaches, Valid;
    if chain == [] {
      EmptyHolds();
    } else {
      var n := |chain| - 1;
      var prefix, e := chain[..n], chain[n];
      BuildDescribed(prefix);
      hide Described, WellSized, ChainItems;
      var s := Build(prefix).value;
      BuildValid(prefix);
      HoldsAdd(System(s, prefix), e);
      assert prefix + [e] == chain;
      LinkedLength(s, prefix);
      ChainItemsSnoc(prefix, e);
      DescribedTxs(s, ChainItems(prefix), e.block, e.txs, |e.txs|);
      SameOutputs(AddTxs(s, e.block, e.txs, |e.txs|).value, Build(chain).value, ChainItems(chain));
    }
  }

  lemma SameOutputs(s: Store, t: Store, items: seq<Item>)
    requires Described(s, items) && t.outputs == s.outputs && t.txOutputs == s.txOutputs
    ensures Described(t, items)
  {
    hide DescribesAll, Owned;
  }

  /** After every run whose transactions agree, the output tables describe exactly the outputs of the
      current chain. */
  lemma EveryRunDescribed(ops: seq<Op>)
    requires AllAgreed(ops)
    ensures WellSized(Run(ops).chain) && Described(Run(ops).store, ChainItems(Run(ops).chain))
  {
    hide Run, Build, AllAgreed, Agrees, Described, ChainItems, Linked, Stack;
    RunIsBuild(ops);
    BuildDescribed(Run(ops).chain);
  }
}
