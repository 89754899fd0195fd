/** Removing a transaction or a block right after it was added: exactly when this restores the store. */
module BlockUndo {
  import opened Wrappers
  import opened BlockStore

  // ----- key images

  ghost predicate Distinct(s: seq<KeyImage>) {
    forall i, j :: 0 <= i < j < |s| ==> s[i] != s[j]
  }

  /** The key images of a transaction can be spent: each once, and none before. */
  ghost predicate Spendable(spent: set<KeyImage>, images: seq<KeyImage>) {
    Distinct(images) && forall k :: k in images ==> k !in spent
  }

  ghost function Elements(images: seq<KeyImage>): set<KeyImage> { set k | k in images }

  ghost predicate KnownInputs(vin: seq<TxIn>, n: nat)
    requires n <= |vin|
  {
    forall i :: 0 <= i < n ==> !vin[i].OtherIn?
  }

  lemma SpendableSnoc(spent: set<KeyImage>, images: seq<KeyImage>, k: KeyImage)
    ensures Spendable(spent, images + [k]) <==> Spendable(spent, images) && k !in images && k !in spent
    ensures Elements(images + [k]) == Elements(images) + {k}
  {
    var all := images + [k];
    if Spendable(spent, all) {
      assert all[|images|] == k;
      forall i | 0 <= i < |images|
        ensures images[i] == all[i] && images[i] in all && images[i] != k
      {
        assert all[i] != all[|images|];
      }
      assert k in all;
    }
  }

  lemma NoInputs(spent: set<KeyImage>, vin: seq<TxIn>)
    ensures KnownInputs(vin, 0) && Spendable(spent, []) && Elements([]) == {}
  {
  }

  lemma KnownSnoc(vin: seq<TxIn>, n: nat)
    requires 0 < n <= |vin|
    ensures KnownInputs(vin, n) <==> KnownInputs(vin, n - 1) && !vin[n - 1].OtherIn?
  {
  }

  lemma ElementsIs(images: seq<KeyImage>, k: KeyImage)
    ensures k in Elements(images) <==> k in images
  {
  }

  /** Adding the inputs succeeds exactly when all are of a known type and their key images are
      distinct and fresh, and then exactly these become spent. */
  lemma {:induction false} SpendInputsIs(spent: set<KeyImage>, vin: seq<TxIn>, n: nat)
    requires n <= |vin|
    ensures SpendInputs(spent, vin, n).Some? <==> KnownInputs(vin, n) && Spendable(spent, Images(vin, n))
    ensures SpendInputs(spent, vin, n).Some? ==> SpendInputs(spent, vin, n).value == spent + Elements(Images(vin, n))
  {
    hide Spendable, Elements, KnownInputs;
    if n == 0 {
      NoInputs(spent, vin);
    } else {
      SpendInputsIs(spent, vin, n - 1);
      KnownSnoc(vin, n);
      var before := Images(vin, n - 1);
      if vin[n - 1].ToKey? {
        SpendableSnoc(spent, before, vin[n - 1].image);
        ElementsIs(before, vin[n - 1].image);
      } else {
        assert Images(vin, n) == before;
      }
    }
  }

  lemma {:induction false} UnspendInputsIs(spent: set<KeyImage>, vin: seq<TxIn>, n: nat)
    requires n <= |vin|
    ensures UnspendInputs(spent, vin, n) == spent - Elements(Images(vin, n))
  {
    if n > 0 {
      UnspendInputsIs(spent, vin, n - 1);
      if vin[n - 1].ToKey? { SpendableSnoc(spent, Images(vin, n - 1), vin[n - 1].image); }
    }
  }

  lemma UnspendAfterSpend(spent: set<KeyImage>, vin: seq<TxIn>)
    requires SpendInputs(spent, vin, |vin|).Some?
    ensures UnspendInputs(SpendInputs(spent, vin, |vin|).value, vin, |vin|) == spent
  {
    hide SpendInputs, UnspendInputs, Images;
    SpendInputsIs(spent, vin, |vin|);
    UnspendInputsIs(SpendInputs(spent, vin, |vin|).value, vin, |vin|);
  }

  // ----- outputs

  predicate StoresAsRct(tx: Transaction) { HasGen(tx) && tx.version == 2 }

  predicate RemovesAsRct(tx: Transaction) { tx.version >= 2 && |tx.vin| == 1 && tx.vin[0].Gen? }

  /** Whether adding and removing a transaction agree on the amounts of its outputs. */
  ghost predicate AmountsAgree(tx: Transaction) {
    (StoresAsRct(tx) <==> RemovesAsRct(tx)) || forall i :: 0 <= i < |tx.vout| ==> tx.vout[i].amount == 0
  }

  /** The slot of an output when its transaction was added with these indices. */
  ghost function SlotOf(tx: Transaction, ids: seq<nat>, i: nat): Slot
    requires i < |tx.vout| && i < |ids|
  {
    Slot(StoredAmount(tx, i), ids[i])
  }

  lemma AddNoOutputs(o: Outputs, tx: Transaction, hash: Hash, height: nat)
    ensures AddOutputs(o, tx, hash, height, 0) == Some((o, []))
  {
  }

  /** One step of adding outputs. */
  lemma AddOutputsStep(o: Outputs, tx: Transaction, hash: Hash, height: nat, n: nat)
    requires 0 < n <= |tx.vout| && AddOutputs(o, tx, hash, height, n).Some?
    ensures AddOutputs(o, tx, hash, height, n - 1).Some?
    ensures var (before, ids) := AddOutputs(o, tx, hash, height, n - 1).value;
            var (after, all) := AddOutputs(o, tx, hash, height, n).value;
            && all[..n - 1] == ids
            && (ValidOutputs(before) ==> ValidOutputs(after) && Extends(before, after, SlotOf(tx, all, n - 1)))
  {
    hide NumOutputs, ValidOutputs, RemoveOutput, AddOutput, StoredAmount, CommitmentOf, Extends;
    var (before, ids) := AddOutputs(o, tx, hash, height, n - 1).value;
    var (after, all) := AddOutputs(o, tx, hash, height, n).value;
    if ValidOutputs(before) {
      AddOutputExtends(before, hash, StoredAmount(tx, n - 1), tx.vout[n - 1].target, n - 1, tx.unlockTime, height,
                       CommitmentOf(tx, n - 1));
      ExtendsValid(before, after, SlotOf(tx, all, n - 1));
    }
  }

  lemma {:induction false} AddOutputsValid(o: Outputs, tx: Transaction, hash: Hash, height: nat, n: nat)
    requires n <= |tx.vout| && ValidOutputs(o) && AddOutputs(o, tx, hash, height, n).Some?
    ensures ValidOutputs(AddOutputs(o, tx, hash, height, n).value.0)
  {
    hide ValidOutputs, Extends;
    if n > 0 {
      AddOutputsStep(o, tx, hash, height, n);
      hide AddOutputs;
      AddOutputsValid(o, tx, hash, height, n - 1);
    }
  }

  /** Removal looks only at the indices it uses. */
  lemma {:induction false} RemoveOutputsPrefix(o: Outputs, tx: Transaction, ids: seq<nat>, n: nat)
    requires n <= |tx.vout| && n <= |ids|
    ensures RemoveOutputs(o, tx, ids[..n], n) == RemoveOutputs(o, tx, ids, n)
    decreases n
  {
    hide RemoveOutput, RemovedAmount;
    if n > 0 {
      var step := RemoveOutput(o, Slot(RemovedAmount(tx, n - 1), ids[n - 1]));
      if step.Some? {
        RemoveOutputsPrefix(step.value, tx, ids, n - 1);
        RemoveOutputsPrefix(step.value, tx, ids[..n], n - 1);
        assert ids[..n][..n - 1] == ids[..n - 1];
      }
    }
  }

  /** When the amounts agree, removing the outputs undoes adding them. */
  lemma {:induction false} OutputsUndo(o: Outputs, tx: Transaction, hash: Hash, height: nat, n: nat)
    requires n <= |tx.vout| && ValidOutputs(o) && AddOutputs(o, tx, hash, height, n).Some?
    requires forall i :: 0 <= i < n ==> StoredAmount(tx, i) == RemovedAmount(tx, i)
    ensures var (after, ids) := AddOutputs(o, tx, hash, height, n).value; RemoveOutputs(after, tx, ids, n) == Some(o)
  {
    hide AddOutputs, StoredAmount, RemovedAmount, ValidOutputs, RemoveOutput, NumOutputs;
    AddNoOutputs(o, tx, hash, height);
    if n > 0 {
      AddOutputsStep(o, tx, hash, height, n);
      AddOutputsValid(o, tx, hash, height, n - 1);
      OutputsUndo(o, tx, hash, height, n - 1);
      var (before, ids) := AddOutputs(o, tx, hash, height, n - 1).value;
      var (after, all) := AddOutputs(o, tx, hash, height, n).value;
      RemoveOutputsPrefix(before, tx, all, n - 1);
      assert RemoveOutput(after, SlotOf(tx, all, n - 1)) == Some(before);
    }
  }

  /** The slots that adding takes are new, and different from each other. */
  lemma {:induction false} SlotsAreNew(o: Outputs, tx: Transaction, hash: Hash, height: nat, n: nat, i: nat)
    requires i < n <= |tx.vout| && ValidOutputs(o) && AddOutputs(o, tx, hash, height, n).Some?
    ensures var (after, ids) := AddOutputs(o, tx, hash, height, n).value;
            SlotOf(tx, ids, i) in after.byAmount && SlotOf(tx, ids, i) !in o.byAmount
  {
    hide AddOutputs, StoredAmount, ValidOutputs, RemoveOutput, NumOutputs;
    AddOutputsStep(o, tx, hash, height, n);
    AddOutputsValid(o, tx, hash, height, n - 1);
    var (before, ids) := AddOutputs(o, tx, hash, height, n - 1).value;
    var (after, all) := AddOutputs(o, tx, hash, height, n).value;
    if i < n - 1 {
      SlotsAreNew(o, tx, hash, height, n - 1, i);
      assert SlotOf(tx, all, i) == SlotOf(tx, ids, i) by { assert all[..n - 1][i] == all[i]; }
    } else {
      SlotsGrow(o, tx, hash, height, n - 1, SlotOf(tx, all, i));
    }
  }

  lemma {:induction false} SlotsGrow(o: Outputs, tx: Transaction, hash: Hash, height: nat, n: nat, k: Slot)
    requires n <= |tx.vout| && ValidOutputs(o) && AddOutputs(o, tx, hash, height, n).Some?
    ensures k in o.byAmount ==> k in AddOutputs(o, tx, hash, height, n).value.0.byAmount
  {
    hide AddOutputs, StoredAmount, ValidOutputs, RemoveOutput, NumOutputs;
    AddNoOutputs(o, tx, hash, height);
    if n > 0 {
      AddOutputsStep(o, tx, hash, height, n);
      AddOutputsValid(o, tx, hash, height, n - 1);
      SlotsGrow(o, tx, hash, height, n - 1, k);
    }
  }

  lemma {:induction false} SlotsAreDistinct(o: Outputs, tx: Transaction, hash: Hash, height: nat, n: nat, i: nat,
                                            j: nat)
    requires i < j < n <= |tx.vout| && ValidOutputs(o) && AddOutputs(o, tx, hash, height, n).Some?
    ensures var ids := AddOutputs(o, tx, hash, height, n).value.1; SlotOf(tx, ids, i) != SlotOf(tx, ids, j)
  {
    hide AddOutputs, StoredAmount, ValidOutputs, RemoveOutput, NumOutputs;
    AddOutputsStep(o, tx, hash, height, n);
    AddOutputsValid(o, tx, hash, height, n - 1);
    var (before, ids) := AddOutputs(o, tx, hash, height, n - 1).value;
    var (after, all) := AddOutputs(o, tx, hash, height, n).value;
    assert forall m :: 0 <= m < n - 1 ==> all[..n - 1][m] == all[m];
    if j < n - 1 {
      SlotsAreDistinct(o, tx, hash, height, n - 1, i, j);
    } else {
      SlotsAreNew(o, tx, hash, height, n - 1, i);
    }
  }

  /** A slot that removal does not look for stays. */
  lemma {:induction false} SlotStays(o: Outputs, tx: Transaction, ids: seq<nat>, n: nat, k: Slot)
    requires n <= |tx.vout| && n <= |ids| && k in o.byAmount && RemoveOutputs(o, tx, ids, n).Some?
    requires forall j :: 0 <= j < n ==> k != Slot(RemovedAmount(tx, j), ids[j])
    ensures k in RemoveOutputs(o, tx, ids, n).value.byAmount
    decreases n
  {
    hide RemovedAmount;
    if n > 0 {
      SlotStays(RemoveOutput(o, Slot(RemovedAmount(tx, n - 1), ids[n - 1])).value, tx, ids, n - 1, k);
    }
  }

  /** When the amounts disagree at some output, removing never gives the old tables back. */
  lemma OutputsNotUndone(o: Outputs, tx: Transaction, hash: Hash, height: nat, i: nat)
    requires i < |tx.vout| && ValidOutputs(o) && AddOutputs(o, tx, hash, height, |tx.vout|).Some?
    requires StoredAmount(tx, i) != RemovedAmount(tx, i)
    ensures var (after, ids) := AddOutputs(o, tx, hash, height, |tx.vout|).value;
            RemoveOutputs(after, tx, ids, |tx.vout|) != Some(o)
  {
    hide AddOutputs, ValidOutputs, RemoveOutputs;
    var n := |tx.vout|;
    var (after, ids) := AddOutputs(o, tx, hash, height, n).value;
    var k := SlotOf(tx, ids, i);
    SlotsAreNew(o, tx, hash, height, n, i);
    if RemoveOutputs(after, tx, ids, n).Some? {
      forall j | 0 <= j < n
        ensures k != Slot(RemovedAmount(tx, j), ids[j])
      {
        if i < j { SlotsAreDistinct(o, tx, hash, height, n, i, j); }
        if j < i { SlotsAreDistinct(o, tx, hash, height, n, j, i); }
      }
      SlotStays(after, tx, ids, n, k);
    }
  }

  /** Removing the outputs of a transaction undoes adding them exactly when the amounts agree. */
  lemma OutputsUndoIff(o: Outputs, tx: Transaction, hash: Hash, height: nat)
    requires ValidOutputs(o) && AddOutputs(o, tx, hash, height, |tx.vout|).Some?
    ensures var (after, ids) := AddOutputs(o, tx, hash, height, |tx.vout|).value;
            RemoveOutputs(after, tx, ids, |tx.vout|) == Some(o) <==> AmountsAgree(tx)
  {
    hide AddOutputs, ValidOutputs, RemoveOutputs, HasGen;
    if AmountsAgree(tx) {
      OutputsUndo(o, tx, hash, height, |tx.vout|);
    } else {
      var i :| 0 <= i < |tx.vout| && tx.vout[i].amount != 0;
      OutputsNotUndone(o, tx, hash, height, i);
    }
  }

  // ----- transactions

  /** What adding a transaction does besides its outputs and key images. */
  lemma TxStored(s: Store, tx: Transaction, hash: Hash)
    requires Valid(s) && AddTransaction(s, tx, hash).Some?
    ensures var t := AddTransaction(s, tx, hash).value;
            && Valid(t) && GetTx(t, hash) == Some(tx) && t.blocks == s.blocks && t.heights == s.heights
            && hash !in s.indices && t.indices == s.indices[hash := TxIndex(|s.txs|, tx.unlockTime, |s.blocks|)]
            && |s.txs| !in s.txs && t.txs == s.txs[|s.txs| := tx] && |t.txs| == |s.txs| + 1
  {
    hide AddOutputs, ValidOutputs, SpendInputs;
    AddOutputsValid(s.outputs, tx, hash, |s.blocks|, |tx.vout|);
    Forget(s.txs, |s.txs|, tx);
  }

  /** Removing a transaction right after adding it restores all tables but the outputs. */
  lemma TxRemoved(s: Store, tx: Transaction, hash: Hash)
    requires Valid(s) && AddTransaction(s, tx, hash).Some?
    ensures var (after, ids) := AddOutputs(s.outputs, tx, hash, |s.blocks|, |tx.vout|).value;
            var r := RemoveOutputs(after, tx, ids, |tx.vout|);
            RemoveTransaction(AddTransaction(s, tx, hash).value, hash)
              == if r.None? then None else Some(s.(outputs := r.value))
  {
    hide AddOutputs, RemoveOutputs, ValidOutputs, SpendInputs, UnspendInputs;
    var height, id := |s.blocks|, |s.txs|;
    UnspendAfterSpend(s.spent, tx.vin);
    var ids := AddOutputs(s.outputs, tx, hash, height, |tx.vout|).value.1;
    assert id !in s.txs && id !in s.txOutputs;
    hide Valid;
    Forget(s.indices, hash, TxIndex(id, tx.unlockTime, height));
    Forget(s.txs, id, tx);
    Forget(s.txOutputs, id, ids);
  }

  /** Removing a transaction right after adding it restores the store exactly when the amounts agree. */
  lemma TxUndoIff(s: Store, tx: Transaction, hash: Hash)
    requires Valid(s) && AddTransaction(s, tx, hash).Some?
    ensures RemoveTransaction(AddTransaction(s, tx, hash).value, hash) == Some(s) <==> AmountsAgree(tx)
  {
    hide AddOutputs, RemoveOutputs, ValidOutputs, SpendInputs, RemoveTransaction, AmountsAgree;
    TxRemoved(s, tx, hash);
    OutputsUndoIff(s.outputs, tx, hash, |s.blocks|);
  }

  ghost predicate Storable(tx: Transaction, n: nat)
    requires n <= |tx.vout|
  {
    forall i :: 0 <= i < n ==> tx.vout[i].target.KeyTarget? && (StoredAmount(tx, i) == 0 ==> CommitmentOf(tx, i).Some?)
  }

  lemma {:induction false} AddOutputsSucceeds(o: Outputs, tx: Transaction, hash: Hash, height: nat, n: nat)
    requires n <= |tx.vout|
    ensures AddOutputs(o, tx, hash, height, n).Some? ==> Storable(tx, n)
    ensures ValidOutputs(o) && Storable(tx, n) ==> AddOutputs(o, tx, hash, height, n).Some?
  {
    hide StoredAmount, CommitmentOf, NumOutputs, Appends, ValidOutputs;
    if n > 0 {
      AddOutputsSucceeds(o, tx, hash, height, n - 1);
      if ValidOutputs(o) && AddOutputs(o, tx, hash, height, n - 1).Some? {
        AddOutputsValid(o, tx, hash, height, n - 1);
        ValidAppends(AddOutputs(o, tx, hash, height, n - 1).value.0, StoredAmount(tx, n - 1));
      }
    }
  }

  lemma ValidAppends(o: Outputs, amount: nat)
    requires ValidOutputs(o)
    ensures Appends(o, amount)
  {
    hide NumOutputs, NoGaps;
  }

  ghost predicate CanAdd(s: Store, tx: Transaction, hash: Hash) {
    && KnownInputs(tx.vin, |tx.vin|) && Spendable(s.spent, Images(tx.vin, |tx.vin|))
    && hash !in s.indices && 1 <= tx.version <= 2 && Storable(tx, |tx.vout|)
  }

  /** When adding a transaction succeeds, in a store without gaps, and what is spent then. */
  lemma AddTransactionSucceeds(s: Store, tx: Transaction, hash: Hash)
    ensures AddTransaction(s, tx, hash).Some? ==>
              && CanAdd(s, tx, hash)
              && AddTransaction(s, tx, hash).value.spent == s.spent + Elements(Images(tx.vin, |tx.vin|))
    ensures ValidOutputs(s.outputs) && CanAdd(s, tx, hash) ==> AddTransaction(s, tx, hash).Some?
  {
    hide AddOutputs, SpendInputs, Storable, KnownInputs, Spendable, Images, Elements, ValidOutputs;
    SpendInputsIs(s.spent, tx.vin, |tx.vin|);
    AddOutputsSucceeds(s.outputs, tx, hash, |s.blocks|, |tx.vout|);
  }

  /** The key images of a transaction that is added are new and distinct, and they are what becomes
      spent. */
  lemma AddTransactionSpends(s: Store, tx: Transaction, hash: Hash, k: KeyImage)
    requires AddTransaction(s, tx, hash).Some?
    ensures forall i :: 0 <= i < |tx.vin| ==> !tx.vin[i].OtherIn?
    ensures forall i :: 0 <= i < |tx.vin| && tx.vin[i].ToKey? ==> tx.vin[i].image !in s.spent
    ensures forall i, j :: 0 <= i < j < |tx.vin| && tx.vin[i].ToKey? && tx.vin[j].ToKey? ==>
      tx.vin[i].image != tx.vin[j].image
    ensures k in AddTransaction(s, tx, hash).value.spent <==>
            k in s.spent || exists i :: 0 <= i < |tx.vin| && tx.vin[i] == ToKey(k)
  {
    hide AddTransaction, Images, Storable;
    AddTransactionSucceeds(s, tx, hash);
    var images := Images(tx.vin, |tx.vin|);
    ImagesAre(tx.vin, |tx.vin|, k);
    forall i | 0 <= i < |tx.vin| && tx.vin[i].ToKey?
      ensures tx.vin[i].image !in s.spent
    {
      ImagesAre(tx.vin, |tx.vin|, tx.vin[i].image);
    }
    forall i, j | 0 <= i < j < |tx.vin| && tx.vin[i].ToKey? && tx.vin[j].ToKey?
      ensures tx.vin[i].image != tx.vin[j].image
    {
      TwoImages(tx.vin, |tx.vin|, i, j);
    }
  }

  lemma {:induction false} ImagesAre(vin: seq<TxIn>, n: nat, k: KeyImage)
    requires n <= |vin|
    ensures k in Images(vin, n) <==> exists i :: 0 <= i < n && vin[i] == ToKey(k)
  {
    if n > 0 { ImagesAre(vin, n - 1, k); }
  }

  /** A key image that two inputs share is listed twice. */
  lemma {:induction false} TwoImages(vin: seq<TxIn>, n: nat, i: nat, j: nat)
    requires i < j < n <= |vin| && vin[i].ToKey? && vin[j].ToKey? && Distinct(Images(vin, n))
    ensures vin[i].image != vin[j].image
  {
    var images, before := Images(vin, n), Images(vin, n - 1);
    assert images[..|before|] == before;
    if j < n - 1 {
      TwoImages(vin, n - 1, i, j);
    } else {
      ImagesAre(vin, j, vin[i].image);
      var m :| 0 <= m < |before| && before[m] == vin[i].image;
      assert images[m] != images[|before|];
    }
  }

  // ----- blocks

  ghost function Reversed(txs: seq<Transaction>): (r: seq<Transaction>)
    ensures |r| == |txs| && forall i :: 0 <= i < |r| ==> r[i] == txs[|txs| - 1 - i]
  {
    if txs == [] then [] else [txs[|txs| - 1]] + Reversed(txs[..|txs| - 1])
  }

  lemma {:induction false} AddTxsValid(s: Store, b: Block, txs: seq<Transaction>, n: nat)
    requires n <= |txs| == |b.txHashes| && Valid(s) && AddTxs(s, b, txs, n).Some?
    ensures var t := AddTxs(s, b, txs, n).value; Valid(t) && t.blocks == s.blocks && t.heights == s.heights
  {
    hide AddTransaction, GetTx, Valid;
    if n == 0 {
      TxStored(s, b.minerTx, b.minerHash);
    } else {
      AddTxsValid(s, b, txs, n - 1);
      TxStored(AddTxs(s, b, txs, n - 1).value, txs[n - 1], b.txHashes[n - 1]);
    }
  }

  ghost predicate AllAgree(txs: seq<Transaction>) { forall i :: 0 <= i < |txs| ==> AmountsAgree(txs[i]) }

  lemma {:induction false} RemoveTxsUndo(s: Store, b: Block, txs: seq<Transaction>, n: nat)
    requires n <= |txs| == |b.txHashes| && Valid(s) && AddTxs(s, b, txs, n).Some? && AllAgree(txs)
    ensures AddTransaction(s, b.minerTx, b.minerHash).Some?
    ensures RemoveTxs(AddTxs(s, b, txs, n).value, b.txHashes, n)
         == Some((AddTransaction(s, b.minerTx, b.minerHash).value, Reversed(txs[..n])))
  {
    hide AddTransaction, RemoveTransaction, GetTx, Valid, AmountsAgree;
    if n > 0 {
      var before, after := AddTxs(s, b, txs, n - 1).value, AddTxs(s, b, txs, n).value;
      AddTxsValid(s, b, txs, n - 1);
      TxStored(before, txs[n - 1], b.txHashes[n - 1]);
      TxUndoIff(before, txs[n - 1], b.txHashes[n - 1]);
      RemoveTxsUndo(s, b, txs, n - 1);
      assert txs[..n][..n - 1] == txs[..n - 1];
    }
  }

  // ----- what a disagreeing transaction leaves behind

  /** Removal of a transaction whose outputs got these indices looks for this slot. */
  ghost predicate Seeks(tx: Transaction, ids: seq<nat>, k: Slot) {
    exists j :: 0 <= j < |tx.vout| && j < |ids| && k == Slot(RemovedAmount(tx, j), ids[j])
  }

  /** Under amount 0, a removal looks only for slots that its own transaction took. So it misses the
      slots that were there before, those that come later, and its own wrongly looked for ones. */
  lemma NotSought(o: Outputs, tx: Transaction, hash: Hash, height: nat, k: Slot, i: nat)
    requires ValidOutputs(o) && KnownVersion(tx) && k.amount == 0 && AddOutputs(o, tx, hash, height, |tx.vout|).Some?
    requires var (after, ids) := AddOutputs(o, tx, hash, height, |tx.vout|).value;
             || k in o.byAmount || k !in after.byAmount
             || (i < |tx.vout| && k == SlotOf(tx, ids, i) && RemovedAmount(tx, i) != 0)
    ensures !Seeks(tx, AddOutputs(o, tx, hash, height, |tx.vout|).value.1, k)
  {
    hide AddOutputs, ValidOutputs, HasGen;
    var (after, ids) := AddOutputs(o, tx, hash, height, |tx.vout|).value;
    forall j | 0 <= j < |tx.vout|
      ensures k != Slot(RemovedAmount(tx, j), ids[j])
    {
      SlotsAreNew(o, tx, hash, height, |tx.vout|, j);
      SoughtUnderZero(tx, j);
      if i < j { SlotsAreDistinct(o, tx, hash, height, |tx.vout|, i, j); }
      if j < i < |tx.vout| { SlotsAreDistinct(o, tx, hash, height, |tx.vout|, j, i); }
    }
  }

  /** Equal transaction tables; the outputs may differ. */
  ghost predicate SameTxs(s: Store, t: Store) {
    s.indices == t.indices && s.txs == t.txs && s.txOutputs == t.txOutputs
  }

  /** Removing this transaction after it was added to s does not look for the slot. */
  ghost predicate Ignores(s: Store, tx: Transaction, hash: Hash, k: Slot) {
    AddTransaction(s, tx, hash).Some? ==> !Seeks(tx, AddOutputs(s.outputs, tx, hash, |s.blocks|, |tx.vout|).value.1, k)
  }

  lemma RemoveKeeps(cur: Store, s: Store, tx: Transaction, hash: Hash, k: Slot)
    requires Valid(s) && AddTransaction(s, tx, hash).Some? && SameTxs(cur, AddTransaction(s, tx, hash).value)
    requires Ignores(s, tx, hash, k) && k in cur.outputs.byAmount && RemoveTransaction(cur, hash).Some?
    ensures var c := RemoveTransaction(cur, hash).value; SameTxs(c, s) && k in c.outputs.byAmount
  {
    hide AddOutputs, RemoveOutputs, ValidOutputs, SpendInputs, UnspendInputs;
    var id := |s.txs|;
    assert id !in s.txs && id !in s.txOutputs;
    hide Valid;
    var ids := AddOutputs(s.outputs, tx, hash, |s.blocks|, |tx.vout|).value.1;
    Forget(s.indices, hash, TxIndex(id, tx.unlockTime, |s.blocks|));
    Forget(s.txs, id, tx);
    Forget(s.txOutputs, id, ids);
    SlotStays(cur.outputs, tx, ids, |tx.vout|, k);
  }

  // Stage 0 of adding a block is its miner transaction, stage m its transaction m - 1.

  ghost function Before(s: Store, b: Block, txs: seq<Transaction>, m: nat): Option<Store>
    requires m <= |txs| == |b.txHashes|
  {
    if m == 0 then Some(s) else AddTxs(s, b, txs, m - 1)
  }

  ghost function TxAt(b: Block, txs: seq<Transaction>, m: nat): Transaction
    requires m <= |txs|
  {
    if m == 0 then b.minerTx else txs[m - 1]
  }

  ghost function HashAt(b: Block, m: nat): Hash
    requires m <= |b.txHashes|
  {
    if m == 0 then b.minerHash else b.txHashes[m - 1]
  }

  lemma {:induction false} Stage(s: Store, b: Block, txs: seq<Transaction>, m: nat, n: nat)
    requires m <= n <= |txs| == |b.txHashes| && Valid(s) && AddTxs(s, b, txs, n).Some?
    ensures Before(s, b, txs, m).Some? && Valid(Before(s, b, txs, m).value)
    ensures AddTransaction(Before(s, b, txs, m).value, TxAt(b, txs, m), HashAt(b, m)).Some?
    ensures AddTxs(s, b, txs, m) == AddTransaction(Before(s, b, txs, m).value, TxAt(b, txs, m), HashAt(b, m))
    decreases n
  {
    hide AddTransaction, Valid;
    if m < n {
      Stage(s, b, txs, m, n - 1);
    } else if m > 0 {
      AddTxsValid(s, b, txs, m - 1);
    }
  }

  /** What is stored at a stage is still stored later. */
  lemma {:induction false} StagesGrow(s: Store, b: Block, txs: seq<Transaction>, m: nat, n: nat, k: Slot)
    requires m <= n <= |txs| == |b.txHashes| && Valid(s) && AddTxs(s, b, txs, n).Some?
    ensures AddTxs(s, b, txs, m).Some?
    ensures k in AddTxs(s, b, txs, m).value.outputs.byAmount ==> k in AddTxs(s, b, txs, n).value.outputs.byAmount
    decreases n
  {
    hide AddTransaction, Valid;
    if m < n {
      Stage(s, b, txs, n, n);
      TxGrows(Before(s, b, txs, n).value, TxAt(b, txs, n), HashAt(b, n), k);
      StagesGrow(s, b, txs, m, n - 1, k);
    }
  }

  lemma TxGrows(s: Store, tx: Transaction, hash: Hash, k: Slot)
    requires Valid(s) && AddTransaction(s, tx, hash).Some?
    ensures k in s.outputs.byAmount ==> k in AddTransaction(s, tx, hash).value.outputs.byAmount
  {
    hide AddOutputs, ValidOutputs, SpendInputs;
    SlotsGrow(s.outputs, tx, hash, |s.blocks|, |tx.vout|, k);
  }

  ghost predicate AllIgnore(s: Store, b: Block, txs: seq<Transaction>, n: nat, k: Slot)
    requires n <= |txs| == |b.txHashes|
  {
    forall m :: 0 <= m <= n && Before(s, b, txs, m).Some? ==>
      Ignores(Before(s, b, txs, m).value, TxAt(b, txs, m), HashAt(b, m), k)
  }

  lemma {:induction false} StaysThrough(s: Store, b: Block, txs: seq<Transaction>, n: nat, cur: Store, k: Slot)
    requires n <= |txs| == |b.txHashes| && Valid(s) && AddTxs(s, b, txs, n).Some? && AllIgnore(s, b, txs, n, k)
    requires SameTxs(cur, AddTxs(s, b, txs, n).value) && k in cur.outputs.byAmount
    requires RemoveTxs(cur, b.txHashes, n).Some?
    ensures AddTxs(s, b, txs, 0).Some?
    ensures var c := RemoveTxs(cur, b.txHashes, n).value.0;
            SameTxs(c, AddTxs(s, b, txs, 0).value) && k in c.outputs.byAmount
    decreases n
  {
    hide AddTransaction, RemoveTransaction, GetTx, Valid, Ignores, SameTxs;
    if n > 0 {
      Stage(s, b, txs, n, n);
      RemoveKeeps(cur, Before(s, b, txs, n).value, TxAt(b, txs, n), HashAt(b, n), k);
      StaysThrough(s, b, txs, n - 1, RemoveTransaction(cur, b.txHashes[n - 1]).value, k);
    }
  }

  /** A slot that was there before a transaction, or comes later, is ignored by its removal. */
  lemma OthersIgnored(s: Store, tx: Transaction, hash: Hash, k: Slot)
    requires Valid(s) && AddTransaction(s, tx, hash).Some? && k.amount == 0
    requires k in s.outputs.byAmount || k !in AddTransaction(s, tx, hash).value.outputs.byAmount
    ensures Ignores(s, tx, hash, k)
  {
    hide AddOutputs, ValidOutputs, SpendInputs, Seeks, StoredAmount, RemovedAmount;
    NotSought(s.outputs, tx, hash, |s.blocks|, k, |tx.vout|);
  }

  /** So is a slot that the transaction took under 0 and its removal looks for elsewhere. */
  lemma OwnIgnored(s: Store, tx: Transaction, hash: Hash, i: nat) returns (k: Slot)
    requires Valid(s) && AddTransaction(s, tx, hash).Some?
    requires i < |tx.vout| && StoredAmount(tx, i) != RemovedAmount(tx, i)
    ensures k.amount == 0 && k !in s.outputs.byAmount
    ensures k in AddTransaction(s, tx, hash).value.outputs.byAmount && Ignores(s, tx, hash, k)
  {
    hide AddOutputs, ValidOutputs, SpendInputs, Seeks, StoredAmount, RemovedAmount;
    var ids := AddOutputs(s.outputs, tx, hash, |s.blocks|, |tx.vout|).value.1;
    k := SlotOf(tx, ids, i);
    SoughtUnderZero(tx, i);
    SlotsAreNew(s.outputs, tx, hash, |s.blocks|, |tx.vout|, i);
    NotSought(s.outputs, tx, hash, |s.blocks|, k, i);
  }

  /** No removal of the block looks for a slot that was stored under 0 and is looked for elsewhere. */
  lemma WrongSlot(s: Store, b: Block, txs: seq<Transaction>, w: nat, i: nat) returns (k: Slot)
    requires w <= |txs| == |b.txHashes| && Valid(s) && AddTxs(s, b, txs, |txs|).Some?
    requires i < |TxAt(b, txs, w).vout| && StoredAmount(TxAt(b, txs, w), i) != RemovedAmount(TxAt(b, txs, w), i)
    ensures k !in s.outputs.byAmount && k in AddTxs(s, b, txs, |txs|).value.outputs.byAmount
    ensures AllIgnore(s, b, txs, |txs|, k)
  {
    hide AddTransaction, AddTxs, Valid, StoredAmount, RemovedAmount, Ignores;
    var n := |txs|;
    Stage(s, b, txs, w, n);
    k := OwnIgnored(Before(s, b, txs, w).value, TxAt(b, txs, w), HashAt(b, w), i);
    StagesGrow(s, b, txs, w, n, k);
    if w > 0 { FirstStage(s, b, txs, w - 1, k); }
    forall m | 0 <= m <= n && m != w
      ensures Before(s, b, txs, m).Some? && Ignores(Before(s, b, txs, m).value, TxAt(b, txs, m), HashAt(b, m), k)
    {
      Stage(s, b, txs, m, n);
      if m < w { StagesGrow(s, b, txs, m, w - 1, k); } else { StagesGrow(s, b, txs, w, m - 1, k); }
      OthersIgnored(Before(s, b, txs, m).value, TxAt(b, txs, m), HashAt(b, m), k);
    }
  }

  lemma SoughtUnderZero(tx: Transaction, i: nat)
    requires KnownVersion(tx) && i < |tx.vout|
    ensures RemovedAmount(tx, i) == 0 ==> StoredAmount(tx, i) == 0
    ensures StoredAmount(tx, i) != RemovedAmount(tx, i) ==> StoredAmount(tx, i) == 0
  {
    assert |tx.vin| == 1 && tx.vin[0].Gen? ==> HasGen(tx);
  }

  lemma ValidIsValid(s: Store)
    requires Valid(s)
    ensures ValidOutputs(s.outputs)
  {
  }

  lemma FirstStage(s: Store, b: Block, txs: seq<Transaction>, n: nat, k: Slot)
    requires n <= |txs| == |b.txHashes| && Valid(s) && AddTxs(s, b, txs, n).Some?
    ensures k in s.outputs.byAmount ==> k in AddTxs(s, b, txs, n).value.outputs.byAmount
  {
    hide AddTransaction, Valid;
    StagesGrow(s, b, txs, 0, n, k);
    TxGrows(s, b.minerTx, b.minerHash, k);
  }

  // ----- popping a block

  /** Popping a block right after adding it gives back the store, the block and its transactions in
      reverse order, exactly when all its transactions agree on their amounts. */
  lemma BlockUndoIff(s: Store, b: Block, txs: seq<Transaction>)
    requires Valid(s) && AddBlock(s, b, txs).Some?
    ensures PopBlock(AddBlock(s, b, txs).value) == Some(Popped(s, b, Reversed(txs)))
       <==> AllAgree(txs) && AmountsAgree(b.minerTx)
  {
    hide AddTxs, RemoveTxs, AddTransaction, RemoveTransaction, GetTx, Valid, AmountsAgree, RctOuts, Attaches, SameTxs,
         AllIgnore;
    var n := |txs|;
    var u := AddTxs(s, b, txs, n).value;
    var t := AddBlock(s, b, txs).value;
    assert b.hash !in u.heights by { UnfoldAttaches(u, b); }
    Forget(u.heights, b.hash, |u.blocks|);
    assert t.blocks[..|t.blocks| - 1] == u.blocks;
    if AllAgree(txs) && AmountsAgree(b.minerTx) {
      RemoveTxsUndo(s, b, txs, n);
      assert txs[..n] == txs;
      TxUndoIff(s, b.minerTx, b.minerHash);
    } else {
      var w :| 0 <= w <= n && !AmountsAgree(TxAt(b, txs, w)) by {
        if !AllAgree(txs) {
          var i :| 0 <= i < n && !AmountsAgree(txs[i]);
          assert TxAt(b, txs, i + 1) == txs[i];
        } else {
          assert TxAt(b, txs, 0) == b.minerTx;
        }
      }
      var i := Disagreement(TxAt(b, txs, w));
      var k := WrongSlot(s, b, txs, w, i);
      LeftBehind(s, b, txs, u, k);
    }
  }

  lemma Disagreement(tx: Transaction) returns (i: nat)
    requires !AmountsAgree(tx)
    ensures i < |tx.vout| && StoredAmount(tx, i) != RemovedAmount(tx, i)
  {
    hide HasGen;
    i :| 0 <= i < |tx.vout| && tx.vout[i].amount != 0;
  }

  /** A slot that all transactions of the block ignore survives all removals. */
  lemma LeftBehind(s: Store, b: Block, txs: seq<Transaction>, u: Store, k: Slot)
    requires |txs| == |b.txHashes| && Valid(s) && AddTxs(s, b, txs, |txs|) == Some(u)
    requires k in u.outputs.byAmount && AllIgnore(s, b, txs, |txs|, k)
    ensures RemoveTxs(u, b.txHashes, |txs|).Some? ==>
              var c := RemoveTransaction(RemoveTxs(u, b.txHashes, |txs|).value.0, b.minerHash);
              c.Some? ==> k in c.value.outputs.byAmount
  {
    hide AddTransaction, RemoveTransaction, RemoveTxs, Valid, Ignores;
    if RemoveTxs(u, b.txHashes, |txs|).Some? {
      StaysThrough(s, b, txs, |txs|, u, k);
      var c := RemoveTxs(u, b.txHashes, |txs|).value.0;
      if RemoveTransaction(c, b.minerHash).Some? {
        assert Before(s, b, txs, 0) == Some(s) && TxAt(b, txs, 0) == b.minerTx && HashAt(b, 0) == b.minerHash;
        assert Ignores(s, b.minerTx, b.minerHash, k);
        RemoveKeeps(c, s, b.minerTx, b.minerHash, k);
      }
    }
  }

  lemma UnfoldAttaches(s: Store, b: Block)
    requires Attaches(s, b)
    ensures b.hash !in s.heights
  {
  }

  /** Which transactions that can be stored disagree: those of version 2 that have a coinbase input
      among others, and an output with a positive amount. */
  lemma AgreeingTransactions(tx: Transaction)
    requires 1 <= tx.version <= 2
    ensures AmountsAgree(tx) <==>
            !(tx.version == 2 && |tx.vin| >= 2 && (exists i :: 0 <= i < |tx.vin| && tx.vin[i].Gen?) &&
              exists i :: 0 <= i < |tx.vout| && tx.vout[i].amount != 0)
  {
    if |tx.vin| == 1 && tx.vin[0].Gen? { assert HasGen(tx); }
  }

  /** A miner transaction with a second input and a positive amount. */
  function MixedCoinbase(): Transaction { Transaction(2, 60, [Gen, ToKey(9)], [TxOut(5, KeyTarget(1))], []) }

  lemma MixedInputs()
    ensures HasGen(MixedCoinbase()) && SpendInputs({}, MixedCoinbase().vin, 2).Some?
  {
    var vin := MixedCoinbase().vin;
    assert vin[0].Gen?;
    assert SpendInputs({}, vin, 1) == Some({});
  }

  lemma MixedOutputs()
    ensures AddOutputs(Outputs(map[], map[]), MixedCoinbase(), 200, 0, 1).Some?
    ensures var (after, ids) := AddOutputs(Outputs(map[], map[]), MixedCoinbase(), 200, 0, 1).value;
            RemoveOutputs(after, MixedCoinbase(), ids, 1) == None
  {
    hide HasGen, NumOutputs, SpendInputs;
    MixedInputs();
    AddNoOutputs(Outputs(map[], map[]), MixedCoinbase(), 200, 0);
  }

  /** A block that can be added and then not be popped. */
  lemma UnpoppableBlock()
    ensures var b := Block(1, 100, 0, MixedCoinbase(), 200, []);
            AddBlock(Empty, b, []).Some? && PopBlock(AddBlock(Empty, b, []).value) == None
  {
    hide AddOutputs, RemoveOutputs, SpendInputs, HasGen, RemoveTransaction, PopBlock;
    MixedInputs();
    MixedOutputs();
    TxRemoved(Empty, MixedCoinbase(), 200);
    Unpoppable(Block(1, 100, 0, MixedCoinbase(), 200, []));
  }

  lemma Unpoppable(b: Block)
    requires b.txHashes == [] && AddBlock(Empty, b, []).Some?
    requires RemoveTransaction(AddTransaction(Empty, b.minerTx, b.minerHash).value, b.minerHash) == None
    ensures PopBlock(AddBlock(Empty, b, []).value) == None
  {
    hide AddTransaction, RemoveTransaction, RctOuts;
    var u := AddTransaction(Empty, b.minerTx, b.minerHash).value;
    TxsKeepBlocks(b);
    Forget(u.heights, b.hash, 0);
  }

  lemma TxsKeepBlocks(b: Block)
    requires AddTransaction(Empty, b.minerTx, b.minerHash).Some?
    ensures var u := AddTransaction(Empty, b.minerTx, b.minerHash).value; u.blocks == [] && u.heights == map[]
  {
    hide AddOutputs, SpendInputs;
  }
}
