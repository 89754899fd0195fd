/** Every run of adding and popping blocks, from the empty store. */
module BlockRuns {
  import opened Wrappers
  import opened BlockStore
  import opened BlockUndo

  datatype Entry = Entry(block: Block, txs: seq<Transaction>)

  datatype Op = Add(entry: Entry) | Pop

  /** The store, and the blocks that were added and not popped, with their transactions. */
  datatype System = System(store: Store, chain: seq<Entry>)

  /** One operation; one that fails changes nothing, as its write transaction is aborted. */
  ghost function Step(y: System, op: Op): System {
    match op
    case Add(e) =>
      (match AddBlock(y.store, e.block, e.txs)
       case None => y
       case Some(t) => System(t, y.chain + [e]))
    case Pop =>
      match PopBlock(y.store)
      case None => y
      case Some(p) => System(p.store, if y.chain == [] then [] else y.chain[..|y.chain| - 1])
  }

  ghost function Run(ops: seq<Op>): System {
    if ops == [] then System(Empty, []) else Step(Run(ops[..|ops| - 1]), ops[|ops| - 1])
  }

  // ----- transactions are kept as a stack

  /** A transaction under its hash, in the block of this height. */
  datatype Item = Item(hash: Hash, tx: Transaction, height: nat)

  ghost function IndexOf(x: Item, id: nat): TxIndex { TxIndex(id, x.tx.unlockTime, x.height) }

  ghost function TxImages(tx: Transaction): seq<KeyImage> { Images(tx.vin, |tx.vin|) }

  ghost function AllImages(items: seq<Item>): seq<KeyImage> {
    if items == [] then [] else AllImages(items[..|items| - 1]) + TxImages(items[|items| - 1].tx)
  }

  lemma AllImagesSnoc(items: seq<Item>, x: Item)
    ensures AllImages(items + [x]) == AllImages(items) + TxImages(x.tx)
  {
    assert (items + [x])[..|items|] == items;
  }

  /** The transaction table holds exactly these transactions, numbered in order. */
  ghost predicate Listed(txs: map<nat, Transaction>, items: seq<Item>) {
    && |txs| == |items|
    && (forall i :: i in txs ==> i < |items|)
    && (forall i :: 0 <= i < |items| ==> i in txs && txs[i] == items[i].tx)
  }

  /** The index table holds exactly the hashes of these transactions, with their numbers, unlock
      times and heights. */
  ghost predicate Indexed(indices: map<Hash, TxIndex>, items: seq<Item>) {
    && (forall i :: 0 <= i < |items| ==> items[i].hash in indices && indices[items[i].hash] == IndexOf(items[i], i))
    && (forall h :: h in indices ==> indices[h].id < |items| && items[indices[h].id].hash == h)
  }

  /** The spent keys are the disjoint union of the key images of these transactions. */
  ghost predicate SpentBy(spent: set<KeyImage>, items: seq<Item>) {
    Distinct(AllImages(items)) && spent == Elements(AllImages(items))
  }

  ghost predicate Stack(s: Store, items: seq<Item>) {
    Listed(s.txs, items) && Indexed(s.indices, items) && SpentBy(s.spent, items)
  }

  lemma DistinctConcat(a: seq<KeyImage>, b: seq<KeyImage>)
    ensures Distinct(a + b) <==> Distinct(a) && Spendable(Elements(a), b)
    ensures Elements(a + b) == Elements(a) + Elements(b)
  {
    var c := a + b;
    if Distinct(c) {
      forall i, j | 0 <= i < j < |a| ensures a[i] != a[j] { assert c[i] != c[j]; }
      forall i, j | 0 <= i < j < |b| ensures b[i] != b[j] { assert c[|a| + i] != c[|a| + j]; }
      forall k | k in b ensures k !in Elements(a) {
        var j :| 0 <= j < |b| && b[j] == k;
        forall i | 0 <= i < |a| ensures a[i] != k { assert c[i] != c[|a| + j]; }
      }
    }
    if Distinct(a) && Spendable(Elements(a), b) {
      forall i, j | 0 <= i < j < |c| ensures c[i] != c[j] {
        if i < |a| <= j { assert a[i] in Elements(a) && b[j - |a|] in b; }
      }
    }
  }

  lemma ListedPush(txs: map<nat, Transaction>, items: seq<Item>, x: Item)
    requires Listed(txs, items)
    ensures Listed(txs[|txs| := x.tx], items + [x])
  {
    Forget(txs, |txs|, x.tx);
  }

  lemma ListedPop(txs: map<nat, Transaction>, items: seq<Item>, x: Item)
    requires Listed(txs, items + [x])
    ensures |items| in txs && txs[|items|] == x.tx && Listed(txs - {|items|}, items)
  {
    var all, id := items + [x], |items|;
    var rest := txs - {id};
    assert all[id] == x;
    assert rest.Keys == txs.Keys - {id};
    assert |rest.Keys| == |items|;
    forall i | 0 <= i < id ensures i in rest && rest[i] == items[i].tx { assert all[i] == items[i]; }
  }

  lemma IndexedPush(indices: map<Hash, TxIndex>, items: seq<Item>, x: Item)
    requires Indexed(indices, items) && x.hash !in indices
    ensures Indexed(indices[x.hash := IndexOf(x, |items|)], items + [x])
  {
    var all, more := items + [x], indices[x.hash := IndexOf(x, |items|)];
    forall i | 0 <= i < |all| ensures all[i].hash in more && more[all[i].hash] == IndexOf(all[i], i) {
      if i < |items| { assert items[i].hash in indices; }
    }
  }

  lemma IndexedPop(indices: map<Hash, TxIndex>, items: seq<Item>, x: Item)
    requires Indexed(indices, items + [x])
    ensures x.hash in indices && indices[x.hash].id == |items| && Indexed(indices - {x.hash}, items)
  {
    var all, id := items + [x], |items|;
    assert all[id] == x;
    forall i | 0 <= i < id
      ensures items[i].hash in indices && indices[items[i].hash] == IndexOf(items[i], i) && items[i].hash != x.hash
    {
      assert all[i] == items[i];
    }
  }

  /** Adding a transaction pushes it on the stack. */
  lemma Push(s: Store, items: seq<Item>, x: Item)
    requires Stack(s, items) && AddTransaction(s, x.tx, x.hash).Some? && x.height == |s.blocks|
    ensures Stack(AddTransaction(s, x.tx, x.hash).value, items + [x])
  {
    hide SpendInputs, AddOutputs, Indexed, Images, Distinct, Spendable, Elements, AllImages;
    ListedPush(s.txs, items, x);
    IndexedPush(s.indices, items, x);
    AddTransactionSucceeds(s, x.tx, x.hash);
    AllImagesSnoc(items, x);
    DistinctConcat(AllImages(items), TxImages(x.tx));
  }

  /** Removing the latest transaction pops it. */
  lemma PopTop(s: Store, items: seq<Item>, x: Item)
    requires Stack(s, items + [x])
    ensures GetTx(s, x.hash) == Some(x.tx)
    ensures RemoveTransaction(s, x.hash).Some? ==> Stack(RemoveTransaction(s, x.hash).value, items)
  {
    hide Listed, Indexed, RemoveOutputs, UnspendInputs, Images, Distinct, AllImages;
    ListedPop(s.txs, items, x);
    IndexedPop(s.indices, items, x);
    AllImagesSnoc(items, x);
    DistinctConcat(AllImages(items), TxImages(x.tx));
    UnspendInputsIs(s.spent, x.tx.vin, |x.tx.vin|);
  }

  // ----- blocks

  ghost function Items(b: Block, txs: seq<Transaction>, height: nat, n: nat): seq<Item>
    requires n <= |txs| == |b.txHashes|
  {
    if n == 0 then [Item(b.minerHash, b.minerTx, height)]
    else Items(b, txs, height, n - 1) + [Item(b.txHashes[n - 1], txs[n - 1], height)]
  }

  lemma {:induction false} PushTxs(s: Store, items: seq<Item>, b: Block, txs: seq<Transaction>, height: nat, n: nat)
    requires n <= |txs| == |b.txHashes| && Stack(s, items) && AddTxs(s, b, txs, n).Some? && height == |s.blocks|
    ensures var t := AddTxs(s, b, txs, n).value;
            Stack(t, items + Items(b, txs, height, n)) && t.blocks == s.blocks && t.heights == s.heights
  {
    hide Stack, AddOutputs, SpendInputs;
    if n == 0 {
      Push(s, items, Item(b.minerHash, b.minerTx, height));
    } else {
      PushTxs(s, items, b, txs, height, n - 1);
      var x := Item(b.txHashes[n - 1], txs[n - 1], height);
      Push(AddTxs(s, b, txs, n - 1).value, items + Items(b, txs, height, n - 1), x);
      assert items + Items(b, txs, height, n - 1) + [x] == items + Items(b, txs, height, n);
    }
  }

  lemma {:induction false} PopTxs(s: Store, items: seq<Item>, b: Block, txs: seq<Transaction>, height: nat, n: nat)
    requires n <= |txs| == |b.txHashes| && RemoveTxs(s, b.txHashes, n).Some?
    requires Stack(s, items + Items(b, txs, height, n))
    ensures var (t, popped) := RemoveTxs(s, b.txHashes, n).value;
            && Stack(t, items + [Item(b.minerHash, b.minerTx, height)]) && popped == Reversed(txs[..n])
            && t.blocks == s.blocks && t.heights == s.heights
    decreases n
  {
    hide Stack, RemoveOutputs, UnspendInputs, GetTx;
    if n > 0 {
      var x := Item(b.txHashes[n - 1], txs[n - 1], height);
      assert items + Items(b, txs, height, n) == items + Items(b, txs, height, n - 1) + [x];
      PopTop(s, items + Items(b, txs, height, n - 1), x);
      PopTxs(RemoveTransaction(s, x.hash).value, items, b, txs, height, n - 1);
      assert txs[..n][..n - 1] == txs[..n - 1];
    }
  }

  ghost predicate WellSized(chain: seq<Entry>) {
    forall i :: 0 <= i < |chain| ==> |chain[i].txs| == |chain[i].block.txHashes|
  }

  /** All transactions of a chain, in the order in which they were added. */
  ghost function ChainItems(chain: seq<Entry>): seq<Item>
    requires WellSized(chain)
  {
    if chain == [] then []
    else
      var e := chain[|chain| - 1];
      ChainItems(chain[..|chain| - 1]) + Items(e.block, e.txs, |chain| - 1, |e.txs|)
  }

  lemma {:induction false} ChainItemsSnoc(chain: seq<Entry>, e: Entry)
    requires WellSized(chain) && |e.txs| == |e.block.txHashes|
    ensures WellSized(chain + [e])
    ensures ChainItems(chain + [e]) == ChainItems(chain) + Items(e.block, e.txs, |chain|, |e.txs|)
  {
    assert (chain + [e])[..|chain|] == chain;
  }

  /** The block tables hold exactly the chain: block i at height i, each on top of its parent, with
      its count of RingCT outputs. */
  ghost predicate Linked(s: Store, chain: seq<Entry>) {
    && |s.blocks| == |chain|
    && (forall i :: 0 <= i < |chain| ==>
          s.blocks[i] == BlockInfo(chain[i].block, RctOuts(chain[i].block, chain[i].txs, |chain[i].txs|))
          && chain[i].block.hash in s.heights && s.heights[chain[i].block.hash] == i
          && (i > 0 ==> chain[i].block.prev == chain[i - 1].block.hash) && (i == 0 ==> chain[i].block.majorVersion < 4))
    && (forall h :: h in s.heights ==> s.heights[h] < |chain| && chain[s.heights[h]].block.hash == h)
  }

  ghost predicate Holds(y: System) {
    WellSized(y.chain) && Linked(y.store, y.chain) && Stack(y.store, ChainItems(y.chain))
  }

  lemma LinkedLength(s: Store, chain: seq<Entry>)
    requires Linked(s, chain)
    ensures |s.blocks| == |chain|
  {
  }

  lemma LinkedAdd(s: Store, t: Store, chain: seq<Entry>, e: Entry)
    requires Linked(s, chain) && Attaches(s, e.block)
    requires t.blocks == s.blocks + [BlockInfo(e.block, RctOuts(e.block, e.txs, |e.txs|))]
    requires t.heights == s.heights[e.block.hash := |s.blocks|]
    ensures Linked(t, chain + [e])
  {
    hide RctOuts;
    var all, n := chain + [e], |chain|;
    assert all[n] == e;
    if n > 0 { assert e.block.prev in s.heights && chain[s.heights[e.block.prev]].block.hash == e.block.prev; }
  }

  lemma LinkedPop(s: Store, t: Store, chain: seq<Entry>, e: Entry)
    requires Linked(s, chain + [e])
    requires t.blocks == s.blocks[..|s.blocks| - 1] && t.heights == s.heights - {e.block.hash}
    ensures Linked(t, chain)
  {
    hide RctOuts;
    var all, n := chain + [e], |chain|;
    assert all[n] == e;
    assert forall i :: 0 <= i < n ==> all[i] == chain[i];
  }

  lemma HoldsAdd(y: System, e: Entry)
    requires Holds(y) && AddBlock(y.store, e.block, e.txs).Some?
    ensures Holds(System(AddBlock(y.store, e.block, e.txs).value, y.chain + [e]))
  {
    hide Linked, Stack, AddTxs, RctOuts, Items, ChainItems, WellSized;
    var t := AddTxs(y.store, e.block, e.txs, |e.txs|).value;
    LinkedLength(y.store, y.chain);
    PushTxs(y.store, ChainItems(y.chain), e.block, e.txs, |y.chain|, |e.txs|);
    ChainItemsSnoc(y.chain, e);
    var u := AddBlock(y.store, e.block, e.txs).value;
    LinkedAdd(y.store, u, y.chain, e);
    SameTables(t, u, ChainItems(y.chain + [e]));
  }

  lemma SameTables(s: Store, t: Store, items: seq<Item>)
    requires Stack(s, items) && s.txs == t.txs && s.indices == t.indices && s.spent == t.spent
    ensures Stack(t, items)
  {
    hide AllImages, Distinct, Elements;
  }

  /** A successful pop returns the latest block and its transactions in reverse, and the rest of the
      chain is kept; this holds whether or not amounts agree. */
  lemma HoldsPop(y: System, chain: seq<Entry>, e: Entry)
    requires Holds(y) && y.chain == chain + [e] && PopBlock(y.store).Some?
    ensures var p := PopBlock(y.store).value;
            p.block == e.block && p.txs == Reversed(e.txs) && Holds(System(p.store, chain))
  {
    hide Stack, RemoveTxs, RemoveOutputs, UnspendInputs, GetTx, RctOuts, Items, ChainItems;
    var s, b, n := y.store, e.block, |e.txs|;
    assert y.chain[|chain|] == e;
    WellSizedPrefix(chain, e);
    ChainItemsSnoc(chain, e);
    assert s.blocks[|chain|].block == b;
    var below := s.(blocks := s.blocks[..|s.blocks| - 1], heights := s.heights - {b.hash});
    hide Linked, WellSized;
    SameTables(s, below, ChainItems(y.chain));
    PopTxs(below, ChainItems(chain), b, e.txs, |chain|, n);
    assert e.txs[..n] == e.txs;
    var t := RemoveTxs(below, b.txHashes, n).value.0;
    PopTop(t, ChainItems(chain), Item(b.minerHash, b.minerTx, |chain|));
    LinkedPop(s, PopBlock(s).value.store, chain, e);
  }

  lemma WellSizedPrefix(chain: seq<Entry>, e: Entry)
    requires WellSized(chain + [e])
    ensures WellSized(chain) && |e.txs| == |e.block.txHashes|
  {
    var all := chain + [e];
    assert all[|chain|] == e;
    assert forall i :: 0 <= i < |chain| ==> all[i] == chain[i];
  }

  /** After every run, the block tables are the current chain, the transaction tables its
      transactions in order, and the spent keys the disjoint union of their key images. */
  lemma {:induction false} EveryRun(ops: seq<Op>)
    ensures Holds(Run(ops))
  {
    hide Holds, AddBlock, PopBlock;
    if ops == [] {
      EmptyHolds();
    } else {
      var y, op := Run(ops[..|ops| - 1]), ops[|ops| - 1];
      EveryRun(ops[..|ops| - 1]);
      match op
      case Add(e) =>
        if AddBlock(y.store, e.block, e.txs).Some? { HoldsAdd(y, e); }
      case Pop =>
        EmptyIsNotPopped(y);
        if PopBlock(y.store).Some? {
          var n := |y.chain| - 1;
          assert y.chain == y.chain[..n] + [y.chain[n]];
          HoldsPop(y, y.chain[..n], y.chain[n]);
        }
    }
  }

  lemma EmptyHolds()
    ensures Holds(System(Empty, []))
  {
  }

  lemma EmptyIsNotPopped(y: System)
    requires Holds(y)
    ensures y.chain == [] ==> PopBlock(y.store) == None
  {
  }
}
