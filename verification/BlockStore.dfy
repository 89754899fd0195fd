/** The tables of the block database as values, with the storage primitives and the block
    operations that are built from them. */
module BlockStore {
  import opened Wrappers

  // Hashes, keys, key images and commitment masks are identifiers.
  type Hash = nat
  type KeyImage = nat

  datatype Commitment = ZeroCommit(amount: nat) | Mask(key: nat)

  datatype TxIn = Gen | ToKey(image: KeyImage) | OtherIn
  datatype Target = KeyTarget(key: nat) | OtherTarget
  datatype TxOut = TxOut(amount: nat, target: Target)
  datatype Transaction = Transaction(version: nat, unlockTime: nat, vin: seq<TxIn>, vout: seq<TxOut>, outPk: seq<nat>)
  datatype Block =
    Block(majorVersion: nat, hash: Hash, prev: Hash, minerTx: Transaction, minerHash: Hash, txHashes: seq<Hash>)

  datatype BlockInfo = BlockInfo(block: Block, numRctOuts: nat)
  datatype OutKey = OutKey(outputId: nat, key: nat, unlockTime: nat, height: nat, commitment: Option<Commitment>)
  datatype OutTx = OutTx(tx: Hash, localIndex: nat)
  datatype TxIndex = TxIndex(id: nat, unlockTime: nat, height: nat)

  /** An amount and an index among the outputs of this amount. */
  datatype Slot = Slot(amount: nat, index: nat)

  /** The outputs by amount, and by their global number. */
  datatype Outputs = Outputs(byAmount: map<Slot, OutKey>, global: map<nat, OutTx>)

  /** All tables: blocks and their heights by hash, transaction numbers by hash, transactions and
      their amount output indices by number, outputs, and spent key images. */
  datatype Store = Store(
    blocks: seq<BlockInfo>, heights: map<Hash, nat>,
    indices: map<Hash, TxIndex>, txs: map<nat, Transaction>, txOutputs: map<nat, seq<nat>>,
    outputs: Outputs, spent: set<KeyImage>)

  const Empty := Store([], map[], map[], map[], map[], Outputs(map[], map[]), {})

  // ----- key images

  /** The spent keys after the first n inputs; None is the exception for a key image that is
      already spent or an input of unknown type. */
  function SpendInputs(spent: set<KeyImage>, vin: seq<TxIn>, n: nat): Option<set<KeyImage>>
    requires n <= |vin|
  {
    if n == 0 then Some(spent)
    else
      match SpendInputs(spent, vin, n - 1)
      case None => None
      case Some(s) =>
        match vin[n - 1]
        case Gen => Some(s)
        case ToKey(image) => if image in s then None else Some(s + {image})
        case OtherIn => None
  }

  /** The spent keys after the images of the first n inputs are removed; absent ones are ignored. */
  function UnspendInputs(spent: set<KeyImage>, vin: seq<TxIn>, n: nat): set<KeyImage>
    requires n <= |vin|
  {
    if n == 0 then spent
    else
      var s := UnspendInputs(spent, vin, n - 1);
      if vin[n - 1].ToKey? then s - {vin[n - 1].image} else s
  }

  /** The key images of the first n inputs, in order. */
  function Images(vin: seq<TxIn>, n: nat): seq<KeyImage>
    requires n <= |vin|
  {
    if n == 0 then [] else Images(vin, n - 1) + if vin[n - 1].ToKey? then [vin[n - 1].image] else []
  }

  // ----- outputs

  function IndicesOf(o: Outputs, amount: nat): set<nat> {
    set k | k in o.byAmount.Keys && k.amount == amount :: k.index
  }

  /** The number of outputs stored under an amount. */
  function NumOutputs(o: Outputs, amount: nat): nat { |IndicesOf(o, amount)| }

  lemma {:induction false} Last(ids: set<nat>) returns (last: nat)
    requires ids != {}
    ensures last in ids && forall id :: id in ids ==> id <= last
    decreases |ids|
  {
    var i :| i in ids;
    var rest := ids - {i};
    last := i;
    if rest != {} {
      var l := Last(rest);
      if i < l { last := l; }
    }
    forall id | id in ids
      ensures id <= last
    {
      if id != i { assert id in rest; }
    }
  }

  lemma LastExists(ids: set<nat>)
    requires ids != {}
    ensures exists last :: last in ids && forall id :: id in ids ==> id <= last
  {
    var last := Last(ids);
  }

  /** The number after the last global output number. */
  function NextId(global: map<nat, OutTx>): (n: nat)
    ensures n !in global && (n > 0 ==> n - 1 in global)
    ensures forall id :: id in global ==> id < n
  {
    if global == map[] then 0
    else
      LastExists(global.Keys);
      var last :| last in global.Keys && forall id :: id in global.Keys ==> id <= last;
      last + 1
  }

  /** The next index of an amount is beyond all its indices, as appending demands. */
  predicate Appends(o: Outputs, amount: nat) {
    forall k :: k in o.byAmount.Keys && k.amount == amount ==> k.index < NumOutputs(o, amount)
  }

  function AddOutput(o: Outputs, hash: Hash, amount: nat, target: Target, local: nat, unlock: nat, height: nat,
                     commitment: Option<Commitment>)
    : Option<(Outputs, nat)>
  {
    if !target.KeyTarget? || (amount == 0 && commitment.None?) || !Appends(o, amount) then None
    else
      var index, id := NumOutputs(o, amount), NextId(o.global);
      var key := OutKey(id, target.key, unlock, height, if amount == 0 then commitment else None);
      Some((Outputs(o.byAmount[Slot(amount, index) := key], o.global[id := OutTx(hash, local)]), index))
  }

  function RemoveOutput(o: Outputs, slot: Slot): Option<Outputs> {
    if slot !in o.byAmount || o.byAmount[slot].outputId !in o.global then None
    else Some(Outputs(o.byAmount - {slot}, o.global - {o.byAmount[slot].outputId}))
  }

  predicate HasGen(tx: Transaction) { exists i :: 0 <= i < |tx.vin| && tx.vin[i].Gen? }

  /** Under which amount adding a transaction stores its i-th output. */
  function StoredAmount(tx: Transaction, i: nat): nat
    requires i < |tx.vout|
  {
    if HasGen(tx) && tx.version == 2 then 0 else tx.vout[i].amount
  }

  /** Under which amount removing a transaction looks for its i-th output. */
  function RemovedAmount(tx: Transaction, i: nat): nat
    requires i < |tx.vout|
  {
    if tx.version >= 2 && |tx.vin| == 1 && tx.vin[0].Gen? then 0 else tx.vout[i].amount
  }

  function CommitmentOf(tx: Transaction, i: nat): Option<Commitment>
    requires i < |tx.vout|
  {
    if HasGen(tx) && tx.version == 2 then Some(ZeroCommit(tx.vout[i].amount))
    else if tx.version > 1 && i < |tx.outPk| then Some(Mask(tx.outPk[i]))
    else None
  }

  /** The outputs after the first n outputs of a transaction, with their amount output indices. */
  function AddOutputs(o: Outputs, tx: Transaction, hash: Hash, height: nat, n: nat): (r: Option<(Outputs, seq<nat>)>)
    requires n <= |tx.vout|
    ensures r.Some? ==> |r.value.1| == n
  {
    if n == 0 then Some((o, []))
    else
      match AddOutputs(o, tx, hash, height, n - 1)
      case None => None
      case Some((before, ids)) =>
        var out := tx.vout[n - 1];
        match AddOutput(before, hash, StoredAmount(tx, n - 1), out.target, n - 1, tx.unlockTime, height,
                        CommitmentOf(tx, n - 1))
        case None => None
        case Some((after, index)) => Some((after, ids + [index]))
  }

  /** The outputs after outputs n - 1, ..., 0 of a transaction are removed, in this order. */
  function RemoveOutputs(o: Outputs, tx: Transaction, ids: seq<nat>, n: nat): Option<Outputs>
    requires n <= |tx.vout| && n <= |ids|
    decreases n
  {
    if n == 0 then Some(o)
    else
      match RemoveOutput(o, Slot(RemovedAmount(tx, n - 1), ids[n - 1]))
      case None => None
      case Some(after) => RemoveOutputs(after, tx, ids, n - 1)
  }

  // ----- transactions

  /** The versions that can be serialized. */
  predicate KnownVersion(tx: Transaction) { 1 <= tx.version <= 2 }

  function AddTransaction(s: Store, tx: Transaction, hash: Hash): Option<Store> {
    match SpendInputs(s.spent, tx.vin, |tx.vin|)
    case None => None
    case Some(spent) =>
      if hash in s.indices || !KnownVersion(tx) then None
      else
        var id := |s.txs|;
        match AddOutputs(s.outputs, tx, hash, |s.blocks|, |tx.vout|)
        case None => None
        case Some((outputs, ids)) =>
          Some(s.(spent := spent, indices := s.indices[hash := TxIndex(id, tx.unlockTime, |s.blocks|)],
                  txs := s.txs[id := tx], outputs := outputs, txOutputs := s.txOutputs[id := ids]))
  }

  function GetTx(s: Store, hash: Hash): Option<Transaction> {
    if hash in s.indices && s.indices[hash].id in s.txs then Some(s.txs[s.indices[hash].id]) else None
  }

  function RemoveTransaction(s: Store, hash: Hash): Option<Store> {
    match GetTx(s, hash)
    case None => None
    case Some(tx) =>
      var id := s.indices[hash].id;
      if id !in s.txOutputs || |s.txOutputs[id]| < |tx.vout| then None
      else
        match RemoveOutputs(s.outputs, tx, s.txOutputs[id], |tx.vout|)
        case None => None
        case Some(outputs) =>
          Some(s.(spent := UnspendInputs(s.spent, tx.vin, |tx.vin|), outputs := outputs, indices := s.indices - {hash},
                  txs := s.txs - {id}, txOutputs := s.txOutputs - {id}))
  }

  // ----- blocks

  /** Adds the first n transactions of a block after its miner transaction. */
  function AddTxs(s: Store, b: Block, txs: seq<Transaction>, n: nat): Option<Store>
    requires n <= |txs| == |b.txHashes|
  {
    if n == 0 then AddTransaction(s, b.minerTx, b.minerHash)
    else
      match AddTxs(s, b, txs, n - 1)
      case None => None
      case Some(before) => AddTransaction(before, txs[n - 1], b.txHashes[n - 1])
  }

  function ZeroOutputs(tx: Transaction, n: nat): nat
    requires n <= |tx.vout|
  {
    if n == 0 then 0 else ZeroOutputs(tx, n - 1) + if tx.vout[n - 1].amount == 0 then 1 else 0
  }

  /** The number of RingCT outputs that the block operation reports: all outputs of a version 2
      miner transaction, and the outputs of amount 0 of the first n other transactions. */
  function RctOuts(b: Block, txs: seq<Transaction>, n: nat): nat
    requires n <= |txs|
  {
    if n == 0 then if b.minerTx.version == 2 then |b.minerTx.vout| else 0
    else RctOuts(b, txs, n - 1) + ZeroOutputs(txs[n - 1], |txs[n - 1].vout|)
  }

  /** Whether the block is new and its parent is the top block. From version 4 on, a block adds to
      the sums of the one below, so that it cannot be the first. */
  predicate Attaches(s: Store, b: Block) {
    && b.hash !in s.heights
    && (s.blocks != [] ==> b.prev in s.heights && s.heights[b.prev] == |s.blocks| - 1)
    && (b.majorVersion >= 4 ==> s.blocks != [])
  }

  function AddBlock(s: Store, b: Block, txs: seq<Transaction>): Option<Store> {
    if |b.txHashes| != |txs| then None
    else
      match AddTxs(s, b, txs, |txs|)
      case None => None
      case Some(t) =>
        if !Attaches(t, b) then None
        else
          var info := BlockInfo(b, RctOuts(b, txs, |txs|));
          Some(t.(blocks := t.blocks + [info], heights := t.heights[b.hash := |t.blocks|]))
  }

  /** The store after transactions n - 1, ..., 0 of the list are removed, and what they were, in the
      order of removal. */
  function RemoveTxs(s: Store, hashes: seq<Hash>, n: nat): Option<(Store, seq<Transaction>)>
    requires n <= |hashes|
    decreases n
  {
    if n == 0 then Some((s, []))
    else
      match GetTx(s, hashes[n - 1])
      case None => None
      case Some(tx) =>
        match RemoveTransaction(s, hashes[n - 1])
        case None => None
        case Some(t) =>
          match RemoveTxs(t, hashes, n - 1)
          case None => None
          case Some((u, more)) => Some((u, [tx] + more))
  }

  datatype Popped = Popped(store: Store, block: Block, txs: seq<Transaction>)

  function PopBlock(s: Store): Option<Popped> {
    if s.blocks == [] then None
    else
      var b := s.blocks[|s.blocks| - 1].block;
      if b.hash !in s.heights then None
      else
        var below := s.(blocks := s.blocks[..|s.blocks| - 1], heights := s.heights - {b.hash});
        match RemoveTxs(below, b.txHashes, |b.txHashes|)
        case None => None
        case Some((t, txs)) =>
          match RemoveTransaction(t, b.minerHash)
          case None => None
          case Some(u) => Some(Popped(u, b, txs))
  }

  // ----- valid tables

  ghost predicate NoGaps(global: map<nat, OutTx>) { forall id: nat :: id in global <==> id < |global| }

  ghost predicate ValidOutputs(o: Outputs) {
    (forall k :: k in o.byAmount ==> k.index < NumOutputs(o, k.amount)) && NoGaps(o.global)
  }

  /** Numbers are handed out without gaps. */
  ghost predicate Valid(s: Store) {
    && ValidOutputs(s.outputs)
    && (forall id :: id in s.txs ==> id < |s.txs|)
    && (forall id :: id in s.txOutputs ==> id < |s.txs|)
  }

  lemma IndicesOfIs(o: Outputs, amount: nat, i: nat)
    ensures i in IndicesOf(o, amount) <==> Slot(amount, i) in o.byAmount
  {
    if Slot(amount, i) in o.byAmount { assert Slot(amount, i) in o.byAmount.Keys; }
  }

  lemma IndicesAfter(o: Outputs, after: Outputs, slot: Slot, a: nat)
    requires slot !in o.byAmount && after.byAmount.Keys == o.byAmount.Keys + {slot}
    ensures NumOutputs(after, a) == NumOutputs(o, a) + if a == slot.amount then 1 else 0
  {
    var was, now := IndicesOf(o, a), IndicesOf(after, a);
    hide IndicesOf;
    forall i: nat
      ensures i in now <==> i in was || (a == slot.amount && i == slot.index)
    {
      IndicesOfIs(o, a, i); IndicesOfIs(after, a, i);
    }
    IndicesOfIs(o, a, slot.index);
    if a == slot.amount {
      assert now == was + {slot.index};
    } else {
      assert now == was;
    }
  }

  /** What adding an output does to the tables: it takes the next slot of its amount, and removing
      this slot is the inverse. */
  ghost predicate Extends(o: Outputs, after: Outputs, slot: Slot) {
    && slot.index == NumOutputs(o, slot.amount)
    && slot !in o.byAmount
    && after.byAmount.Keys == o.byAmount.Keys + {slot}
    && RemoveOutput(after, slot) == Some(o)
  }

  lemma Forget<K, V>(m: map<K, V>, k: K, v: V)
    requires k !in m
    ensures m[k := v] - {k} == m && m[k := v].Keys == m.Keys + {k} && |m[k := v]| == |m| + 1
  {
    var n := m[k := v];
    assert |n.Keys| == |m.Keys| + 1 by { assert n.Keys == m.Keys + {k}; }
    assert n - {k} == m;
  }

  /** Without gaps, the next number is the number of entries. */
  lemma NextIsSize(global: map<nat, OutTx>)
    requires NoGaps(global)
    ensures NextId(global) == |global|
  {
    if |global| > 0 { assert |global| - 1 in global; }
  }

  lemma AddOutputExtends(o: Outputs, hash: Hash, amount: nat, target: Target, local: nat, unlock: nat, height: nat,
                         commitment: Option<Commitment>)
    requires ValidOutputs(o)
    requires AddOutput(o, hash, amount, target, local, unlock, height, commitment).Some?
    ensures var (after, index) := AddOutput(o, hash, amount, target, local, unlock, height, commitment).value;
            && Extends(o, after, Slot(amount, index))
            && after.global.Keys == o.global.Keys + {|o.global|} && |after.global| == |o.global| + 1
  {
    hide NumOutputs;
    var slot, id := Slot(amount, NumOutputs(o, amount)), |o.global|;
    NextIsSize(o.global);
    var key := OutKey(id, target.key, unlock, height, if amount == 0 then commitment else None);
    Forget(o.byAmount, slot, key);
    Forget(o.global, id, OutTx(hash, local));
  }

  lemma StillNoGaps(global: map<nat, OutTx>, after: map<nat, OutTx>)
    requires NoGaps(global) && after.Keys == global.Keys + {|global|} && |after| == |global| + 1
    ensures NoGaps(after)
  {
    forall id: nat
      ensures id in after <==> id < |after|
    {
      assert id in after.Keys <==> id in global.Keys || id == |global|;
    }
  }

  lemma ExtendsValid(o: Outputs, after: Outputs, slot: Slot)
    requires ValidOutputs(o) && Extends(o, after, slot)
    requires after.global.Keys == o.global.Keys + {|o.global|} && |after.global| == |o.global| + 1
    ensures ValidOutputs(after)
  {
    hide NumOutputs, RemoveOutput, NoGaps;
    assert NoGaps(after.global) by { StillNoGaps(o.global, after.global); }
    forall k | k in after.byAmount
      ensures k.index < NumOutputs(after, k.amount)
    {
      IndicesAfter(o, after, slot, k.amount);
    }
  }
}
