/** The blockchain database as the ancestry tool sees it, and the answers it gives without caches. */
module ChainDb {
  import opened Wrappers

  // Hashes and keys are identifiers; ring offsets are absolute.
  type Hash = nat
  type Key = nat

  /** A reference to an output: the offset-th output of the given amount. */
  datatype Ancestor = Ancestor(amount: nat, offset: nat)

  datatype TxIn = Gen | ToKey(amount: nat, offsets: seq<nat>) | OtherIn
  datatype TxOut = ToKeyOut(key: Key) | OtherOut
  datatype Transaction = Transaction(vin: seq<TxIn>, vout: seq<TxOut>)
  datatype Block = Block(minerTx: Transaction, minerHash: Hash, txHashes: seq<Hash>)

  datatype Ring = Ring(amount: nat, offsets: seq<nat>)

  /** What the tool keeps of a transaction. */
  datatype TxData = TxData(vin: seq<Ring>, vout: seq<Key>, coinbase: bool)

  datatype OutputData = OutputData(pubkey: Key, height: nat)

  datatype Db = Db(blocks: seq<Block>, txs: map<Hash, Transaction>, outputs: map<Ancestor, OutputData>)

  // ----- extracting the data of a transaction

  predicate IsCoinbase(tx: Transaction) { |tx.vin| == 1 && tx.vin[0].Gen? }

  function RingsOf(vin: seq<TxIn>): seq<Ring>
    requires forall i :: 0 <= i < |vin| ==> vin[i].ToKey?
  {
    seq(|vin|, i requires 0 <= i < |vin| => Ring(vin[i].amount, vin[i].offsets))
  }

  function KeysOf(vout: seq<TxOut>): seq<Key>
    requires forall i :: 0 <= i < |vout| ==> vout[i].ToKeyOut?
  {
    seq(|vout|, i requires 0 <= i < |vout| => vout[i].key)
  }

  /** None is the exception for an unknown input or output type. */
  function TxDataOf(tx: Transaction): Option<TxData> {
    if !IsCoinbase(tx) && exists i :: 0 <= i < |tx.vin| && !tx.vin[i].ToKey? then None
    else if exists i :: 0 <= i < |tx.vout| && !tx.vout[i].ToKeyOut? then None
    else Some(TxData(if IsCoinbase(tx) then [] else RingsOf(tx.vin), KeysOf(tx.vout), IsCoinbase(tx)))
  }

  /** The inputs and outputs of a transaction, one by one. */
  ghost predicate Keeps(tx: Transaction, d: TxData) {
    && d.coinbase == (tx.vin == [Gen])
    && |d.vin| == (if tx.vin == [Gen] then 0 else |tx.vin|) && |d.vout| == |tx.vout|
    && (forall i :: 0 <= i < |d.vin| ==> tx.vin[i] == ToKey(d.vin[i].amount, d.vin[i].offsets))
    && (forall i :: 0 <= i < |d.vout| ==> tx.vout[i] == ToKeyOut(d.vout[i]))
  }

  lemma TxDataKeeps(tx: Transaction)
    ensures TxDataOf(tx).Some? <==>
      && (tx.vin == [Gen] || forall i :: 0 <= i < |tx.vin| ==> tx.vin[i].ToKey?)
      && (forall i :: 0 <= i < |tx.vout| ==> tx.vout[i].ToKeyOut?)
    ensures TxDataOf(tx).Some? ==> Keeps(tx, TxDataOf(tx).value)
  {
    assert IsCoinbase(tx) <==> tx.vin == [Gen];
  }

  /** Keeps every ring of a transaction with its amount and offsets, and every output key, in order;
      fails exactly on an input of another type, unless it is the only one and the coinbase input, and
      on an output of another type. */
  method ParseTx(tx: Transaction) returns (r: Option<TxData>)
    ensures r == TxDataOf(tx)
    ensures r.Some? <==>
      && (tx.vin == [Gen] || forall i :: 0 <= i < |tx.vin| ==> tx.vin[i].ToKey?)
      && (forall i :: 0 <= i < |tx.vout| ==> tx.vout[i].ToKeyOut?)
    ensures r.Some? ==> Keeps(tx, r.value)
  {
    var coinbase := |tx.vin| == 1 && tx.vin[0].Gen?;
    var vin: seq<Ring> := [];
    if !coinbase {
      for ring := 0 to |tx.vin|
        invariant |vin| == ring
        invariant forall i :: 0 <= i < ring ==> tx.vin[i].ToKey? && vin[i] == Ring(tx.vin[i].amount, tx.vin[i].offsets)
      {
        if tx.vin[ring].ToKey? {
          vin := vin + [Ring(tx.vin[ring].amount, tx.vin[ring].offsets)];
        } else {
          TxDataKeeps(tx);
          return None;
        }
      }
    }
    var vout: seq<Key> := [];
    for out := 0 to |tx.vout|
      invariant |vout| == out
      invariant forall i :: 0 <= i < out ==> tx.vout[i].ToKeyOut? && vout[i] == tx.vout[i].key
    {
      if tx.vout[out].ToKeyOut? {
        vout := vout + [tx.vout[out].key];
      } else {
        TxDataKeeps(tx);
        return None;
      }
    }
    assert coinbase || vin == RingsOf(tx.vin);
    assert vout == KeysOf(tx.vout);
    TxDataKeeps(tx);
    return Some(TxData(vin, vout, coinbase));
  }

  // ----- the answers of the database

  function DbBlock(db: Db, height: nat): Option<Block> {
    if height < |db.blocks| then Some(db.blocks[height]) else None
  }

  function DbTx(db: Db, txid: Hash): Option<TxData> {
    if txid in db.txs then TxDataOf(db.txs[txid]) else None
  }

  datatype Search = Found | Absent | BadOutput

  /** Looks for a key among the outputs of a miner transaction from i on. */
  function SearchMiner(vout: seq<TxOut>, key: Key, i: nat): Search
    requires i <= |vout|
    decreases |vout| - i
  {
    if i == |vout| then Absent
    else if !vout[i].ToKeyOut? then BadOutput
    else if vout[i].key == key then Found
    else SearchMiner(vout, key, i + 1)
  }

  /** The first of the transactions from i on with the key among its outputs; None when a
      transaction cannot be read, or none has the key. */
  function SearchTxs(db: Db, hashes: seq<Hash>, key: Key, i: nat): Option<Hash>
    requires i <= |hashes|
    decreases |hashes| - i
  {
    if i == |hashes| then None
    else
      match DbTx(db, hashes[i])
      case None => None
      case Some(data) => if key in data.vout then Some(hashes[i]) else SearchTxs(db, hashes, key, i + 1)
  }

  /** The transaction that created an output. */
  function DbOwner(db: Db, a: Ancestor): Option<Hash> {
    if a !in db.outputs then None
    else
      var od := db.outputs[a];
      match DbBlock(db, od.height)
      case None => None
      case Some(b) =>
        match SearchMiner(b.minerTx.vout, od.pubkey, 0)
        case Found => Some(b.minerHash)
        case BadOutput => None
        case Absent => SearchTxs(db, b.txHashes, od.pubkey, 0)
  }

  // ----- the owner of an output is its creator

  /** Every transaction of the block can be read. */
  ghost predicate Readable(db: Db, b: Block) {
    && (forall i :: 0 <= i < |b.minerTx.vout| ==> b.minerTx.vout[i].ToKeyOut?)
    && (forall i :: 0 <= i < |b.txHashes| ==> DbTx(db, b.txHashes[i]).Some?)
  }

  ghost predicate MinerCreates(b: Block, key: Key) {
    exists i :: 0 <= i < |b.minerTx.vout| && b.minerTx.vout[i] == ToKeyOut(key)
  }

  ghost predicate TxCreates(db: Db, t: Hash, key: Key) {
    t in db.txs && exists i :: 0 <= i < |db.txs[t].vout| && db.txs[t].vout[i] == ToKeyOut(key)
  }

  lemma CreatesKey(db: Db, t: Hash, key: Key)
    requires DbTx(db, t).Some?
    ensures TxCreates(db, t, key) <==> key in DbTx(db, t).value.vout
  {
    hide TxDataOf;
    TxDataKeeps(db.txs[t]);
  }

  lemma {:induction false} SearchMinerIs(vout: seq<TxOut>, key: Key, i: nat)
    requires i <= |vout| && forall j :: 0 <= j < |vout| ==> vout[j].ToKeyOut?
    ensures SearchMiner(vout, key, i)
         == if exists j :: i <= j < |vout| && vout[j] == ToKeyOut(key) then Found else Absent
    decreases |vout| - i
  {
    if i < |vout| { SearchMinerIs(vout, key, i + 1); }
  }

  /** t is the first of the transactions from i on that has the key. */
  ghost predicate IsFirst(db: Db, hashes: seq<Hash>, key: Key, i: nat, t: Hash) {
    exists j :: i <= j < |hashes| && hashes[j] == t && TxCreates(db, t, key) &&
      forall l :: i <= l < j ==> !TxCreates(db, hashes[l], key)
  }

  lemma {:induction false} SearchTxsIs(db: Db, hashes: seq<Hash>, key: Key, i: nat)
    requires i <= |hashes| && forall j :: 0 <= j < |hashes| ==> DbTx(db, hashes[j]).Some?
    ensures SearchTxs(db, hashes, key, i).Some? <==> exists j :: i <= j < |hashes| && TxCreates(db, hashes[j], key)
    ensures SearchTxs(db, hashes, key, i).Some? ==> IsFirst(db, hashes, key, i, SearchTxs(db, hashes, key, i).value)
    decreases |hashes| - i
  {
    hide DbTx, TxCreates;
    if i < |hashes| {
      SearchTxsIs(db, hashes, key, i + 1);
      CreatesKey(db, hashes[i], key);
      if TxCreates(db, hashes[i], key) {
        assert i <= i < |hashes|;
      } else if SearchTxs(db, hashes, key, i + 1).Some? {
        var t := SearchTxs(db, hashes, key, i + 1).value;
        var j :| i + 1 <= j < |hashes| && hashes[j] == t && TxCreates(db, t, key) &&
          forall l :: i + 1 <= l < j ==> !TxCreates(db, hashes[l], key);
        assert i <= j < |hashes|;
      }
    }
  }

  /** In a readable block, the owner found for an output is the miner transaction if that has the
      key, or else the first transaction of the block that has it; one is found whenever there is one. */
  lemma OwnerIsCreator(db: Db, a: Ancestor)
    requires a in db.outputs && db.outputs[a].height < |db.blocks| && Readable(db, db.blocks[db.outputs[a].height])
    ensures var b, key := db.blocks[db.outputs[a].height], db.outputs[a].pubkey;
            && (MinerCreates(b, key) ==> DbOwner(db, a) == Some(b.minerHash))
            && (!MinerCreates(b, key) ==>
                  && (DbOwner(db, a).Some? <==> exists j :: 0 <= j < |b.txHashes| && TxCreates(db, b.txHashes[j], key))
                  && (DbOwner(db, a).Some? ==> IsFirst(db, b.txHashes, key, 0, DbOwner(db, a).value)))
  {
    hide DbTx, SearchMiner, SearchTxs, TxCreates, IsFirst;
    var b, key := db.blocks[db.outputs[a].height], db.outputs[a].pubkey;
    SearchMinerIs(b.minerTx.vout, key, 0);
    SearchTxsIs(db, b.txHashes, key, 0);
  }

  /** t is a transaction of the block that has the key among its outputs. */
  ghost predicate Creates(db: Db, b: Block, t: Hash, key: Key) {
    (t == b.minerHash && MinerCreates(b, key)) || (t in b.txHashes && TxCreates(db, t, key))
  }

  /** When only one transaction of the block has the key, the owner found is that one and no other. */
  lemma OwnerIsOnlyCreator(db: Db, a: Ancestor, t: Hash)
    requires a in db.outputs && db.outputs[a].height < |db.blocks| && Readable(db, db.blocks[db.outputs[a].height])
    requires var b, key := db.blocks[db.outputs[a].height], db.outputs[a].pubkey;
             forall u, v :: Creates(db, b, u, key) && Creates(db, b, v, key) ==> u == v
    ensures DbOwner(db, a) == Some(t) <==> Creates(db, db.blocks[db.outputs[a].height], t, db.outputs[a].pubkey)
  {
    hide DbTx, DbOwner, TxCreates, MinerCreates;
    OwnerIsCreator(db, a);
    var b, key := db.blocks[db.outputs[a].height], db.outputs[a].pubkey;
    if DbOwner(db, a).Some? { assert Creates(db, b, DbOwner(db, a).value, key); }
    if Creates(db, b, t, key) && !MinerCreates(b, key) {
      var j :| 0 <= j < |b.txHashes| && b.txHashes[j] == t;
      assert TxCreates(db, b.txHashes[j], key);
    }
  }

  // ----- a longer chain

  ghost predicate Extends(db: Db, more: Db) {
    && db.blocks <= more.blocks
    && (forall t :: t in db.txs ==> t in more.txs && more.txs[t] == db.txs[t])
    && (forall a :: a in db.outputs ==> a in more.outputs && more.outputs[a] == db.outputs[a])
  }

  lemma {:induction false} SearchTxsExtends(db: Db, more: Db, hashes: seq<Hash>, key: Key, i: nat)
    requires Extends(db, more) && i <= |hashes| && SearchTxs(db, hashes, key, i).Some?
    ensures SearchTxs(more, hashes, key, i) == SearchTxs(db, hashes, key, i)
    decreases |hashes| - i
  {
    hide TxDataOf;
    if i < |hashes| && key !in DbTx(db, hashes[i]).value.vout { SearchTxsExtends(db, more, hashes, key, i + 1); }
  }

  /** What the database answers, it still answers when the chain has grown. */
  lemma AnswersExtend(db: Db, more: Db, h: nat, t: Hash, a: Ancestor)
    requires Extends(db, more)
    ensures DbBlock(db, h).Some? ==> DbBlock(more, h) == DbBlock(db, h)
    ensures DbTx(db, t).Some? ==> DbTx(more, t) == DbTx(db, t)
    ensures DbOwner(db, a).Some? ==> DbOwner(more, a) == DbOwner(db, a)
  {
    hide TxDataOf, SearchTxs;
    if DbOwner(db, a).Some? {
      var od := db.outputs[a];
      var b := db.blocks[od.height];
      if SearchMiner(b.minerTx.vout, od.pubkey, 0).Absent? { SearchTxsExtends(db, more, b.txHashes, od.pubkey, 0); }
    }
  }
}
