/** The ancestry tool: cached lookups, the resumable forward pass and the backward search. */
module AncestryTool {
  import opened ChainDb
  import opened AncestryGraph
  import opened AncestryPass
  import opened Wrappers

  /** The three cache options of the command line. */
  datatype Options = Options(outputs: bool, txes: bool, blocks: bool)

  /** A default-constructed block, which a resized cache is filled with. */
  const NoBlock := Block(Transaction([], []), 0, [])

  function Resize(s: seq<Block>, n: nat): (r: seq<Block>)
    ensures |r| == n
  {
    if n <= |s| then s[..n] else s + seq(n - |s|, _ => NoBlock)
  }

  /** One run of the tool with --refresh. */
  datatype Session = Session(db: Db, opts: Options, includeCoinbase: bool, stop: nat)

  /** How a forward pass ends: at the end of the chain, on request, or on a block or transaction
      that cannot be read. */
  datatype Status = Finished | Interrupted | Failed

  class State {
    var height: nat
    var ancestry: Ancestry
    var outputCache: map<Ancestor, Hash>
    var txCache: map<Hash, TxData>
    var blockCache: seq<Block>

    constructor ()
      ensures height == 0 && ancestry == map[] && outputCache == map[] && txCache == map[] && blockCache == []
    {
      height := 0;
      ancestry := map[];
      outputCache := map[];
      txCache := map[];
      blockCache := [];
    }

    /** Every cached block, transaction and output owner is what the database answers. */
    ghost predicate Coherent(db: Db)
      reads this`blockCache, this`txCache, this`outputCache
    {
      && (forall h :: 0 <= h < |blockCache| && blockCache[h].minerTx.vin != [] ==>
          DbBlock(db, h) == Some(blockCache[h]))
      && (forall t :: t in txCache ==> DbTx(db, t) == Some(txCache[t]))
      && (forall a :: a in outputCache ==> DbOwner(db, a) == Some(outputCache[a]))
    }

    /** Stores a block, truncating or extending the cache to end at it. */
    method CacheBlock(db: Db, h: nat, b: Block)
      requires Coherent(db) && DbBlock(db, h) == Some(b)
      modifies this`blockCache
      ensures Coherent(db)
      ensures |blockCache| == h + 1 && blockCache[h] == b
      ensures forall i :: 0 <= i < h ==> blockCache[i] == if i < |old(blockCache)| then old(blockCache[i]) else NoBlock
    {
      hide DbTx, DbOwner;
      blockCache := Resize(blockCache, h + 1);
      blockCache := blockCache[h := b];
    }

    method GetBlockFromHeight(db: Db, opts: Options, h: nat) returns (r: Option<Block>)
      requires Coherent(db)
      modifies this`blockCache
      ensures Coherent(db) && r == DbBlock(db, h)
    {
      hide DbTx, DbOwner;
      if |blockCache| > h && blockCache[h].minerTx.vin != [] {
        return Some(blockCache[h]);
      }
      if h >= |db.blocks| { return None; }
      var b := db.blocks[h];
      if opts.blocks {
        CacheBlock(db, h, b);
      }
      return Some(b);
    }

    method GetTransaction(db: Db, opts: Options, txid: Hash) returns (r: Option<TxData>)
      requires Coherent(db)
      modifies this`txCache
      ensures Coherent(db) && r == DbTx(db, txid)
    {
      hide TxDataOf, DbOwner;
      if txid in txCache { return Some(txCache[txid]); }
      if txid !in db.txs { return None; }
      r := ParseTx(db.txs[txid]);
      if r.Some? && opts.txes {
        txCache := txCache[txid := r.value];
      }
    }

    /** The transaction that created an output, through all three caches: always the answer of the
        database. */
    method GetOutputTxid(db: Db, opts: Options, a: Ancestor) returns (r: Option<Hash>)
      requires Coherent(db)
      modifies this`blockCache, this`txCache, this`outputCache
      ensures Coherent(db) && r == DbOwner(db, a)
    {
      if a in outputCache { return Some(outputCache[a]); }
      if a !in db.outputs { return None; }
      var od := db.outputs[a];
      var block := GetBlockFromHeight(db, opts, od.height);
      if block.None? { return None; }
      var b := block.value;
      for out := 0 to |b.minerTx.vout|
        invariant SearchMiner(b.minerTx.vout, od.pubkey, 0) == SearchMiner(b.minerTx.vout, od.pubkey, out)
      {
        if b.minerTx.vout[out].ToKeyOut? {
          if b.minerTx.vout[out].key == od.pubkey {
            CacheOutput(db, opts, a, b.minerHash);
            return Some(b.minerHash);
          }
        } else {
          return None;
        }
      }
      for i := 0 to |b.txHashes|
        invariant Coherent(db)
        invariant SearchTxs(db, b.txHashes, od.pubkey, 0) == SearchTxs(db, b.txHashes, od.pubkey, i)
      {
        var data := GetTransaction(db, opts, b.txHashes[i]);
        if data.None? { return None; }
        for out := 0 to |data.value.vout|
          invariant Coherent(db)
          invariant od.pubkey !in data.value.vout[..out]
        {
          if data.value.vout[out] == od.pubkey {
            CacheOutput(db, opts, a, b.txHashes[i]);
            return Some(b.txHashes[i]);
          }
        }
        assert data.value.vout[..|data.value.vout|] == data.value.vout;
      }
      return None;
    }

    method CacheOutput(db: Db, opts: Options, a: Ancestor, txid: Hash)
      requires Coherent(db) && DbOwner(db, a) == Some(txid)
      modifies this`outputCache
      ensures Coherent(db)
    {
      hide DbOwner, DbTx;
      if opts.outputs {
        outputCache := outputCache[a := txid];
      }
    }

    // ----- the forward pass

    /** Processes one transaction: records each reference and the ancestors of its owner. */
    method ProcessTx(db: Db, opts: Options, txid: Hash) returns (ok: bool)
      requires Coherent(db)
      modifies this`ancestry, this`blockCache, this`txCache, this`outputCache
      ensures Coherent(db)
      ensures ok <==> Processable(db, txid)
      ensures ok ==> ancestry == AfterTx(old(ancestry), db, txid)
    {
      hide DbTx, DbOwner, Recorded, Refs, Flatten, Coherent, AddAncestry, GetAncestry;
      ghost var m := ancestry;
      var data := GetTransaction(db, opts, txid);
      if data.None? { return false; }
      RefsOf(db, txid); RecordedZero(m, db, txid);
      if data.value.coinbase {
        ancestry := AddAncestry(ancestry, txid, {});
        return true;
      }
      var vin := data.value.vin;
      ghost var k := 0;
      FlattenAt(vin, 0, 0);
      for ring := 0 to |vin|
        invariant Coherent(db) && k == |Flatten(vin[..ring])| <= |Refs(db, txid)|
        invariant ancestry == Recorded(m, db, txid, k)
        invariant forall i :: 0 <= i < k ==> DbOwner(db, Refs(db, txid)[i]).Some?
      {
        var amount, offsets := vin[ring].amount, vin[ring].offsets;
        FlattenAt(vin, ring, 0);
        for j := 0 to |offsets|
          invariant Coherent(db) && k == |Flatten(vin[..ring])| + j <= |Refs(db, txid)|
          invariant ancestry == Recorded(m, db, txid, k)
          invariant forall i :: 0 <= i < k ==> DbOwner(db, Refs(db, txid)[i]).Some?
        {
          FlattenAt(vin, ring, j);
          var a := Ancestor(amount, offsets[j]);
          assert Refs(db, txid)[k] == a;
          RecordedStep(m, db, txid, k);
          ancestry := AddAncestry(ancestry, txid, {a});
          var owner := GetOutputTxid(db, opts, a);
          if owner.None? { return false; }
          ancestry := AddAncestry(ancestry, txid, GetAncestry(ancestry, owner.value));
          k := k + 1;
        }
      }
      assert vin[..|vin|] == vin;
      return true;
    }

    /** All transactions before block h are exact. */
    ghost predicate ReadyFor(db: Db, h: nat)
      reads this`ancestry
    {
      WellFormed(db) && h <= |db.blocks| && Sound(db, ancestry) && ExactBelow(db, ancestry, |Txids(db.blocks, h)|)
    }

    /** The records are sound, and exact for all blocks below the stored height. */
    ghost predicate InProgress(db: Db)
      reads this
    {
      ReadyFor(db, height)
    }

    /** Processes the transactions of one block, with or without its coinbase transaction. On a
        well-formed chain it succeeds, and the next block is ready. */
    method ProcessBlock(db: Db, opts: Options, includeCoinbase: bool, h: nat) returns (ok: bool)
      requires Coherent(db) && h < |db.blocks|
      modifies this`ancestry, this`blockCache, this`txCache, this`outputCache
      ensures Coherent(db)
      ensures old(ReadyFor(db, h)) ==> ok && ReadyFor(db, h + 1)
    {
      hide WellFormed, DbTx, DbOwner, Closure, AfterTx, Coherent, Sound, ExactBelow, ExactFor, Txids, AllTxids, Rank,
           GetAncestry, Refs, Processable;
      var b := db.blocks[h];
      ghost var ready, start := ReadyFor(db, h), |Txids(db.blocks, h)|;
      if opts.blocks {
        BlockIs(db, h);
        CacheBlock(db, h, b);
      }
      if ready { BlockPositions(db, h, 0); }
      if includeCoinbase {
        if ready { AllProcessable(db, b.minerHash); TxStep(ancestry, db, b.minerHash); }
        ghost var before := ancestry;
        ok := ProcessTx(db, opts, b.minerHash);
        if !ok { return false; }
        if ready { ExactNext(db, before, ancestry, start); }
      } else if ready {
        MinerIsExact(db, ancestry, h);
        ExactNext(db, ancestry, ancestry, start);
      }
      for i := 0 to |b.txHashes|
        invariant Coherent(db)
        invariant ready ==> Sound(db, ancestry) && ExactBelow(db, ancestry, start + 1 + i)
      {
        var t := b.txHashes[i];
        if ready { BlockPositions(db, h, i + 1); AllProcessable(db, t); TxStep(ancestry, db, t); }
        ghost var before := ancestry;
        ok := ProcessTx(db, opts, t);
        if !ok { return false; }
        if ready { ExactNext(db, before, ancestry, start + 1 + i); }
      }
      return true;
    }

    /** The forward pass from the stored height, interrupted after the first block not below
        `stop`. The stored height is that of the last processed block, which a later pass
        processes again. */
    method Refresh(db: Db, opts: Options, includeCoinbase: bool, stop: nat) returns (r: Status)
      requires Coherent(db)
      modifies this
      ensures Coherent(db)
      ensures old(InProgress(db)) ==> InProgress(db) && !r.Failed?
      ensures old(InProgress(db)) && r.Finished? ==> ExactBelow(db, ancestry, |AllTxids(db)|)
      ensures r.Interrupted? ==> stop < |db.blocks| - 1
      ensures !r.Failed? && old(height) < |db.blocks| ==>
        height == if r.Finished? then |db.blocks| - 1 else if stop > old(height) then stop else old(height)
    {
      hide WellFormed, Coherent, Sound, ExactBelow, Txids;
      ghost var good := InProgress(db);
      var start := height;
      var h := start;
      while h < |db.blocks|
        invariant Coherent(db) && start <= h && (h <= |db.blocks| || h == start)
        invariant height == if h == start then start else h - 1
        invariant h > start ==> h - 1 < stop
        invariant good ==> h <= |db.blocks| && ReadyFor(db, h) && InProgress(db)
      {
        var ok := ProcessBlock(db, opts, includeCoinbase, h);
        if !ok { return Failed; }
        height := h;
        if good { ExactMonotone(db, ancestry, h); }
        if h >= stop {
          return if h + 1 == |db.blocks| then Finished else Interrupted;
        }
        h := h + 1;
      }
      return Finished;
    }

    /** Coherent caches and unfinished records carry over to a longer chain. */
    lemma CarriesOver(db: Db, more: Db)
      requires Extends(db, more) && WellFormed(more) && Coherent(db) && InProgress(db)
      ensures Coherent(more) && InProgress(more)
    {
      hide Extends, WellFormed, Sound, ExactBelow, DbBlock, DbTx, DbOwner, Txids;
      RecordsExtend(db, more, ancestry, height);
      forall h | 0 <= h < |blockCache| && blockCache[h].minerTx.vin != []
        ensures DbBlock(more, h) == Some(blockCache[h])
      {
        AnswersExtend(db, more, h, 0, Ancestor(0, 0));
      }
      forall t | t in txCache
        ensures DbTx(more, t) == Some(txCache[t])
      {
        AnswersExtend(db, more, 0, t, Ancestor(0, 0));
      }
      forall a | a in outputCache
        ensures DbOwner(more, a) == Some(outputCache[a])
      {
        AnswersExtend(db, more, 0, 0, a);
      }
    }

    /** Any number of interrupted passes, each over a chain that may have grown and with its own
        options, ending with one that is not interrupted: the records are those of a single pass. */
    method RunSessions(sessions: seq<Session>)
      requires sessions != [] && Coherent(sessions[0].db) && InProgress(sessions[0].db)
      requires forall i :: 0 <= i < |sessions| ==> WellFormed(sessions[i].db)
      requires forall i :: 0 < i < |sessions| ==> Extends(sessions[i - 1].db, sessions[i].db)
      modifies this
      ensures var last := sessions[|sessions| - 1];
              && Coherent(last.db) && InProgress(last.db)
              && (last.stop >= |last.db.blocks| ==> forall t :: GetAncestry(ancestry, t) == Closure(last.db, t))
    {
      hide WellFormed, Coherent, InProgress, Extends, ExactBelow, GetAncestry, Closure, Txids, AllTxids;
      var status := Refresh(sessions[0].db, sessions[0].opts, sessions[0].includeCoinbase, sessions[0].stop);
      for i := 1 to |sessions|
        invariant Coherent(sessions[i - 1].db) && InProgress(sessions[i - 1].db)
        invariant sessions[i - 1].stop >= |sessions[i - 1].db.blocks| ==>
          ExactBelow(sessions[i - 1].db, ancestry, |AllTxids(sessions[i - 1].db)|)
      {
        CarriesOver(sessions[i - 1].db, sessions[i].db);
        var s := sessions[i];
        status := Refresh(s.db, s.opts, s.includeCoinbase, s.stop);
      }
      ghost var last := sessions[|sessions| - 1];
      if last.stop >= |last.db.blocks| {
        forall t
          ensures GetAncestry(ancestry, t) == Closure(last.db, t)
        {
          SoundOf(last.db);
          ExactIsUnique(last.db, ancestry, ancestry, t);
        }
      }
    }

    lemma SoundOf(db: Db)
      requires InProgress(db)
      ensures WellFormed(db) && Sound(db, ancestry)
    {
    }

    // ----- the backward search

    /** The first k references of a transaction are counted, and their owners are on the worklist. */
    ghost predicate Visited(db: Db, txid: Hash, k: nat, counts: Counts, queue: seq<Hash>,
                            acc: multiset<Ancestor>, rest: seq<Hash>, start: Ancestry)
      reads this`ancestry, this`blockCache, this`txCache, this`outputCache
    {
      && Coherent(db) && k <= |Refs(db, txid)|
      && (forall i :: 0 <= i < k ==> DbOwner(db, Refs(db, txid)[i]).Some?)
      && CountsOf(counts, acc + multiset(Refs(db, txid)[..k])) && queue == rest + Owners(db, txid, k)
      && (WellFormed(db) ==> Kept(db, start, ancestry))
    }

    /** One reference of a transaction: it is counted, and its owner joins the worklist. Fails when the
        owner cannot be found. */
    method VisitRef(db: Db, opts: Options, txid: Hash, a: Ancestor, counts0: Counts, queue0: seq<Hash>,
                    ghost k: nat, ghost acc: multiset<Ancestor>, ghost rest: seq<Hash>, ghost start: Ancestry)
      returns (ok: bool, counts: Counts, queue: seq<Hash>)
      requires Visited(db, txid, k, counts0, queue0, acc, rest, start)
      requires k < |Refs(db, txid)| && Refs(db, txid)[k] == a
      modifies this`ancestry, this`blockCache, this`txCache, this`outputCache
      ensures Coherent(db) && (WellFormed(db) ==> Kept(db, start, ancestry))
      ensures ok <==> DbOwner(db, a).Some?
      ensures ok ==> Visited(db, txid, k + 1, counts, queue, acc, rest, start)
    {
      hide DbTx, DbOwner, Refs, Coherent, WellFormed, CountsOf, AddCount, Kept, GetAncestry, AddAncestry, AllTxids,
           Rank, Owners;
      ghost var refs := Refs(db, txid);
      AddCountIs(counts0, acc + multiset(refs[..k]), a);
      PrefixBag(acc, refs, k);
      OwnersStep(db, txid, k);
      counts, queue := AddCount(counts0, a), queue0;
      var owner := GetOutputTxid(db, opts, a);
      if owner.None? { return false, counts, queue; }
      if WellFormed(db) { KeptStep(db, start, ancestry, txid, k); }
      ancestry := AddAncestry(ancestry, txid, GetAncestry(ancestry, owner.value));
      queue := queue0 + [owner.value];
      ok := true;
    }

    /** Counts the references of one transaction, appends their owners to the worklist and adds what
        is recorded for the owners to the records. Fails exactly when the transaction cannot be read
        or an owner cannot be found. */
    method VisitTx(db: Db, opts: Options, txid: Hash, counts0: Counts, queue0: seq<Hash>, ghost acc: multiset<Ancestor>)
      returns (ok: bool, counts: Counts, queue: seq<Hash>)
      requires Coherent(db) && CountsOf(counts0, acc)
      modifies this`ancestry, this`blockCache, this`txCache, this`outputCache
      ensures Coherent(db)
      ensures ok <==> Processable(db, txid)
      ensures ok ==> CountsOf(counts, acc + multiset(Refs(db, txid)))
      ensures ok ==> queue == queue0 + Owners(db, txid, |Refs(db, txid)|)
      ensures WellFormed(db) ==> Kept(db, old(ancestry), ancestry)
    {
      hide DbTx, DbOwner, Refs, Flatten, Coherent, WellFormed, CountsOf, Kept, Owners, Visited;
      counts, queue := counts0, queue0;
      var data := GetTransaction(db, opts, txid);
      VisitStarts(db, txid, counts, queue, acc);
      if data.None? { return false, counts, queue; }
      RefsOf(db, txid);
      ghost var refs, start := Refs(db, txid), ancestry;
      if data.value.coinbase {
        VisitEnds(db, txid, counts, queue, acc, queue0, start);
        return true, counts, queue;
      }
      var vin := data.value.vin;
      ghost var k := 0;
      FlattenAt(vin, 0, 0);
      for ring := 0 to |vin|
        invariant k == |Flatten(vin[..ring])| <= |refs| && Visited(db, txid, k, counts, queue, acc, queue0, start)
      {
        var amount, offsets := vin[ring].amount, vin[ring].offsets;
        FlattenAt(vin, ring, 0);
        for j := 0 to |offsets|
          invariant k == |Flatten(vin[..ring])| + j <= |refs| && Visited(db, txid, k, counts, queue, acc, queue0, start)
        {
          FlattenAt(vin, ring, j);
          var a := Ancestor(amount, offsets[j]);
          ok, counts, queue := VisitRef(db, opts, txid, a, counts, queue, k, acc, queue0, start);
          if !ok { return; }
          k := k + 1;
        }
      }
      assert vin[..|vin|] == vin;
      VisitEnds(db, txid, counts, queue, acc, queue0, start);
      return true, counts, queue;
    }

    lemma VisitStarts(db: Db, txid: Hash, counts: Counts, queue: seq<Hash>, acc: multiset<Ancestor>)
      requires Coherent(db) && CountsOf(counts, acc)
      ensures Visited(db, txid, 0, counts, queue, acc, queue, ancestry)
      ensures WellFormed(db) ==> Kept(db, ancestry, ancestry)
    {
      hide DbOwner, Refs, Coherent, WellFormed, CountsOf, Kept, Owners;
      if WellFormed(db) { KeptStep(db, ancestry, ancestry, txid, 0); }
      PrefixBag(acc, Refs(db, txid), 0);
      OwnersStep(db, txid, 0);
    }

    lemma VisitEnds(db: Db, txid: Hash, counts: Counts, queue: seq<Hash>, acc: multiset<Ancestor>, rest: seq<Hash>,
                    start: Ancestry)
      requires Visited(db, txid, |Refs(db, txid)|, counts, queue, acc, rest, start)
      ensures Coherent(db) && (forall i :: 0 <= i < |Refs(db, txid)| ==> DbOwner(db, Refs(db, txid)[i]).Some?)
      ensures CountsOf(counts, acc + multiset(Refs(db, txid))) && queue == rest + Owners(db, txid, |Refs(db, txid)|)
      ensures WellFormed(db) ==> Kept(db, start, ancestry)
    {
      hide DbOwner, Refs, Coherent, WellFormed, CountsOf, Kept, Owners;
      assert Refs(db, txid)[..|Refs(db, txid)|] == Refs(db, txid);
    }

    /** The worklist search without a visited set. It ends, and counts every ancestor once for every
        path of references to it, in 32 bits. None means that the transaction is unknown. */
    method Search(db: Db, opts: Options, start: Hash) returns (r: Option<Counts>)
      requires Coherent(db) && WellFormed(db)
      modifies this`ancestry, this`blockCache, this`txCache, this`outputCache
      ensures Coherent(db)
      ensures r.Some? <==> DbTx(db, start).Some?
      ensures r.Some? ==> CountsOf(r.value, Bag(db, start))
      ensures Kept(db, old(ancestry), ancestry)
    {
      hide DbTx, DbOwner, Refs, Coherent, WellFormed, CountsOf, Bag, BagSum, Owners, Kept;
      KeptStep(db, ancestry, ancestry, start, 0);
      var counts: Counts := map[];
      var queue := [start];
      ghost var acc: multiset<Ancestor> := multiset{};
      EmptyCounts();
      BagSumOne(db, start);
      ghost var known := false;
      while queue != []
        invariant Coherent(db)
        invariant CountsOf(counts, acc) && acc + BagSum(db, queue) == Bag(db, start)
        invariant !known ==> queue == [start]
        invariant known ==> DbTx(db, start).Some? && forall t :: t in queue ==> t in AllTxids(db)
        invariant Kept(db, old(ancestry), ancestry)
        decreases |queue| + |BagSum(db, queue)|
      {
        var txid, rest := queue[0], queue[1..];
        ghost var before := queue;
        var ok;
        ghost var m := ancestry;
        ok, counts, queue := VisitTx(db, opts, txid, counts, rest, acc);
        KeptAgain(db, old(ancestry), m, ancestry);
        assert DbTx(db, txid).Some? ==> ok by { if DbTx(db, txid).Some? { KnownIsProcessable(db, txid); } }
        if !ok {
          assert !known by { if known { ChainIsReadable(db, txid); } }
          return None;
        }
        known := true;
        ghost var refs := Refs(db, txid);
        BagUnfold(db, txid);
        BagSumPop(db, before); BagSumConcat(db, rest, Owners(db, txid, |refs|));
        OwnersInChain(db, txid);
        assert |multiset(refs)| == |refs|;
        acc := acc + multiset(refs);
      }
      BagSumEmpty(db);
      assert acc + multiset{} == acc;
      return Some(counts);
    }
  }

  // ----- counters

  /** Occurrences of each ancestor, in an `unsigned int`. */
  type Counts = map<Ancestor, nat>

  const UINT_RANGE: nat := 0x1_0000_0000

  function AddCount(m: Counts, a: Ancestor): Counts {
    if a in m then m[a := (m[a] + 1) % UINT_RANGE] else m[a := 1]
  }

  /** The keys are the members of the bag, and the counters hold the multiplicities modulo 2^32. */
  ghost predicate CountsOf(m: Counts, bag: multiset<Ancestor>) {
    (forall a :: a in m <==> a in bag) && forall a :: a in m ==> m[a] == bag[a] % UINT_RANGE
  }

  lemma EmptyCounts()
    ensures CountsOf(map[], multiset{})
  {
  }

  lemma AddCountIs(m: Counts, bag: multiset<Ancestor>, a: Ancestor)
    requires CountsOf(m, bag)
    ensures CountsOf(AddCount(m, a), bag + multiset{a})
  {
    var next := AddCount(m, a);
    forall b | b in next
      ensures next[b] == (bag + multiset{a})[b] % UINT_RANGE
    {
      if b == a && a in m { NextModulo(bag[a]); }
    }
  }

  lemma NextModulo(n: nat)
    ensures (n % UINT_RANGE + 1) % UINT_RANGE == (n + 1) % UINT_RANGE
  {
  }

  /** The sum of all counters. */
  ghost function SumValues(m: Counts): nat
    decreases |m|
  {
    if m == map[] then 0 else var a :| a in m; m[a] + SumValues(m - {a})
  }

  lemma {:induction false} SumRemove(m: Counts, a: Ancestor)
    requires a in m
    ensures SumValues(m) == m[a] + SumValues(m - {a})
    decreases |m|
  {
    var p :| p in m && SumValues(m) == m[p] + SumValues(m - {p});
    if p != a {
      SumRemove(m - {p}, a);
      SumRemove(m - {a}, p);
      assert m - {p} - {a} == m - {a} - {p};
    }
  }

  const SIZE_RANGE: nat := 0x1_0000_0000_0000_0000

  /** The sum of the counters, in a 64-bit `size_t`. */
  method GetFullAncestry(m: Counts) returns (count: nat)
    ensures count == SumValues(m) % SIZE_RANGE
  {
    hide SumValues;
    count := 0;
    var rest := m;
    EmptySum();
    while rest != map[]
      invariant (count + SumValues(rest)) % SIZE_RANGE == SumValues(m) % SIZE_RANGE && count < SIZE_RANGE
      decreases |rest|
    {
      var a :| a in rest;
      SumRemove(rest, a);
      ModAdd(count + rest[a], SumValues(rest - {a}));
      count := (count + rest[a]) % SIZE_RANGE;
      rest := rest - {a};
    }
  }

  lemma EmptySum()
    ensures SumValues(map[]) == 0
  {
  }

  lemma ModAdd(x: nat, y: nat)
    ensures (x % SIZE_RANGE + y) % SIZE_RANGE == (x + y) % SIZE_RANGE
  {
  }

  /** No ancestor is reached by 2^32 paths or more. */
  ghost predicate NoWrap(bag: multiset<Ancestor>) { forall a :: a in bag ==> bag[a] < UINT_RANGE }

  lemma WithoutOne(m: Counts, bag: multiset<Ancestor>, a: Ancestor)
    requires CountsOf(m, bag) && a in m
    ensures CountsOf(m - {a}, bag[a := 0]) && |bag| == |bag[a := 0]| + bag[a]
    ensures NoWrap(bag) <==> NoWrap(bag[a := 0]) && bag[a] < UINT_RANGE
  {
    var less := bag[a := 0];
    assert bag == less[a := bag[a]];
    forall b: Ancestor
      ensures less[b] == if b == a then 0 else bag[b]
    {
    }
  }

  /** The total of the counters never exceeds the number of paths, and equals it exactly when no
      counter wrapped. */
  lemma {:induction false} TotalIsPathCount(m: Counts, bag: multiset<Ancestor>)
    requires CountsOf(m, bag)
    ensures SumValues(m) <= |bag|
    ensures SumValues(m) == |bag| <==> NoWrap(bag)
    decreases |m|
  {
    hide NoWrap, SumValues;
    if m == map[] {
      EmptySum();
      assert bag == multiset{};
      EmptyBag();
    } else {
      var a :| a in m;
      SumRemove(m, a);
      WithoutOne(m, bag, a);
      TotalIsPathCount(m - {a}, bag[a := 0]);
      CounterBound(bag[a]);
    }
  }

  lemma EmptyBag()
    ensures NoWrap(multiset{})
  {
  }

  lemma CounterBound(n: nat)
    ensures n % UINT_RANGE <= n && (n % UINT_RANGE == n <==> n < UINT_RANGE)
  {
  }

  /** The reported total, in 64 bits, is the number of all paths exactly when no counter wrapped and
      the number fits. */
  lemma ReportedTotal(m: Counts, bag: multiset<Ancestor>)
    requires CountsOf(m, bag)
    ensures SumValues(m) % SIZE_RANGE == |bag| <==> NoWrap(bag) && |bag| < SIZE_RANGE
  {
    hide NoWrap, SumValues, CountsOf;
    TotalIsPathCount(m, bag);
    SizeBound(SumValues(m));
  }

  lemma SizeBound(n: nat)
    ensures n % SIZE_RANGE <= n && n % SIZE_RANGE < SIZE_RANGE && (n < SIZE_RANGE ==> n % SIZE_RANGE == n)
  {
  }

  /** What a search reports: its keys are the transitive ancestors, its counters the numbers of
      reference paths modulo 2^32, and its total all paths exactly when each counter and the total
      fit their types. */
  lemma SearchReport(db: Db, t: Hash, m: Counts)
    requires WellFormed(db) && CountsOf(m, Bag(db, t))
    ensures m.Keys == Closure(db, t) && |m| == |Closure(db, t)|
    ensures forall a :: a in m ==> m[a] == |Walks(db, t, a)| % 0x1_0000_0000
    ensures SumValues(m) % 0x1_0000_0000_0000_0000 == |Bag(db, t)| <==>
            && (forall a :: a in Closure(db, t) ==> |Walks(db, t, a)| < 0x1_0000_0000)
            && |Bag(db, t)| < 0x1_0000_0000_0000_0000
  {
    hide WellFormed, Bag, Closure, Walks, SumValues, IsWalk;
    forall a: Ancestor
      ensures |Walks(db, t, a)| == Bag(db, t)[a] && (a in Bag(db, t) <==> a in Closure(db, t))
    {
      BagCountsPaths(db, t, a);
    }
    assert m.Keys == Closure(db, t);
    ReportedTotal(m, Bag(db, t));
  }

  // ----- the worklist

  /** The owners of the first k references of t. */
  function Owners(db: Db, t: Hash, k: nat): (os: seq<Hash>)
    requires k <= |Refs(db, t)|
    ensures |os| == k
  {
    if k == 0 then [] else Owners(db, t, k - 1) + [OwnerOf(db, Refs(db, t)[k - 1])]
  }

  lemma OwnersStep(db: Db, t: Hash, k: nat)
    ensures Owners(db, t, 0) == []
    ensures k < |Refs(db, t)| ==> Owners(db, t, k + 1) == Owners(db, t, k) + [OwnerOf(db, Refs(db, t)[k])]
  {
    hide Refs, OwnerOf;
  }

  lemma PrefixBag(acc: multiset<Ancestor>, refs: seq<Ancestor>, k: nat)
    ensures acc + multiset(refs[..0]) == acc && acc + multiset(refs[..|refs|]) == acc + multiset(refs)
    ensures k < |refs| ==> acc + multiset(refs[..k + 1]) == acc + multiset(refs[..k]) + multiset{refs[k]}
  {
    assert refs[..0] == [] && refs[..|refs|] == refs;
    if k < |refs| { assert refs[..k + 1] == refs[..k] + [refs[k]]; }
  }

  ghost function BagSum(db: Db, ts: seq<Hash>): multiset<Ancestor>
    requires WellFormed(db)
  {
    if ts == [] then multiset{} else BagSum(db, ts[..|ts| - 1]) + Bag(db, ts[|ts| - 1])
  }

  lemma BagSumEmpty(db: Db)
    requires WellFormed(db)
    ensures BagSum(db, []) == multiset{}
  {
  }

  lemma BagSumOne(db: Db, t: Hash)
    requires WellFormed(db)
    ensures BagSum(db, [t]) == Bag(db, t)
  {
    hide Bag, WellFormed;
    assert [t][..0] == [];
  }

  lemma {:induction false} BagSumConcat(db: Db, a: seq<Hash>, b: seq<Hash>)
    requires WellFormed(db)
    ensures BagSum(db, a + b) == BagSum(db, a) + BagSum(db, b)
  {
    hide Bag, WellFormed;
    if b == [] {
      assert a + b == a;
    } else {
      var n := |b| - 1;
      BagSumConcat(db, a, b[..n]);
      assert (a + b)[..|a| + n] == a + b[..n];
    }
  }

  lemma BagSumPop(db: Db, ts: seq<Hash>)
    requires WellFormed(db) && ts != []
    ensures BagSum(db, ts) == Bag(db, ts[0]) + BagSum(db, ts[1..])
  {
    hide Bag, WellFormed, BagSum;
    assert ts == [ts[0]] + ts[1..];
    BagSumConcat(db, [ts[0]], ts[1..]);
    BagSumOne(db, ts[0]);
  }

  /** The bag of a transaction: its references, and the bags of their owners. */
  lemma BagUnfold(db: Db, t: Hash)
    requires WellFormed(db)
    ensures Bag(db, t) == multiset(Refs(db, t)) + BagSum(db, Owners(db, t, |Refs(db, t)|))
  {
    hide WellFormed, Refs, Bag, BagTo, BagSum, Owners;
    BagIs(db, t);
    BagToUnfold(db, t, |Refs(db, t)|);
    assert Refs(db, t)[..|Refs(db, t)|] == Refs(db, t);
  }

  lemma {:induction false} BagToUnfold(db: Db, t: Hash, k: nat)
    requires WellFormed(db) && k <= |Refs(db, t)|
    ensures BagTo(db, t, k) == multiset(Refs(db, t)[..k]) + BagSum(db, Owners(db, t, k))
  {
    hide WellFormed, Refs, Bag, BagTo, BagSum, OwnerOf, Source;
    if k == 0 {
      BagIs(db, t); BagSumEmpty(db);
      assert Refs(db, t)[..0] == [];
    } else {
      BagToUnfold(db, t, k - 1);
      BagToStep(db, t, k - 1);
      var a, before := Refs(db, t)[k - 1], Owners(db, t, k - 1);
      assert Refs(db, t)[..k] == Refs(db, t)[..k - 1] + [a];
      BagSumConcat(db, before, [OwnerOf(db, a)]);
      BagSumOne(db, OwnerOf(db, a));
    }
  }

  lemma ChainIsReadable(db: Db, t: Hash)
    requires WellFormed(db) && t in AllTxids(db)
    ensures DbTx(db, t).Some?
  {
    hide DbTx, AllTxids, RefsResolve;
  }

  lemma {:induction false} OwnersAre(db: Db, t: Hash, k: nat, o: Hash)
    requires WellFormed(db) && k <= |Refs(db, t)| && o in Owners(db, t, k)
    ensures o in AllTxids(db)
  {
    hide WellFormed, Refs, AllTxids, OwnerOf;
    RefIsEarlier(db, t, k - 1);
    if o != OwnerOf(db, Refs(db, t)[k - 1]) { OwnersAre(db, t, k - 1, o); }
  }

  lemma OwnersInChain(db: Db, t: Hash)
    requires WellFormed(db)
    ensures forall o :: o in Owners(db, t, |Refs(db, t)|) ==> o in AllTxids(db)
  {
    hide WellFormed, Refs, AllTxids, Owners;
    forall o | o in Owners(db, t, |Refs(db, t)|)
      ensures o in AllTxids(db)
    {
      OwnersAre(db, t, |Refs(db, t)|, o);
    }
  }

  /** Sound records stay sound, and no recorded ancestor is lost. */
  ghost predicate Kept(db: Db, m: Ancestry, after: Ancestry)
    requires WellFormed(db)
  {
    (Sound(db, m) ==> Sound(db, after)) && forall t :: GetAncestry(m, t) <= GetAncestry(after, t)
  }

  lemma KeptStep(db: Db, start: Ancestry, m: Ancestry, t: Hash, i: nat)
    requires WellFormed(db)
    ensures Kept(db, m, m)
    ensures i < |Refs(db, t)| && Kept(db, start, m) ==>
      Kept(db, start, AddAncestry(m, t, GetAncestry(m, OwnerOf(db, Refs(db, t)[i]))))
  {
    hide WellFormed, Refs, Closure, OwnerOf;
    if i < |Refs(db, t)| {
      ClosureIs(db, t);
      ClosureAbsorbs(db, t, |Refs(db, t)|, i);
    }
  }

  lemma KeptAgain(db: Db, a: Ancestry, b: Ancestry, c: Ancestry)
    requires WellFormed(db) && Kept(db, a, b) && Kept(db, b, c)
    ensures Kept(db, a, c)
  {
    hide WellFormed, Closure;
    forall t
      ensures GetAncestry(a, t) <= GetAncestry(c, t)
    {
      assert GetAncestry(a, t) <= GetAncestry(b, t) <= GetAncestry(c, t);
    }
  }

  /** Complete records are not changed by a search. */
  lemma KeptExact(db: Db, m: Ancestry, after: Ancestry, t: Hash)
    requires WellFormed(db) && Sound(db, m) && ExactBelow(db, m, |AllTxids(db)|) && Kept(db, m, after)
    ensures GetAncestry(after, t) == GetAncestry(m, t)
  {
    hide WellFormed, AllTxids, ExactBelow, Closure;
    ExactIsUnique(db, m, m, t);
    assert GetAncestry(after, t) <= Closure(db, t) by { if t in after { assert after[t] <= Closure(db, t); } }
  }

  predicate Processable(db: Db, t: Hash) {
    DbTx(db, t).Some? && forall i :: 0 <= i < |Refs(db, t)| ==> DbOwner(db, Refs(db, t)[i]).Some?
  }

  lemma AllProcessable(db: Db, t: Hash)
    requires WellFormed(db) && t in AllTxids(db)
    ensures Processable(db, t)
  {
    hide DbTx, DbOwner, AllTxids, Refs;
    assert RefsResolve(db, t);
  }

  lemma KnownIsProcessable(db: Db, t: Hash)
    requires WellFormed(db) && DbTx(db, t).Some?
    ensures Processable(db, t)
  {
    hide AllTxids, TxDataOf, Processable, RefsResolve;
    assert t in db.txs;
    AllProcessable(db, t);
  }

  lemma BlockIs(db: Db, h: nat)
    requires h < |db.blocks|
    ensures DbBlock(db, h) == Some(db.blocks[h])
  {
  }

  lemma ExactMonotone(db: Db, m: Ancestry, h: nat)
    requires WellFormed(db) && h < |db.blocks| && ExactBelow(db, m, |Txids(db.blocks, h + 1)|)
    ensures ExactBelow(db, m, |Txids(db.blocks, h)|)
  {
    hide WellFormed, Closure;
    TxidsPrefix(db.blocks, h, h + 1);
  }

  lemma RefsOf(db: Db, t: Hash)
    ensures DbTx(db, t).Some? ==>
      Refs(db, t) == if DbTx(db, t).value.coinbase then [] else Flatten(DbTx(db, t).value.vin)
  {
    hide DbTx;
  }

  /** The place of offset j of a ring among all references. */
  lemma {:induction false} FlattenAt(vin: seq<Ring>, ring: nat, j: nat)
    ensures Flatten([]) == []
    ensures ring < |vin| ==>
      |Flatten(vin[..ring + 1])| == |Flatten(vin[..ring])| + |vin[ring].offsets| <= |Flatten(vin)|
    ensures ring < |vin| && j < |vin[ring].offsets| ==>
      |Flatten(vin[..ring])| + j < |Flatten(vin)| &&
      Flatten(vin)[|Flatten(vin[..ring])| + j] == Ancestor(vin[ring].amount, vin[ring].offsets[j])
  {
    if ring < |vin| {
      assert vin[..ring + 1][..ring] == vin[..ring];
      FlattenPrefix(vin, ring + 1);
      if j < |vin[ring].offsets| {
        assert Flatten(vin[..ring + 1])[|Flatten(vin[..ring])| + j] == RingRefs(vin[ring])[j];
      }
    }
  }

  lemma {:induction false} FlattenPrefix(vin: seq<Ring>, n: nat)
    requires n <= |vin|
    ensures Flatten(vin[..n]) <= Flatten(vin)
  {
    hide RingRefs;
    if n < |vin| {
      var k := |vin| - 1;
      FlattenPrefix(vin[..k], n);
      assert vin[..k][..n] == vin[..n];
    } else {
      assert vin[..n] == vin;
    }
  }
}
