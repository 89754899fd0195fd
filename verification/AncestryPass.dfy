/** What the forward pass records, as values: one transaction, one block, a whole chain, and a
    chain that has grown in the meantime. */
module AncestryPass {
  import opened ChainDb
  import opened AncestryGraph

  type Ancestry = map<Hash, set<Ancestor>>

  /** The ancestors recorded for a transaction; a missing entry reads as empty. */
  function GetAncestry(m: Ancestry, t: Hash): set<Ancestor> { if t in m then m[t] else {} }

  function AddAncestry(m: Ancestry, t: Hash, s: set<Ancestor>): Ancestry { m[t := GetAncestry(m, t) + s] }

  /** The map after the first k references of t have been recorded: each reference, and what is
      recorded for its owner. */
  function Recorded(m: Ancestry, db: Db, t: Hash, k: nat): Ancestry
    requires k <= |Refs(db, t)|
  {
    if k == 0 then m
    else
      var a := Refs(db, t)[k - 1];
      var direct := AddAncestry(Recorded(m, db, t, k - 1), t, {a});
      AddAncestry(direct, t, GetAncestry(direct, OwnerOf(db, a)))
  }

  lemma RecordedStep(m: Ancestry, db: Db, t: Hash, k: nat)
    requires k < |Refs(db, t)|
    ensures Recorded(m, db, t, 0) == m
    ensures var a := Refs(db, t)[k];
            var direct := AddAncestry(Recorded(m, db, t, k), t, {a});
            Recorded(m, db, t, k + 1) == AddAncestry(direct, t, GetAncestry(direct, OwnerOf(db, a)))
  {
    hide Refs, OwnerOf;
  }

  /** The map after a transaction has been processed. */
  function AfterTx(m: Ancestry, db: Db, t: Hash): Ancestry {
    if DbTx(db, t).Some? && DbTx(db, t).value.coinbase then AddAncestry(m, t, {})
    else Recorded(m, db, t, |Refs(db, t)|)
  }

  // ----- soundness and exactness

  ghost predicate Sound(db: Db, m: Ancestry)
    requires WellFormed(db)
  {
    forall t :: t in m ==> m[t] <= Closure(db, t)
  }

  ghost predicate ExactFor(db: Db, m: Ancestry, t: Hash)
    requires WellFormed(db)
  {
    GetAncestry(m, t) == Closure(db, t)
  }

  /** The first p transactions of the chain have their exact closure. */
  ghost predicate ExactBelow(db: Db, m: Ancestry, p: nat)
    requires WellFormed(db)
  {
    forall i :: 0 <= i < p && i < |AllTxids(db)| ==> ExactFor(db, m, AllTxids(db)[i])
  }

  lemma ExactAt(db: Db, m: Ancestry, p: nat, t: Hash)
    requires WellFormed(db) && ExactBelow(db, m, p) && t in AllTxids(db) && Rank(db, t) < p
    ensures ExactFor(db, m, t)
  {
    hide WellFormed, AllTxids, Closure;
    assert AllTxids(db)[Rank(db, t)] == t;
  }

  /** Recording references one by one adds their closure, when all earlier transactions are exact. */
  lemma {:induction false} RecordedIs(m: Ancestry, db: Db, t: Hash, k: nat)
    requires WellFormed(db) && 0 < k <= |Refs(db, t)| && ExactBelow(db, m, Rank(db, t))
    ensures Recorded(m, db, t, k) == m[t := GetAncestry(m, t) + ClosureTo(db, t, k)]
  {
    hide WellFormed, Refs, OwnerOf, Closure, ClosureTo, Recorded, ExactBelow, Rank, AllTxids;
    var a, o := Refs(db, t)[k - 1], Source(db, t, k - 1);
    RefIsEarlier(db, t, k - 1);
    ExactAt(db, m, Rank(db, t), o);
    ClosureToStep(db, t, k - 1); RecordedStep(m, db, t, k - 1);
    var before := Recorded(m, db, t, k - 1);
    if k > 1 {
      RecordedIs(m, db, t, k - 1);
    } else {
      ClosureIs(db, t); RecordedStep(m, db, t, 0);
    }
    assert GetAncestry(before, t) == GetAncestry(m, t) + ClosureTo(db, t, k - 1);
    var direct := AddAncestry(before, t, {a});
    assert o != t;
    assert GetAncestry(direct, o) == Closure(db, o);
    assert GetAncestry(m, t) + ClosureTo(db, t, k - 1) + {a} + Closure(db, o)
        == GetAncestry(m, t) + ClosureTo(db, t, k);
    assert before[t := GetAncestry(m, t) + ClosureTo(db, t, k)] == m[t := GetAncestry(m, t) + ClosureTo(db, t, k)];
  }

  /** Processing a transaction after all earlier ones makes it exact and keeps everything else. */
  lemma TxStep(m: Ancestry, db: Db, t: Hash)
    requires WellFormed(db) && Sound(db, m) && t in AllTxids(db) && ExactBelow(db, m, Rank(db, t))
    ensures var after := AfterTx(m, db, t);
            && Sound(db, after) && ExactFor(db, after, t)
            && forall u :: u != t ==> GetAncestry(after, u) == GetAncestry(m, u)
  {
    hide WellFormed, Refs, OwnerOf, Closure, ClosureTo, Recorded, ExactBelow, Rank, AllTxids, DbTx;
    ClosureIs(db, t);
    var n := |Refs(db, t)|;
    assert n == 0 ==> Recorded(m, db, t, 0) == m by { RecordedZero(m, db, t); }
    assert DbTx(db, t).Some? && DbTx(db, t).value.coinbase ==> n == 0 by { CoinbaseHasNoRefs(db, t); }
    if n > 0 { RecordedIs(m, db, t, n); }
  }

  lemma RecordedZero(m: Ancestry, db: Db, t: Hash)
    ensures Recorded(m, db, t, 0) == m
  {
  }

  lemma CoinbaseHasNoRefs(db: Db, t: Hash)
    ensures DbTx(db, t).Some? && DbTx(db, t).value.coinbase ==> Refs(db, t) == []
  {
  }

  lemma ExactNext(db: Db, m: Ancestry, after: Ancestry, p: nat)
    requires WellFormed(db) && ExactBelow(db, m, p) && p < |AllTxids(db)|
    requires ExactFor(db, after, AllTxids(db)[p])
    requires forall u :: u != AllTxids(db)[p] ==> GetAncestry(after, u) == GetAncestry(m, u)
    ensures ExactBelow(db, after, p + 1)
  {
    hide WellFormed, AllTxids, Closure;
  }

  // ----- positions in the chain

  lemma {:induction false} TxidsPrefix(blocks: seq<Block>, n: nat, k: nat)
    requires n <= k <= |blocks|
    ensures Txids(blocks, n) <= Txids(blocks, k)
  {
    if n < k { TxidsPrefix(blocks, n, k - 1); }
  }

  /** Where the transactions of block h stand in the chain. */
  lemma BlockPositions(db: Db, h: nat, i: nat)
    requires WellFormed(db) && h < |db.blocks| && i < |BlockTxids(db.blocks[h])|
    ensures var p, t := |Txids(db.blocks, h)| + i, BlockTxids(db.blocks[h])[i];
            p < |AllTxids(db)| && AllTxids(db)[p] == t && Rank(db, t) == p && t in AllTxids(db)
    ensures |Txids(db.blocks, h + 1)| == |Txids(db.blocks, h)| + |BlockTxids(db.blocks[h])|
  {
    hide WellFormed, IndexOf, BlockTxids;
    TxidsPrefix(db.blocks, h + 1, |db.blocks|);
    var p := |Txids(db.blocks, h)| + i;
    assert Txids(db.blocks, h + 1)[p] == BlockTxids(db.blocks[h])[i];
    assert Distinct(AllTxids(db)) by { ChainIsDistinct(db); }
    IndexOfDistinct(AllTxids(db), p);
  }

  lemma ChainIsDistinct(db: Db)
    requires WellFormed(db)
    ensures Distinct(AllTxids(db))
  {
    hide AllTxids, RefsResolve, DbTx;
  }

  /** The coinbase transaction of a block is exact even when it is not processed. */
  lemma MinerIsExact(db: Db, m: Ancestry, h: nat)
    requires WellFormed(db) && Sound(db, m) && h < |db.blocks|
    ensures ExactFor(db, m, db.blocks[h].minerHash)
  {
    hide Closure, ClosureTo, AllTxids, RefsResolve;
    var t := db.blocks[h].minerHash;
    CoinbaseHasNoRefs(db, t);
    ClosureIs(db, t);
  }

  // ----- a longer chain

  lemma {:induction false} TxidsExtend(db: Db, more: Db, n: nat)
    requires Extends(db, more) && n <= |db.blocks|
    ensures n <= |more.blocks| && Txids(more.blocks, n) == Txids(db.blocks, n)
  {
    if n > 0 { TxidsExtend(db, more, n - 1); }
  }

  lemma ChainPrefix(db: Db, more: Db)
    requires Extends(db, more)
    ensures AllTxids(db) <= AllTxids(more)
  {
    TxidsExtend(db, more, |db.blocks|);
    TxidsPrefix(more.blocks, |db.blocks|, |more.blocks|);
  }

  lemma RefsExtend(db: Db, more: Db, t: Hash)
    requires Extends(db, more) && WellFormed(db) && t in AllTxids(db)
    ensures Refs(more, t) == Refs(db, t)
  {
    hide Extends, AllTxids, TxDataOf, DbOwner;
    assert DbTx(db, t).Some?;
    AnswersExtend(db, more, 0, t, Ancestor(0, 0));
  }

  lemma SourceExtends(db: Db, more: Db, t: Hash, i: nat)
    requires Extends(db, more) && WellFormed(db) && WellFormed(more) && t in AllTxids(db) && i < |Refs(db, t)|
    ensures i < |Refs(more, t)| && Source(more, t, i) == Source(db, t, i) && Source(db, t, i) in AllTxids(db)
  {
    hide WellFormed, Extends, AllTxids, Refs, DbOwner, DbTx, Rank;
    RefsExtend(db, more, t);
    RefIsEarlier(db, t, i);
    AnswersExtend(db, more, 0, t, Refs(db, t)[i]);
  }

  /** The ancestors of a transaction do not change when the chain grows. */
  lemma {:induction false} ClosureExtends(db: Db, more: Db, t: Hash, k: nat)
    requires Extends(db, more) && WellFormed(db) && WellFormed(more) && t in AllTxids(db) && k <= |Refs(db, t)|
    ensures k <= |Refs(more, t)| && ClosureTo(more, t, k) == ClosureTo(db, t, k)
    decreases Rank(db, t), k
  {
    hide *;
    RefsExtend(db, more, t);
    ClosureIs(db, t); ClosureIs(more, t);
    if k > 0 {
      var o := Source(db, t, k - 1);
      SourceExtends(db, more, t, k - 1);
      ClosureExtends(db, more, t, k - 1);
      RefsExtend(db, more, o);
      ClosureExtends(db, more, o, |Refs(db, o)|);
      ClosureIs(db, o); ClosureIs(more, o);
      ClosureToStep(db, t, k - 1); ClosureToStep(more, t, k - 1);
    }
  }

  /** Sound and exact records of a chain stay so for every longer chain. */
  lemma RecordsExtend(db: Db, more: Db, m: Ancestry, n: nat)
    requires Extends(db, more) && WellFormed(db) && WellFormed(more) && Sound(db, m) && n <= |db.blocks|
    requires ExactBelow(db, m, |Txids(db.blocks, n)|)
    ensures n <= |more.blocks| && Sound(more, m) && ExactBelow(more, m, |Txids(more.blocks, n)|)
  {
    hide Extends, WellFormed, Refs, Closure, ClosureTo, AllTxids;
    TxidsExtend(db, more, n);
    ChainPrefix(db, more);
    assert |Txids(db.blocks, n)| <= |AllTxids(db)| by { TxidsBound(db, n); }
    forall t | t in m
      ensures m[t] <= Closure(more, t)
    {
      ClosureIs(db, t); ClosureIs(more, t);
      if t in AllTxids(db) {
        RefsExtend(db, more, t);
        ClosureExtends(db, more, t, |Refs(db, t)|);
      } else {
        UnknownHasNoRefs(db, t);
      }
    }
    forall i | 0 <= i < |Txids(db.blocks, n)|
      ensures ExactFor(more, m, AllTxids(more)[i])
    {
      var t := AllTxids(db)[i];
      assert ExactFor(db, m, t);
      RefsExtend(db, more, t);
      ClosureExtends(db, more, t, |Refs(db, t)|);
      ClosureIs(db, t); ClosureIs(more, t);
    }
  }

  lemma TxidsBound(db: Db, n: nat)
    requires n <= |db.blocks|
    ensures |Txids(db.blocks, n)| <= |AllTxids(db)|
  {
    TxidsPrefix(db.blocks, n, |db.blocks|);
  }

  lemma UnknownHasNoRefs(db: Db, t: Hash)
    requires WellFormed(db) && t !in AllTxids(db)
    ensures Refs(db, t) == []
  {
  }

  /** Two complete records read the same for every transaction. */
  lemma ExactIsUnique(db: Db, m: Ancestry, other: Ancestry, t: Hash)
    requires WellFormed(db) && Sound(db, m) && Sound(db, other)
    requires ExactBelow(db, m, |AllTxids(db)|) && ExactBelow(db, other, |AllTxids(db)|)
    ensures GetAncestry(m, t) == GetAncestry(other, t) == Closure(db, t)
  {
    hide WellFormed, Closure, ClosureTo, AllTxids, ExactBelow, Refs;
    if t in AllTxids(db) {
      ExactAt(db, m, |AllTxids(db)|, t); ExactAt(db, other, |AllTxids(db)|, t);
    } else {
      UnknownHasNoRefs(db, t);
      ClosureIs(db, t);
    }
  }
}
