/** The ancestry relation of a chain: references between transactions, their transitive closure,
    and the number of reference paths. */
module AncestryGraph {
  import opened ChainDb
  import opened Pairs
  import opened Wrappers

  /** All references of a list of rings, in order. */
  function Flatten(vin: seq<Ring>): seq<Ancestor> {
    if vin == [] then [] else Flatten(vin[..|vin| - 1]) + RingRefs(vin[|vin| - 1])
  }

  function RingRefs(r: Ring): (s: seq<Ancestor>)
    ensures |s| == |r.offsets|
  {
    seq(|r.offsets|, i requires 0 <= i < |r.offsets| => Ancestor(r.amount, r.offsets[i]))
  }

  /** The outputs a transaction refers to; a coinbase transaction refers to none. */
  function Refs(db: Db, t: Hash): seq<Ancestor> {
    match DbTx(db, t)
    case None => []
    case Some(data) => if data.coinbase then [] else Flatten(data.vin)
  }

  // ----- the references of a transaction are its ring members

  /** Input i has the output as the j-th member of its ring. */
  ghost predicate Mentions(vin: seq<TxIn>, i: int, j: int, a: Ancestor) {
    && 0 <= i < |vin| && vin[i].ToKey? && 0 <= j < |vin[i].offsets|
    && vin[i].amount == a.amount && vin[i].offsets[j] == a.offset
  }

  /** The mentions of an output before member m of input n. */
  ghost function MentionsBefore(vin: seq<TxIn>, a: Ancestor, n: nat, m: nat): (s: set<(int, int)>)
    ensures forall i, j :: (i, j) in s <==> Mentions(vin, i, j, a) && (i < n || (i == n && j < m))
  {
    set i, j | 0 <= i < |vin| && vin[i].ToKey? && 0 <= j < |vin[i].offsets| && Mentions(vin, i, j, a)
               && (i < n || (i == n && j < m)) :: (i, j)
  }

  lemma MentionsStep(vin: seq<TxIn>, a: Ancestor, n: nat, m: nat)
    ensures |MentionsBefore(vin, a, n, m + 1)|
         == |MentionsBefore(vin, a, n, m)| + if Mentions(vin, n, m, a) then 1 else 0
  {
    hide Mentions;
    var s, next := MentionsBefore(vin, a, n, m), MentionsBefore(vin, a, n, m + 1);
    if Mentions(vin, n, m, a) {
      SamePairs(next, s + {(n, m)});
    } else {
      SamePairs(next, s);
    }
  }

  /** The mentions before an input are those up to the last member of the input before it. */
  lemma MentionsRow(vin: seq<TxIn>, a: Ancestor, n: nat)
    requires n < |vin| && vin[n].ToKey?
    ensures MentionsBefore(vin, a, n + 1, 0) == MentionsBefore(vin, a, n, |vin[n].offsets|)
  {
    SamePairs(MentionsBefore(vin, a, n + 1, 0), MentionsBefore(vin, a, n, |vin[n].offsets|));
  }

  lemma NoMentions(vin: seq<TxIn>, a: Ancestor)
    ensures MentionsBefore(vin, a, 0, 0) == {}
  {
    SamePairs(MentionsBefore(vin, a, 0, 0), {});
  }

  /** The references of the first n inputs, and of the first m members of the input after them. */
  function RefsBefore(vin: seq<TxIn>, n: nat, m: nat): seq<Ancestor>
    requires forall i :: 0 <= i < |vin| ==> vin[i].ToKey?
    requires n <= |vin| && m <= if n < |vin| then |vin[n].offsets| else 0
  {
    Flatten(RingsOf(vin)[..n]) + if n < |vin| then RingRefs(RingsOf(vin)[n])[..m] else []
  }

  lemma {:induction false} CountMentions(vin: seq<TxIn>, a: Ancestor, n: nat, m: nat)
    requires forall i :: 0 <= i < |vin| ==> vin[i].ToKey?
    requires n <= |vin| && m <= if n < |vin| then |vin[n].offsets| else 0
    ensures multiset(RefsBefore(vin, n, m))[a] == |MentionsBefore(vin, a, n, m)|
    decreases n, m
  {
    hide MentionsBefore, Flatten;
    var rings := RingsOf(vin);
    if m > 0 {
      CountMentions(vin, a, n, m - 1);
      assert RefsBefore(vin, n, m) == RefsBefore(vin, n, m - 1) + [Ancestor(vin[n].amount, vin[n].offsets[m - 1])];
      MentionsStep(vin, a, n, m - 1);
    } else if n > 0 {
      CountMentions(vin, a, n - 1, |vin[n - 1].offsets|);
      FlattenSnoc(rings, n - 1);
      assert RefsBefore(vin, n, 0) == RefsBefore(vin, n - 1, |vin[n - 1].offsets|);
      MentionsRow(vin, a, n - 1);
    } else {
      FlattenSnoc(rings, 0);
      NoMentions(vin, a);
    }
  }

  lemma FlattenSnoc(rings: seq<Ring>, n: nat)
    ensures Flatten(rings[..0]) == []
    ensures n < |rings| ==> Flatten(rings[..n + 1]) == Flatten(rings[..n]) + RingRefs(rings[n])
  {
    if n < |rings| { assert rings[..n + 1][..n] == rings[..n]; }
  }

  /** All mentions of an output by a transaction. */
  ghost function AllMentions(tx: Transaction, a: Ancestor): (s: set<(int, int)>)
    ensures forall i, j :: (i, j) in s <==> Mentions(tx.vin, i, j, a)
  {
    MentionsBefore(tx.vin, a, |tx.vin|, 0)
  }

  /** A readable transaction refers to an output as often as its rings mention it. */
  lemma RefsAreMentions(db: Db, t: Hash, a: Ancestor)
    requires DbTx(db, t).Some?
    ensures t in db.txs && multiset(Refs(db, t))[a] == |AllMentions(db.txs[t], a)|
  {
    hide MentionsBefore, Flatten;
    var vin := db.txs[t].vin;
    TxDataKeeps(db.txs[t]);
    if vin == [Gen] {
      SamePairs(AllMentions(db.txs[t], a), {});
    } else {
      CountMentions(vin, a, |vin|, 0);
      assert !IsCoinbase(db.txs[t]);
      assert RingsOf(vin)[..|vin|] == RingsOf(vin);
      assert RefsBefore(vin, |vin|, 0) == Refs(db, t);
    }
  }

  /** The outputs that a readable transaction refers to are the members of its rings. */
  lemma RefsAreMembers(db: Db, t: Hash, a: Ancestor)
    requires DbTx(db, t).Some?
    ensures a in Refs(db, t) <==> exists i, j :: Mentions(db.txs[t].vin, i, j, a)
  {
    hide AllMentions, Refs, Mentions;
    RefsAreMentions(db, t, a);
    var all := AllMentions(db.txs[t], a);
    if a in Refs(db, t) {
      assert |all| > 0;
      var p :| p in all;
      assert Mentions(db.txs[t].vin, p.0, p.1, a) by { assert p == (p.0, p.1); }
    }
    if i, j :| Mentions(db.txs[t].vin, i, j, a) {
      assert (i, j) in all;
      assert |all| > 0;
    }
  }

  // ----- well-formed chains

  function BlockTxids(b: Block): seq<Hash> { [b.minerHash] + b.txHashes }

  /** The transactions of the first n blocks, in chain order. */
  function Txids(blocks: seq<Block>, n: nat): seq<Hash>
    requires n <= |blocks|
  {
    if n == 0 then [] else Txids(blocks, n - 1) + BlockTxids(blocks[n - 1])
  }

  function AllTxids(db: Db): seq<Hash> { Txids(db.blocks, |db.blocks|) }

  ghost predicate Distinct(s: seq<Hash>) { forall i, j :: 0 <= i < j < |s| ==> s[i] != s[j] }

  /** The position of t in s, or the length of s. */
  function IndexOf(s: seq<Hash>, t: Hash): (k: nat)
    ensures k <= |s| && (k < |s| <==> t in s) && (k < |s| ==> s[k] == t)
  {
    if s == [] then 0 else if s[0] == t then 0 else 1 + IndexOf(s[1..], t)
  }

  lemma {:induction false} IndexOfDistinct(s: seq<Hash>, i: nat)
    requires Distinct(s) && i < |s|
    ensures IndexOf(s, s[i]) == i
  {
    if s[0] != s[i] { IndexOfDistinct(s[1..], i - 1); }
  }

  /** The place of a transaction in the chain. */
  function Rank(db: Db, t: Hash): nat { IndexOf(AllTxids(db), t) }

  /** Every reference of t is to an output of an earlier transaction. */
  ghost predicate RefsResolve(db: Db, t: Hash) {
    forall i :: 0 <= i < |Refs(db, t)| ==>
      var o := DbOwner(db, Refs(db, t)[i]);
      o.Some? && o.value in AllTxids(db) && Rank(db, o.value) < Rank(db, t)
  }

  /** Transactions are distinct and readable, miner transactions are coinbase, and every ring
      reference resolves to an output of an earlier transaction. */
  ghost predicate WellFormed(db: Db) {
    && Distinct(AllTxids(db))
    && (forall t :: t in db.txs <==> t in AllTxids(db))
    && (forall t :: t in AllTxids(db) ==> DbTx(db, t).Some? && RefsResolve(db, t))
    && (forall h :: 0 <= h < |db.blocks| ==> var d := DbTx(db, db.blocks[h].minerHash); d.Some? && d.value.coinbase)
  }

  function OwnerOf(db: Db, a: Ancestor): Hash {
    match DbOwner(db, a)
    case None => 0
    case Some(o) => o
  }

  lemma RefIsEarlier(db: Db, t: Hash, i: nat)
    requires WellFormed(db) && i < |Refs(db, t)|
    ensures t in AllTxids(db)
    ensures var a := Refs(db, t)[i];
            && DbOwner(db, a) == Some(OwnerOf(db, a))
            && OwnerOf(db, a) in AllTxids(db) && Rank(db, OwnerOf(db, a)) < Rank(db, t)
  {
    hide AllTxids, DbOwner, TxDataOf, Distinct;
    assert t in db.txs;
    assert RefsResolve(db, t);
  }

  /** The owner of the i-th reference of t, which comes before t in the chain. */
  ghost function Source(db: Db, t: Hash, i: nat): (o: Hash)
    requires WellFormed(db) && i < |Refs(db, t)|
    ensures o == OwnerOf(db, Refs(db, t)[i]) && Rank(db, o) < Rank(db, t)
  {
    hide WellFormed, Refs, AllTxids, OwnerOf;
    RefIsEarlier(db, t, i);
    OwnerOf(db, Refs(db, t)[i])
  }

  // ----- transitive closure

  /** The outputs that the first k references of t lead to, directly or through their owners. */
  ghost function ClosureTo(db: Db, t: Hash, k: nat): set<Ancestor>
    requires WellFormed(db) && k <= |Refs(db, t)|
    decreases Rank(db, t), k
  {
    hide WellFormed, Refs, OwnerOf;
    if k == 0 then {}
    else ClosureTo(db, t, k - 1) + {Refs(db, t)[k - 1]} + Closure(db, Source(db, t, k - 1))
  }

  /** All transitive ancestors of t. */
  ghost function Closure(db: Db, t: Hash): set<Ancestor>
    requires WellFormed(db)
    decreases Rank(db, t), |Refs(db, t)| + 1
  {
    hide WellFormed, Refs;
    ClosureTo(db, t, |Refs(db, t)|)
  }

  lemma ClosureToStep(db: Db, t: Hash, k: nat)
    requires WellFormed(db) && k < |Refs(db, t)|
    ensures ClosureTo(db, t, 0) == {}
    ensures ClosureTo(db, t, k + 1) == ClosureTo(db, t, k) + {Refs(db, t)[k]} + Closure(db, Source(db, t, k))
  {
    hide WellFormed, Refs, OwnerOf;
  }

  lemma ClosureIs(db: Db, t: Hash)
    requires WellFormed(db)
    ensures Closure(db, t) == ClosureTo(db, t, |Refs(db, t)|)
    ensures ClosureTo(db, t, 0) == {}
  {
    hide WellFormed, Refs, OwnerOf;
  }

  /** A chain of references from t: each is made by the owner of the one before. */
  ghost predicate IsPath(db: Db, t: Hash, path: seq<Ancestor>)
    decreases |path|
  {
    |path| >= 1 && path[0] in Refs(db, t) && (|path| > 1 ==> IsPath(db, OwnerOf(db, path[0]), path[1..]))
  }

  lemma {:induction false} ClosureHasPath(db: Db, t: Hash, k: nat, a: Ancestor) returns (path: seq<Ancestor>)
    requires WellFormed(db) && k <= |Refs(db, t)| && a in ClosureTo(db, t, k)
    ensures IsPath(db, t, path) && path[|path| - 1] == a
    decreases Rank(db, t), k
  {
    hide WellFormed, Refs, OwnerOf, Closure, ClosureTo, Source;
    ClosureIs(db, t);
    ClosureToStep(db, t, k - 1);
    var r, o := Refs(db, t)[k - 1], Source(db, t, k - 1);
    if a == r {
      path := [r];
    } else if a in ClosureTo(db, t, k - 1) {
      path := ClosureHasPath(db, t, k - 1, a);
    } else {
      ClosureIs(db, o);
      var more := ClosureHasPath(db, o, |Refs(db, o)|, a);
      path := [r] + more;
      assert path[1..] == more;
    }
  }

  lemma {:induction false} ClosureAbsorbs(db: Db, t: Hash, k: nat, i: nat)
    requires WellFormed(db) && i < k <= |Refs(db, t)|
    ensures var a := Refs(db, t)[i]; a in ClosureTo(db, t, k) && Closure(db, OwnerOf(db, a)) <= ClosureTo(db, t, k)
    decreases k
  {
    hide WellFormed, Refs, OwnerOf, Closure, ClosureTo, Source;
    ClosureToStep(db, t, k - 1);
    if i < k - 1 { ClosureAbsorbs(db, t, k - 1, i); }
  }

  lemma {:induction false} PathInClosure(db: Db, t: Hash, path: seq<Ancestor>)
    requires WellFormed(db) && IsPath(db, t, path)
    ensures path[|path| - 1] in Closure(db, t)
    decreases |path|
  {
    hide WellFormed, Refs, OwnerOf, ClosureTo, Closure;
    ClosureIs(db, t);
    var i :| 0 <= i < |Refs(db, t)| && Refs(db, t)[i] == path[0];
    ClosureAbsorbs(db, t, |Refs(db, t)|, i);
    if |path| > 1 { PathInClosure(db, OwnerOf(db, path[0]), path[1..]); }
  }

  /** The closure is exactly what chains of references reach. */
  lemma ClosureIsReachability(db: Db, t: Hash, a: Ancestor)
    requires WellFormed(db)
    ensures a in Closure(db, t) <==> exists path :: IsPath(db, t, path) && path[|path| - 1] == a
  {
    hide WellFormed, Refs, ClosureTo, Closure;
    ClosureIs(db, t);
    if a in Closure(db, t) {
      var path := ClosureHasPath(db, t, |Refs(db, t)|, a);
    }
    if exists path :: IsPath(db, t, path) && path[|path| - 1] == a {
      var path :| IsPath(db, t, path) && path[|path| - 1] == a;
      PathInClosure(db, t, path);
    }
  }

  // ----- counting reference paths

  /** The outputs that the first k references of t lead to, once for every path. */
  ghost function BagTo(db: Db, t: Hash, k: nat): multiset<Ancestor>
    requires WellFormed(db) && k <= |Refs(db, t)|
    decreases Rank(db, t), k
  {
    hide WellFormed, Refs, OwnerOf;
    if k == 0 then multiset{}
    else BagTo(db, t, k - 1) + multiset{Refs(db, t)[k - 1]} + Bag(db, Source(db, t, k - 1))
  }

  /** Every ancestor of t, once for every path of references to it. */
  ghost function Bag(db: Db, t: Hash): multiset<Ancestor>
    requires WellFormed(db)
    decreases Rank(db, t), |Refs(db, t)| + 1
  {
    hide WellFormed, Refs;
    BagTo(db, t, |Refs(db, t)|)
  }

  lemma BagToStep(db: Db, t: Hash, k: nat)
    requires WellFormed(db) && k < |Refs(db, t)|
    ensures BagTo(db, t, k + 1) == BagTo(db, t, k) + multiset{Refs(db, t)[k]} + Bag(db, Source(db, t, k))
  {
    hide WellFormed, Refs, OwnerOf;
  }

  lemma BagIs(db: Db, t: Hash)
    requires WellFormed(db)
    ensures Bag(db, t) == BagTo(db, t, |Refs(db, t)|) && BagTo(db, t, 0) == multiset{}
  {
    hide WellFormed, Refs, OwnerOf;
  }

  lemma {:induction false} BagToIsClosure(db: Db, t: Hash, k: nat, a: Ancestor)
    requires WellFormed(db) && k <= |Refs(db, t)|
    ensures a in BagTo(db, t, k) <==> a in ClosureTo(db, t, k)
    decreases Rank(db, t), k
  {
    hide *;
    BagIs(db, t); ClosureIs(db, t);
    if k > 0 {
      var o := Source(db, t, k - 1);
      BagToStep(db, t, k - 1); ClosureToStep(db, t, k - 1);
      BagToIsClosure(db, t, k - 1, a);
      BagToIsClosure(db, o, |Refs(db, o)|, a);
      BagIs(db, o); ClosureIs(db, o);
    }
  }

  /** A path written as the index of the reference chosen at each transaction. */
  ghost predicate IsWalk(db: Db, t: Hash, w: seq<nat>, a: Ancestor)
    decreases |w|
  {
    |w| >= 1 && w[0] < |Refs(db, t)| &&
    if |w| == 1 then Refs(db, t)[w[0]] == a else IsWalk(db, OwnerOf(db, Refs(db, t)[w[0]]), w[1..], a)
  }

  /** The walks to a that start with one of the first k references of t. */
  ghost function WalksTo(db: Db, t: Hash, k: nat, a: Ancestor): set<seq<nat>>
    requires WellFormed(db) && k <= |Refs(db, t)|
    decreases Rank(db, t), k
  {
    hide WellFormed, Refs, OwnerOf, Prefixed;
    if k == 0 then {}
    else WalksTo(db, t, k - 1, a) + Direct(db, t, k - 1, a) + Prefixed(k - 1, Walks(db, Source(db, t, k - 1), a))
  }

  /** All walks from t to a. */
  ghost function Walks(db: Db, t: Hash, a: Ancestor): set<seq<nat>>
    requires WellFormed(db)
    decreases Rank(db, t), |Refs(db, t)| + 1
  {
    hide WellFormed, Refs;
    WalksTo(db, t, |Refs(db, t)|, a)
  }

  /** The walk of one step, if the i-th reference is to a. */
  ghost function Direct(db: Db, t: Hash, i: nat, a: Ancestor): set<seq<nat>>
    requires i < |Refs(db, t)|
  {
    if Refs(db, t)[i] == a then {[i]} else {}
  }

  lemma WalksToStep(db: Db, t: Hash, k: nat, a: Ancestor)
    requires WellFormed(db) && k < |Refs(db, t)|
    ensures WalksTo(db, t, k + 1, a) ==
      WalksTo(db, t, k, a) + Direct(db, t, k, a) + Prefixed(k, Walks(db, Source(db, t, k), a))
  {
    hide WellFormed, Refs, OwnerOf, Prefixed, Direct;
  }

  lemma WalksIs(db: Db, t: Hash, a: Ancestor)
    requires WellFormed(db)
    ensures Walks(db, t, a) == WalksTo(db, t, |Refs(db, t)|, a) && WalksTo(db, t, 0, a) == {}
  {
    hide WellFormed, Refs, OwnerOf, Prefixed, Direct;
  }

  ghost function Prefixed(i: nat, ws: set<seq<nat>>): (s: set<seq<nat>>)
    ensures forall w :: w in s <==> |w| >= 1 && w[0] == i && w[1..] in ws
  {
    var s := set w | w in ws :: [i] + w;
    PrefixedIs(i, ws, s);
    s
  }

  lemma PrefixedIs(i: nat, ws: set<seq<nat>>, s: set<seq<nat>>)
    requires s == set w | w in ws :: [i] + w
    ensures forall w :: w in s <==> |w| >= 1 && w[0] == i && w[1..] in ws
  {
    forall w
      ensures w in s <==> |w| >= 1 && w[0] == i && w[1..] in ws
    {
      if w in s {
        var v :| v in ws && w == [i] + v;
        assert w[1..] == v;
      }
      if |w| >= 1 && w[0] == i && w[1..] in ws { assert w == [i] + w[1..]; }
    }
  }

  lemma {:induction false} PrefixedSize(i: nat, ws: set<seq<nat>>)
    ensures |Prefixed(i, ws)| == |ws|
  {
    hide Prefixed;
    if ws == {} {
      assert Prefixed(i, ws) == {};
    } else {
      var v :| v in ws;
      PrefixedSize(i, ws - {v});
      assert ([i] + v)[1..] == v;
      assert Prefixed(i, ws) == Prefixed(i, ws - {v}) + {[i] + v} by {
        forall w | w in Prefixed(i, ws) && w != [i] + v
          ensures w in Prefixed(i, ws - {v})
        {
          assert w == [i] + w[1..];
        }
      }
    }
  }

  /** The walks of the set are exactly the walks that exist. */
  lemma {:induction false} WalksToAre(db: Db, t: Hash, k: nat, a: Ancestor, w: seq<nat>)
    requires WellFormed(db) && k <= |Refs(db, t)|
    ensures w in WalksTo(db, t, k, a) <==> IsWalk(db, t, w, a) && w[0] < k
    decreases Rank(db, t), k
  {
    hide WellFormed, Refs, OwnerOf, Prefixed, WalksTo, Walks, Source, Rank;
    WalksIs(db, t, a);
    if k > 0 {
      var o := Source(db, t, k - 1);
      WalksToStep(db, t, k - 1, a);
      WalksToAre(db, t, k - 1, a, w);
      if |w| >= 1 {
        WalksToAre(db, o, |Refs(db, o)|, a, w[1..]);
        WalksIs(db, o, a);
        if |w| == 1 { assert w == [w[0]] && w[1..] == []; }
      }
    }
  }

  /** The number of walks to a is the multiplicity of a in the bag. */
  lemma {:induction false} WalksToCount(db: Db, t: Hash, k: nat, a: Ancestor)
    requires WellFormed(db) && k <= |Refs(db, t)|
    ensures |WalksTo(db, t, k, a)| == BagTo(db, t, k)[a]
    decreases Rank(db, t), k
  {
    hide *;
    WalksIs(db, t, a); BagIs(db, t);
    if k > 0 {
      var o := Source(db, t, k - 1);
      WalksToStep(db, t, k - 1, a); BagToStep(db, t, k - 1);
      WalksToCount(db, t, k - 1, a);
      WalksToCount(db, o, |Refs(db, o)|, a);
      WalksIs(db, o, a); BagIs(db, o);
      var before, direct, ws := WalksTo(db, t, k - 1, a), Direct(db, t, k - 1, a), Walks(db, o, a);
      PrefixedSize(k - 1, ws);
      WalksApart(db, t, k - 1, a);
      UnionSize(before, direct); UnionSize(before + direct, Prefixed(k - 1, ws));
      DirectSize(db, t, k - 1, a);
    }
  }

  lemma DirectSize(db: Db, t: Hash, i: nat, a: Ancestor)
    requires i < |Refs(db, t)|
    ensures |Direct(db, t, i, a)| == multiset{Refs(db, t)[i]}[a]
  {
    hide Refs;
  }

  /** Earlier walks, the direct step and longer walks through the same reference are different. */
  lemma WalksApart(db: Db, t: Hash, k: nat, a: Ancestor)
    requires WellFormed(db) && k < |Refs(db, t)|
    ensures var more := Prefixed(k, Walks(db, Source(db, t, k), a));
            && (forall w :: w in WalksTo(db, t, k, a) ==> w !in Direct(db, t, k, a))
            && (forall w :: w in WalksTo(db, t, k, a) + Direct(db, t, k, a) ==> w !in more)
  {
    hide WellFormed, Refs, OwnerOf, Prefixed, WalksTo, Walks, Source, IsWalk;
    var o := Source(db, t, k);
    forall w | w in WalksTo(db, t, k, a)
      ensures |w| >= 1 && w[0] < k
    {
      WalksToAre(db, t, k, a, w);
      WalkStarts(db, t, w, a);
    }
    WalksIs(db, o, a);
    WalksToAre(db, o, |Refs(db, o)|, a, []);
    EmptyIsNoWalk(db, o, a);
    assert [k][1..] == [];
  }

  lemma EmptyIsNoWalk(db: Db, t: Hash, a: Ancestor)
    ensures !IsWalk(db, t, [], a)
  {
  }

  lemma UnionSize<T>(a: set<T>, b: set<T>)
    requires forall x :: x in a ==> x !in b
    ensures |a + b| == |a| + |b|
  {
    assert a * b == {};
  }

  /** The multiplicity of an ancestor in the bag is the number of reference paths to it. */
  lemma BagCountsPaths(db: Db, t: Hash, a: Ancestor)
    requires WellFormed(db)
    ensures forall w :: w in Walks(db, t, a) <==> IsWalk(db, t, w, a)
    ensures |Walks(db, t, a)| == Bag(db, t)[a]
    ensures a in Bag(db, t) <==> a in Closure(db, t)
  {
    hide WellFormed, Refs, IsWalk, BagTo, ClosureTo, WalksTo, Bag, Closure, Walks;
    var n := |Refs(db, t)|;
    BagIs(db, t); ClosureIs(db, t); WalksIs(db, t, a);
    WalksToCount(db, t, n, a);
    BagToIsClosure(db, t, n, a);
    forall w
      ensures w in Walks(db, t, a) <==> IsWalk(db, t, w, a)
    {
      WalksToAre(db, t, n, a, w);
      WalkStarts(db, t, w, a);
    }
  }

  lemma WalkStarts(db: Db, t: Hash, w: seq<nat>, a: Ancestor)
    ensures IsWalk(db, t, w, a) ==> |w| >= 1 && w[0] < |Refs(db, t)|
  {
  }
}
