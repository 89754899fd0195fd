/** When the backward search ends, on every database. */
module SearchTermination {
  import opened Wrappers
  import opened ChainDb
  import opened AncestryGraph
  import opened AncestryTool

  /** One visit of the worklist; None when it fails. */
  ghost function Visit(db: Db, queue: seq<Hash>): Option<seq<Hash>> {
    if queue == [] then Some([])
    else if !Processable(db, queue[0]) then None
    else Some(queue[1..] + Owners(db, queue[0], |Refs(db, queue[0])|))
  }

  /** The worklist after n visits; None when one of them fails. */
  ghost function Worklist(db: Db, queue: seq<Hash>, n: nat): Option<seq<Hash>>
    decreases n
  {
    if n == 0 then Some(queue)
    else
      match Visit(db, queue)
      case None => None
      case Some(next) => Worklist(db, next, n - 1)
  }

  /** The search from t empties its worklist. */
  ghost predicate Ends(db: Db, t: Hash) { exists n :: Worklist(db, [t], n) == Some([]) }

  /** Each transaction can be processed, and the owners of its references come before it. */
  ghost predicate Ordered(db: Db, order: seq<Hash>) {
    forall i :: 0 <= i < |order| ==> Processable(db, order[i]) && OwnersIn(db, order[i], order[..i])
  }

  ghost predicate OwnersIn(db: Db, t: Hash, ts: seq<Hash>) {
    forall i :: 0 <= i < |Refs(db, t)| ==> OwnerOf(db, Refs(db, t)[i]) in ts
  }

  ghost predicate AllIn(queue: seq<Hash>, ts: seq<Hash>) { forall t :: t in queue ==> t in ts }

  lemma {:induction false} OwnersAt(db: Db, t: Hash, k: nat, i: nat)
    requires i < k <= |Refs(db, t)|
    ensures OwnerOf(db, Refs(db, t)[i]) in Owners(db, t, k)
    decreases k
  {
    hide Refs, OwnerOf;
    if i < k - 1 { OwnersAt(db, t, k - 1, i); }
  }

  // ----- an emptied worklist gives an order

  /** The visited transactions, the last one first, are in order. */
  lemma {:induction false} EmptiedIsOrdered(db: Db, queue: seq<Hash>, n: nat) returns (order: seq<Hash>)
    requires Worklist(db, queue, n) == Some([])
    ensures Ordered(db, order) && AllIn(queue, order)
    decreases n
  {
    hide Processable, Refs, Owners, OwnerOf, Ordered, OwnersIn;
    if queue == [] {
      order := [];
      NothingIsOrdered(db);
    } else {
      var t := queue[0];
      var next := Visit(db, queue).value;
      var before := EmptiedIsOrdered(db, next, n - 1);
      VisitedComesNext(db, t, before);
      order := before + [t];
    }
  }

  lemma NothingIsOrdered(db: Db)
    ensures Ordered(db, [])
  {
  }

  lemma VisitedComesNext(db: Db, t: Hash, before: seq<Hash>)
    requires Ordered(db, before) && Processable(db, t) && AllIn(Owners(db, t, |Refs(db, t)|), before)
    ensures Ordered(db, before + [t])
  {
    hide Processable, Refs, Owners, OwnerOf;
    var order := before + [t];
    forall i | 0 <= i < |Refs(db, t)| ensures OwnerOf(db, Refs(db, t)[i]) in before {
      OwnersAt(db, t, |Refs(db, t)|, i);
    }
    forall i | 0 <= i < |order| ensures Processable(db, order[i]) && OwnersIn(db, order[i], order[..i]) {
      if i < |before| { assert order[..i] == before[..i]; } else { assert order[..i] == before; }
    }
  }

  // ----- an order bounds the number of visits

  lemma OwnerIsBefore(db: Db, order: seq<Hash>, i: nat, k: nat)
    requires Ordered(db, order) && i < |order| && k < |Refs(db, order[i])|
    ensures IndexOf(order, OwnerOf(db, Refs(db, order[i])[k])) < i
  {
    hide Processable, Refs, OwnerOf, IndexOf;
    var o := OwnerOf(db, Refs(db, order[i])[k]);
    assert OwnersIn(db, order[i], order[..i]);
    FirstIndex(order, i, o);
  }

  lemma {:induction false} FirstIndex(s: seq<Hash>, i: nat, t: Hash)
    requires i <= |s| && t in s[..i]
    ensures IndexOf(s, t) < i
  {
    if s[0] != t {
      assert s[..i][1..] == s[1..][..i - 1];
      FirstIndex(s[1..], i - 1, t);
    }
  }

  /** The place of the owner of reference k of the i-th transaction. */
  ghost function OwnerIndex(db: Db, order: seq<Hash>, i: nat, k: nat): (j: nat)
    requires Ordered(db, order) && i < |order| && k < |Refs(db, order[i])|
    ensures j < i && j == IndexOf(order, OwnerOf(db, Refs(db, order[i])[k]))
  {
    hide Ordered, Refs, OwnerOf, IndexOf;
    OwnerIsBefore(db, order, i, k);
    IndexOf(order, OwnerOf(db, Refs(db, order[i])[k]))
  }

  /** How many visits the i-th transaction of the order and everything behind it take. */
  ghost function Visits(db: Db, order: seq<Hash>, i: nat): (n: nat)
    requires Ordered(db, order) && i < |order|
    ensures n >= 1
    decreases i, |Refs(db, order[i])| + 1
  {
    hide Ordered, Refs;
    1 + VisitsTo(db, order, i, |Refs(db, order[i])|)
  }

  /** How many visits the owners of its first k references take. */
  ghost function VisitsTo(db: Db, order: seq<Hash>, i: nat, k: nat): nat
    requires Ordered(db, order) && i < |order| && k <= |Refs(db, order[i])|
    decreases i, k
  {
    hide Ordered, Refs, OwnerOf, OwnerIndex;
    if k == 0 then 0 else VisitsTo(db, order, i, k - 1) + Visits(db, order, OwnerIndex(db, order, i, k - 1))
  }

  ghost function TotalVisits(db: Db, order: seq<Hash>, queue: seq<Hash>): nat
    requires Ordered(db, order) && AllIn(queue, order)
  {
    if queue == [] then 0
    else
      var n := |queue| - 1;
      TotalVisits(db, order, queue[..n]) + Visits(db, order, IndexOf(order, queue[n]))
  }

  lemma {:induction false} TotalConcat(db: Db, order: seq<Hash>, a: seq<Hash>, b: seq<Hash>)
    requires Ordered(db, order) && AllIn(a, order) && AllIn(b, order)
    ensures AllIn(a + b, order)
    ensures TotalVisits(db, order, a + b) == TotalVisits(db, order, a) + TotalVisits(db, order, b)
  {
    hide Ordered, Visits, IndexOf;
    if b == [] {
      assert a + b == a;
    } else {
      var n := |b| - 1;
      TotalConcat(db, order, a, b[..n]);
      assert (a + b)[..|a + b| - 1] == a + b[..n];
    }
  }

  lemma {:induction false} OwnersTotal(db: Db, order: seq<Hash>, i: nat, k: nat)
    requires Ordered(db, order) && i < |order| && k <= |Refs(db, order[i])|
    ensures AllIn(Owners(db, order[i], k), order)
    ensures TotalVisits(db, order, Owners(db, order[i], k)) == VisitsTo(db, order, i, k)
    decreases k
  {
    hide Ordered, Visits, Refs, OwnerOf;
    if k > 0 {
      OwnersTotal(db, order, i, k - 1);
      OwnerIsBefore(db, order, i, k - 1);
      var owners := Owners(db, order[i], k);
      assert owners[..k - 1] == Owners(db, order[i], k - 1);
    }
  }

  /** A visit takes one off the total. */
  lemma VisitCounts(db: Db, order: seq<Hash>, queue: seq<Hash>)
    requires Ordered(db, order) && queue != [] && AllIn(queue, order)
    ensures var next := Visit(db, queue);
            && next.Some? && AllIn(next.value, order)
            && TotalVisits(db, order, next.value) + 1 == TotalVisits(db, order, queue)
  {
    hide Refs, OwnerOf, VisitsTo, Owners, Processable, OwnersIn;
    var t, rest := queue[0], queue[1..];
    var i := IndexOf(order, t);
    assert order[i] == t && Processable(db, order[i]);
    hide Ordered, IndexOf;
    OwnersTotal(db, order, i, |Refs(db, t)|);
    TotalConcat(db, order, rest, Owners(db, t, |Refs(db, t)|));
    assert queue == [t] + rest;
    TotalConcat(db, order, [t], rest);
    SingleTotal(db, order, t);
  }

  lemma SingleTotal(db: Db, order: seq<Hash>, t: Hash)
    requires Ordered(db, order) && t in order
    ensures TotalVisits(db, order, [t]) == Visits(db, order, IndexOf(order, t))
  {
    hide Ordered, Visits, IndexOf;
    assert [t][..0] == [];
  }

  /** The worklist is empty after exactly so many visits. */
  lemma {:induction false} OrderedEmpties(db: Db, order: seq<Hash>, queue: seq<Hash>)
    requires Ordered(db, order) && AllIn(queue, order)
    ensures Worklist(db, queue, TotalVisits(db, order, queue)) == Some([])
    decreases TotalVisits(db, order, queue)
  {
    hide Ordered, Visit, Visits, IndexOf;
    if queue != [] {
      VisitCounts(db, order, queue);
      OrderedEmpties(db, order, Visit(db, queue).value);
    }
  }

  /** The search from t ends, without failing, exactly when t can be reached in an order in which each
      transaction can be processed and refers only to outputs of those before. */
  lemma SearchEndsIff(db: Db, t: Hash)
    ensures Ends(db, t) <==> exists order :: Ordered(db, order) && t in order
  {
    hide Ordered, Worklist, TotalVisits;
    if Ends(db, t) {
      var n :| Worklist(db, [t], n) == Some([]);
      var order := EmptiedIsOrdered(db, [t], n);
      assert t in [t];
    }
    if exists order :: Ordered(db, order) && t in order {
      var order :| Ordered(db, order) && t in order;
      OrderedEmpties(db, order, [t]);
    }
  }

  /** On a well-formed chain, the chain itself is such an order. */
  lemma ChainIsOrdered(db: Db)
    requires WellFormed(db)
    ensures Ordered(db, AllTxids(db))
  {
    hide DbTx, DbOwner, Refs, Processable, Txids, IndexOf, OwnerOf;
    var order := AllTxids(db);
    forall i | 0 <= i < |order| ensures Processable(db, order[i]) && OwnersIn(db, order[i], order[..i]) {
      AllProcessable(db, order[i]);
      IndexOfDistinct(order, i);
      forall j | 0 <= j < |Refs(db, order[i])| ensures OwnerOf(db, Refs(db, order[i])[j]) in order[..i] {
        RefIsEarlier(db, order[i], j);
        var o := OwnerOf(db, Refs(db, order[i])[j]);
        assert order[IndexOf(order, o)] == o;
      }
    }
  }

  // ----- cycles

  /** Each of these transactions refers to an output of one of them. */
  ghost predicate Cyclic(db: Db, ts: set<Hash>) {
    forall t :: t in ts ==> exists i :: 0 <= i < |Refs(db, t)| && OwnerOf(db, Refs(db, t)[i]) in ts
  }

  /** Once a cycle of references is on the worklist, it never becomes empty: the search does not end,
      except by a failure. */
  lemma {:induction false} CycleNeverEnds(db: Db, ts: set<Hash>, queue: seq<Hash>, n: nat)
    requires Cyclic(db, ts) && (exists t :: t in queue && t in ts) && Worklist(db, queue, n).Some?
    ensures exists t :: t in Worklist(db, queue, n).value && t in ts
    decreases n
  {
    hide Processable, Refs, Owners, OwnerOf;
    if n > 0 {
      var next := Visit(db, queue).value;
      var t :| t in queue && t in ts;
      if t == queue[0] {
        var i :| 0 <= i < |Refs(db, t)| && OwnerOf(db, Refs(db, t)[i]) in ts;
        OwnersAt(db, t, |Refs(db, t)|, i);
        assert OwnerOf(db, Refs(db, t)[i]) in next;
      } else {
        assert t in queue[1..] && t in next;
      }
      CycleNeverEnds(db, ts, next, n - 1);
    }
  }

  /** A block whose only transaction, besides the miner's, refers to its own output. */
  function SelfReference(): Db {
    Db([Block(Transaction([Gen], []), 0, [1])],
       map[0 := Transaction([Gen], []), 1 := Transaction([ToKey(0, [0])], [ToKeyOut(7)])],
       map[Ancestor(0, 0) := OutputData(7, 0)])
  }

  lemma SelfReferenceRefs()
    ensures Processable(SelfReference(), 1) && Refs(SelfReference(), 1) == [Ancestor(0, 0)]
    ensures DbOwner(SelfReference(), Ancestor(0, 0)) == Some(1)
  {
    var db := SelfReference();
    var tx := Transaction([ToKey(0, [0])], [ToKeyOut(7)]);
    assert db.txs[1] == tx && |tx.vin| == 1 && !tx.vin[0].Gen?;
    assert RingsOf(tx.vin) == [Ring(0, [0])] && KeysOf(tx.vout) == [7];
    assert DbTx(db, 1) == Some(TxData([Ring(0, [0])], [7], false));
    assert [Ring(0, [0])][..0] == [];
    assert Flatten([Ring(0, [0])]) == Flatten([]) + RingRefs(Ring(0, [0]));
    assert DbBlock(db, 0) == Some(db.blocks[0]);
    assert SearchMiner([], 7, 0) == Absent;
    assert SearchTxs(db, [1], 7, 0) == Some(1);
  }

  /** On it the search visits the same transaction for ever. */
  lemma {:induction false} SelfReferenceNeverEnds(n: nat)
    ensures Worklist(SelfReference(), [1], n) == Some([1])
  {
    hide SelfReference, Processable, Refs, DbOwner;
    SelfReferenceRefs();
    var db := SelfReference();
    assert Owners(db, 1, 0) == [];
    assert Owners(db, 1, 1) == [1];
    assert [1][1..] + [1] == [1];
    if n > 0 { SelfReferenceNeverEnds(n - 1); }
  }
}
