/** What the leak means for the people who use the pool: who can rent what, how much of the stock
    can be lost, and for which stocks nothing is ever lost. */
module Inventory {
  import opened Evm
  import opened Sequences
  import opened RentalBook
  import opened History
  import opened Slots
  import opened PoolMachine
  import opened Conservation

  // ---------------------------------------------------------------------------------------------
  // No id is ever lost entirely

  /** A rent goes through exactly when the caller holds nothing and some copy is neither held nor
      leaked; all three numbers come from the stored ids and the successful calls. */
  lemma {:induction false} RentSucceedsIff(log: seq<Tx>, user: Address, now: uint256, id: uint256)
    ensures TryRent(After(log), user, now, id).Ok? <==>
            && !Lookup(After(log).rentals, user).active
            && Rents(Deeds(log), id) < multiset(StoredIds(log))[id] + CleanEnds(Deeds(log), id)
  {
    var s := After(log);
    BooksBalance(log, id);
    PoolIsStoreLog(log);
    CopiesCountIds(s.nfts, id);
    FreeIffFound(s.nfts, id);
  }

  /** If the first slot of an id is rented, somebody holds the id. Hence a stored id that nobody
      holds can be rented by anyone who holds nothing, however many of its copies have leaked. */
  lemma {:induction false} UnheldIdCanBeRented(log: seq<Tx>, user: Address, now: uint256, id: uint256)
    requires id in StoredIds(log)
    ensures FirstRented(After(log).nfts, id) ==>
              exists renter :: renter in Renters(After(log).rentals, id)
    ensures Renters(After(log).rentals, id) == {} && !Lookup(After(log).rentals, user).active ==>
              TryRent(After(log), user, now, id).Ok?
  {
    var s := After(log);
    BooksBalance(log, id);
    if FirstRented(s.nfts, id) {
      assert Renters(s.rentals, id) != {};
    }
    PoolIsStoreLog(log);
    StoredIffCopies(s.nfts, id);
    LeakBound(log, id);
    FreeIffFound(s.nfts, id);
  }

  /** At any moment, no more users are granted access to a nonzero id than there are copies of it
      that have not leaked. */
  lemma {:induction false} NoOverSubscription(log: seq<Tx>, holders: set<Address>, now: uint256, id: uint256)
    requires id != 0
    requires forall user :: user in holders ==> CheckAccess(After(log), user, now) == Ok(id)
    ensures |holders| + LeakyEnds(Deeds(log), id) <= multiset(StoredIds(log))[id]
  {
    var s := After(log);
    assert holders <= Renters(s.rentals, id);
    SubsetSize(holders, Renters(s.rentals, id));
    LeakBound(log, id);
    PoolIsStoreLog(log);
    CopiesCountIds(s.nfts, id);
  }

  lemma {:induction false} SubsetSize<T>(a: set<T>, b: set<T>)
    requires a <= b
    ensures |a| <= |b|
  {
    if a != {} {
      var x :| x in a;
      SubsetSize(a - {x}, b - {x});
    }
  }

  // ---------------------------------------------------------------------------------------------
  // Everything but one copy can be lost

  /** Two users rent the same id, then both end: the second end finds the first slot free. */
  function Round(a: Address, b: Address, now: uint256, id: uint256): seq<Tx> {
    [Tx(a, now, RentNft(id)), Tx(b, now, RentNft(id))] + [Tx(a, now, EndRental), Tx(b, now, EndRental)]
  }

  function Rounds(a: Address, b: Address, now: uint256, id: uint256, k: nat): seq<Tx> {
    if k == 0 then [] else Rounds(a, b, now, id, k - 1) + Round(a, b, now, id)
  }

  /** Nobody holds `id`, and `a` and `b` hold nothing. */
  predicate Idle(s: State, a: Address, b: Address, id: uint256) {
    && Renters(s.rentals, id) == {}
    && !Lookup(s.rentals, a).active
    && !Lookup(s.rentals, b).active
  }

  lemma {:induction false} TwoMore(log: seq<Tx>, x: Tx, y: Tx)
    ensures After(log + [x, y]) == Next(Next(After(log), x), y)
  {
    OneMore(log, x);
    OneMore(log + [x], y);
    assert log + [x, y] == log + [x] + [y];
  }

  lemma {:induction false} RoundUnfolds(log: seq<Tx>, a: Address, b: Address, now: uint256, id: uint256)
    ensures var rented := Next(Next(After(log), Tx(a, now, RentNft(id))), Tx(b, now, RentNft(id)));
            After(log + Round(a, b, now, id))
              == Next(Next(rented, Tx(a, now, EndRental)), Tx(b, now, EndRental))
  {
    var x, y := [Tx(a, now, RentNft(id)), Tx(b, now, RentNft(id))], [Tx(a, now, EndRental), Tx(b, now, EndRental)];
    TwoMore(log, x[0], x[1]);
    TwoMore(log + x, y[0], y[1]);
    assert log + Round(a, b, now, id) == log + x + y;
  }

  lemma {:induction false} OneRent(s: State, user: Address, now: uint256, id: uint256)
    requires !Lookup(s.rentals, user).active
    requires FreeCopies(s.nfts, id) >= 1
    ensures var t := Next(s, Tx(user, now, RentNft(id)));
            && t.rentals == Begin(s.rentals, user, id, now)
            && FirstRented(t.nfts, id)
            && Copies(t.nfts, id) == Copies(s.nfts, id)
            && RentedCopies(t.nfts, id) == RentedCopies(s.nfts, id) + 1
            && Active(t.rentals, id) == Active(s.rentals, id) + 1
  {
    FreeIffFound(s.nfts, id);
    RentCounts(s, user, now, id, id);
  }

  lemma {:induction false} TwoRents(s: State, a: Address, b: Address, now: uint256, id: uint256)
    requires a != b && !Lookup(s.rentals, a).active && !Lookup(s.rentals, b).active
    requires FreeCopies(s.nfts, id) >= 2
    ensures var s1 := Next(s, Tx(a, now, RentNft(id))); var s2 := Next(s1, Tx(b, now, RentNft(id)));
            && Lookup(s2.rentals, a) == Lookup(s2.rentals, b) == Rental(id, now, true)
            && FirstRented(s2.nfts, id)
            && Copies(s2.nfts, id) == Copies(s.nfts, id)
            && RentedCopies(s2.nfts, id) == RentedCopies(s.nfts, id) + 2
            && Active(s2.rentals, id) == Active(s.rentals, id) + 2
  {
    OneRent(s, a, now, id);
    OneRent(Next(s, Tx(a, now, RentNft(id))), b, now, id);
  }

  lemma {:induction false} TwoEnds(s: State, a: Address, b: Address, now: uint256, id: uint256)
    requires a != b && Lookup(s.rentals, a) == Lookup(s.rentals, b) == Rental(id, now, true)
    requires FirstRented(s.nfts, id)
    ensures var s1 := Next(s, Tx(a, now, EndRental)); var s2 := Next(s1, Tx(b, now, EndRental));
            && !Lookup(s2.rentals, a).active && !Lookup(s2.rentals, b).active
            && Copies(s2.nfts, id) == Copies(s.nfts, id)
            && RentedCopies(s.nfts, id) == RentedCopies(s2.nfts, id) + 1
            && Active(s.rentals, id) == Active(s2.rentals, id) + 2
  {
    EndCounts(s, a, id);
    EndCounts(TryEnd(s, a).value, b, id);
  }

  lemma {:induction false} OneRoundLeaksOne(log: seq<Tx>, a: Address, b: Address, now: uint256, id: uint256)
    requires a != b
    requires Idle(After(log), a, b, id)
    requires FreeCopies(After(log).nfts, id) >= 2
    ensures var s, t := After(log), After(log + Round(a, b, now, id));
            && Idle(t, a, b, id)
            && Copies(t.nfts, id) == Copies(s.nfts, id)
            && RentedCopies(t.nfts, id) == RentedCopies(s.nfts, id) + 1
  {
    var s := After(log);
    RoundUnfolds(log, a, b, now, id);
    TwoRents(s, a, b, now, id);
    TwoEnds(Next(Next(s, Tx(a, now, RentNft(id))), Tx(b, now, RentNft(id))), a, b, now, id);
  }

  /** From every reachable state in which nobody holds `id`, two users who hold nothing can make
      all free copies but one leak, one per round. The bound of `LeakBound` is thus reached from
      every stock. */
  lemma {:induction false} LeakBoundIsReached(
      log: seq<Tx>, a: Address, b: Address, now: uint256, id: uint256, k: nat)
    requires a != b
    requires Idle(After(log), a, b, id)
    requires k < FreeCopies(After(log).nfts, id)
    ensures var s, t := After(log), After(log + Rounds(a, b, now, id, k));
            && Idle(t, a, b, id)
            && Copies(t.nfts, id) == Copies(s.nfts, id)
            && Leak(t, id) == Leak(s, id) + k
            && (k == FreeCopies(s.nfts, id) - 1 ==> Leak(t, id) == Copies(t.nfts, id) - 1)
  {
    if k == 0 {
      assert log + Rounds(a, b, now, id, k) == log;
    } else {
      var before := log + Rounds(a, b, now, id, k - 1);
      AppendIsAssociative(log, Rounds(a, b, now, id, k - 1), Round(a, b, now, id));
      LeakBoundIsReached(log, a, b, now, id, k - 1);
      OneRoundLeaksOne(before, a, b, now, id);
    }
  }

  /** Once the leak has reached its bound, and unless more copies are stored, there will never
      again be two holders of the id at the same time. */
  lemma {:induction false} OneHolderLeft(log: seq<Tx>, more: seq<Tx>, id: uint256)
    requires Leak(After(log), id) == Copies(After(log).nfts, id) - 1
    requires NoStores(more)
    ensures Active(After(log + more).rentals, id) <= 1
  {
    LeakedCopiesAreLost(log, more, id);
    NothingStored(more);
  }

  // ---------------------------------------------------------------------------------------------
  // Nothing is lost exactly when the stored ids are distinct

  ghost predicate OnlyStores(log: seq<Tx>) {
    forall tx :: tx in log ==> tx.call.Store?
  }

  ghost predicate NoStores(log: seq<Tx>) {
    forall tx :: tx in log ==> !tx.call.Store?
  }

  lemma {:induction false} FreshStock(stock: seq<Tx>, id: uint256)
    requires OnlyStores(stock)
    ensures Deeds(stock) == [] && After(stock).rentals == map[]
    ensures RentedCopies(After(stock).nfts, id) == 0
  {
    if |stock| > 0 {
      var front, tx := stock[..|stock| - 1], stock[|stock| - 1];
      assert tx in stock && OnlyStores(front);
      FreshStock(front, id);
      StoreCounts(After(front), tx.call.nftId, id);
    }
  }

  lemma {:induction false} NothingStored(log: seq<Tx>)
    requires NoStores(log)
    ensures StoredIds(log) == []
  {
    if |log| > 0 {
      assert log[|log| - 1] in log;
      NothingStored(log[..|log| - 1]);
    }
  }

  lemma {:induction false} FreshRoundLeaks(stock: seq<Tx>, id: uint256)
    requires OnlyStores(stock)
    requires Copies(After(stock).nfts, id) >= 2
    ensures Leak(After(stock + Round(0, 1, 0, id)), id) == 1
    ensures NoStores(Round(0, 1, 0, id))
  {
    FreshStock(stock, id);
    assert Renters(After(stock).rentals, id) == {};
    OneRoundLeaksOne(stock, 0, 1, 0, id);
  }

  lemma {:induction false} DuplicateLeaks(stock: seq<Tx>) returns (more: seq<Tx>, id: uint256)
    requires OnlyStores(stock)
    requires !NoDuplicates(StoredIds(stock))
    ensures NoStores(more) && Leak(After(stock + more), id) == 1
  {
    var i, j :| 0 <= i < j < |StoredIds(stock)| && StoredIds(stock)[i] == StoredIds(stock)[j];
    id := StoredIds(stock)[i];
    OccursTwice(StoredIds(stock), i, j);
    PoolIsStoreLog(stock);
    CopiesCountIds(After(stock).nfts, id);
    more := Round(0, 1, 0, id);
    FreshRoundLeaks(stock, id);
  }

  lemma {:induction false} DistinctNeverLeaks(stock: seq<Tx>, more: seq<Tx>, id: uint256)
    requires NoDuplicates(StoredIds(stock)) && NoStores(more)
    ensures Leak(After(stock + more), id) == 0
  {
    PoolIsStoreLog(stock);
    PoolOnlyGrows(stock, more);
    NothingStored(more);
    CopiesCountIds(After(stock + more).nfts, id);
    OccursAtMostOnce(StoredIds(stock), id);
    LeakBound(stock + more, id);
  }

  /** Rented slots and active renters of every id agree in every run from a given stock if and
      only if no id was stored twice. */
  lemma {:induction false} NeverLeaksIffDistinct(stock: seq<Tx>)
    requires OnlyStores(stock)
    ensures (forall more, id :: NoStores(more) ==> Leak(After(stock + more), id) == 0)
       <==> NoDuplicates(StoredIds(stock))
  {
    if NoDuplicates(StoredIds(stock)) {
      forall more, id | NoStores(more)
        ensures Leak(After(stock + more), id) == 0
      {
        DistinctNeverLeaks(stock, more, id);
      }
    } else {
      var more, id := DuplicateLeaks(stock);
    }
  }

  // ---------------------------------------------------------------------------------------------
  // With distinct ids, rented slots and active renters correspond exactly

  lemma {:induction false} DistinctSlot(log: seq<Tx>, i: nat)
    requires NoDuplicates(StoredIds(log))
    requires i < |After(log).nfts|
    ensures var s := After(log); var id := s.nfts[i].id;
            && FirstSlot(s.nfts, id) == i
            && Active(s.rentals, id) == if s.nfts[i].isRented then 1 else 0
  {
    var s := After(log);
    var id := s.nfts[i].id;
    PoolIsStoreLog(log);
    CopiesCountIds(s.nfts, id);
    OccursAtMostOnce(StoredIds(log), id);
    LeakBound(log, id);
    assert Ids(s.nfts)[i] == id;
    assert s.nfts[i] in multiset(s.nfts);
  }

  /** The slot each active renter occupies. */
  function SlotsHeld(s: State): map<Address, nat> {
    map user | user in s.rentals && s.rentals[user].active :: FirstSlot(s.nfts, s.rentals[user].nftId)
  }

  /** A bijection between active renters and rented slots: every renter's slot holds the rented id
      and is rented, no two renters share a slot or an id, and every rented slot has a renter. */
  lemma {:induction false} RentersMatchRentedSlots(log: seq<Tx>)
    requires NoDuplicates(StoredIds(log))
    ensures var s := After(log); var held := SlotsHeld(s);
            && (forall user :: user in held ==>
                  held[user] < |s.nfts| && s.nfts[held[user]] == NFT(s.rentals[user].nftId, true))
            && (forall a, b :: a in held && b in held && a != b ==>
                  held[a] != held[b] && s.rentals[a].nftId != s.rentals[b].nftId)
            && (forall i :: 0 <= i < |s.nfts| && s.nfts[i].isRented ==>
                  exists user :: user in held && held[user] == i)
  {
    var s := After(log);
    var held := SlotsHeld(s);
    forall user | user in held
      ensures held[user] < |s.nfts| && s.nfts[held[user]] == NFT(s.rentals[user].nftId, true)
    {
      ReleaseFindsItsSlot(log, user);
      DistinctSlot(log, held[user]);
      assert user in Renters(s.rentals, s.rentals[user].nftId);
    }
    forall a, b | a in held && b in held && a != b
      ensures s.rentals[a].nftId != s.rentals[b].nftId
    {
      DistinctSlot(log, held[a]);
      if s.rentals[a].nftId == s.rentals[b].nftId {
        SubsetSize({a, b}, Renters(s.rentals, s.rentals[a].nftId));
      }
    }
    forall i | 0 <= i < |s.nfts| && s.nfts[i].isRented
      ensures exists user :: user in held && held[user] == i
    {
      DistinctSlot(log, i);
      var user :| user in Renters(s.rentals, s.nfts[i].id);
      assert user in held;
    }
  }
}
