/** How the pool and the mapping stay in step over every run, whatever ids are stored.

    Renting takes the first *free* slot of an id while ending releases the first slot of that id,
    *free or not*. An end that meets a free first slot therefore loses a copy: the slot that the
    caller took stays rented and nobody holds it. This module counts those losses. */
module Conservation {
  import opened Evm
  import opened Sequences
  import opened RentalBook
  import opened History
  import opened Slots
  import opened PoolMachine

  /** Rented copies of an id that no active rental accounts for. */
  function Leak(s: State, id: uint256): int {
    RentedCopies(s.nfts, id) - Active(s.rentals, id)
  }

  // ---------------------------------------------------------------------------------------------
  // One transaction, in any state

  lemma {:induction false} StoreCounts(s: State, id: uint256, k: uint256)
    ensures var nfts := s.nfts + [NFT(id, false)];
            && Copies(nfts, k) == Copies(s.nfts, k) + (if k == id then 1 else 0)
            && RentedCopies(nfts, k) == RentedCopies(s.nfts, k)
            && FirstRented(nfts, k) == FirstRented(s.nfts, k)
  {
    AddSlot(s.nfts, id, k);
  }

  lemma {:induction false} RentCounts(s: State, user: Address, now: uint256, id: uint256, k: uint256)
    requires TryRent(s, user, now, id).Ok?
    ensures var t := TryRent(s, user, now, id).value;
            && Ids(t.nfts) == Ids(s.nfts)
            && Copies(t.nfts, k) == Copies(s.nfts, k)
            && RentedCopies(t.nfts, k) == RentedCopies(s.nfts, k) + (if k == id then 1 else 0)
            && Active(t.rentals, k) == Active(s.rentals, k) + (if k == id then 1 else 0)
            && (FirstRented(t.nfts, k) <==> k == id || FirstRented(s.nfts, k))
  {
    BeginCounts(s.rentals, user, id, now, k);
    var i := FirstFree(s.nfts, id);
    SetFlag(s.nfts, i, true, k);
    if k == id {
      var j := FirstSlot(s.nfts, id);
      assert Ids(s.nfts)[i] == id;
      assert j <= i;
      assert j < i ==> s.nfts[j] != NFT(id, false);
    }
  }

  lemma {:induction false} EndCounts(s: State, user: Address, k: uint256)
    requires TryEnd(s, user).Ok?
    requires Lookup(s.rentals, user).nftId in Ids(s.nfts)
    ensures var id := Lookup(s.rentals, user).nftId;
            var t := TryEnd(s, user).value;
            && Ids(t.nfts) == Ids(s.nfts)
            && Copies(t.nfts, k) == Copies(s.nfts, k)
            && RentedCopies(s.nfts, k)
               == RentedCopies(t.nfts, k) + (if k == id && FirstRented(s.nfts, id) then 1 else 0)
            && Active(s.rentals, k) == Active(t.rentals, k) + (if k == id then 1 else 0)
            && (FirstRented(t.nfts, k) <==> k != id && FirstRented(s.nfts, k))
  {
    FinishCounts(s.rentals, user, k);
    var id := Lookup(s.rentals, user).nftId;
    SetFlag(s.nfts, FirstSlot(s.nfts, id), false, k);
  }

  // ---------------------------------------------------------------------------------------------
  // Whole runs

  /** The pool's ids are the stored ids, in order: slots are never removed, moved or renamed. */
  lemma {:induction false} PoolIsStoreLog(log: seq<Tx>)
    ensures Ids(After(log).nfts) == StoredIds(log)
  {
    if |log| > 0 {
      var front, tx := log[..|log| - 1], log[|log| - 1];
      PoolIsStoreLog(front);
      var s := After(front);
      if tx.call.Store? {
        AddSlot(s.nfts, tx.call.nftId, tx.call.nftId);
      } else {
        assert Ids(Next(s, tx).nfts) == Ids(s.nfts);
      }
    }
  }

  /** Continuing a run only appends to the pool's ids. */
  lemma {:induction false} PoolOnlyGrows(log: seq<Tx>, more: seq<Tx>)
    ensures Ids(After(log + more).nfts) == Ids(After(log).nfts) + StoredIds(more)
  {
    if |more| == 0 {
      assert log + more == log;
    } else {
      LastOfExtension(log, more);
      PoolOnlyGrows(log, more[..|more| - 1]);
      PoolIsStoreLog(log + more);
      PoolIsStoreLog(log + more[..|more| - 1]);
      OneMore(log + more[..|more| - 1], more[|more| - 1]);
    }
  }

  /** An active rental's id is always in the pool, so the scan of `endRental` always hits. */
  lemma {:induction false} ReleaseFindsItsSlot(log: seq<Tx>, user: Address)
    requires Lookup(After(log).rentals, user).active
    ensures Lookup(After(log).rentals, user).nftId in Ids(After(log).nfts)
  {
    var front, tx := log[..|log| - 1], log[|log| - 1];
    var s := After(front);
    if Lookup(s.rentals, user).active {
      ReleaseFindsItsSlot(front, user);
    }
    assert log == front + [tx];
    PoolOnlyGrows(front, [tx]);
    if !Lookup(s.rentals, user).active {
      assert Ids(s.nfts)[FirstFree(s.nfts, tx.call.nftId)] == tx.call.nftId;
    }
  }

  /** The state is the books of its own history: active renters are rents minus ends, rented
      slots are rents minus clean ends, the first slot of an id is rented exactly when the last
      deed on that id is a rent, and in that case somebody holds the id. */
  lemma {:induction false} BooksBalance(log: seq<Tx>, id: uint256)
    ensures var s, h := After(log), Deeds(log);
            && Rents(h, id) == Ends(h, id) + Active(s.rentals, id)
            && Rents(h, id) == CleanEnds(h, id) + RentedCopies(s.nfts, id)
            && (FirstRented(s.nfts, id) <==> RentedLast(h, id))
            && (FirstRented(s.nfts, id) ==> Active(s.rentals, id) > 0)
  {
    if |log| == 0 {
      assert Renters(INITIAL.rentals, id) == {};
    } else {
      var front, tx := log[..|log| - 1], log[|log| - 1];
      var s, h := After(front), Deeds(front);
      BooksBalance(front, id);
      if Try(s, tx).Revert? {
        assert Deeds(log) == h;
      } else {
        match tx.call {
          case Store(k) =>
            StoreCounts(s, k, id);
            assert Deeds(log) == h;
          case RentNft(k) =>
            RentCounts(s, tx.sender, tx.timestamp, k, id);
            OneMoreDeed(h, DeedsOf(s, tx)[0], id);
          case EndRental =>
            ReleaseFindsItsSlot(front, tx.sender);
            EndCounts(s, tx.sender, id);
            OneMoreDeed(h, DeedsOf(s, tx)[0], id);
        }
      }
    }
  }

  // ---------------------------------------------------------------------------------------------
  // The leak

  /** The leak of an id is the number of its leaky ends, so it can be read off the successful
      calls alone. It is never negative, and it always spares one copy of a stored id. */
  lemma {:induction false} LeakBound(log: seq<Tx>, id: uint256)
    ensures var s := After(log);
            && Leak(s, id) == LeakyEnds(Deeds(log), id)
            && 0 <= Leak(s, id)
            && (Copies(s.nfts, id) > 0 ==> Leak(s, id) <= Copies(s.nfts, id) - 1)
            && (Copies(s.nfts, id) == 0 ==> Leak(s, id) == 0)
  {
    var s := After(log);
    BooksBalance(log, id);
    EndsSplit(Deeds(log), id);
    StoredIffCopies(s.nfts, id);
    if !FirstRented(s.nfts, id) && Copies(s.nfts, id) > 0 {
      assert s.nfts[FirstSlot(s.nfts, id)] == NFT(id, false);
      assert NFT(id, false) in multiset(s.nfts);
    }
  }

  /** Is `tx` a successful end of `id` that finds the first slot of `id` already free? */
  predicate EndsOnFreeSlot(s: State, tx: Tx, id: uint256) {
    && tx.call.EndRental?
    && Try(s, tx).Ok?
    && Lookup(s.rentals, tx.sender).nftId == id
    && !FirstRented(s.nfts, id)
  }

  /** One more transaction raises the leak by one exactly when it ends a rental on a free first
      slot, and otherwise keeps it. */
  lemma {:induction false} LeakStep(log: seq<Tx>, tx: Tx, id: uint256)
    ensures Leak(After(log + [tx]), id)
         == Leak(After(log), id) + if EndsOnFreeSlot(After(log), tx, id) then 1 else 0
  {
    var s := After(log);
    OneMore(log, tx);
    if Try(s, tx).Ok? {
      match tx.call
      case Store(k) => StoreCounts(s, k, id);
      case RentNft(k) => RentCounts(s, tx.sender, tx.timestamp, k, id);
      case EndRental =>
        ReleaseFindsItsSlot(log, tx.sender);
        EndCounts(s, tx.sender, id);
    }
  }

  /** No continuation of a run ever wins a leaked copy back ... */
  lemma {:induction false} LeakNeverShrinks(log: seq<Tx>, more: seq<Tx>, id: uint256)
    ensures Leak(After(log), id) <= Leak(After(log + more), id)
  {
    if |more| == 0 {
      assert log + more == log;
    } else {
      LeakNeverShrinks(log, more[..|more| - 1], id);
      LastOfExtension(log, more);
      LeakStep(log + more[..|more| - 1], more[|more| - 1], id);
    }
  }

  /** ... so what has leaked is capacity lost for good: from then on at most the other copies,
      plus newly stored ones, can be held at the same time. */
  lemma {:induction false} LeakedCopiesAreLost(log: seq<Tx>, more: seq<Tx>, id: uint256)
    ensures Active(After(log + more).rentals, id) + Leak(After(log), id)
         <= Copies(After(log + more).nfts, id)
         == Copies(After(log).nfts, id) + multiset(StoredIds(more))[id]
  {
    LeakNeverShrinks(log, more, id);
    PoolOnlyGrows(log, more);
    CopiesCountIds(After(log).nfts, id);
    CopiesCountIds(After(log + more).nfts, id);
  }

  /** Are the rented slots and the active rentals of `s` still there in `t`? */
  ghost predicate Keeps(s: State, t: State) {
    && |s.nfts| <= |t.nfts|
    && (forall i :: 0 <= i < |s.nfts| && s.nfts[i].isRented ==> t.nfts[i] == s.nfts[i])
    && (forall user :: Lookup(s.rentals, user).active ==> Lookup(t.rentals, user) == Lookup(s.rentals, user))
  }

  lemma {:induction false} OnlyEndsRelease(s: State, tx: Tx)
    requires !tx.call.EndRental?
    ensures Keeps(s, Next(s, tx))
  {
    if tx.call.RentNft? && Try(s, tx).Ok? {
      assert !s.nfts[FirstFree(s.nfts, tx.call.nftId)].isRented;
    }
  }

  lemma {:induction false} KeepsIsTransitive(s: State, t: State, u: State)
    requires Keeps(s, t) && Keeps(t, u)
    ensures Keeps(s, u)
  {
    forall user | Lookup(s.rentals, user).active
      ensures Lookup(u.rentals, user) == Lookup(s.rentals, user)
    {
      assert Lookup(t.rentals, user) == Lookup(s.rentals, user);
    }
  }

  /** A slot is free only once somebody ends a rental. Expiry has no such effect: while nobody
      ends, every rented slot stays rented and every active rental stays as it is, so its owner
      is barred from renting again however much time passes. */
  lemma {:induction false} ExpiryReleasesNothing(log: seq<Tx>, more: seq<Tx>)
    requires forall tx :: tx in more ==> !tx.call.EndRental?
    ensures Keeps(After(log), After(log + more))
    ensures forall user, now, id :: Lookup(After(log).rentals, user).active ==>
              TryRent(After(log + more), user, now, id) == Revert(AlreadyRenting)
  {
    if |more| == 0 {
      assert log + more == log;
    } else {
      var front, tx := more[..|more| - 1], more[|more| - 1];
      ExpiryReleasesNothing(log, front);
      LastOfExtension(log, more);
      assert tx in more;
      OnlyEndsRelease(After(log + front), tx);
      KeepsIsTransitive(After(log), After(log + front), After(log + more));
    }
  }
}
