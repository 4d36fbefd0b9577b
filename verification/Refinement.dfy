/** The pooled contract against the simple one, in both directions: what a pooled run looks like
    to the simple contract, and which simple runs a stocked pool can follow. */
module Refinement {
  import opened Evm
  import opened Sequences
  import opened RentalBook
  import opened History
  import opened Slots
  import opened Conservation
  import opened Inventory
  import S = RentContract
  import P = PoolMachine

  // ---------------------------------------------------------------------------------------------
  // Every pooled run is a run of the simple contract

  function Lower(tx: P.Tx): S.Tx
    requires !tx.call.Store?
  {
    S.Tx(tx.sender, tx.timestamp, if tx.call.RentNft? then S.RentGame(tx.call.nftId) else S.EndRental)
  }

  /** Everything but a store and a rent that finds no free copy has a counterpart. */
  predicate Visible(s: P.State, tx: P.Tx) {
    !tx.call.Store? && P.Try(s, tx) != Revert(NftNotAvailable)
  }

  function Project(log: seq<P.Tx>): seq<S.Tx> {
    if |log| == 0 then []
    else
      var front, tx := log[..|log| - 1], log[|log| - 1];
      Project(front) + if Visible(P.After(front), tx) then [Lower(tx)] else []
  }

  /** A visible transaction has the outcome that the simple contract gives it, reason for a
      revert included, and leaves the same mapping; any other leaves the mapping alone. */
  lemma {:induction false} StepIsSimulated(s: P.State, tx: P.Tx)
    ensures if Visible(s, tx)
            then var r := P.Try(s, tx);
                 && S.Try(s.rentals, Lower(tx)) == (if r.Ok? then Ok(r.value.rentals) else Revert(r.reason))
                 && S.DeedsOf(s.rentals, Lower(tx)) == P.DeedsOf(s, tx)
            else P.Next(s, tx).rentals == s.rentals && P.DeedsOf(s, tx) == []
  {
  }

  lemma {:induction false} PooledRunIsSimpleRun(log: seq<P.Tx>)
    ensures S.After(Project(log)) == P.After(log).rentals
    ensures S.Deeds(Project(log)) == P.Deeds(log)
  {
    if |log| > 0 {
      var front, tx := log[..|log| - 1], log[|log| - 1];
      PooledRunIsSimpleRun(front);
      StepIsSimulated(P.After(front), tx);
      if Visible(P.After(front), tx) {
        S.OneMore(Project(front), Lower(tx));
        assert Project(log) == Project(front) + [Lower(tx)];
      } else {
        assert Project(log) == Project(front);
        assert P.Deeds(log) == P.Deeds(front);
      }
    }
  }

  // ---------------------------------------------------------------------------------------------
  // A stocked pool follows a simple run as long as the stock meets its demand

  function Lift(tx: S.Tx): P.Tx {
    P.Tx(tx.sender, tx.timestamp, if tx.call.RentGame? then P.RentNft(tx.call.gameId) else P.EndRental)
  }

  function LiftAll(log: seq<S.Tx>): seq<P.Tx> {
    if |log| == 0 then [] else LiftAll(log[..|log| - 1]) + [Lift(log[|log| - 1])]
  }

  /** The pool, stocked first, has the simple contract's mapping after every prefix of the run. */
  ghost predicate Follows(stock: seq<P.Tx>, log: seq<S.Tx>) {
    forall k :: 0 <= k <= |log| ==> P.After(stock + LiftAll(log[..k])).rentals == S.After(log[..k])
  }

  /** How many copies of `id` a pool must have set aside after these deeds: a rent takes one, and
      an end gives it back only if the deed before it on the same id is a rent. */
  function Demand(h: seq<Deed>, id: uint256): int {
    Rents(h, id) - CleanEnds(h, id)
  }

  ghost predicate MeetsDemand(stock: seq<P.Tx>, log: seq<S.Tx>) {
    forall k, id :: 0 <= k <= |log| ==>
      Demand(S.Deeds(log[..k]), id) <= multiset(P.StoredIds(stock))[id]
  }

  lemma {:induction false} FollowsPrefix(stock: seq<P.Tx>, log: seq<S.Tx>, n: nat)
    requires n <= |log|
    ensures Follows(stock, log) ==> Follows(stock, log[..n])
    ensures MeetsDemand(stock, log) ==> MeetsDemand(stock, log[..n])
  {
    assert forall k :: 0 <= k <= n ==> log[..n][..k] == log[..k];
  }

  lemma {:induction false} LiftedStoresNothing(log: seq<S.Tx>)
    ensures NoStores(LiftAll(log))
  {
    if |log| > 0 {
      LiftedStoresNothing(log[..|log| - 1]);
    }
  }

  lemma {:induction false} OneMoreLifted(stock: seq<P.Tx>, log: seq<S.Tx>)
    requires |log| > 0
    ensures var before := stock + LiftAll(log[..|log| - 1]);
            && stock + LiftAll(log) == before + [Lift(log[|log| - 1])]
            && P.After(stock + LiftAll(log)) == P.Next(P.After(before), Lift(log[|log| - 1]))
            && P.Deeds(stock + LiftAll(log))
               == P.Deeds(before) + P.DeedsOf(P.After(before), Lift(log[|log| - 1]))
  {
    var before := stock + LiftAll(log[..|log| - 1]);
    assert stock + LiftAll(log) == before + [Lift(log[|log| - 1])];
    P.OneMore(before, Lift(log[|log| - 1]));
  }

  /** Equal mappings before and after a transaction mean that it did the same in both contracts. */
  lemma {:induction false} SameMappingSameDeeds(s: P.State, tx: S.Tx)
    requires P.Next(s, Lift(tx)).rentals == S.Next(s.rentals, tx)
    ensures P.DeedsOf(s, Lift(tx)) == S.DeedsOf(s.rentals, tx)
  {
    StepIsSimulated(s, Lift(tx));
    assert Lookup(P.Next(s, Lift(tx)).rentals, tx.sender) == Lookup(S.Next(s.rentals, tx), tx.sender);
    if Visible(s, Lift(tx)) {
      assert Lower(Lift(tx)) == tx;
    }
  }

  lemma {:induction false} FollowingHasSameDeeds(stock: seq<P.Tx>, log: seq<S.Tx>)
    requires OnlyStores(stock) && Follows(stock, log)
    ensures P.Deeds(stock + LiftAll(log)) == S.Deeds(log)
  {
    if |log| == 0 {
      assert stock + LiftAll(log) == stock;
      FreshStock(stock, 0);
    } else {
      var front, tx := log[..|log| - 1], log[|log| - 1];
      assert log[..|log|] == log && log[..|front|][..|front|] == front;
      FollowsPrefix(stock, log, |front|);
      FollowingHasSameDeeds(stock, front);
      OneMoreLifted(stock, log);
      SameMappingSameDeeds(P.After(stock + LiftAll(front)), tx);
    }
  }

  /** In a pool that has followed the run so far, an id's rented copies are its demand. */
  lemma {:induction false} FollowingBooks(stock: seq<P.Tx>, log: seq<S.Tx>, id: uint256)
    requires OnlyStores(stock) && Follows(stock, log)
    ensures var nfts := P.After(stock + LiftAll(log)).nfts;
            && RentedCopies(nfts, id) == Demand(S.Deeds(log), id)
            && Copies(nfts, id) == multiset(P.StoredIds(stock))[id]
  {
    FollowingHasSameDeeds(stock, log);
    BooksBalance(stock + LiftAll(log), id);
    PoolIsStoreLog(stock);
    PoolOnlyGrows(stock, LiftAll(log));
    LiftedStoresNothing(log);
    NothingStored(LiftAll(log));
    CopiesCountIds(P.After(stock + LiftAll(log)).nfts, id);
  }

  lemma {:induction false} FollowingNeedsDemand(stock: seq<P.Tx>, log: seq<S.Tx>)
    requires OnlyStores(stock) && Follows(stock, log)
    ensures MeetsDemand(stock, log)
  {
    forall k, id | 0 <= k <= |log|
      ensures Demand(S.Deeds(log[..k]), id) <= multiset(P.StoredIds(stock))[id]
    {
      FollowsPrefix(stock, log, k);
      FollowingBooks(stock, log[..k], id);
    }
  }

  /** A pool that has followed the run so far and meets its demand after one more rent has a
      free copy for that rent. */
  lemma {:induction false} FreeCopyForRent(stock: seq<P.Tx>, front: seq<S.Tx>, tx: S.Tx)
    requires OnlyStores(stock) && Follows(stock, front)
    requires tx.call.RentGame? && S.Try(S.After(front), tx).Ok?
    requires Demand(S.Deeds(front + [tx]), tx.call.gameId) <= multiset(P.StoredIds(stock))[tx.call.gameId]
    ensures FirstFree(P.After(stock + LiftAll(front)).nfts, tx.call.gameId)
          < |P.After(stock + LiftAll(front)).nfts|
  {
    var id := tx.call.gameId;
    S.OneMore(front, tx);
    OneMoreDeed(S.Deeds(front), DidRent(tx.sender, id, tx.timestamp), id);
    FollowingBooks(stock, front, id);
    FreeIffFound(P.After(stock + LiftAll(front)).nfts, id);
  }

  lemma {:induction false} LiftedStep(s: P.State, tx: S.Tx)
    requires tx.call.RentGame? && S.Try(s.rentals, tx).Ok? ==> FirstFree(s.nfts, tx.call.gameId) < |s.nfts|
    ensures P.Next(s, Lift(tx)).rentals == S.Next(s.rentals, tx)
  {
    StepIsSimulated(s, Lift(tx));
    assert Lower(Lift(tx)) == tx;
  }

  lemma {:induction false} NextFollows(stock: seq<P.Tx>, front: seq<S.Tx>, tx: S.Tx)
    requires OnlyStores(stock) && Follows(stock, front)
    requires tx.call.RentGame? ==>
               Demand(S.Deeds(front + [tx]), tx.call.gameId) <= multiset(P.StoredIds(stock))[tx.call.gameId]
    ensures P.Next(P.After(stock + LiftAll(front)), Lift(tx)).rentals == S.Next(S.After(front), tx)
  {
    assert front[..|front|] == front;
    if tx.call.RentGame? && S.Try(S.After(front), tx).Ok? {
      FreeCopyForRent(stock, front, tx);
    }
    LiftedStep(P.After(stock + LiftAll(front)), tx);
  }

  lemma {:induction false} FollowsOneMore(stock: seq<P.Tx>, log: seq<S.Tx>)
    requires |log| > 0
    requires var front, tx := log[..|log| - 1], log[|log| - 1];
             && Follows(stock, front)
             && P.Next(P.After(stock + LiftAll(front)), Lift(tx)).rentals == S.Next(S.After(front), tx)
    ensures Follows(stock, log)
  {
    OneMoreLifted(stock, log);
    forall k | 0 <= k <= |log|
      ensures P.After(stock + LiftAll(log[..k])).rentals == S.After(log[..k])
    {
      if k < |log| {
        assert log[..k] == log[..|log| - 1][..k];
      } else {
        assert log[..k] == log;
      }
    }
  }

  lemma {:induction false} DemandSuffices(stock: seq<P.Tx>, log: seq<S.Tx>)
    requires OnlyStores(stock) && MeetsDemand(stock, log)
    ensures Follows(stock, log)
  {
    if |log| == 0 {
      assert stock + LiftAll(log) == stock;
      FreshStock(stock, 0);
    } else {
      var front, tx := log[..|log| - 1], log[|log| - 1];
      assert log == front + [tx] && log[..|log|] == log;
      FollowsPrefix(stock, log, |front|);
      DemandSuffices(stock, front);
      NextFollows(stock, front, tx);
      FollowsOneMore(stock, log);
    }
  }

  /** A pool stocked beforehand follows a run of the simple contract, mapping by mapping, if and
      only if the stock covers the run's demand for every id at every point. */
  lemma {:induction false} FollowsIffDemandMet(stock: seq<P.Tx>, log: seq<S.Tx>)
    requires OnlyStores(stock)
    ensures Follows(stock, log) <==> MeetsDemand(stock, log)
  {
    if Follows(stock, log) {
      FollowingNeedsDemand(stock, log);
    }
    if MeetsDemand(stock, log) {
      DemandSuffices(stock, log);
    }
  }

  lemma {:induction false} RentsOnlyGrow(log: seq<S.Tx>, k: nat, id: uint256)
    requires k <= |log|
    ensures Rents(S.Deeds(log[..k]), id) <= Rents(S.Deeds(log), id)
  {
    if k == |log| {
      assert log[..k] == log;
    } else {
      var front, tx := log[..|log| - 1], log[|log| - 1];
      assert front[..k] == log[..k];
      RentsOnlyGrow(front, k, id);
      var more := S.DeedsOf(S.After(front), tx);
      if more == [] {
        assert S.Deeds(log) == S.Deeds(front);
      } else {
        OneMoreDeed(S.Deeds(front), more[0], id);
      }
    }
  }

  /** In particular one stored copy per successful rent of the run is always enough. */
  lemma {:induction false} OneCopyPerRentSuffices(stock: seq<P.Tx>, log: seq<S.Tx>)
    requires OnlyStores(stock)
    requires forall id :: Rents(S.Deeds(log), id) <= multiset(P.StoredIds(stock))[id]
    ensures Follows(stock, log)
  {
    forall k, id | 0 <= k <= |log|
      ensures Demand(S.Deeds(log[..k]), id) <= multiset(P.StoredIds(stock))[id]
    {
      RentsOnlyGrow(log, k, id);
    }
    DemandSuffices(stock, log);
  }
}
