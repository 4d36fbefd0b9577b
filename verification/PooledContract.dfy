/** The pooled contract object, with the loops of `rent_contract_RL_attempt.sol`. Its ghost log
    holds every transaction it ever received, so whatever is proved about `After(log)` and
    `Deeds(log)` for all logs holds of the object after any sequence of calls. */
module PooledContract {
  import opened Evm
  import opened Sequences
  import opened RentalBook
  import opened History
  import opened Slots
  import opened PoolMachine
  import opened Access
  import opened RoundTrip

  lemma {:induction false} FirstFreeIs(nfts: seq<NFT>, id: uint256, i: nat)
    requires i < |nfts| && nfts[i] == NFT(id, false)
    requires forall j :: 0 <= j < i ==> nfts[j] != NFT(id, false)
    ensures FirstFree(nfts, id) == i
  {
  }

  lemma {:induction false} FirstSlotIs(nfts: seq<NFT>, id: uint256, i: nat)
    requires i < |nfts| && nfts[i].id == id
    requires forall j :: 0 <= j < i ==> nfts[j].id != id
    ensures FirstSlot(nfts, id) == i
  {
    assert Ids(nfts)[i] == id;
  }

  lemma {:induction false} RentableIffListed(s: State, user: Address, now: uint256, id: uint256)
    requires !Lookup(s.rentals, user).active
    ensures TryRent(s, user, now, id).Ok? <==> id in AvailableIds(s.nfts)
  {
    ListedIffRentable(s, user, now, id);
  }

  lemma {:induction false} ListingOfPrefix(nfts: seq<NFT>, i: nat)
    requires i < |nfts|
    ensures AvailableIds(nfts[..i + 1])
         == AvailableIds(nfts[..i]) + if nfts[i].isRented then [] else [nfts[i].id]
    ensures |AvailableIds(nfts[..i + 1])| <= |AvailableIds(nfts)|
  {
    assert nfts[..i + 1][..i] == nfts[..i];
    ListingConcat(nfts[..i + 1], nfts[i + 1..]);
    assert nfts == nfts[..i + 1] + nfts[i + 1..];
  }

  class NFTRentLight {
    var rentalDuration: uint256
    var availableNfts: seq<NFT>
    var rentals: Book
    ghost var log: seq<Tx>

    function Current(): State
      reads this
    {
      State(availableNfts, rentals, rentalDuration)
    }

    ghost predicate Valid()
      reads this
    {
      Current() == After(log)
    }

    constructor ()
      ensures Valid() && log == []
      ensures availableNfts == [] && rentals == map[] && rentalDuration == 300
    {
      rentalDuration := FIVE_MINUTES;
      availableNfts := [];
      rentals := map[];
      log := [];
    }

    /** Always succeeds; adds one free copy at the end and touches nothing else. */
    method Store(msgSender: Address, timestamp: uint256, nftId: uint256)
      requires Valid()
      modifies this
      ensures Valid() && log == old(log) + [Tx(msgSender, timestamp, Call.Store(nftId))]
      ensures availableNfts == old(availableNfts) + [NFT(nftId, false)]
      ensures rentals == old(rentals) && rentalDuration == old(rentalDuration)
      ensures AvailableIds(availableNfts) == AvailableIds(old(availableNfts)) + [nftId]
    {
      ghost var tx := Tx(msgSender, timestamp, Call.Store(nftId));
      OneMore(log, tx);
      ListingConcat(availableNfts, [NFT(nftId, false)]);
      log := log + [tx];
      availableNfts := availableNfts + [NFT(nftId, false)];
    }

    /** The ids of the free slots, in pool order: one pass counts them, one fills the array. */
    method GetAvailableNfts() returns (result: array<uint256>)
      ensures fresh(result)
      ensures result[..] == AvailableIds(availableNfts)
    {
      var count := 0;
      for i := 0 to |availableNfts|
        invariant count == |AvailableIds(availableNfts[..i])|
      {
        ListingOfPrefix(availableNfts, i);
        if !availableNfts[i].isRented {
          count := count + 1;
        }
      }
      assert availableNfts[..|availableNfts|] == availableNfts;
      result := new uint256[count];
      var idx := 0;
      for i := 0 to |availableNfts|
        invariant idx <= result.Length == |AvailableIds(availableNfts)|
        invariant result[..idx] == AvailableIds(availableNfts[..i])
      {
        ListingOfPrefix(availableNfts, i);
        if !availableNfts[i].isRented {
          result[idx] := availableNfts[i].id;
          idx := idx + 1;
          assert result[..idx] == result[..idx - 1] + [availableNfts[i].id];
        }
      }
    }

    /** Succeeds exactly for a caller who holds nothing and an id that is listed, and otherwise
        changes nothing and says which of the two is missing. */
    method RentNft(msgSender: Address, timestamp: uint256, nftId: uint256) returns (r: Outcome<()>)
      requires Valid()
      modifies this
      ensures Valid() && log == old(log) + [Tx(msgSender, timestamp, Call.RentNft(nftId))]
      ensures r.Ok? <==> !Lookup(old(rentals), msgSender).active && nftId in AvailableIds(old(availableNfts))
      ensures r.Ok? ==> Ok(Current()) == TryRent(old(Current()), msgSender, timestamp, nftId)
      ensures r.Revert? ==> Current() == old(Current())
      ensures r.Revert? ==>
                r.reason == if Lookup(old(rentals), msgSender).active then AlreadyRenting else NftNotAvailable
    {
      ghost var s := Current();
      OneMore(log, Tx(msgSender, timestamp, Call.RentNft(nftId)));
      log := log + [Tx(msgSender, timestamp, Call.RentNft(nftId))];
      if Lookup(rentals, msgSender).active {
        return Revert(AlreadyRenting);
      }
      RentableIffListed(s, msgSender, timestamp, nftId);
      var found := false;
      for i := 0 to |availableNfts|
        invariant !found && Current() == s && log == old(log) + [Tx(msgSender, timestamp, Call.RentNft(nftId))]
        invariant forall j :: 0 <= j < i ==> s.nfts[j] != NFT(nftId, false)
      {
        if availableNfts[i].id == nftId && !availableNfts[i].isRented {
          FirstFreeIs(s.nfts, nftId, i);
          availableNfts := availableNfts[i := availableNfts[i].(isRented := true)];
          found := true;
          break;
        }
      }
      if !found {
        assert FirstFree(s.nfts, nftId) == |s.nfts|;
        return Revert(NftNotAvailable);
      }
      rentals := rentals[msgSender := Rental(nftId, timestamp, true)];
      assert Ok(Current()) == TryRent(s, msgSender, timestamp, nftId);
      return Ok(());
    }

    /** Succeeds exactly for a caller with an active rental, expired or not. */
    method EndRental(msgSender: Address, timestamp: uint256) returns (r: Outcome<()>)
      requires Valid()
      modifies this
      ensures Valid() && log == old(log) + [Tx(msgSender, timestamp, Call.EndRental)]
      ensures r.Ok? <==> Lookup(old(rentals), msgSender).active
      ensures r.Ok? ==> Ok(Current()) == TryEnd(old(Current()), msgSender)
      ensures r.Revert? ==> Current() == old(Current()) && r.reason == NoActiveRental
    {
      ghost var s, tx := Current(), Tx(msgSender, timestamp, Call.EndRental);
      OneMore(log, tx);
      log := log + [tx];
      if !Lookup(rentals, msgSender).active {
        return Revert(NoActiveRental);
      }
      var rentedId := Lookup(rentals, msgSender).nftId;
      ghost var released := false;
      for i := 0 to |availableNfts|
        invariant availableNfts == s.nfts && rentals == s.rentals && rentalDuration == s.rentalDuration
        invariant !released && log == old(log) + [tx]
        invariant forall j :: 0 <= j < i ==> s.nfts[j].id != rentedId
      {
        if availableNfts[i].id == rentedId {
          FirstSlotIs(s.nfts, rentedId, i);
          availableNfts := availableNfts[i := availableNfts[i].(isRented := false)];
          released := true;
          break;
        }
      }
      if !released {
        assert rentedId !in Ids(s.nfts);
      }
      assert availableNfts == Release(s.nfts, rentedId);
      rentals := rentals[msgSender := Lookup(rentals, msgSender).(active := false)];
      return Ok(());
    }

    /** Answers from the caller's own successful calls, see `AccessBy`. */
    method CheckAccess(msgSender: Address, timestamp: uint256) returns (answer: Outcome<uint256>)
      requires Valid()
      ensures answer == AccessBy(Deeds(log), msgSender, timestamp)
    {
      AccessFollowsHistory(log, msgSender, timestamp);
      var r := Lookup(rentals, msgSender);
      if !r.active {
        return Ok(0);
      }
      if r.startTime + rentalDuration >= UINT256_LIMIT {
        return Revert(ArithmeticOverflow);
      }
      if timestamp > r.startTime + rentalDuration {
        return Ok(0);
      }
      return Ok(r.nftId);
    }

    method GetUserStartTime(msgSender: Address) returns (time: uint256)
      requires Valid()
      ensures time == LastRentTime(Deeds(log), msgSender)
    {
      AccessFollowsHistory(log, msgSender, 0);
      return Lookup(rentals, msgSender).startTime;
    }

    /** The same answer as `CheckAccess`, for every user at every time. */
    method GetUserNfts(msgSender: Address, timestamp: uint256) returns (answer: Outcome<uint256>)
      requires Valid()
      ensures answer == AccessBy(Deeds(log), msgSender, timestamp)
    {
      AccessFollowsHistory(log, msgSender, timestamp);
      var r := Lookup(rentals, msgSender);
      if r.active && r.startTime + rentalDuration >= UINT256_LIMIT {
        return Revert(ArithmeticOverflow);
      }
      if !r.active || timestamp > r.startTime + rentalDuration {
        return Ok(0);
      }
      return Ok(r.nftId);
    }
  }
}
