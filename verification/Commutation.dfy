/** When the order of two transactions matters. All statements hold in every state, reachable or not. */
module Commutation {
  import opened Evm
  import opened Sequences
  import opened RentalBook
  import opened Slots
  import opened PoolMachine

  /** Does `x` rent the id that `y` gives back? */
  predicate RentsWhatEnds(s: State, x: Tx, y: Tx) {
    x.call.RentNft? && y.call.EndRental? && x.call.nftId == Lookup(s.rentals, y.sender).nftId
  }

  predicate Commute(s: State, x: Tx, y: Tx) {
    && Try(s, y).Ok?
    && Try(Next(s, y), x).Ok?
    && Next(Next(s, y), x) == Next(Next(s, x), y)
  }

  /** Changing a flag elsewhere does not move the first free slot of another id. */
  lemma {:induction false} FirstFreeUnmoved(nfts: seq<NFT>, i: nat, flag: bool, id: uint256)
    requires i < |nfts| && nfts[i].id != id
    ensures FirstFree(nfts[i := NFT(nfts[i].id, flag)], id) == FirstFree(nfts, id)
  {
    var after := nfts[i := NFT(nfts[i].id, flag)];
    var a, b := FirstFree(nfts, id), FirstFree(after, id);
    assert forall j :: 0 <= j < |nfts| ==> (nfts[j] == NFT(id, false) <==> after[j] == NFT(id, false));
  }

  lemma {:induction false} FirstSlotUnmoved(nfts: seq<NFT>, i: nat, flag: bool, id: uint256)
    requires i < |nfts|
    ensures FirstSlot(nfts[i := NFT(nfts[i].id, flag)], id) == FirstSlot(nfts, id)
  {
    SetFlag(nfts, i, flag, id);
  }

  lemma {:induction false} RentsCommute(s: State, x: Tx, y: Tx)
    requires x.sender != y.sender && x.call.RentNft? && y.call.RentNft?
    requires Try(s, x).Ok? && Try(Next(s, x), y).Ok?
    ensures Commute(s, x, y)
  {
    var p, q := x.call.nftId, y.call.nftId;
    if p != q {
      FirstFreeUnmoved(s.nfts, FirstFree(s.nfts, p), true, q);
      FirstFreeUnmoved(s.nfts, FirstFree(s.nfts, q), true, p);
    }
    BeginsCommute(s.rentals, x, y);
  }

  lemma {:induction false} BeginsCommute(book: Book, x: Tx, y: Tx)
    requires x.sender != y.sender && x.call.RentNft? && y.call.RentNft?
    ensures Begin(Begin(book, x.sender, x.call.nftId, x.timestamp), y.sender, y.call.nftId, y.timestamp)
         == Begin(Begin(book, y.sender, y.call.nftId, y.timestamp), x.sender, x.call.nftId, x.timestamp)
  {
  }

  lemma {:induction false} ReleasesCommute(nfts: seq<NFT>, p: uint256, q: uint256)
    ensures Release(Release(nfts, p), q) == Release(Release(nfts, q), p)
  {
    var i, j := FirstSlot(nfts, p), FirstSlot(nfts, q);
    if i < |nfts| {
      FirstSlotUnmoved(nfts, i, false, q);
    }
    if j < |nfts| {
      FirstSlotUnmoved(nfts, j, false, p);
    }
  }

  lemma {:induction false} EndsCommute(s: State, x: Tx, y: Tx)
    requires x.sender != y.sender && x.call.EndRental? && y.call.EndRental?
    requires Try(s, x).Ok? && Try(Next(s, x), y).Ok?
    ensures Commute(s, x, y)
  {
    ReleasesCommute(s.nfts, Lookup(s.rentals, x.sender).nftId, Lookup(s.rentals, y.sender).nftId);
    assert Finish(Finish(s.rentals, x.sender), y.sender) == Finish(Finish(s.rentals, y.sender), x.sender);
  }

  lemma {:induction false} RentAndEndCommute(s: State, rent: Tx, end: Tx)
    requires rent.sender != end.sender && rent.call.RentNft? && end.call.EndRental?
    requires !RentsWhatEnds(s, rent, end)
    requires Try(s, rent).Ok? || Try(Next(s, end), rent).Ok?
    requires Try(s, end).Ok?
    ensures Try(s, rent).Ok? && Commute(s, rent, end) && Commute(s, end, rent)
  {
    var p, q := rent.call.nftId, Lookup(s.rentals, end.sender).nftId;
    var i, j := FirstFree(s.nfts, p), FirstSlot(s.nfts, q);
    if j < |s.nfts| {
      FirstFreeUnmoved(s.nfts, j, false, p);
    }
    assert i < |s.nfts|;
    FirstSlotUnmoved(s.nfts, i, true, q);
    assert Finish(Begin(s.rentals, rent.sender, p, rent.timestamp), end.sender)
        == Begin(Finish(s.rentals, end.sender), rent.sender, p, rent.timestamp);
  }

  /** Renting and giving back the same id never commutes: the rent takes the first slot if and
      only if it comes second. */
  lemma {:induction false} RentAndEndOfOneIdClash(s: State, rent: Tx, end: Tx)
    requires rent.sender != end.sender && RentsWhatEnds(s, rent, end)
    requires Try(s, rent).Ok? && Try(s, end).Ok? && Try(Next(s, end), rent).Ok?
    ensures Next(Next(s, rent), end) != Next(Next(s, end), rent)
  {
    var id := rent.call.nftId;
    var i, j := FirstFree(s.nfts, id), FirstSlot(s.nfts, id);
    assert Ids(s.nfts)[i] == id;
    FirstSlotUnmoved(s.nfts, i, true, id);
    assert !Next(Next(s, rent), end).nfts[j].isRented;
    var freed := Next(s, end).nfts;
    assert freed[j] == NFT(id, false);
    assert forall k :: 0 <= k < j ==> Ids(s.nfts)[k] != id && freed[k] != NFT(id, false);
    assert Next(Next(s, end), rent).nfts[j].isRented;
  }

  /** Two successful calls by different users, each a rent or an end, can be swapped with the
      identical result if and only if it is not the case that one rents the id the other ends. */
  lemma {:induction false} CommuteIff(s: State, x: Tx, y: Tx)
    requires x.sender != y.sender && !x.call.Store? && !y.call.Store?
    requires Try(s, x).Ok? && Try(Next(s, x), y).Ok?
    ensures Commute(s, x, y) <==> !RentsWhatEnds(s, x, y) && !RentsWhatEnds(s, y, x)
  {
    assert Lookup(Next(s, x).rentals, y.sender) == Lookup(s.rentals, y.sender);
    if x.call.RentNft? && y.call.RentNft? {
      RentsCommute(s, x, y);
    } else if x.call.EndRental? && y.call.EndRental? {
      EndsCommute(s, x, y);
    } else {
      var rent, end := if x.call.RentNft? then x else y, if x.call.RentNft? then y else x;
      if !RentsWhatEnds(s, rent, end) {
        RentAndEndCommute(s, rent, end);
      } else if Commute(s, x, y) {
        RentAndEndOfOneIdClash(s, rent, end);
      }
    }
  }

  lemma {:induction false} StoreBeforeRent(s: State, id: uint256, user: Address, now: uint256, k: uint256)
    ensures var t := s.(nfts := s.nfts + [NFT(id, false)]);
            var r, r' := TryRent(s, user, now, k), TryRent(t, user, now, k);
            if r.Ok? then r'.Ok? && r'.value == r.value.(nfts := r.value.nfts + [NFT(id, false)])
            else r'.Ok? <==> r == Revert(NftNotAvailable) && k == id
  {
    IndexOfAppend(s.nfts, NFT(id, false), NFT(k, false));
  }

  lemma {:induction false} StoreBeforeEnd(s: State, id: uint256, user: Address)
    ensures var t := s.(nfts := s.nfts + [NFT(id, false)]);
            var r, r' := TryEnd(s, user), TryEnd(t, user);
            if r.Ok? then r'.Ok? && r'.value == r.value.(nfts := r.value.nfts + [NFT(id, false)])
            else r'.Revert?
  {
    var q := Lookup(s.rentals, user).nftId;
    assert Ids(s.nfts + [NFT(id, false)]) == Ids(s.nfts) + [id];
    IndexOfAppend(Ids(s.nfts), id, q);
  }

  /** A store can be moved in front of any rent or end that succeeds without it, with the
      identical result; the only call that it lets succeed is a rent of the stored id. */
  lemma {:induction false} StoreCommutes(s: State, store: Tx, y: Tx)
    requires store.call.Store? && !y.call.Store?
    ensures Try(s, y).Ok? ==>
              Try(Next(s, store), y).Ok? && Next(Next(s, store), y) == Next(Next(s, y), store)
    ensures Try(s, y).Revert? ==>
              (Try(Next(s, store), y).Ok? <==>
                 Try(s, y) == Revert(NftNotAvailable) && y.call.nftId == store.call.nftId)
  {
    if y.call.RentNft? {
      StoreBeforeRent(s, store.call.nftId, y.sender, y.timestamp, y.call.nftId);
    } else {
      StoreBeforeEnd(s, store.call.nftId, y.sender);
    }
  }
}
