/** The listing of free slots against renting, and what a rent followed by its own end restores.
    All statements hold in every state, reachable or not. */
module RoundTrip {
  import opened Evm
  import opened Sequences
  import opened RentalBook
  import opened Slots
  import opened PoolMachine

  /** An id is listed exactly when a user who holds nothing can rent it ... */
  lemma {:induction false} ListedIffRentable(s: State, user: Address, now: uint256, id: uint256)
    requires !Lookup(s.rentals, user).active
    ensures id in AvailableIds(s.nfts) <==> TryRent(s, user, now, id).Ok?
  {
    ListingCountsFreeCopies(s.nfts, id);
    FreeIffFound(s.nfts, id);
    assert id in AvailableIds(s.nfts) <==> id in multiset(AvailableIds(s.nfts));
  }

  /** ... and the rent removes exactly one of its occurrences. */
  lemma {:induction false} RentUnlistsOne(s: State, user: Address, now: uint256, id: uint256)
    requires TryRent(s, user, now, id).Ok?
    ensures multiset(AvailableIds(TryRent(s, user, now, id).value.nfts))
         == multiset(AvailableIds(s.nfts)) - multiset{id}
  {
    MarkingUnlists(s.nfts, FirstFree(s.nfts, id));
  }

  lemma {:induction false} MarkingUnlists(nfts: seq<NFT>, i: nat)
    requires i < |nfts| && !nfts[i].isRented
    ensures multiset(AvailableIds(nfts[i := NFT(nfts[i].id, true)]))
         == multiset(AvailableIds(nfts)) - multiset{nfts[i].id}
  {
    var id, after := nfts[i].id, nfts[i := NFT(nfts[i].id, true)];
    var p, q := AvailableIds(nfts[..i]), AvailableIds(nfts[i + 1..]);
    assert AvailableIds(nfts) == p + [id] + q by {
      ListingSplit(nfts, i);
    }
    assert AvailableIds(after) == p + [] + q by {
      ListingSplit(after, i);
      assert after[..i] == nfts[..i] && after[i + 1..] == nfts[i + 1..];
    }
    RemoveOne(p, id, q);
  }

  lemma {:induction false} RemoveOne(a: seq<uint256>, id: uint256, b: seq<uint256>)
    ensures multiset(a + [] + b) == multiset(a + [id] + b) - multiset{id}
  {
    assert a + [] + b == a + b;
    assert multiset(a + [id] + b) == multiset(a) + multiset{id} + multiset(b);
  }

  /** What slot `i` contributes to the listing. */
  lemma {:induction false} ListingSplit(nfts: seq<NFT>, i: nat)
    requires i < |nfts|
    ensures AvailableIds(nfts)
         == AvailableIds(nfts[..i]) + (if nfts[i].isRented then [] else [nfts[i].id]) + AvailableIds(nfts[i + 1..])
  {
    var p := nfts[..i + 1];
    assert nfts == p + nfts[i + 1..];
    assert p[..i] == nfts[..i];
    ListingConcat(p, nfts[i + 1..]);
  }

  lemma {:induction false} ListsNoOther(m: seq<NFT>, id: uint256)
    requires NFT(id, false) !in m
    ensures id !in AvailableIds(m)
    ensures AvailableIds(m) == [] <==> forall k :: 0 <= k < |m| ==> m[k].isRented
  {
    if |m| > 0 {
      ListsNoOther(m[..|m| - 1], id);
    }
  }

  lemma {:induction false} MiddleMoves(a: seq<uint256>, m: seq<uint256>, b: seq<uint256>, id: uint256)
    requires id !in m
    ensures multiset(a + (m + [id]) + b) == multiset(a + ([id] + m) + b)
    ensures a + (m + [id]) + b == a + ([id] + m) + b <==> m == []
  {
    var l, r := a + (m + [id]) + b, a + ([id] + m) + b;
    if m != [] {
      assert l[|a|] == m[0] && r[|a|] == id;
    }
  }

  /** The pool after a rent of `id` and the same caller's end: the slot taken stays rented, and
      the first slot of the id is free. They are the same slot if that one was free before. */
  lemma {:induction false} PoolAfterRoundTrip(s: State, user: Address, now: uint256, id: uint256)
    requires TryRent(s, user, now, id).Ok?
    ensures var i, j := FirstFree(s.nfts, id), FirstSlot(s.nfts, id);
            var r := TryEnd(TryRent(s, user, now, id).value, user);
            && j <= i < |s.nfts|
            && (j == i <==> !s.nfts[j].isRented)
            && r.Ok?
            && r.value.rentals == Finish(Begin(s.rentals, user, id, now), user)
            && r.value.nfts == if j == i then s.nfts else s.nfts[i := NFT(id, true)][j := NFT(id, false)]
  {
    var i, j := FirstFree(s.nfts, id), FirstSlot(s.nfts, id);
    assert Ids(s.nfts)[i] == id;
    SetFlag(s.nfts, i, true, id);
    assert s.nfts[j].id == id;
    assert j < i ==> s.nfts[j] != NFT(id, false);
    if i == j {
      assert s.nfts[i := NFT(id, true)][i := NFT(id, false)] == s.nfts;
    }
  }

  /** The state after a rent that is at once followed by the same caller's end. */
  function RentedAndEnded(s: State, user: Address, now: uint256, id: uint256): State
    requires TryRent(s, user, now, id).Ok?
  {
    TryEnd(TryRent(s, user, now, id).value, user).value
  }

  /** Renting and at once ending restores the listing as a multiset, always, and its order exactly
      when no free slot lies between the first slot of the id and the slot taken. */
  lemma {:induction false} RentThenEndListing(s: State, user: Address, now: uint256, id: uint256)
    requires TryRent(s, user, now, id).Ok?
    ensures var before, after := AvailableIds(s.nfts), AvailableIds(RentedAndEnded(s, user, now, id).nfts);
            && multiset(after) == multiset(before)
            && (after == before <==>
                  forall k :: FirstSlot(s.nfts, id) < k < FirstFree(s.nfts, id) ==> s.nfts[k].isRented)
  {
    PoolAfterRoundTrip(s, user, now, id);
    var i, j := FirstFree(s.nfts, id), FirstSlot(s.nfts, id);
    if j < i {
      SwappedListing(s.nfts, j, i, id);
    }
  }

  /** It restores the pool itself exactly when the first slot of the id was free. */
  lemma {:induction false} RentThenEndPool(s: State, user: Address, now: uint256, id: uint256)
    requires TryRent(s, user, now, id).Ok?
    ensures RentedAndEnded(s, user, now, id).nfts == s.nfts <==> !FirstRented(s.nfts, id)
  {
    PoolAfterRoundTrip(s, user, now, id);
    var i, j := FirstFree(s.nfts, id), FirstSlot(s.nfts, id);
    if j < i {
      SwappedListing(s.nfts, j, i, id);
    }
  }

  /** It keeps every other user's record, and leaves the caller with an inactive record of the rent. */
  lemma {:induction false} RentThenEndRecords(s: State, user: Address, now: uint256, id: uint256)
    requires TryRent(s, user, now, id).Ok?
    ensures forall other :: Lookup(RentedAndEnded(s, user, now, id).rentals, other)
              == if other == user then Rental(id, now, false) else Lookup(s.rentals, other)
  {
    PoolAfterRoundTrip(s, user, now, id);
  }

  lemma {:induction false} Regroup(a: seq<uint256>, m: seq<uint256>, b: seq<uint256>, x: uint256)
    ensures (a + [] + m) + [x] + b == a + (m + [x]) + b
    ensures (a + [x] + m) + [] + b == a + ([x] + m) + b
  {
  }

  lemma {:induction false} TwoSplits(nfts: seq<NFT>, j: nat, i: nat, id: uint256, first: bool)
    requires j < i < |nfts| && nfts[j] == NFT(id, first) && nfts[i] == NFT(id, !first)
    ensures var a, m, b := AvailableIds(nfts[..j]), AvailableIds(nfts[j + 1..i]), AvailableIds(nfts[i + 1..]);
            AvailableIds(nfts) == a + (if first then m + [id] else [id] + m) + b
  {
    ListingSplit(nfts, i);
    ListingSplit(nfts[..i], j);
    assert nfts[..i][..j] == nfts[..j] && nfts[..i][j + 1..] == nfts[j + 1..i];
    Regroup(AvailableIds(nfts[..j]), AvailableIds(nfts[j + 1..i]), AvailableIds(nfts[i + 1..]), id);
  }

  lemma {:induction false} SwappedSplit(nfts: seq<NFT>, j: nat, i: nat, id: uint256)
    requires j < i < |nfts| && nfts[j] == NFT(id, true) && nfts[i] == NFT(id, false)
    ensures var a, m, b := AvailableIds(nfts[..j]), AvailableIds(nfts[j + 1..i]), AvailableIds(nfts[i + 1..]);
            AvailableIds(nfts[i := NFT(id, true)][j := NFT(id, false)]) == a + ([id] + m) + b
  {
    var after := nfts[i := NFT(id, true)][j := NFT(id, false)];
    TwoSplits(after, j, i, id, false);
    assert after[..j] == nfts[..j];
    assert after[j + 1..i] == nfts[j + 1..i];
    assert after[i + 1..] == nfts[i + 1..];
  }

  lemma {:induction false} NoneFreeBetween(nfts: seq<NFT>, lo: nat, hi: nat, id: uint256)
    requires lo <= hi <= |nfts|
    requires forall k :: lo <= k < hi ==> nfts[k] != NFT(id, false)
    ensures id !in AvailableIds(nfts[lo..hi])
    ensures AvailableIds(nfts[lo..hi]) == [] <==> forall k :: lo <= k < hi ==> nfts[k].isRented
  {
    var m := nfts[lo..hi];
    assert forall k :: lo <= k < hi ==> m[k - lo] == nfts[k];
    ListsNoOther(m, id);
  }

  lemma {:induction false} SwappedListing(nfts: seq<NFT>, j: nat, i: nat, id: uint256)
    requires j < i < |nfts| && nfts[j] == NFT(id, true) && nfts[i] == NFT(id, false)
    requires forall k :: 0 <= k < i ==> nfts[k] != NFT(id, false)
    ensures var after := nfts[i := NFT(id, true)][j := NFT(id, false)];
            && after != nfts
            && multiset(AvailableIds(after)) == multiset(AvailableIds(nfts))
            && (AvailableIds(after) == AvailableIds(nfts) <==> forall k :: j < k < i ==> nfts[k].isRented)
  {
    assert nfts[i := NFT(id, true)][j := NFT(id, false)][j] != nfts[j];
    TwoSplits(nfts, j, i, id, true);
    SwappedSplit(nfts, j, i, id);
    NoneFreeBetween(nfts, j + 1, i, id);
    MiddleMoves(AvailableIds(nfts[..j]), AvailableIds(nfts[j + 1..i]), AvailableIds(nfts[i + 1..]), id);
  }
}
