/** The `availableNfts` array: slots holding an id and a rented flag. Ids need not be unique. */
module Slots {
  import opened Evm
  import opened Sequences

  datatype NFT = NFT(id: uint256, isRented: bool)

  function Ids(nfts: seq<NFT>): (ids: seq<uint256>)
    ensures |ids| == |nfts|
    ensures forall i :: 0 <= i < |nfts| ==> ids[i] == nfts[i].id
  {
    seq(|nfts|, i requires 0 <= i < |nfts| => nfts[i].id)
  }

  function FreeCopies(nfts: seq<NFT>, id: uint256): nat {
    multiset(nfts)[NFT(id, false)]
  }

  function RentedCopies(nfts: seq<NFT>, id: uint256): nat {
    multiset(nfts)[NFT(id, true)]
  }

  function Copies(nfts: seq<NFT>, id: uint256): nat {
    FreeCopies(nfts, id) + RentedCopies(nfts, id)
  }

  /** Where `rentNft` stops: the first slot that holds `id` and is free. */
  function FirstFree(nfts: seq<NFT>, id: uint256): nat {
    IndexOf(nfts, NFT(id, false))
  }

  /** Where `endRental` stops: the first slot that holds `id`, free or not. */
  function FirstSlot(nfts: seq<NFT>, id: uint256): nat {
    IndexOf(Ids(nfts), id)
  }

  /** The pool after the release loop of `endRental`. */
  function Release(nfts: seq<NFT>, id: uint256): seq<NFT> {
    var i := FirstSlot(nfts, id);
    if i < |nfts| then nfts[i := NFT(id, false)] else nfts
  }

  predicate FirstRented(nfts: seq<NFT>, id: uint256) {
    var i := FirstSlot(nfts, id);
    i < |nfts| && nfts[i].isRented
  }

  lemma {:induction false} CopiesCountIds(nfts: seq<NFT>, id: uint256)
    ensures Copies(nfts, id) == multiset(Ids(nfts))[id]
  {
    if |nfts| == 0 {
      assert Ids(nfts) == [];
    } else {
      var front, last := nfts[..|nfts| - 1], nfts[|nfts| - 1];
      CopiesCountIds(front, id);
      assert nfts == front + [last];
      assert Ids(nfts) == Ids(front) + [last.id];
    }
  }

  lemma {:induction false} StoredIffCopies(nfts: seq<NFT>, id: uint256)
    ensures id in Ids(nfts) <==> Copies(nfts, id) > 0
  {
    CopiesCountIds(nfts, id);
    assert id in Ids(nfts) <==> id in multiset(Ids(nfts));
  }

  lemma {:induction false} FreeIffFound(nfts: seq<NFT>, id: uint256)
    ensures FirstFree(nfts, id) < |nfts| <==> FreeCopies(nfts, id) > 0
  {
    assert NFT(id, false) in nfts <==> NFT(id, false) in multiset(nfts);
  }

  /** Setting the flag of one slot: ids stay, and only the counts of that slot's id move. */
  lemma {:induction false} SetFlag(nfts: seq<NFT>, i: nat, flag: bool, id: uint256)
    requires i < |nfts|
    ensures var after := nfts[i := NFT(nfts[i].id, flag)];
            && Ids(after) == Ids(nfts)
            && (id != nfts[i].id ==>
                  && FreeCopies(after, id) == FreeCopies(nfts, id)
                  && RentedCopies(after, id) == RentedCopies(nfts, id)
                  && FirstRented(after, id) == FirstRented(nfts, id))
            && (id == nfts[i].id && nfts[i].isRented != flag ==>
                  && FreeCopies(after, id) == FreeCopies(nfts, id) + (if flag then -1 else 1)
                  && RentedCopies(after, id) == RentedCopies(nfts, id) + (if flag then 1 else -1))
            && (nfts[i].isRented == flag ==> after == nfts)
  {
    var after := nfts[i := NFT(nfts[i].id, flag)];
    assert Ids(after) == Ids(nfts);
    assert multiset(after) == multiset(nfts) - multiset{nfts[i]} + multiset{after[i]};
  }

  lemma {:induction false} AddSlot(nfts: seq<NFT>, stored: uint256, id: uint256)
    ensures var after := nfts + [NFT(stored, false)];
            && Ids(after) == Ids(nfts) + [stored]
            && FreeCopies(after, id) == FreeCopies(nfts, id) + (if id == stored then 1 else 0)
            && RentedCopies(after, id) == RentedCopies(nfts, id)
            && FirstRented(after, id) == FirstRented(nfts, id)
  {
    var after := nfts + [NFT(stored, false)];
    assert Ids(after) == Ids(nfts) + [stored];
    IndexOfAppend(Ids(nfts), stored, id);
  }

  // ---------------------------------------------------------------------------------------------
  // The listing of free slots

  /** The ids of the free slots, in pool order. */
  function AvailableIds(nfts: seq<NFT>): seq<uint256> {
    if |nfts| == 0 then []
    else
      var front, last := nfts[..|nfts| - 1], nfts[|nfts| - 1];
      AvailableIds(front) + if last.isRented then [] else [last.id]
  }

  /** The positions of the free slots: exactly those, in increasing order. */
  function FreePositions(nfts: seq<NFT>): (at: seq<nat>)
    ensures forall k :: 0 <= k < |at| ==> at[k] < |nfts| && !nfts[at[k]].isRented
    ensures forall k, l :: 0 <= k < l < |at| ==> at[k] < at[l]
    ensures forall i :: 0 <= i < |nfts| && !nfts[i].isRented ==> i in at
  {
    if |nfts| == 0 then []
    else
      var n := |nfts| - 1;
      var at := FreePositions(nfts[..n]);
      if nfts[n].isRented then at else at + [n]
  }

  /** The listing reads off the ids at the free positions, one entry each and in order. */
  lemma {:induction false} ListingIsInOrder(nfts: seq<NFT>)
    ensures |AvailableIds(nfts)| == |FreePositions(nfts)|
    ensures forall k :: 0 <= k < |FreePositions(nfts)| ==>
              AvailableIds(nfts)[k] == nfts[FreePositions(nfts)[k]].id
  {
    if |nfts| > 0 {
      ListingIsInOrder(nfts[..|nfts| - 1]);
    }
  }

  /** The listing shows each id as often as it has free copies. */
  lemma {:induction false} ListingCountsFreeCopies(nfts: seq<NFT>, id: uint256)
    ensures multiset(AvailableIds(nfts))[id] == FreeCopies(nfts, id)
  {
    if |nfts| > 0 {
      var front, last := nfts[..|nfts| - 1], nfts[|nfts| - 1];
      ListingCountsFreeCopies(front, id);
      assert nfts == front + [last];
      assert multiset(nfts) == multiset(front) + multiset{last};
      assert AvailableIds(nfts) == if last.isRented then AvailableIds(front) else AvailableIds(front) + [last.id];
    }
  }

  lemma {:induction false} ListingConcat(p: seq<NFT>, q: seq<NFT>)
    ensures AvailableIds(p + q) == AvailableIds(p) + AvailableIds(q)
  {
    if |q| == 0 {
      assert p + q == p;
    } else {
      assert (p + q)[..|p + q| - 1] == p + q[..|q| - 1];
      ListingConcat(p, q[..|q| - 1]);
    }
  }
}
