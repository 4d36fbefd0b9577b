/** What a run of either contract did, seen from outside: its successful rents and ends, in order.
    Every quantity below is read off this list alone, without looking at a pool or a mapping. */
module History {
  import opened Evm
  import opened Sequences

  datatype Deed =
    | DidRent(user: Address, id: uint256, time: uint256)
    | DidEnd(user: Address, id: uint256)

  function Rents(h: seq<Deed>, id: uint256): nat {
    if |h| == 0 then 0
    else Rents(h[..|h| - 1], id) + if h[|h| - 1].DidRent? && h[|h| - 1].id == id then 1 else 0
  }

  function Ends(h: seq<Deed>, id: uint256): nat {
    if |h| == 0 then 0
    else Ends(h[..|h| - 1], id) + if h[|h| - 1].DidEnd? && h[|h| - 1].id == id then 1 else 0
  }

  /** Is the latest deed that concerns `id` a rent? */
  predicate RentedLast(h: seq<Deed>, id: uint256) {
    |h| > 0 &&
    if h[|h| - 1].id == id then h[|h| - 1].DidRent? else RentedLast(h[..|h| - 1], id)
  }

  /** Ends of `id` whose preceding deed on `id`, by anybody, is a rent. */
  function CleanEnds(h: seq<Deed>, id: uint256): nat {
    if |h| == 0 then 0
    else
      var front, last := h[..|h| - 1], h[|h| - 1];
      CleanEnds(front, id) + if last.DidEnd? && last.id == id && RentedLast(front, id) then 1 else 0
  }

  /** Ends of `id` whose preceding deed on `id`, by anybody, is an end too. */
  function LeakyEnds(h: seq<Deed>, id: uint256): nat {
    if |h| == 0 then 0
    else
      var front, last := h[..|h| - 1], h[|h| - 1];
      LeakyEnds(front, id) + if last.DidEnd? && last.id == id && !RentedLast(front, id) then 1 else 0
  }

  /** The latest deed of one user. */
  function LastBy(h: seq<Deed>, user: Address): Option<Deed> {
    if |h| == 0 then None
    else if h[|h| - 1].user == user then Some(h[|h| - 1])
    else LastBy(h[..|h| - 1], user)
  }

  /** When the user last rented; 0 for a user who never did. */
  function LastRentTime(h: seq<Deed>, user: Address): uint256 {
    if |h| == 0 then 0
    else if h[|h| - 1].user == user && h[|h| - 1].DidRent? then h[|h| - 1].time
    else LastRentTime(h[..|h| - 1], user)
  }

  lemma {:induction false} EndsSplit(h: seq<Deed>, id: uint256)
    ensures Ends(h, id) == CleanEnds(h, id) + LeakyEnds(h, id)
  {
    if |h| > 0 {
      EndsSplit(h[..|h| - 1], id);
    }
  }

  /** How each quantity moves when one deed is added. */
  lemma {:induction false} OneMoreDeed(h: seq<Deed>, d: Deed, id: uint256)
    ensures Rents(h + [d], id) == Rents(h, id) + if d.DidRent? && d.id == id then 1 else 0
    ensures Ends(h + [d], id) == Ends(h, id) + if d.DidEnd? && d.id == id then 1 else 0
    ensures RentedLast(h + [d], id) == if d.id == id then d.DidRent? else RentedLast(h, id)
    ensures CleanEnds(h + [d], id)
         == CleanEnds(h, id) + if d.DidEnd? && d.id == id && RentedLast(h, id) then 1 else 0
    ensures LeakyEnds(h + [d], id)
         == LeakyEnds(h, id) + if d.DidEnd? && d.id == id && !RentedLast(h, id) then 1 else 0
  {
    DropLastOfAppend(h, d);
  }

  lemma {:induction false} OneMoreDeedBy(h: seq<Deed>, d: Deed, user: Address)
    ensures LastBy(h + [d], user) == if d.user == user then Some(d) else LastBy(h, user)
    ensures LastRentTime(h + [d], user)
         == if d.user == user && d.DidRent? then d.time else LastRentTime(h, user)
  {
    DropLastOfAppend(h, d);
  }
}
