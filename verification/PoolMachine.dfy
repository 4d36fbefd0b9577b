/** `rent_contract_RL_attempt.sol` as a state machine: a pool of slots and a mapping of rentals
    that have to agree. */
module PoolMachine {
  import opened Evm
  import opened Sequences
  import opened RentalBook
  import opened History
  import opened Slots

  /** `5 minutes`, in seconds. */
  const FIVE_MINUTES: uint256 := 300

  datatype State = State(nfts: seq<NFT>, rentals: Book, rentalDuration: uint256)

  datatype Call = Store(nftId: uint256) | RentNft(nftId: uint256) | EndRental

  datatype Tx = Tx(sender: Address, timestamp: uint256, call: Call)

  const INITIAL := State([], map[], FIVE_MINUTES)

  function TryRent(s: State, user: Address, now: uint256, id: uint256): Outcome<State> {
    if Lookup(s.rentals, user).active then Revert(AlreadyRenting)
    else
      var i := FirstFree(s.nfts, id);
      if i == |s.nfts| then Revert(NftNotAvailable)
      else Ok(s.(nfts := s.nfts[i := NFT(id, true)], rentals := Begin(s.rentals, user, id, now)))
  }

  function TryEnd(s: State, user: Address): Outcome<State> {
    if !Lookup(s.rentals, user).active then Revert(NoActiveRental)
    else
      var id := Lookup(s.rentals, user).nftId;
      Ok(s.(nfts := Release(s.nfts, id), rentals := Finish(s.rentals, user)))
  }

  /** One transaction: the new state, or the reason it reverts. */
  function Try(s: State, tx: Tx): Outcome<State> {
    match tx.call
    case Store(id) => Ok(s.(nfts := s.nfts + [NFT(id, false)]))
    case RentNft(id) => TryRent(s, tx.sender, tx.timestamp, id)
    case EndRental => TryEnd(s, tx.sender)
  }

  function Next(s: State, tx: Tx): State {
    var r := Try(s, tx);
    if r.Ok? then r.value else s
  }

  /** The state after a log of transactions, reverted ones included, sent to a fresh contract. */
  function After(log: seq<Tx>): State {
    if |log| == 0 then INITIAL else Next(After(log[..|log| - 1]), log[|log| - 1])
  }

  /** What one transaction adds to the history: nothing when it reverts or only stores. */
  function DeedsOf(s: State, tx: Tx): seq<Deed> {
    if Try(s, tx).Revert? then []
    else
      match tx.call
      case Store(_) => []
      case RentNft(id) => [DidRent(tx.sender, id, tx.timestamp)]
      case EndRental => [DidEnd(tx.sender, Lookup(s.rentals, tx.sender).nftId)]
  }

  function Deeds(log: seq<Tx>): seq<Deed> {
    if |log| == 0 then []
    else Deeds(log[..|log| - 1]) + DeedsOf(After(log[..|log| - 1]), log[|log| - 1])
  }

  /** The ids stored by a log, in order. */
  function StoredIds(log: seq<Tx>): seq<uint256> {
    if |log| == 0 then []
    else
      var call := log[|log| - 1].call;
      StoredIds(log[..|log| - 1]) + if call.Store? then [call.nftId] else []
  }

  lemma {:induction false} OneMore(log: seq<Tx>, tx: Tx)
    ensures After(log + [tx]) == Next(After(log), tx)
    ensures Deeds(log + [tx]) == Deeds(log) + DeedsOf(After(log), tx)
    ensures StoredIds(log + [tx]) == StoredIds(log) + if tx.call.Store? then [tx.call.nftId] else []
  {
    DropLastOfAppend(log, tx);
  }

  /** Splits the last transaction off a log that extends another. */
  lemma {:induction false} LastOfExtension(log: seq<Tx>, more: seq<Tx>)
    requires |more| > 0
    ensures var longer := log + more[..|more| - 1];
            && log + more == longer + [more[|more| - 1]]
            && After(log + more) == Next(After(longer), more[|more| - 1])
            && Deeds(log + more) == Deeds(longer) + DeedsOf(After(longer), more[|more| - 1])
  {
    var longer := log + more[..|more| - 1];
    assert log + more == longer + [more[|more| - 1]];
    OneMore(longer, more[|more| - 1]);
  }

  function CheckAccess(s: State, user: Address, now: uint256): Outcome<uint256> {
    var r := Lookup(s.rentals, user);
    if !r.active then Ok(0)
    else if r.startTime + s.rentalDuration >= UINT256_LIMIT then Revert(ArithmeticOverflow)
    else if now > r.startTime + s.rentalDuration then Ok(0)
    else Ok(r.nftId)
  }
}
