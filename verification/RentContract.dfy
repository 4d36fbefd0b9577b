/** `rent_contract.sol`: one rental per user, no inventory, no expiry. */
module RentContract {
  import opened Evm
  import opened Sequences
  import opened RentalBook
  import opened History

  datatype Call = RentGame(gameId: uint256) | EndRental

  datatype Tx = Tx(sender: Address, timestamp: uint256, call: Call)

  /** One transaction against the mapping: the new mapping, or the reason it reverts. */
  function Try(book: Book, tx: Tx): Outcome<Book> {
    match tx.call
    case RentGame(id) =>
      if Lookup(book, tx.sender).active then Revert(AlreadyRenting)
      else Ok(Begin(book, tx.sender, id, tx.timestamp))
    case EndRental =>
      if !Lookup(book, tx.sender).active then Revert(NoActiveRental)
      else Ok(Finish(book, tx.sender))
  }

  function Next(book: Book, tx: Tx): Book {
    var r := Try(book, tx);
    if r.Ok? then r.value else book
  }

  /** The mapping after a log of transactions, reverted ones included, sent to a fresh contract. */
  function After(log: seq<Tx>): Book {
    if |log| == 0 then map[] else Next(After(log[..|log| - 1]), log[|log| - 1])
  }

  /** What one transaction adds to the history: nothing when it reverts. */
  function DeedsOf(book: Book, tx: Tx): seq<Deed> {
    if Try(book, tx).Revert? then []
    else if tx.call.RentGame? then [DidRent(tx.sender, tx.call.gameId, tx.timestamp)]
    else [DidEnd(tx.sender, Lookup(book, tx.sender).nftId)]
  }

  function Deeds(log: seq<Tx>): seq<Deed> {
    if |log| == 0 then []
    else Deeds(log[..|log| - 1]) + DeedsOf(After(log[..|log| - 1]), log[|log| - 1])
  }

  function CheckAccess(book: Book, user: Address): uint256 {
    if !Lookup(book, user).active then 0 else Lookup(book, user).nftId
  }

  lemma {:induction false} OneMore(log: seq<Tx>, tx: Tx)
    ensures After(log + [tx]) == Next(After(log), tx)
    ensures Deeds(log + [tx]) == Deeds(log) + DeedsOf(After(log), tx)
  {
    DropLastOfAppend(log, tx);
  }

  /** Does this record say what the history says about `user`? */
  ghost predicate RecordTells(r: Rental, h: seq<Deed>, user: Address) {
    && (r.active <==> LastBy(h, user).Some? && LastBy(h, user).value.DidRent?)
    && (r.active ==> LastBy(h, user) == Some(DidRent(user, r.nftId, r.startTime)))
    && r.startTime == LastRentTime(h, user)
  }

  /** A user's record is determined by that user's own deeds. */
  lemma {:induction false} RecordsFollowHistory(log: seq<Tx>, user: Address)
    ensures RecordTells(Lookup(After(log), user), Deeds(log), user)
  {
    if |log| > 0 {
      var front, tx := log[..|log| - 1], log[|log| - 1];
      RecordsFollowHistory(front, user);
      var h, more := Deeds(front), DeedsOf(After(front), tx);
      if more == [] {
        assert Deeds(log) == h;
      } else {
        assert more == [more[0]];
        OneMoreDeedBy(h, more[0], user);
      }
    }
  }

  /** Rents minus ends of an id is the number of users who hold it. */
  lemma {:induction false} ActiveIsRentsMinusEnds(log: seq<Tx>, id: uint256)
    ensures Rents(Deeds(log), id) == Ends(Deeds(log), id) + Active(After(log), id)
  {
    if |log| == 0 {
      assert Renters(After(log), id) == {};
    } else {
      var front, tx := log[..|log| - 1], log[|log| - 1];
      var book := After(front);
      ActiveIsRentsMinusEnds(front, id);
      if Try(book, tx).Revert? {
        assert Deeds(log) == Deeds(front);
      } else {
        OneMoreDeed(Deeds(front), DeedsOf(book, tx)[0], id);
        match tx.call
        case RentGame(k) => BeginCounts(book, tx.sender, k, tx.timestamp, id);
        case EndRental => FinishCounts(book, tx.sender, id);
      }
    }
  }

  /** The contract object. The ghost log holds every transaction it ever received. */
  class NFTRentLight {
    var rentals: Book
    ghost var log: seq<Tx>

    ghost predicate Valid()
      reads this
    {
      rentals == After(log)
    }

    constructor ()
      ensures Valid() && log == [] && rentals == map[]
    {
      rentals, log := map[], [];
    }

    method RentGame(msgSender: Address, timestamp: uint256, gameId: uint256) returns (r: Outcome<()>)
      requires Valid()
      modifies this
      ensures Valid() && log == old(log) + [Tx(msgSender, timestamp, Call.RentGame(gameId))]
      ensures r.Ok? ==> rentals == Begin(old(rentals), msgSender, gameId, timestamp)
      ensures r.Revert? ==> rentals == old(rentals) && r.reason == AlreadyRenting
      ensures r.Ok? <==> !Lookup(old(rentals), msgSender).active
    {
      ghost var tx := Tx(msgSender, timestamp, Call.RentGame(gameId));
      OneMore(log, tx);
      log := log + [tx];
      if Lookup(rentals, msgSender).active {
        return Revert(AlreadyRenting);
      }
      rentals := rentals[msgSender := Rental(gameId, timestamp, true)];
      return Ok(());
    }

    method EndRental(msgSender: Address, timestamp: uint256) returns (r: Outcome<()>)
      requires Valid()
      modifies this
      ensures Valid() && log == old(log) + [Tx(msgSender, timestamp, Call.EndRental)]
      ensures r.Ok? ==> rentals == Finish(old(rentals), msgSender)
      ensures r.Revert? ==> rentals == old(rentals) && r.reason == NoActiveRental
      ensures r.Ok? <==> Lookup(old(rentals), msgSender).active
    {
      ghost var tx := Tx(msgSender, timestamp, Call.EndRental);
      OneMore(log, tx);
      log := log + [tx];
      if !Lookup(rentals, msgSender).active {
        return Revert(NoActiveRental);
      }
      rentals := rentals[msgSender := Lookup(rentals, msgSender).(active := false)];
      return Ok(());
    }

    /** The id of the caller's latest deed if that deed is a rent, and 0 otherwise. */
    method CheckAccess(msgSender: Address) returns (id: uint256)
      requires Valid()
      ensures var last := LastBy(Deeds(log), msgSender);
              id == if last.Some? && last.value.DidRent? then last.value.id else 0
    {
      RecordsFollowHistory(log, msgSender);
      var r := Lookup(rentals, msgSender);
      if !r.active {
        return 0;
      }
      return r.nftId;
    }

    method GetUserStartTime(msgSender: Address) returns (time: uint256)
      requires Valid()
      ensures time == LastRentTime(Deeds(log), msgSender)
    {
      RecordsFollowHistory(log, msgSender);
      return Lookup(rentals, msgSender).startTime;
    }
  }
}
