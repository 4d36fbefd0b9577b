/** The `rentals` mapping. Both contracts declare it with the same shape; only the name of the
    first field differs (`gameId` in the simple contract, `nftId` in the pooled one). */
module RentalBook {
  import opened Evm

  datatype Rental = Rental(nftId: uint256, startTime: uint256, active: bool)

  type Book = map<Address, Rental>

  /** A Solidity mapping is total: an absent key reads as the zero record. */
  function Lookup(book: Book, user: Address): Rental {
    if user in book then book[user] else Rental(0, 0, false)
  }

  function Begin(book: Book, user: Address, id: uint256, now: uint256): Book {
    book[user := Rental(id, now, true)]
  }

  /** Ending keeps the id and the start time in the record and clears only the flag. */
  function Finish(book: Book, user: Address): Book {
    book[user := Lookup(book, user).(active := false)]
  }

  /** The users with an active rental of `id`. */
  function Renters(book: Book, id: uint256): set<Address> {
    set user | user in book && book[user].active && book[user].nftId == id
  }

  function Active(book: Book, id: uint256): nat {
    |Renters(book, id)|
  }

  lemma {:induction false} RentersOnceBegun(book: Book, user: Address, id: uint256, now: uint256, k: uint256)
    requires !Lookup(book, user).active
    ensures Renters(Begin(book, user, id, now), k) == Renters(book, k) + if k == id then {user} else {}
  {
    var after := Begin(book, user, id, now);
    assert forall other :: other != user ==> Lookup(after, other) == Lookup(book, other);
  }

  lemma {:induction false} BeginCounts(book: Book, user: Address, id: uint256, now: uint256, k: uint256)
    requires !Lookup(book, user).active
    ensures Active(Begin(book, user, id, now), k) == Active(book, k) + if k == id then 1 else 0
  {
    RentersOnceBegun(book, user, id, now, k);
    assert user !in Renters(book, k);
  }

  lemma {:induction false} RentersOnceFinished(book: Book, user: Address, k: uint256)
    requires Lookup(book, user).active
    ensures Renters(book, k)
         == Renters(Finish(book, user), k) + if k == Lookup(book, user).nftId then {user} else {}
  {
    var after := Finish(book, user);
    assert forall other :: other != user ==> Lookup(after, other) == Lookup(book, other);
  }

  lemma {:induction false} FinishCounts(book: Book, user: Address, k: uint256)
    requires Lookup(book, user).active
    ensures Active(book, k)
         == Active(Finish(book, user), k) + if k == Lookup(book, user).nftId then 1 else 0
  {
    RentersOnceFinished(book, user, k);
    assert user !in Renters(Finish(book, user), k);
  }
}
