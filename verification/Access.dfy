/** Time-limited access: what `checkAccess` answers, told from the user's own calls. */
module Access {
  import opened Evm
  import opened Sequences
  import opened RentalBook
  import opened History
  import opened PoolMachine
  import opened Refinement
  import S = RentContract

  /** 2^256 - 300, the earliest start time to which five minutes cannot be added in a word. */
  const FIRST_OVERFLOW: int := 0xFFFF_FFFF_FFFF_FFFF_FFFF_FFFF_FFFF_FFFF_FFFF_FFFF_FFFF_FFFF_FFFF_FFFF_FFFF_FED4

  /** The answer for `user` at time `now`, from the history alone: access needs the user's latest
      deed to be a rent, and lasts up to and including five minutes after it. */
  function AccessBy(h: seq<Deed>, user: Address, now: uint256): Outcome<uint256> {
    match LastBy(h, user)
    case Some(DidRent(_, id, start)) =>
      if start >= FIRST_OVERFLOW then Revert(ArithmeticOverflow)
      else Ok(if now <= start + 300 then id else 0)
    case _ => Ok(0)
  }

  lemma {:induction false} DurationNeverChanges(log: seq<Tx>)
    ensures After(log).rentalDuration == 300
  {
    if |log| > 0 {
      DurationNeverChanges(log[..|log| - 1]);
    }
  }

  /** `checkAccess` and `getUserStartTime` depend on the caller's own successful calls only. */
  lemma {:induction false} AccessFollowsHistory(log: seq<Tx>, user: Address, now: uint256)
    ensures CheckAccess(After(log), user, now) == AccessBy(Deeds(log), user, now)
    ensures Lookup(After(log).rentals, user).startTime == LastRentTime(Deeds(log), user)
  {
    PooledRunIsSimpleRun(log);
    S.RecordsFollowHistory(Project(log), user);
    DurationNeverChanges(log);
  }

  /** A user is granted a nonzero id exactly when the user's last successful call is a rent of it
      that is at most five minutes old. */
  lemma {:induction false} AccessIffRecentRent(log: seq<Tx>, user: Address, now: uint256, id: uint256)
    requires id != 0
    ensures CheckAccess(After(log), user, now) == Ok(id) <==>
            exists start: uint256 ::
              && LastBy(Deeds(log), user) == Some(DidRent(user, id, start))
              && now <= start + 300 && start < FIRST_OVERFLOW
  {
    AccessFollowsHistory(log, user, now);
    LastByIsTheUsers(Deeds(log), user);
    var last := LastBy(Deeds(log), user);
    if CheckAccess(After(log), user, now) == Ok(id) {
      assert last == Some(DidRent(user, id, last.value.time));
    }
  }

  lemma {:induction false} LastByIsTheUsers(h: seq<Deed>, user: Address)
    ensures LastBy(h, user).Some? ==> LastBy(h, user).value.user == user
  {
    if |h| > 0 {
      LastByIsTheUsers(h[..|h| - 1], user);
    }
  }

  /** The pooled answer is the simple contract's answer inside the window and 0 after it. */
  lemma {:induction false} AccessIsSimpleAccessInWindow(log: seq<Tx>, user: Address, now: uint256)
    requires LastRentTime(Deeds(log), user) < FIRST_OVERFLOW
    ensures CheckAccess(After(log), user, now)
         == Ok(if now <= LastRentTime(Deeds(log), user) + 300
               then S.CheckAccess(S.After(Project(log)), user) else 0)
  {
    PooledRunIsSimpleRun(log);
    AccessFollowsHistory(log, user, now);
    DurationNeverChanges(log);
  }

  // ---------------------------------------------------------------------------------------------
  // Access over time

  /** The successful calls of a continuation. */
  function NewDeeds(log: seq<Tx>, more: seq<Tx>): seq<Deed> {
    if |more| == 0 then []
    else
      var front := more[..|more| - 1];
      NewDeeds(log, front) + DeedsOf(After(log + front), more[|more| - 1])
  }

  lemma {:induction false} NewDeedsAreTheNewOnes(log: seq<Tx>, more: seq<Tx>)
    ensures Deeds(log + more) == Deeds(log) + NewDeeds(log, more)
  {
    if |more| == 0 {
      assert log + more == log;
    } else {
      var front := more[..|more| - 1];
      var d := DeedsOf(After(log + front), more[|more| - 1]);
      NewDeedsAreTheNewOnes(log, front);
      LastOfExtension(log, more);
      AppendIsAssociative(Deeds(log), NewDeeds(log, front), d);
    }
  }

  ghost predicate NoRentBy(h: seq<Deed>, user: Address) {
    forall d :: d in h && d.DidRent? ==> d.user != user
  }

  lemma {:induction false} WithoutANewRent(log: seq<Tx>, more: seq<Tx>, user: Address)
    requires NoRentBy(NewDeeds(log, more), user)
    ensures var last := LastBy(Deeds(log + more), user);
            last == LastBy(Deeds(log), user) || (last.Some? && last.value.DidEnd?)
  {
    if |more| == 0 {
      assert log + more == log;
    } else {
      var front := more[..|more| - 1];
      var d := DeedsOf(After(log + front), more[|more| - 1]);
      WithoutANewRent(log, front, user);
      LastOfExtension(log, more);
      if d == [] {
        assert Deeds(log + more) == Deeds(log + front);
      } else {
        assert d[0] in NewDeeds(log, more);
        OneMoreDeedBy(Deeds(log + front), d[0], user);
      }
    }
  }

  /** Access to a nonzero id that is granted later, with no successful rent of the user's in
      between, is granted at every earlier time too. So within one rental access is one interval,
      and once lost it returns only after a new rent. */
  lemma {:induction false} AccessLostStaysLost(
      log: seq<Tx>, more: seq<Tx>, user: Address, earlier: uint256, later: uint256, id: uint256)
    requires id != 0 && earlier <= later
    requires NoRentBy(NewDeeds(log, more), user)
    requires CheckAccess(After(log + more), user, later) == Ok(id)
    ensures CheckAccess(After(log), user, earlier) == Ok(id)
  {
    WithoutANewRent(log, more, user);
    AccessFollowsHistory(log, user, earlier);
    AccessFollowsHistory(log + more, user, later);
  }

  lemma {:induction false} OnlyTheRenterEnds(s: State, tx: Tx, user: Address)
    requires Lookup(s.rentals, user).active
    requires tx.sender == user ==> !tx.call.EndRental?
    ensures Lookup(Next(s, tx).rentals, user) == Lookup(s.rentals, user)
  {
  }

  lemma {:induction false} RentalPersists(log: seq<Tx>, more: seq<Tx>, user: Address)
    requires Lookup(After(log).rentals, user).active
    requires forall tx :: tx in more && tx.sender == user ==> !tx.call.EndRental?
    ensures Lookup(After(log + more).rentals, user) == Lookup(After(log).rentals, user)
  {
    if |more| == 0 {
      assert log + more == log;
    } else {
      var front, tx := more[..|more| - 1], more[|more| - 1];
      RentalPersists(log, front, user);
      LastOfExtension(log, more);
      assert tx in more;
      OnlyTheRenterEnds(After(log + front), tx, user);
    }
  }

  /** Nobody else can shorten or prolong a rental: after a successful rent, and as long as the
      renter does not call `endRental`, access is granted for exactly five minutes, whatever all
      users do, and whatever else the renter tries. */
  lemma {:induction false} OthersCannotTouchARental(
      log: seq<Tx>, user: Address, start: uint256, id: uint256, more: seq<Tx>, now: uint256)
    requires Lookup(After(log).rentals, user) == Rental(id, start, true)
    requires start < FIRST_OVERFLOW
    requires forall tx :: tx in more && tx.sender == user ==> !tx.call.EndRental?
    ensures Lookup(After(log + more).rentals, user) == Rental(id, start, true)
    ensures CheckAccess(After(log + more), user, now) == Ok(if now <= start + 300 then id else 0)
  {
    RentalPersists(log, more, user);
    DurationNeverChanges(log + more);
  }

  // ---------------------------------------------------------------------------------------------
  // Bounded arithmetic

  /** A recorded start time is 0 or the timestamp of one of the user's own transactions. */
  lemma {:induction false} StartTimesComeFromTheLog(log: seq<Tx>, user: Address)
    ensures var start := Lookup(After(log).rentals, user).startTime;
            start == 0 || exists tx :: tx in log && tx.sender == user && tx.timestamp == start
  {
    if |log| > 0 {
      var front, tx := log[..|log| - 1], log[|log| - 1];
      StartTimesComeFromTheLog(front, user);
      assert tx in log;
      assert forall t :: t in front ==> t in log;
    }
  }

  /** The views revert exactly for a user whose last successful call is a rent at 2^256 - 300 or
      later, and then because of the addition. */
  lemma {:induction false} ViewsRevertIff(log: seq<Tx>, user: Address, now: uint256)
    ensures CheckAccess(After(log), user, now).Revert? <==>
            var last := LastBy(Deeds(log), user);
            && last.Some?
            && last.value.DidRent?
            && last.value.time >= 0xFFFF_FFFF_FFFF_FFFF_FFFF_FFFF_FFFF_FFFF_FFFF_FFFF_FFFF_FFFF_FFFF_FFFF_FFFF_FED4
    ensures CheckAccess(After(log), user, now).Revert? ==>
              CheckAccess(After(log), user, now).reason == ArithmeticOverflow
  {
    AccessFollowsHistory(log, user, now);
  }

  /** So with all timestamps before 2^256 - 300 they never revert. */
  lemma {:induction false} ViewsNeverRevert(log: seq<Tx>, user: Address, now: uint256)
    requires forall tx :: tx in log ==>
               tx.timestamp < 0xFFFF_FFFF_FFFF_FFFF_FFFF_FFFF_FFFF_FFFF_FFFF_FFFF_FFFF_FFFF_FFFF_FFFF_FFFF_FED4
    ensures CheckAccess(After(log), user, now).Ok?
  {
    StartTimesComeFromTheLog(log, user);
    DurationNeverChanges(log);
  }

  /** With a clock that does not run backwards, access is granted only from the moment of the rent
      until five minutes after it. */
  lemma {:induction false} AccessWithinFiveMinutes(log: seq<Tx>, user: Address, now: uint256, id: uint256)
    requires forall tx :: tx in log ==> tx.timestamp <= now
    requires id != 0 && CheckAccess(After(log), user, now) == Ok(id)
    ensures LastRentTime(Deeds(log), user) <= now <= LastRentTime(Deeds(log), user) + 300
  {
    StartTimesComeFromTheLog(log, user);
    AccessFollowsHistory(log, user, now);
    DurationNeverChanges(log);
  }
}
