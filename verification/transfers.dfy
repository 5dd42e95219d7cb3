/**
 The point transfer performed by `MainHandler.post`: validate the request,
 clamp the amount, credit the receiver, append the award, then debit the
 giver from the snapshot read before the receiver was written.
 */
module Transfers {
  import opened Wrappers
  import opened Profiles
  import opened Awards

  /** Why a request is refused before anything changes: nobody is signed in,
      or the recipient is not in the member directory. */
  datatype TransferError = NotSignedIn | InvalidRecipient

  /** The store and award log after a transfer, and the award it appended. */
  datatype Step = Step(store: Store, log: seq<Kudos>, award: Kudos)

  function Max0(x: int): int {
    if x < 0 then 0 else x
  }

  /** The requested points projected onto [0, toGive]: first capped at the
      budget, then floored at zero. */
  function Clamp(points: int, toGive: int): (k: int)
    ensures 0 <= k
    ensures 0 <= toGive ==> k <= toGive
    ensures 0 <= points <= toGive ==> k == points
    ensures toGive < points ==> k == Max0(toGive)
    ensures points < 0 ==> k == 0
  {
    var capped := if points > toGive then toGive else points;
    if capped < 0 then 0 else capped
  }

  /** The receiver side of an award. */
  function Credit(p: Profile, amount: int): (r: Profile)
    ensures r.user == p.user && r.toGive == p.toGive && r.gaveThisMonth == p.gaveThisMonth
    ensures r.gaveTotal == p.gaveTotal && r.monthRefreshed == p.monthRefreshed
    ensures r.receivedTotal - r.receivedThisMonth == p.receivedTotal - p.receivedThisMonth
    ensures r.receivedThisMonth == p.receivedThisMonth + amount
  {
    p.(receivedTotal := p.receivedTotal + amount, receivedThisMonth := p.receivedThisMonth + amount)
  }

  /** The giver side of an award: what leaves the budget is counted as given. */
  function Debit(p: Profile, amount: int): (r: Profile)
    ensures r.user == p.user && r.receivedTotal == p.receivedTotal && r.receivedThisMonth == p.receivedThisMonth
    ensures r.monthRefreshed == p.monthRefreshed
    ensures r.toGive + r.gaveThisMonth == p.toGive + p.gaveThisMonth
    ensures r.gaveTotal - r.gaveThisMonth == p.gaveTotal - p.gaveThisMonth
    ensures r.toGive == p.toGive - amount
  {
    p.(toGive := p.toGive - amount, gaveThisMonth := p.gaveThisMonth + amount, gaveTotal := p.gaveTotal + amount)
  }

  /** The giver's profile as the handler reads it, before anything is written. */
  function Snapshot(s: Store, giver: Member): Profile
    requires Valid(s)
  {
    GetByUser(s, giver).profile
  }

  /** One kudos request: `giver` (absent when nobody is signed in) asks to give
      `points` to `recipient`; `directory` is the set of known members. */
  function Transfer(s: Store, log: seq<Kudos>, directory: set<Member>, giver: Option<Member>,
                    recipient: Member, points: int, reason: string): (r: Result<Step, TransferError>)
    requires Valid(s)
    ensures giver.None? ==> r == Failure(NotSignedIn)
    ensures giver.Some? && recipient !in directory ==> r == Failure(InvalidRecipient)
    ensures r.Success? <==> giver.Some? && recipient in directory
    ensures r.Success? ==>
              && Valid(r.value.store)
              && r.value.log == log + [r.value.award]
              && r.value.award == Kudos(giver.value, recipient, r.value.award.amount, reason)
              && giver.value in r.value.store.profiles && recipient in r.value.store.profiles
              && (forall m :: m in s.profiles ==> m in r.value.store.profiles)
  {
    if giver.None? then Failure(NotSignedIn)
    else if recipient !in directory then Failure(InvalidRecipient)
    else
      var fromFetch := GetByUser(s, giver.value);
      var fromProfile := fromFetch.profile;
      var amount := Clamp(points, fromProfile.toGive);
      var toFetch := GetByUser(fromFetch.store, recipient);
      var credited := Put(toFetch.store, Credit(toFetch.profile, amount));
      var award := Kudos(giver.value, recipient, amount, reason);
      var debited := Put(credited, Debit(fromProfile, amount));
      Success(Step(debited, log + [award], award))
  }

  /** The amount recorded is the request clamped to the giver's budget. */
  lemma TransferClampsAmount(s: Store, log: seq<Kudos>, directory: set<Member>, giver: Member,
                             recipient: Member, points: int, reason: string)
    requires Valid(s) && recipient in directory
    ensures var r := Transfer(s, log, directory, Some(giver), recipient, points, reason);
            var budget := Snapshot(s, giver).toGive;
            && r.Success?
            && r.value.award.amount == Clamp(points, budget)
            && 0 <= r.value.award.amount
            && (0 <= budget ==> r.value.award.amount <= budget)
  {
  }

  /** Asking for more than the budget is the same request as asking for exactly the budget. */
  lemma TransferAboveBudget(s: Store, log: seq<Kudos>, directory: set<Member>, giver: Member,
                            recipient: Member, points: int, reason: string)
    requires Valid(s) && points > Snapshot(s, giver).toGive
    ensures Transfer(s, log, directory, Some(giver), recipient, points, reason)
         == Transfer(s, log, directory, Some(giver), recipient, Snapshot(s, giver).toGive, reason)
  {
  }

  /** Asking for a negative amount is the same request as asking for zero, which
      still appends a zero-point award. */
  lemma TransferBelowZero(s: Store, log: seq<Kudos>, directory: set<Member>, giver: Member,
                          recipient: Member, points: int, reason: string)
    requires Valid(s) && points < 0 && recipient in directory
    ensures var r := Transfer(s, log, directory, Some(giver), recipient, points, reason);
            && r == Transfer(s, log, directory, Some(giver), recipient, 0, reason)
            && r.Success? && r.value.log == log + [Kudos(giver, recipient, 0, reason)]
  {
  }

  /** The store a successful transfer leaves: the receiver (fetched after the
      giver) credited, then the giver's snapshot debited on top. */
  lemma TransferWrites(s: Store, log: seq<Kudos>, directory: set<Member>, giver: Member,
                       recipient: Member, points: int, reason: string)
    requires Valid(s) && recipient in directory
    ensures var g := Snapshot(s, giver);
            var a := Clamp(points, g.toGive);
            var mid := GetByUser(GetByUser(s, giver).store, recipient);
            var award := Kudos(giver, recipient, a, reason);
            Transfer(s, log, directory, Some(giver), recipient, points, reason)
              == Success(Step(Store(mid.store.profiles[recipient := Credit(mid.profile, a)][giver := Debit(g, a)],
                                    mid.store.order),
                              log + [award], award))
  {
  }

  /** The giver ends with the snapshot read before the transfer, debited by the
      clamped amount, and the award with that amount is appended. */
  lemma TransferDebitsGiver(s: Store, log: seq<Kudos>, directory: set<Member>, giver: Member,
                            recipient: Member, points: int, reason: string)
    requires Valid(s) && recipient in directory
    ensures var r := Transfer(s, log, directory, Some(giver), recipient, points, reason);
            var g := Snapshot(s, giver);
            var a := Clamp(points, g.toGive);
            && r.Success?
            && r.value.store.profiles[giver] == Debit(g, a)
            && r.value.log == log + [Kudos(giver, recipient, a, reason)]
  {
    TransferWrites(s, log, directory, giver, recipient, points, reason);
  }

  /** A receiver other than the giver ends with its profile before the transfer
      credited by the clamped amount. */
  lemma TransferCreditsReceiver(s: Store, log: seq<Kudos>, directory: set<Member>, giver: Member,
                                recipient: Member, points: int, reason: string)
    requires Valid(s) && recipient in directory && giver != recipient
    ensures var r := Transfer(s, log, directory, Some(giver), recipient, points, reason);
            var a := Clamp(points, Snapshot(s, giver).toGive);
            && r.Success?
            && r.value.store.profiles[recipient] == Credit(GetByUser(s, recipient).profile, a)
  {
    TransferWrites(s, log, directory, giver, recipient, points, reason);
    GetByUserAfterOther(s, giver, recipient);
  }

  /** A transfer between two different members moves exactly the clamped amount
      from the giver's budget to the receiver's counters. */
  lemma TransferBetweenMembers(s: Store, log: seq<Kudos>, directory: set<Member>, giver: Member,
                               recipient: Member, points: int, reason: string)
    requires Valid(s) && recipient in directory && giver != recipient
    ensures var r := Transfer(s, log, directory, Some(giver), recipient, points, reason);
            var g := Snapshot(s, giver);
            var v := GetByUser(s, recipient).profile;
            var a := Clamp(points, g.toGive);
            var after := r.value.store.profiles;
            && r.Success?
            && after[giver] == g.(toGive := g.toGive - a, gaveThisMonth := g.gaveThisMonth + a, gaveTotal := g.gaveTotal + a)
            && after[recipient] == v.(receivedTotal := v.receivedTotal + a, receivedThisMonth := v.receivedThisMonth + a)
            && r.value.log == log + [Kudos(giver, recipient, a, reason)]
  {
    TransferDebitsGiver(s, log, directory, giver, recipient, points, reason);
    TransferCreditsReceiver(s, log, directory, giver, recipient, points, reason);
  }

  /** No profile other than the giver's and the receiver's changes. */
  lemma TransferFrame(s: Store, log: seq<Kudos>, directory: set<Member>, giver: Member,
                      recipient: Member, points: int, reason: string)
    requires Valid(s) && recipient in directory
    ensures var r := Transfer(s, log, directory, Some(giver), recipient, points, reason);
            && r.Success?
            && forall m :: m in s.profiles && m != giver && m != recipient ==>
                 r.value.store.profiles[m] == s.profiles[m]
  {
    TransferWrites(s, log, directory, giver, recipient, points, reason);
    var fromFetch := GetByUser(s, giver);
    GetByUserKeepsStored(s, giver);
    GetByUserKeepsStored(fromFetch.store, recipient);
  }

  /** The documented self-award quirk: the stale giver snapshot is written last,
      so the receiver credit is lost; the award is still logged. */
  lemma SelfAwardLosesCredit(s: Store, log: seq<Kudos>, directory: set<Member>, member: Member,
                             points: int, reason: string)
    requires Valid(s) && member in directory
    ensures var r := Transfer(s, log, directory, Some(member), member, points, reason);
            var g := Snapshot(s, member);
            var a := Clamp(points, g.toGive);
            var after := r.value.store.profiles;
            && r.Success?
            && after[member] == Debit(g, a)
            && after[member].receivedTotal == g.receivedTotal
            && after[member].receivedThisMonth == g.receivedThisMonth
            && r.value.log == log + [Kudos(member, member, a, reason)]
            && (forall m :: m in s.profiles && m != member ==> after[m] == s.profiles[m])
  {
  }

  /** The giver's budget and given-this-month counter still add up to the
      allowance after a transfer, and with sound ledgers the award lies in
      [0, 10]. */
  lemma TransferConserves(s: Store, log: seq<Kudos>, directory: set<Member>, giver: Member,
                          recipient: Member, points: int, reason: string)
    requires Valid(s) && recipient in directory
    ensures var r := Transfer(s, log, directory, Some(giver), recipient, points, reason);
            var g := Snapshot(s, giver);
            && r.Success?
            && (g.toGive + g.gaveThisMonth == MONTHLY_POINTS ==>
                  r.value.store.profiles[giver].toGive + r.value.store.profiles[giver].gaveThisMonth == MONTHLY_POINTS)
            && (AllSound(s) ==> 0 <= r.value.award.amount <= MONTHLY_POINTS)
  {
    TransferDebitsGiver(s, log, directory, giver, recipient, points, reason);
    if AllSound(s) {
      GetByUserKeepsSound(s, giver);
    }
  }

  /** Writing a credited receiver and then a debited giver, by an amount within
      the giver's budget, into sound profiles leaves every profile sound. */
  lemma WritesKeepSound(m: map<Member, Profile>, giver: Member, recipient: Member,
                        g: Profile, v: Profile, a: int)
    requires forall u :: u in m ==> Sound(m[u])
    requires Sound(g) && Sound(v) && 0 <= a <= g.toGive
    ensures var w := m[recipient := Credit(v, a)][giver := Debit(g, a)];
            forall u :: u in w ==> Sound(w[u])
  {
  }

  /** A transfer keeps the ledger invariant of every profile. */
  lemma TransferKeepsSound(s: Store, log: seq<Kudos>, directory: set<Member>, giver: Member,
                           recipient: Member, points: int, reason: string)
    requires Valid(s) && recipient in directory
    ensures var r := Transfer(s, log, directory, Some(giver), recipient, points, reason);
            && r.Success?
            && (AllSound(s) ==> AllSound(r.value.store))
  {
    TransferWrites(s, log, directory, giver, recipient, points, reason);
    if AllSound(s) {
      var fromFetch := GetByUser(s, giver);
      var g := fromFetch.profile;
      var mid := GetByUser(fromFetch.store, recipient);
      GetByUserKeepsSound(s, giver);
      GetByUserKeepsSound(fromFetch.store, recipient);
      WritesKeepSound(mid.store.profiles, giver, recipient, g, mid.profile, Clamp(points, g.toGive));
    }
  }

  /** Writing a credited receiver and then a debited giver, by a non-negative
      amount, never lowers a lifetime total. */
  lemma WritesKeepTotals(m: map<Member, Profile>, giver: Member, recipient: Member,
                         g: Profile, v: Profile, a: int)
    requires giver in m && recipient in m && g == m[giver] && v == m[recipient] && 0 <= a
    ensures var w := m[recipient := Credit(v, a)][giver := Debit(g, a)];
            forall u :: u in m ==> w[u].receivedTotal >= m[u].receivedTotal && w[u].gaveTotal >= m[u].gaveTotal
  {
  }

  /** No profile's lifetime received or given total decreases, self-awards
      included. */
  lemma TransferKeepsTotalsMonotone(s: Store, log: seq<Kudos>, directory: set<Member>, giver: Member,
                                    recipient: Member, points: int, reason: string)
    requires Valid(s) && recipient in directory
    ensures var r := Transfer(s, log, directory, Some(giver), recipient, points, reason);
            && r.Success?
            && forall m :: m in s.profiles ==>
                 && r.value.store.profiles[m].receivedTotal >= s.profiles[m].receivedTotal
                 && r.value.store.profiles[m].gaveTotal >= s.profiles[m].gaveTotal
  {
    TransferWrites(s, log, directory, giver, recipient, points, reason);
    var fromFetch := GetByUser(s, giver);
    var g := fromFetch.profile;
    var mid := GetByUser(fromFetch.store, recipient);
    GetByUserKeepsStored(s, giver);
    GetByUserKeepsStored(fromFetch.store, recipient);
    WritesKeepTotals(mid.store.profiles, giver, recipient, g, mid.profile, Clamp(points, g.toGive));
  }

  /** Transfers keep the award log closed over the store: both parties of the
      new award have profiles after it. */
  lemma TransferKeepsClosed(s: Store, log: seq<Kudos>, directory: set<Member>, giver: Option<Member>,
                            recipient: Member, points: int, reason: string)
    requires Valid(s) && Closed(s, log)
    ensures var r := Transfer(s, log, directory, giver, recipient, points, reason);
            r.Success? ==> Closed(r.value.store, r.value.log)
  {
    var r := Transfer(s, log, directory, giver, recipient, points, reason);
    if r.Success? {
      AppendAward(log, r.value.award);
    }
  }

  /** A giver whose budget is used up still logs an award, of zero points, and
      no existing profile changes. */
  lemma ExhaustedBudgetGivesZero(s: Store, log: seq<Kudos>, directory: set<Member>, giver: Member,
                                 recipient: Member, points: int, reason: string)
    requires Valid(s) && recipient in directory
    requires giver in s.profiles && s.profiles[giver].toGive == 0
    ensures var r := Transfer(s, log, directory, Some(giver), recipient, points, reason);
            && r.Success?
            && r.value.log == log + [Kudos(giver, recipient, 0, reason)]
            && forall m :: m in s.profiles ==> r.value.store.profiles[m] == s.profiles[m]
  {
    var g := s.profiles[giver];
    assert Debit(g, 0) == g;
    if giver == recipient {
      SelfAwardLosesCredit(s, log, directory, giver, points, reason);
    } else {
      TransferBetweenMembers(s, log, directory, giver, recipient, points, reason);
      var v := GetByUser(s, recipient).profile;
      assert Credit(v, 0) == v;
    }
    TransferFrame(s, log, directory, giver, recipient, points, reason);
  }

  /** The worked example: two members, an empty store and a request for 15
      points; the full budget of 10 moves. */
  lemma FullBudgetExample(alice: Member, bob: Member)
    requires alice != bob
    ensures var first := Transfer(EmptyStore, [], {alice, bob}, Some(alice), bob, 15, "thanks");
            && first.Success?
            && first.value.award == Kudos(alice, bob, 10, "thanks")
            && first.value.store.profiles[alice].toGive == 0
            && first.value.store.profiles[alice].gaveThisMonth == 10
            && first.value.store.profiles[bob].receivedThisMonth == 10
  {
    EmptyStoreValid();
    TransferBetweenMembers(EmptyStore, [], {alice, bob}, alice, bob, 15, "thanks");
  }
}
