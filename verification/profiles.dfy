/**
 The `Profile` entity: one point ledger per member, and the datastore that
 holds them. A store is a map from member to profile together with the order
 in which the datastore enumerates profiles (`Profile.all()`), which the
 graph builder's node numbering depends on.
 */
module Profiles {

  /** A member is an opaque identity string. */
  type Member = string

  /** Points every member may give away per month. */
  const MONTHLY_POINTS: int := 10

  datatype Profile = Profile(
    user: Member,
    toGive: int,
    receivedTotal: int,
    receivedThisMonth: int,
    gaveTotal: int,
    gaveThisMonth: int,
    monthRefreshed: string)

  /** The ledger invariant: the budget left plus what was given this month is
      the monthly allowance, and no counter is negative or exceeds its lifetime total. */
  predicate Sound(p: Profile) {
    && 0 <= p.toGive
    && 0 <= p.gaveThisMonth <= p.gaveTotal
    && 0 <= p.receivedThisMonth <= p.receivedTotal
    && p.toGive + p.gaveThisMonth == MONTHLY_POINTS
  }

  /** A profile as first created for `user`, with the datastore property defaults. */
  function NewProfile(user: Member): (p: Profile)
    ensures p.user == user && Sound(p) && p.toGive == MONTHLY_POINTS
    ensures p.receivedTotal == p.receivedThisMonth == p.gaveTotal == p.gaveThisMonth == 0
    ensures p.monthRefreshed == ""
  {
    Profile(user, MONTHLY_POINTS, 0, 0, 0, 0, "")
  }

  /** The monthly reset, keyed on an opaque month label supplied by the caller. */
  function Refresh(p: Profile, month: string): (r: Profile)
    ensures r.user == p.user && r.monthRefreshed == month
    ensures r.receivedTotal == p.receivedTotal && r.gaveTotal == p.gaveTotal
    ensures p.monthRefreshed != month ==>
              r.toGive == MONTHLY_POINTS && r.gaveThisMonth == 0 && r.receivedThisMonth == 0
    ensures p.monthRefreshed == month ==> r == p
  {
    if p.monthRefreshed != month then
      p.(monthRefreshed := month, toGive := MONTHLY_POINTS, gaveThisMonth := 0, receivedThisMonth := 0)
    else
      p
  }

  /** Refreshing twice for the same month is the same as refreshing once. */
  lemma RefreshIdempotent(p: Profile, month: string)
    ensures Refresh(Refresh(p, month), month) == Refresh(p, month)
  {
  }

  /** A reset restores the ledger invariant for any profile whose lifetime
      totals are non-negative, and a profile already current keeps it. */
  lemma RefreshRestoresSound(p: Profile, month: string)
    requires 0 <= p.receivedTotal && 0 <= p.gaveTotal
    requires p.monthRefreshed == month ==> Sound(p)
    ensures Sound(Refresh(p, month))
  {
  }

  // ----- the datastore -----

  datatype Store = Store(profiles: map<Member, Profile>, order: seq<Member>)

  predicate Distinct(xs: seq<Member>) {
    forall i, j :: 0 <= i < j < |xs| ==> xs[i] != xs[j]
  }

  /** The datastore's shape: at most one profile per member, enumerated once
      each, and every profile filed under its own member. */
  ghost predicate Valid(s: Store) {
    && Distinct(s.order)
    && (forall m :: m in s.profiles <==> m in s.order)
    && (forall m :: m in s.profiles ==> s.profiles[m].user == m)
  }

  /** Every stored profile satisfies the ledger invariant. */
  predicate AllSound(s: Store) {
    forall m :: m in s.profiles ==> Sound(s.profiles[m])
  }

  const EmptyStore: Store := Store(map[], [])

  lemma EmptyStoreValid()
    ensures Valid(EmptyStore) && AllSound(EmptyStore)
  {
  }

  /** A store and the profile a lookup returned. */
  datatype Fetched = Fetched(store: Store, profile: Profile)

  /** `Profile.get_by_user`: return the member's profile, creating and storing
      a default one the first time the member is looked up. */
  function GetByUser(s: Store, user: Member): (r: Fetched)
    requires Valid(s)
    ensures Valid(r.store)
    ensures user in r.store.profiles && r.profile == r.store.profiles[user]
    ensures user in s.profiles ==> r.store == s && r.profile == s.profiles[user]
    ensures user !in s.profiles ==>
              && r.profile == NewProfile(user)
              && r.store.order == s.order + [user]
              && r.store.profiles == s.profiles[user := r.profile]
  {
    if user in s.profiles then
      Fetched(s, s.profiles[user])
    else
      var p := NewProfile(user);
      Fetched(Store(s.profiles[user := p], s.order + [user]), p)
  }

  /** A second lookup of the same member finds the profile the first created:
      no duplicate is made and nothing changes. */
  lemma GetByUserNoDuplicate(s: Store, user: Member)
    requires Valid(s)
    ensures GetByUser(GetByUser(s, user).store, user) == GetByUser(s, user)
    ensures |GetByUser(s, user).store.order| <= |s.order| + 1
  {
  }

  /** A lookup keeps every ledger sound, the one it may create included. */
  lemma GetByUserKeepsSound(s: Store, user: Member)
    requires Valid(s) && AllSound(s)
    ensures AllSound(GetByUser(s, user).store)
  {
  }

  /** A lookup keeps every stored profile as it was. */
  lemma GetByUserKeepsStored(s: Store, user: Member)
    requires Valid(s)
    ensures forall m :: m in s.profiles ==>
              m in GetByUser(s, user).store.profiles && GetByUser(s, user).store.profiles[m] == s.profiles[m]
  {
  }

  /** Looking up another member first does not change what a lookup returns. */
  lemma GetByUserAfterOther(s: Store, first: Member, user: Member)
    requires Valid(s) && first != user
    ensures GetByUser(GetByUser(s, first).store, user).profile == GetByUser(s, user).profile
  {
    if user in s.profiles {
      assert user in GetByUser(s, first).store.profiles;
    } else {
      assert user !in GetByUser(s, first).store.profiles;
    }
  }

  /** `put()` of a profile that is already stored: overwrite it in place. */
  function Put(s: Store, p: Profile): (r: Store)
    requires Valid(s) && p.user in s.profiles
    ensures Valid(r) && r.order == s.order
    ensures r.profiles == s.profiles[p.user := p]
  {
    Store(s.profiles[p.user := p], s.order)
  }

  /** The profiles in the datastore's enumeration order. */
  function AllProfiles(s: Store): (ps: seq<Profile>)
    requires Valid(s)
    ensures |ps| == |s.order|
    ensures forall i :: 0 <= i < |ps| ==> ps[i] == s.profiles[s.order[i]]
  {
    seq(|s.order|, i requires 0 <= i < |s.order| => s.profiles[s.order[i]])
  }
}
