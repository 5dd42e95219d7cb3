/**
 `Profile.top_receivers_this_month` and `Profile.top_givers_this_month`:
 the profiles with a positive monthly counter, highest first. The cache in
 front of them is not modelled; each call recomputes.
 */
module Leaderboards {
  import opened Profiles

  datatype Board = Receivers | Givers

  /** The monthly counter a board ranks by. */
  function Score(p: Profile, b: Board): int {
    match b
    case Receivers => p.receivedThisMonth
    case Givers => p.gaveThisMonth
  }

  predicate RankedDesc(ps: seq<Profile>, b: Board) {
    forall i, j :: 0 <= i < j < |ps| ==> Score(ps[i], b) >= Score(ps[j], b)
  }

  /** The datastore filter `counter > 0`, keeping the enumeration order. */
  function Positive(ps: seq<Profile>, b: Board): (r: seq<Profile>)
    ensures forall p :: p in r <==> p in ps && Score(p, b) > 0
    ensures forall p :: multiset(r)[p] == if Score(p, b) > 0 then multiset(ps)[p] else 0
  {
    if ps == [] then []
    else
      assert ps == [ps[0]] + ps[1..];
      (if Score(ps[0], b) > 0 then [ps[0]] else []) + Positive(ps[1..], b)
  }

  /** A ranked sequence stays ranked under a new head that trails nothing in it. */
  lemma RankedCons(head: Profile, rest: seq<Profile>, b: Board)
    requires RankedDesc(rest, b)
    requires forall q :: q in rest ==> Score(head, b) >= Score(q, b)
    ensures RankedDesc([head] + rest, b)
  {
    forall i, j | 0 <= i < j < |[head] + rest|
      ensures Score(([head] + rest)[i], b) >= Score(([head] + rest)[j], b)
    {
      if i == 0 {
        assert ([head] + rest)[j] == rest[j - 1];
        assert rest[j - 1] in rest;
      }
    }
  }

  /** The tail of a ranked sequence is ranked and trails its head. */
  lemma RankedTail(ps: seq<Profile>, b: Board)
    requires RankedDesc(ps, b) && ps != []
    ensures RankedDesc(ps[1..], b)
    ensures forall q :: q in ps[1..] ==> Score(ps[0], b) >= Score(q, b)
  {
    var tail := ps[1..];
    forall i, j | 0 <= i < j < |tail|
      ensures Score(tail[i], b) >= Score(tail[j], b)
    {
      assert tail[i] == ps[i + 1] && tail[j] == ps[j + 1];
    }
    forall q | q in tail
      ensures Score(ps[0], b) >= Score(q, b)
    {
      var j :| 0 <= j < |tail| && tail[j] == q;
      assert ps[j + 1] == q;
    }
  }

  /** Insert `p` into a ranked sequence ahead of the first entry it does not trail. */
  function Insert(p: Profile, ps: seq<Profile>, b: Board): (r: seq<Profile>)
    requires RankedDesc(ps, b)
    ensures RankedDesc(r, b)
    ensures multiset(r) == multiset(ps) + multiset{p}
    ensures forall q :: q in r <==> q == p || q in ps
  {
    if ps == [] then [p]
    else if Score(p, b) >= Score(ps[0], b) then
      RankedCons(p, ps, b);
      [p] + ps
    else
      var head, tail := ps[0], ps[1..];
      assert ps == [head] + tail;
      RankedTail(ps, b);
      var rest := Insert(p, tail, b);
      RankedCons(head, rest, b);
      [head] + rest
  }

  /** The datastore order `-counter`. */
  function Rank(ps: seq<Profile>, b: Board): (r: seq<Profile>)
    ensures RankedDesc(r, b)
    ensures multiset(r) == multiset(ps)
    ensures forall q :: q in r <==> q in ps
  {
    if ps == [] then []
    else
      assert ps == [ps[0]] + ps[1..];
      Insert(ps[0], Rank(ps[1..], b), b)
  }

  /** A leaderboard: exactly the stored profiles with a positive counter, each
      once, highest counter first. */
  function Top(s: Store, b: Board): (r: seq<Profile>)
    requires Valid(s)
    ensures RankedDesc(r, b)
    ensures forall p :: p in r <==> p in AllProfiles(s) && Score(p, b) > 0
    ensures forall p :: multiset(r)[p] == if Score(p, b) > 0 then multiset(AllProfiles(s))[p] else 0
  {
    Rank(Positive(AllProfiles(s), b), b)
  }

  /** A stored member's profile is on the board exactly when its counter is positive. */
  lemma TopMembership(s: Store, b: Board)
    requires Valid(s)
    ensures forall m :: m in s.profiles ==> (s.profiles[m] in Top(s, b) <==> Score(s.profiles[m], b) > 0)
  {
    var all := AllProfiles(s);
    forall m | m in s.profiles
      ensures s.profiles[m] in all
    {
      var i :| 0 <= i < |s.order| && s.order[i] == m;
      assert all[i] == s.profiles[m];
    }
  }

  /** Everything on the board is a stored profile, filed under its own member. */
  lemma TopEntriesStored(s: Store, b: Board)
    requires Valid(s)
    ensures forall p :: p in Top(s, b) ==> p.user in s.profiles && s.profiles[p.user] == p
  {
    var all := AllProfiles(s);
    forall p | p in all
      ensures p.user in s.profiles && s.profiles[p.user] == p
    {
      var i :| 0 <= i < |all| && all[i] == p;
      assert s.order[i] in s.profiles;
    }
  }

  /** `top_receivers_this_month`: the members who received this month, most first. */
  function TopReceiversThisMonth(s: Store): (r: seq<Profile>)
    requires Valid(s)
    ensures forall i, j :: 0 <= i < j < |r| ==> r[i].receivedThisMonth >= r[j].receivedThisMonth
    ensures forall p :: p in r <==> p in AllProfiles(s) && p.receivedThisMonth > 0
    ensures forall p :: multiset(r)[p] == if p.receivedThisMonth > 0 then multiset(AllProfiles(s))[p] else 0
  {
    Top(s, Receivers)
  }

  /** `top_givers_this_month`: the members who gave this month, most first. */
  function TopGiversThisMonth(s: Store): (r: seq<Profile>)
    requires Valid(s)
    ensures forall i, j :: 0 <= i < j < |r| ==> r[i].gaveThisMonth >= r[j].gaveThisMonth
    ensures forall p :: p in r <==> p in AllProfiles(s) && p.gaveThisMonth > 0
    ensures forall p :: multiset(r)[p] == if p.gaveThisMonth > 0 then multiset(AllProfiles(s))[p] else 0
  {
    Top(s, Givers)
  }
}
