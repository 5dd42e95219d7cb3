/**
 The `Kudos` entity: one immutable award record per transfer, kept in an
 append-only log, and the sets the graph builder derives from that log.
 */
module Awards {
  import opened Profiles

  /** One award. The creation timestamp is not modelled. */
  datatype Kudos = Kudos(userFrom: Member, userTo: Member, amount: int, reason: string)

  /** The heart entity repeated once per point. */
  const HEART: string := "&hearts;"

  /** `r` is `HEART` written `n` times over, none at all for n <= 0. */
  predicate Repeats(r: string, n: int) {
    && |r| == |HEART| * (if n <= 0 then 0 else n)
    && forall i :: 0 <= i < |r| ==> r[i] == HEART[i % |HEART|]
  }

  /** `"&hearts;" * n`: Python's string repetition, empty for n <= 0. */
  function Hearts(n: int): (r: string)
    ensures Repeats(r, n)
    decreases n
  {
    if n <= 0 then ""
    else
      var rest := Hearts(n - 1);
      var w := |HEART|;
      assert forall i :: w <= i < w + |rest| ==> (i - w) % w == i % w;
      HEART + rest
  }

  /** Only one string repeats the heart a given number of times. */
  lemma RepeatsUnique(r: string, t: string, n: int)
    requires Repeats(r, n) && Repeats(t, n)
    ensures r == t
  {
    assert forall i :: 0 <= i < |r| ==> r[i] == t[i];
  }

  /** `Kudos.hearts`: one heart per point awarded. */
  function KudosHearts(k: Kudos): (r: string)
    ensures Repeats(r, k.amount)
  {
    Hearts(k.amount)
  }

  // ----- sets derived from the award log -----

  /** A directed (giver, receiver) pair. */
  type Pair = (Member, Member)

  /** Every directed pair that some award in the log connects. */
  function PairsOf(log: seq<Kudos>): set<Pair> {
    set k | k in log :: (k.userFrom, k.userTo)
  }

  /** Every member that gave or received some award in the log. */
  function Endpoints(log: seq<Kudos>): set<Member> {
    (set k | k in log :: k.userFrom) + (set k | k in log :: k.userTo)
  }

  /** The total amount awarded along pair `p` over the whole log. */
  function PairSum(log: seq<Kudos>, p: Pair): int
    decreases |log|
  {
    if log == [] then 0
    else
      var k := log[|log| - 1];
      PairSum(log[..|log| - 1], p) + (if (k.userFrom, k.userTo) == p then k.amount else 0)
  }

  /** A pair that no award connects has nothing summed along it. */
  lemma {:induction false} PairSumOutside(log: seq<Kudos>, p: Pair)
    requires p !in PairsOf(log)
    ensures PairSum(log, p) == 0
    decreases |log|
  {
    if log != [] {
      var init := log[..|log| - 1];
      assert forall k :: k in init ==> k in log;
      assert p !in PairsOf(init);
      PairSumOutside(init, p);
    }
  }

  /** Appending one award adds its pair and its endpoints, and nothing else. */
  lemma AppendAward(log: seq<Kudos>, k: Kudos)
    ensures PairsOf(log + [k]) == PairsOf(log) + {(k.userFrom, k.userTo)}
    ensures Endpoints(log + [k]) == Endpoints(log) + {k.userFrom, k.userTo}
  {
  }

  /** Every member named in the award log has a profile. */
  ghost predicate Closed(s: Store, log: seq<Kudos>) {
    Endpoints(log) <= s.profiles.Keys
  }

  /** Every member of every pair is an endpoint. */
  lemma PairEndpoints(log: seq<Kudos>, p: Pair)
    requires p in PairsOf(log)
    ensures p.0 in Endpoints(log) && p.1 in Endpoints(log)
  {
  }

}
