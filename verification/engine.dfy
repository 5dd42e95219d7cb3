/**
 The service as a whole: a store and an award log, changed by page views
 (`MainHandler.get`), kudos requests (`MainHandler.post`) and monthly sweeps
 (`RefreshHandler.post`).
 */
module Engine {
  import opened Wrappers
  import opened Profiles
  import opened Awards
  import opened Transfers
  import opened Sweep
  import opened Graph

  datatype State = State(store: Store, log: seq<Kudos>)

  /** The requests that change state; the month label of a sweep stands for the clock. */
  datatype Request =
    | View(visitor: Option<Member>)
    | Give(giver: Option<Member>, recipient: Member, points: int, reason: string)
    | NewMonth(month: string)

  const Initial: State := State(EmptyStore, [])

  /** What every reachable state satisfies: the store is well formed, every
      ledger is sound, every member in the log has a profile, and every award
      moved between 0 and the monthly allowance. */
  ghost predicate Healthy(st: State) {
    && Valid(st.store)
    && AllSound(st.store)
    && Closed(st.store, st.log)
    && forall k :: k in st.log ==> 0 <= k.amount <= MONTHLY_POINTS
  }

  /** A successful transfer from a healthy state reaches a healthy state. */
  lemma TransferKeepsHealthy(st: State, directory: set<Member>, giver: Member,
                             recipient: Member, points: int, reason: string)
    requires Valid(st.store) && recipient in directory
    ensures var r := Transfer(st.store, st.log, directory, Some(giver), recipient, points, reason);
            Healthy(st) ==> Healthy(State(r.value.store, r.value.log))
  {
    if Healthy(st) {
      var r := Transfer(st.store, st.log, directory, Some(giver), recipient, points, reason);
      TransferConserves(st.store, st.log, directory, giver, recipient, points, reason);
      TransferKeepsSound(st.store, st.log, directory, giver, recipient, points, reason);
      TransferKeepsClosed(st.store, st.log, directory, Some(giver), recipient, points, reason);
      assert forall k :: k in r.value.log ==> k in st.log || k == r.value.award;
    }
  }

  /** A page view looks up the signed-in visitor's profile, creating it on the
      first visit; a signed-out view looks nothing up and creates nothing. */
  function Visit(st: State, visitor: Option<Member>): (r: State)
    requires Valid(st.store)
    ensures Valid(r.store) && r.log == st.log
    ensures visitor.None? ==> r == st
    ensures visitor.Some? ==> r.store.profiles.Keys == st.store.profiles.Keys + {visitor.value}
    ensures visitor.Some? && visitor.value !in st.store.profiles ==> r.store.profiles[visitor.value] == NewProfile(visitor.value)
    ensures forall m :: m in st.store.profiles ==> m in r.store.profiles && r.store.profiles[m] == st.store.profiles[m]
    ensures Healthy(st) ==> Healthy(r)
  {
    match visitor
    case None => st
    case Some(user) =>
      GetByUserKeepsStored(st.store, user);
      assert AllSound(st.store) ==> AllSound(GetByUser(st.store, user).store) by {
        if AllSound(st.store) {
          GetByUserKeepsSound(st.store, user);
        }
      }
      State(GetByUser(st.store, user).store, st.log)
  }

  /** One request against the state; a refused kudos request changes nothing. */
  function Apply(st: State, directory: set<Member>, req: Request): (r: State)
    requires Valid(st.store)
    ensures Valid(r.store)
    ensures |st.log| <= |r.log| <= |st.log| + 1 && r.log[..|st.log|] == st.log
    ensures st.store.profiles.Keys <= r.store.profiles.Keys
    ensures Healthy(st) ==> Healthy(r)
  {
    match req
    case View(visitor) => Visit(st, visitor)
    case Give(giver, recipient, points, reason) =>
      (match Transfer(st.store, st.log, directory, giver, recipient, points, reason)
       case Success(step) =>
         TransferKeepsHealthy(st, directory, giver.value, recipient, points, reason);
         State(step.store, step.log)
       case Failure(_) => st)
    case NewMonth(month) => State(RefreshAll(st.store, month), st.log)
  }

  /** A kudos request from nobody, or to someone outside the directory, leaves
      store and award log exactly as they were. */
  lemma RefusedRequestChangesNothing(st: State, directory: set<Member>, giver: Option<Member>,
                                     recipient: Member, points: int, reason: string)
    requires Valid(st.store) && (giver.None? || recipient !in directory)
    ensures Apply(st, directory, Give(giver, recipient, points, reason)) == st
  {
  }

  /** Requests applied in order. */
  function Run(st: State, directory: set<Member>, reqs: seq<Request>): (r: State)
    requires Valid(st.store)
    ensures Valid(r.store)
    ensures |st.log| <= |r.log| && r.log[..|st.log|] == st.log
    ensures Healthy(st) ==> Healthy(r)
    decreases |reqs|
  {
    if reqs == [] then st
    else
      var next := Apply(st, directory, reqs[0]);
      var r := Run(next, directory, reqs[1..]);
      assert r.log[..|st.log|] == r.log[..|next.log|][..|st.log|];
      r
  }

  lemma InitialHealthy()
    ensures Healthy(Initial)
  {
    EmptyStoreValid();
  }

  /** Every state a run of requests reaches from the empty store is healthy. */
  lemma ReachableHealthy(directory: set<Member>, reqs: seq<Request>)
    ensures Healthy(Run(Initial, directory, reqs))
  {
  }

  /** In a healthy state, so in every reachable one, the graph drops no link. */
  lemma HealthyGraphDropsNothing(st: State, g: Graph)
    requires Healthy(st) && GraphOf(st.store, st.log, g)
    ensures forall p :: p in PairsOf(st.log) ==> HasLink(g, p)
  {
    NoLinkDroppedWhenClosed(st.store, st.log, g);
  }
}
