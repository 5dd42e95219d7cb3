/** `RefreshHandler.post`: apply the monthly reset to every stored profile. */
module Sweep {
  import opened Profiles

  /** Every profile refreshed for `month`, each independently of the others. */
  function RefreshAll(s: Store, month: string): (r: Store)
    requires Valid(s)
    ensures Valid(r) && r.order == s.order && r.profiles.Keys == s.profiles.Keys
    ensures forall m :: m in r.profiles ==> r.profiles[m] == Refresh(s.profiles[m], month)
    ensures AllSound(s) ==> AllSound(r)
  {
    Store(map m | m in s.profiles :: Refresh(s.profiles[m], month), s.order)
  }

  /** After the sweep every profile is current for `month`: a stale one is reset
      with its lifetime totals kept, a current one is untouched. */
  lemma SweepResetsStale(s: Store, month: string)
    requires Valid(s)
    ensures var r := RefreshAll(s, month);
            forall m :: m in s.profiles ==>
              && r.profiles[m].monthRefreshed == month
              && r.profiles[m].receivedTotal == s.profiles[m].receivedTotal
              && r.profiles[m].gaveTotal == s.profiles[m].gaveTotal
              && (s.profiles[m].monthRefreshed != month ==>
                    r.profiles[m].toGive == MONTHLY_POINTS && r.profiles[m].gaveThisMonth == 0
                    && r.profiles[m].receivedThisMonth == 0)
              && (s.profiles[m].monthRefreshed == month ==> r.profiles[m] == s.profiles[m])
  {
  }

  /** Running the sweep twice in the same month changes nothing the second time. */
  lemma SweepIdempotent(s: Store, month: string)
    requires Valid(s)
    ensures RefreshAll(RefreshAll(s, month), month) == RefreshAll(s, month)
  {
  }

  /** The sweep keeps the ledger invariant of every profile. */
  lemma SweepKeepsSound(s: Store, month: string)
    requires Valid(s) && AllSound(s)
    ensures AllSound(RefreshAll(s, month))
  {
  }

}
