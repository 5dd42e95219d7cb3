/**
 The budget arithmetic `MainHandler.get` renders for a signed-in member:
 hearts left, hearts used, and the menu of amounts that may be given.
 */
module Display {
  import opened Profiles
  import opened Awards
  import opened Transfers

  /** One entry of the amount menu: a number of points and its hearts. */
  datatype PointOption = PointOption(points: int, hearts: string)

  datatype BudgetView = BudgetView(remaining: string, used: string, options: seq<PointOption>)

  /** The view of `p`'s budget. */
  function ViewBudget(p: Profile): (v: BudgetView)
    ensures |v.options| == Max0(p.toGive)
    ensures forall i :: 0 <= i < |v.options| ==> v.options[i].points == i + 1
    ensures forall i :: 0 <= i < |v.options| ==> Repeats(v.options[i].hearts, i + 1)
    ensures Repeats(v.remaining, p.toGive)
    ensures Repeats(v.used, MONTHLY_POINTS - p.toGive)
  {
    BudgetView(
      Hearts(p.toGive),
      Hearts(MONTHLY_POINTS - p.toGive),
      seq(Max0(p.toGive), n => PointOption(n + 1, Hearts(n + 1))))
  }

  /** For a sound ledger the remaining and used hearts together show the whole
      monthly allowance, the used ones being what was given this month. */
  lemma ViewShowsWholeAllowance(p: Profile)
    requires Sound(p)
    ensures var v := ViewBudget(p);
            && |v.remaining| == |HEART| * p.toGive
            && |v.used| == |HEART| * p.gaveThisMonth
            && |v.remaining| + |v.used| == |HEART| * MONTHLY_POINTS
  {
  }

  /** The amounts the menu offers. */
  function Offered(v: BudgetView): set<int> {
    set o | o in v.options :: o.points
  }

  /** Every amount offered in the menu is one the transfer moves unclamped, and
      the menu offers exactly the amounts from 1 up to the budget. */
  lemma OptionsAreExactTransfers(p: Profile)
    requires Sound(p)
    ensures var v := ViewBudget(p);
            && (forall i :: 0 <= i < |v.options| ==> Clamp(v.options[i].points, p.toGive) == v.options[i].points)
            && (forall k :: k in Offered(v) <==> 1 <= k <= p.toGive)
  {
    var v := ViewBudget(p);
    forall k | 1 <= k <= p.toGive
      ensures k in Offered(v)
    {
      assert v.options[k - 1] in v.options;
    }
  }
}
