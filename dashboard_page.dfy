/** The pure part of the dashboard: the stats object built from the four listings it fetches. */
module DashboardPage {
  import opened Store
  import opened PaymentController

  /** How many payments the "Recent Transactions" card shows at most. */
  const RecentLimit := 5

  datatype Stats = Stats(totalMembers: nat, activePlans: nat, totalRevenue: int,
                         recentPayments: seq<HistoryRow>)

  /** The stats shown on the dashboard; `revenue` is the server's `total_revenue`, which may be
      absent. */
  function DashboardStats(memberList: seq<Member>, planList: seq<Plan>, revenue: Option<int>,
                          history: seq<HistoryRow>): (r: Stats)
    ensures r.totalMembers == |memberList| && r.activePlans == |planList|
    ensures revenue.None? || revenue.value == 0 ==> r.totalRevenue == 0
    ensures revenue.Some? ==> r.totalRevenue == revenue.value
    ensures |r.recentPayments| <= RecentLimit
    ensures |r.recentPayments| == if |history| < RecentLimit then |history| else RecentLimit
    ensures r.recentPayments == history[..|r.recentPayments|]
  {
    Stats(|memberList|, |planList|, OrNumber(revenue, 0), history[..if |history| < RecentLimit then |history| else RecentLimit])
  }

  /** Over the server's history listing, the recent payments are the newest ones: none of the
      payments left off the card is newer than one shown on it. */
  lemma RecentAreNewest(memberList: seq<Member>, planList: seq<Plan>, revenue: Option<int>,
                        payments: seq<Payment>, members: map<int, Member>)
    ensures var history := PaymentHistory(payments, members, None);
            var recent := DashboardStats(memberList, planList, revenue, history).recentPayments;
            forall i, j | 0 <= i < |recent| <= j < |history| ::
              recent[i].payment.paymentDate >= history[j].payment.paymentDate
  {
  }

  /** Fed the server's revenue figure, the dashboard shows the sum of all payment amounts. */
  lemma DashboardRevenueIsSum(memberList: seq<Member>, planList: seq<Plan>, payments: seq<Payment>,
                              history: seq<HistoryRow>)
    ensures DashboardStats(memberList, planList, Some(TotalRevenue(payments)), history).totalRevenue
            == SumAmounts(payments)
  {
  }
}
