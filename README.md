# Gym membership ledger — a Dafny model

This project models the core of a small gym-management application. The server keeps three
tables:

- `members`: name, email, phone, membership start and end dates, status, creation time;
- `plans`: name, price, duration in days, comma-separated features text;
- `payments`: member, amount, method, days credited, remarks, payment time.

Admins register members and pricing plans, and record payments. A payment extends a
membership. It is counted from today when the membership has lapsed or was never started,
and from the current end date when it is still running. The insert and the extension run
as one transaction. The browser pages filter the member list, colour status badges, split a
plan's features into items, and reduce four listings to the dashboard figures.

How the model is built:

- **The database** (`Store.Database`) is a class.
  - Each table is a field: members and plans are maps keyed by id; payments is a sequence
    in insertion order.
  - Each table has an auto-increment counter.
  - `Valid()` states that every row is stored under its own id, that ids lie below the
    counter, and that payment ids increase.
- **Controller operations** are methods that modify the database.
  - Each states its whole new state (what changes and that nothing else does), its error
    outcome, and the invariants it preserves.
  - `AddPayment` works on copies of the two tables and writes them back only at commit.
    Every failure path (member missing, any statement rejected) therefore leaves the
    database exactly as it was.
- **Queries and client logic** are functions.
  - Each `ORDER BY` is an insertion sort (`Ordering.SortBy`) on the rows, which are read
    from the table in id order. As in SQL, its contract fixes no order among rows with
    equal keys. Its contract gives sortedness by the key, and
    `Ordering.InsertPermutes` proves it a permutation. Membership in both directions
    follows from the permutation (`Ordering.SameMembers`).
- **JavaScript falsiness** (`a || b`) is written out explicitly:
  - an absent or empty text is `""`;
  - an absent date is `None`;
  - an absent numeric field is `None`, and `Some(0)` is falsy too.
- **Dates** are whole days (`Day = int`). Timestamps (`created_at`, `payment_date`) are
  integers. Both "today" and "now" are parameters.

The listings are ordered: members by `created_at DESC`, plans by `price ASC`, payment history
by `payment_date DESC`. The model sorts the same way.

## Model

| member | source | states |
|---|---|---|
| MemberController.InitialStatus | server/controllers/memberController.js:25 | a new member's status is the given one when given, and `active` when absent |
| MemberController.AddMember | server/controllers/memberController.js:7-36 | rejected exactly when some member already has the given email or the given phone (an absent value, SQL NULL, matches no row), leaving all tables unchanged; otherwise exactly one row is added under the next id with the given fields and defaulted status; uniqueness of present emails and phones is preserved; other tables untouched |
| MemberController.AbsentEmailMatchesNothing | server/controllers/memberController.js:12-17 | a request without an email is a duplicate exactly when its phone is present and some member has it |
| MemberController.AllMembers | server/controllers/memberController.js:41-44 | every member row appears, nothing else does (a permutation of the table rows), newest `createdAt` first |
| MemberController.MemberById | server/controllers/memberController.js:59-69 | the row stored under the id, or nothing exactly when no such row exists |
| MemberController.ApplyMemberChanges | server/controllers/memberController.js:91-103 | each field takes the new value when it is truthy and keeps the old one otherwise; id, start date and creation time are kept |
| MemberController.UpdateNeverClears | server/controllers/memberController.js:96-100 | an update can never empty a set field; in particular a set end date cannot be cleared |
| MemberController.UpdateIdempotent | server/controllers/memberController.js:96-100 | applying the same update twice equals applying it once |
| MemberController.UpdateMember | server/controllers/memberController.js:78-109 | not found exactly when the id is missing, and then nothing changes; otherwise only that row changes, to the merged row |
| MemberController.DeleteMember | server/controllers/memberController.js:114-128 | the row is gone afterwards; not found exactly when it was missing; payments and other tables are untouched |
| PlanController.CreatePlan | server/controllers/planController.js:7-32 | rejected exactly when the name is present and a plan with it exists (an absent name, SQL NULL, matches no row), leaving all tables unchanged; otherwise one row is added under the next id with the values as given; uniqueness of present names is preserved |
| PlanController.AllPlans | server/controllers/planController.js:37-39 | a permutation of the plan rows in ascending price |
| PlanController.ApplyPlanChanges | server/controllers/planController.js:65-73 | each field takes the new value when it is truthy (non-empty text, non-zero number) and keeps the old one otherwise; the id is kept |
| PlanController.UpdateCannotZero | server/controllers/planController.js:68-71 | an update can never set a non-zero price or duration to 0, nor empty a set name or features text |
| PlanController.UpdatePlan | server/controllers/planController.js:53-81 | not found exactly when the id is missing, and then nothing changes; otherwise only that row changes, to the merged row |
| PlanController.DeletePlan | server/controllers/planController.js:86-100 | the row is gone afterwards; not found exactly when it was missing; other tables untouched |
| PaymentController.ExtendedEndDate | server/controllers/paymentController.js:31-46 | the new end date is the later of today and the current end date (today when there is none), plus the credited days |
| PaymentController.ExpiredRestartsToday | server/controllers/paymentController.js:39-40 | a lapsed or never-started membership is counted from today |
| PaymentController.ActiveKeepsRemainingTime | server/controllers/paymentController.js:41-43 | a membership ending today or later keeps its remaining days |
| PaymentController.RepeatedPaymentExtendsTwice | server/controllers/paymentController.js:39-46 | recording a payment again extends the membership again: the operation is not idempotent |
| PaymentController.StoredMethod | server/controllers/paymentController.js:20 | the stored payment method is the given one when given, and `Cash` when absent |
| PaymentController.SumAmountsAppend | server/controllers/paymentController.js:110 | the sum of amounts over two runs of payments is the sum of their sums |
| PaymentController.TotalRevenue | server/controllers/paymentController.js:108-115 | the revenue figure is the sum of all payment amounts, 0 for an empty table |
| PaymentController.RevenueAdditive | server/controllers/paymentController.js:110-114 | revenue over two runs of payments is the sum of their revenues |
| PaymentController.RevenueNonNegative | server/controllers/paymentController.js:110-114 | with no negative amount recorded, revenue is not negative |
| PaymentController.AddPayment | server/controllers/paymentController.js:7-69 | recorded exactly when the member exists and no statement fails; then one payment (method defaulted) is appended under the next id, the member gets the extended end date and status `active`, and revenue rises by the amount; member missing exactly when the insert went through and the member does not exist; in every failure case members, payments and the counter are unchanged |
| PaymentController.JoinAndFilter | server/controllers/paymentController.js:78-88 | each payment is listed exactly as often as it occurs in the table if its member exists and it passes the optional member filter, and never otherwise; each row is the payment joined with its member's name and email |
| PaymentController.JoinedRowsAreExact | server/controllers/paymentController.js:78-88 | every payment that passes the join and the filter has its row, every row comes from the table, and there are no more rows than payments |
| PaymentController.PaymentHistory | server/controllers/paymentController.js:74-92 | the rows of the join and filter, each exactly as often as there (so `count` is fixed), newest `paymentDate` first |
| PaymentController.HistoryOfOneMember | server/controllers/paymentController.js:85-88 | with a member filter, every listed payment belongs to that member |
| PaymentController.DeletedMemberHasNoHistory | server/controllers/paymentController.js:81 | the inner join drops every payment of a deleted member |
| MembersPage.ToLower | client/src/pages/Members.jsx:68 | same length, each character lower-cased |
| MembersPage.Includes | client/src/pages/Members.jsx:68-69 | true exactly when the term occurs in the text at some position |
| MembersPage.FilteredMembers | client/src/pages/Members.jsx:67-70 | keeps each member exactly as often as it occurs in the list when its lower-cased name contains the lower-cased term or its phone contains the term, never otherwise, in the original order |
| MembersPage.EmptySearchKeepsAll | client/src/pages/Members.jsx:67-70 | an empty search term keeps the whole list unchanged |
| MembersPage.NameMatchIgnoresCase | client/src/pages/Members.jsx:68 | a member whose name contains the term letter for letter up to ASCII case is kept |
| MembersPage.PhoneMatchAsTyped | client/src/pages/Members.jsx:69 | a member whose phone contains the term as typed is kept |
| MembersPage.PhoneMatchIsCaseSensitive | client/src/pages/Members.jsx:69 | the phone match does not ignore case, shown on one member: the term `07X` does not find the phone `07x` |
| MembersPage.StatusColor | client/src/pages/Members.jsx:73-79 | green exactly for `active`, red exactly for `expired`, gray exactly for every other status |
| PlansPage.Split | client/src/pages/Plans.jsx:109 | one piece more than there are separators, and no piece contains the separator |
| PlansPage.JoinSplit | client/src/pages/Plans.jsx:109 | joining the pieces with the separator gives back the text |
| PlansPage.SkipLeading | client/src/pages/Plans.jsx:112 | the index of the first character that is not white space: everything skipped is white space, and the character found is not |
| PlansPage.SkipTrailing | client/src/pages/Plans.jsx:112 | the index just past the last character that is not white space: everything skipped is white space, and the character before it is not |
| PlansPage.Trim | client/src/pages/Plans.jsx:112 | a slice of the text outside which everything is white space, neither starting nor ending with white space |
| PlansPage.RenderedFeatures | client/src/pages/Plans.jsx:109-112 | no items without features text; otherwise one item per comma-separated piece, in order, each the trimmed piece, none containing a comma |
| DashboardPage.DashboardStats | client/src/pages/Dashboard.jsx:53-59 | the counts are the listing lengths, the revenue is the server figure or 0 when absent, and the recent payments are the first five (or fewer) history rows |
| DashboardPage.RecentAreNewest | client/src/pages/Dashboard.jsx:58 | over the server's history, no payment left off the recent list is newer than one on it |
| DashboardPage.DashboardRevenueIsSum | client/src/pages/Dashboard.jsx:56 | fed the server's revenue figure, the dashboard shows the sum of all payment amounts |

The module `LedgerScenarios` follows renewal scenarios through the controllers' contracts
alone: a lapsed member, a running member, a newcomer, an unknown member, a failing update, and
a double payment.

## Left out

- The connection pool, transaction plumbing and connection release are not modelled as such. The transaction is modelled by its effect: all or nothing.
- Concurrency is not modelled. Each request runs alone, so the read-then-update race between two simultaneous payments for one member is not captured.
- JavaScript `Date` semantics are not modelled: time of day, time zones, and `setDate` month rollover. Dates are whole days, and "today" is a parameter.
- `parseInt(duration_days)` is not modelled: the credited days are an integer argument. A non-numeric value, which would give an invalid date, is not modelled.
- Decimal amounts and prices are integers (minor units). Floating-point rounding in `SUM` is not modelled.
- MemberController.AddMember: the email and phone lookup uses exact string equality. The database compares with the column's collation. The code does not set one, and MySQL's default collations are case-insensitive. An empty email or phone is taken as absent (SQL NULL) and matches no row, although an explicit `''` in the source would match a stored `''`.
- PlanController.CreatePlan: the name lookup uses exact string equality, for the same collation reason. An empty name is taken as absent (SQL NULL) and matches no plan, although an explicit `''` in the source would match a stored `''`.
- Database-level constraints (unique keys, foreign keys, NOT NULL, cascades) are not visible in the source, so none is modelled. In particular, `UpdateMember` can create two members with the same email, and `DeleteMember` keeps the member's payments.
- PaymentController.AddPayment: the store's auto-increment counter is not advanced by a rolled-back insert. InnoDB can leave a gap in payment ids there.
- Storage failures of the single-statement endpoints (members, plans, history, revenue) are not modelled. Only `AddPayment`, whose rollback is the point, takes a fault argument.
- Request values arrive as JSON numbers and strings. The string `"0"` being truthy where a number is expected is not modelled.
- An absent text field (stored as SQL NULL) is modelled as the empty string, and the duplicate lookups treat it as NULL, which matches nothing. An empty string sent explicitly is stored as `''`, but the model treats it like an absent one, so a request `''` never matches a stored `''`. A null name or phone, which would make the members page filter throw, is not modelled.
- MembersPage.ToLower: only ASCII letters are lower-cased. Full Unicode case mapping is not modelled.
- Authentication (password hashing, JWT cookies, the auth middleware), the Express routes, and HTTP status codes and response bodies are not modelled. Outcomes are result datatypes.
- Client plumbing is not modelled: HTTP calls, local storage, React state and rendering, toasts, and the members page delete confirmation.
- The dashboard's parallel fetch is not modelled. Its four results are taken as arguments.
- Row timestamps (`created_at`, `payment_date`) come from the database clock; they are parameters here.
