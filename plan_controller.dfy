/** The plans endpoints: create, list, partial update and delete on the `plans` table. */
module PlanController {
  import opened Store
  import opened Ordering

  datatype CreatePlanResult = PlanCreated(planId: int) | DuplicateName

  /** Some existing plan already has this name. An absent name is SQL NULL, and `= NULL`
      matches no row. */
  predicate NameTaken(plans: map<int, Plan>, name: string) {
    name != "" && exists k | k in plans :: plans[k].name == name
  }

  /** No two plans share a name that is present. */
  ghost predicate UniqueNames(plans: map<int, Plan>) {
    forall j, k | j in plans && k in plans && j != k ::
      plans[j].name != "" ==> plans[j].name != plans[k].name
  }

  /** Creates a plan unless its name is already in use; the values are stored as given. */
  method CreatePlan(db: Database, name: string, price: int, durationDays: int, features: Option<string>)
    returns (r: CreatePlanResult)
    requires db.Valid()
    modifies db
    ensures db.Valid()
    ensures r.DuplicateName? <==> NameTaken(old(db.plans), name)
    ensures r.DuplicateName? ==> db.plans == old(db.plans) && db.nextPlanId == old(db.nextPlanId)
    ensures r.PlanCreated? ==>
      && r.planId == old(db.nextPlanId)
      && r.planId !in old(db.plans)
      && db.plans == old(db.plans)[r.planId := Plan(r.planId, name, price, durationDays, features)]
      && db.nextPlanId == old(db.nextPlanId) + 1
    ensures UniqueNames(old(db.plans)) ==> UniqueNames(db.plans)
    ensures db.members == old(db.members) && db.payments == old(db.payments)
    ensures db.nextMemberId == old(db.nextMemberId) && db.nextPaymentId == old(db.nextPaymentId)
  {
    if NameTaken(db.plans, name) {
      return DuplicateName;
    }
    var id := db.nextPlanId;
    db.plans := db.plans[id := Plan(id, name, price, durationDays, features)];
    db.nextPlanId := id + 1;
    r := PlanCreated(id);
  }

  /** `SELECT * FROM plans ORDER BY price ASC`. */
  function AllPlans(db: Database): (r: seq<Plan>)
    reads db
    requires db.Valid()
    ensures forall k | k in db.plans :: db.plans[k] in r
    ensures forall p | p in r :: p.id in db.plans && db.plans[p.id] == p
    ensures multiset(r) == multiset(db.PlanRows())
    ensures forall i, j | 0 <= i < j < |r| :: r[i].price <= r[j].price
  {
    var r := SortBy(db.PlanRows(), (p: Plan) => p.price);
    SameMembers(r, db.PlanRows());
    r
  }

  /** The fields a partial update may carry; "" and None stand for a missing or empty field,
      and a price or duration of 0 is falsy as well. */
  datatype PlanChanges = PlanChanges(
    name: string, price: Option<int>, durationDays: Option<int>, features: string)

  /** The row after a partial update: each falsy new value keeps the old one. */
  function ApplyPlanChanges(p: Plan, c: PlanChanges): (r: Plan)
    ensures r.id == p.id
    ensures c.name != "" ==> r.name == c.name
    ensures c.name == "" ==> r.name == p.name
    ensures c.price.Some? && c.price.value != 0 ==> r.price == c.price.value
    ensures c.price.None? || c.price.value == 0 ==> r.price == p.price
    ensures c.durationDays.Some? && c.durationDays.value != 0 ==> r.durationDays == c.durationDays.value
    ensures c.durationDays.None? || c.durationDays.value == 0 ==> r.durationDays == p.durationDays
    ensures c.features != "" ==> r.features == Some(c.features)
    ensures c.features == "" ==> r.features == p.features
  {
    p.(name := OrString(c.name, p.name),
       price := OrNumber(c.price, p.price),
       durationDays := OrNumber(c.durationDays, p.durationDays),
       features := if c.features != "" then Some(c.features) else p.features)
  }

  /** A price or duration can never be set to 0 through an update, and a set name or
      features text is never emptied. */
  lemma UpdateCannotZero(p: Plan, c: PlanChanges)
    ensures p.price != 0 ==> ApplyPlanChanges(p, c).price != 0
    ensures p.durationDays != 0 ==> ApplyPlanChanges(p, c).durationDays != 0
    ensures p.name != "" ==> ApplyPlanChanges(p, c).name != ""
    ensures p.features.Some? ==> ApplyPlanChanges(p, c).features.Some?
  {
  }

  /** Partial update of one plan; a missing id changes nothing. */
  method UpdatePlan(db: Database, id: int, changes: PlanChanges) returns (r: Outcome)
    requires db.Valid()
    modifies db
    ensures db.Valid()
    ensures r.NotFound? <==> id !in old(db.plans)
    ensures r.NotFound? ==> db.plans == old(db.plans)
    ensures r.Done? ==> db.plans == old(db.plans)[id := ApplyPlanChanges(old(db.plans)[id], changes)]
    ensures db.members == old(db.members) && db.payments == old(db.payments)
    ensures db.nextMemberId == old(db.nextMemberId) && db.nextPlanId == old(db.nextPlanId)
    ensures db.nextPaymentId == old(db.nextPaymentId)
  {
    if id !in db.plans {
      return NotFound;
    }
    var check := db.plans[id];
    db.plans := db.plans[id := ApplyPlanChanges(check, changes)];
    r := Done;
  }

  /** Deletes one plan. */
  method DeletePlan(db: Database, id: int) returns (r: Outcome)
    requires db.Valid()
    modifies db
    ensures db.Valid()
    ensures r.NotFound? <==> id !in old(db.plans)
    ensures db.plans == old(db.plans) - {id}
    ensures db.members == old(db.members) && db.payments == old(db.payments)
    ensures db.nextMemberId == old(db.nextMemberId) && db.nextPlanId == old(db.nextPlanId)
    ensures db.nextPaymentId == old(db.nextPaymentId)
  {
    var affectedRows := if id in db.plans then 1 else 0;
    db.plans := db.plans - {id};
    if affectedRows == 0 {
      return NotFound;
    }
    r := Done;
  }
}
