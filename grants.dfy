/** Grants and their expenditure trackers: the status hook of `Grant.save`
    that opens a tracker when a grant goes from pending to approved, the
    usage percentage of a tracker, and the management command that expires
    pending grants whose deadline has passed. */
module Grants {
  import opened Common
  import Dates

  datatype GrantStatus = Pending | Applied | Approved | Denied | Expired

  /** The status a new grant starts with (the field default). */
  const DefaultStatus: GrantStatus := Pending

  /** A grant; the amount is a two-place decimal held in hundredths. */
  datatype Grant = Grant(
    id: nat,
    organizationName: string,
    status: GrantStatus,
    amountValue: int,
    deadline: Option<Dates.ValidDate>,
    awardDate: Option<Dates.ValidDate>)

  /** An expenditure tracker; the amount used is in hundredths and starts
      at 0. */
  datatype Expenditure = Expenditure(amountUsed: int)

  const NewExpenditure: Expenditure := Expenditure(0)

  /** Whether saving with `newStatus` over `oldStatus` opens a tracker. */
  predicate OpensTracker(oldStatus: GrantStatus, newStatus: GrantStatus) {
    newStatus == Approved && oldStatus == Pending
  }

  /** `usage_percent`: the share of the grant's amount used, in percent, or
      0 when the amount is not positive. */
  function UsagePercent(amountUsed: int, amountValue: int): (p: real)
    ensures amountValue <= 0 ==> p == 0.0
    ensures amountValue > 0 ==> p * (amountValue as real) == (amountUsed as real) * 100.0
  {
    if amountValue > 0 then (amountUsed as real) / (amountValue as real) * 100.0 else 0.0
  }

  /** Spending between nothing and the whole amount gives a percentage
      between 0 and 100, reaching 100 exactly when all is spent. */
  lemma UsagePercentBounds(amountUsed: int, amountValue: int)
    requires amountValue > 0 && 0 <= amountUsed <= amountValue
    ensures 0.0 <= UsagePercent(amountUsed, amountValue) <= 100.0
    ensures UsagePercent(amountUsed, amountValue) == 100.0 <==> amountUsed == amountValue
  {
    var p := UsagePercent(amountUsed, amountValue);
    var v := amountValue as real;
    assert p * v == (amountUsed as real) * 100.0;
  }

  /** Spending more never lowers the percentage. */
  lemma UsagePercentMonotone(a: int, b: int, amountValue: int)
    requires amountValue > 0 && a <= b
    ensures UsagePercent(a, amountValue) <= UsagePercent(b, amountValue)
  {
    var v := amountValue as real;
    var pa, pb := UsagePercent(a, amountValue), UsagePercent(b, amountValue);
    assert pa * v <= pb * v;
  }

  /** A pending grant whose deadline is known and strictly before `today`. */
  predicate ShouldExpire(g: Grant, today: Dates.ValidDate) {
    g.status == Pending && g.deadline.Some? && Dates.Before(g.deadline.value, today)
  }

  /** The grants after a run of the expiry command on `today`. */
  function ExpireAll(grants: map<nat, Grant>, today: Dates.ValidDate): (r: map<nat, Grant>)
    ensures r.Keys == grants.Keys
    ensures forall id :: id in grants ==> r[id] == if ShouldExpire(grants[id], today) then grants[id].(status := Expired) else grants[id]
  {
    map id | id in grants :: if ShouldExpire(grants[id], today) then grants[id].(status := Expired) else grants[id]
  }

  function ExpirableIds(grants: map<nat, Grant>, today: Dates.ValidDate): set<nat> {
    set id | id in grants && ShouldExpire(grants[id], today)
  }

  /** Running the command twice on the same day changes nothing the second
      time: nothing is left to expire. */
  lemma ExpireIdempotent(grants: map<nat, Grant>, today: Dates.ValidDate)
    ensures ExpirableIds(ExpireAll(grants, today), today) == {}
    ensures ExpireAll(ExpireAll(grants, today), today) == ExpireAll(grants, today)
  {
  }

  /** The command touches only the status, and only of pending grants; a
      grant due today or with no deadline is left pending. */
  lemma ExpireOnlyStatus(grants: map<nat, Grant>, today: Dates.ValidDate)
    ensures forall id :: id in grants ==> ExpireAll(grants, today)[id].(status := grants[id].status) == grants[id]
    ensures forall id :: id in grants && grants[id].status != Pending ==> ExpireAll(grants, today)[id] == grants[id]
    ensures forall id :: id in grants && grants[id].deadline.None? ==> ExpireAll(grants, today)[id] == grants[id]
    ensures forall id :: id in grants && grants[id].deadline == Some(today) ==> ExpireAll(grants, today)[id] == grants[id]
  {
  }

  /** The grants and their trackers. */
  class Registry {
    var grants: map<nat, Grant>
    var expenditures: map<nat, Expenditure>

    /** Grants are keyed by their id and every tracker belongs to a grant. */
    ghost predicate Valid()
      reads this
    {
      (forall id :: id in grants ==> grants[id].id == id) &&
      expenditures.Keys <= grants.Keys
    }

    constructor()
      ensures Valid() && grants == map[] && expenditures == map[]
    {
      grants := map[];
      expenditures := map[];
    }

    /** `Grant.save`: the status before the save is the stored one, or the
        default when the grant is new or its row is missing; after the
        save, going from pending to approved opens a tracker unless one
        exists (`get_or_create`). */
    method Save(g: Grant)
      requires Valid()
      modifies this
      ensures Valid()
      ensures grants == old(grants)[g.id := g]
      ensures var before := if g.id in old(grants) then old(grants)[g.id].status else DefaultStatus;
        expenditures == if OpensTracker(before, g.status) && g.id !in old(expenditures)
                        then old(expenditures)[g.id := NewExpenditure] else old(expenditures)
    {
      var before := if g.id in grants then grants[g.id].status else DefaultStatus;
      grants := grants[g.id := g];
      if OpensTracker(before, g.status) && g.id !in expenditures {
        expenditures := expenditures[g.id := NewExpenditure];
      }
    }

    /** `expire_pending_grants`: sets every pending grant whose deadline has
        passed to expired, one save at a time, and counts them. */
    method ExpirePending(today: Dates.ValidDate) returns (count: nat)
      requires Valid()
      modifies this
      ensures Valid()
      ensures grants == ExpireAll(old(grants), today)
      ensures expenditures == old(expenditures)
      ensures count == |ExpirableIds(old(grants), today)|
    {
      ghost var grants0 := grants;
      var todo := ExpirableIds(grants, today);
      ghost var all := todo;
      ghost var done: set<nat> := {};
      count := 0;
      while todo != {}
        invariant Valid()
        invariant todo + done == all && todo * done == {}
        invariant grants == ExpireSome(grants0, done)
        invariant expenditures == old(expenditures)
        invariant count == |done|
        decreases |todo|
      {
        var id :| id in todo;
        ExpireNext(grants0, done, id, today);
        MoveOne(todo, done, id);
        todo := todo - {id};
        done := done + {id};
        count := count + 1;
      }
      ExpireExactly(grants0, today);
    }

    /** Saves one more expirable grant as expired. */
    method ExpireNext(ghost grants0: map<nat, Grant>, ghost done: set<nat>, id: nat, ghost today: Dates.ValidDate)
      requires Valid()
      requires id in ExpirableIds(grants0, today) && id !in done
      requires grants == ExpireSome(grants0, done)
      modifies this
      ensures Valid()
      ensures grants == ExpireSome(grants0, done + {id})
      ensures expenditures == old(expenditures)
    {
      ExpireOneMore(grants0, done, id, grants, today);
      Save(grants[id].(status := Expired));
    }
  }

  /** Moving one id from the ids to do to those done keeps them disjoint
      and their union, and counts one more done. */
  lemma MoveOne(todo: set<nat>, done: set<nat>, id: nat)
    requires id in todo && todo * done == {}
    ensures (todo - {id}) + (done + {id}) == todo + done
    ensures (todo - {id}) * (done + {id}) == {}
    ensures |done + {id}| == |done| + 1
    ensures |todo - {id}| < |todo|
  {
  }

  /** The grants with those in `done` set to expired. */
  function ExpireSome(grants: map<nat, Grant>, done: set<nat>): map<nat, Grant> {
    map id | id in grants :: if id in done then grants[id].(status := Expired) else grants[id]
  }

  /** Expiring one more, still pending, grant. */
  lemma ExpireOneMore(grants0: map<nat, Grant>, done: set<nat>, id: nat, grants: map<nat, Grant>, today: Dates.ValidDate)
    requires id in ExpirableIds(grants0, today) && id !in done
    requires grants == ExpireSome(grants0, done)
    requires forall k :: k in grants ==> grants[k].id == k
    ensures id in grants && grants[id].status == Pending && grants[id].id == id
    ensures grants[id := grants[id].(status := Expired)] == ExpireSome(grants0, done + {id})
  {
  }

  /** Expiring exactly the expirable grants is a run of the command. */
  lemma ExpireExactly(grants: map<nat, Grant>, today: Dates.ValidDate)
    ensures ExpireSome(grants, ExpirableIds(grants, today)) == ExpireAll(grants, today)
  {
  }

  /** A tracker as the hook opens it has used nothing: its usage is 0%. */
  lemma FreshExpenditureUnused(amountValue: int)
    ensures UsagePercent(NewExpenditure.amountUsed, amountValue) == 0.0
  {
  }

  /** A grant approved after being marked applied gets no tracker from the
      hook: only the pending-to-approved step opens one. */
  lemma AppliedThenApprovedOpensNoTracker()
    ensures !OpensTracker(Applied, Approved)
    ensures OpensTracker(DefaultStatus, Approved)
    ensures forall s: GrantStatus :: OpensTracker(s, Approved) <==> s == Pending
  {
  }
}
