/** Usage counters and the entitlement checks that read them, with int64 spelled out. */
module Entitlements {
  import opened Prelude

  const TWO_63: int := 0x8000_0000_0000_0000
  const TWO_64: int := 0x1_0000_0000_0000_0000

  const UNLIMITED: int := -1

  /** What int64 arithmetic makes of a mathematical result. */
  function Wrap(x: int): int {
    if x % TWO_64 < TWO_63 then x % TWO_64 else x % TWO_64 - TWO_64
  }

  // ----- usage_counters -----

  /** (organization, metric), UNIQUE. */
  type Key = (string, string)

  type Counters = map<Key, int>

  datatype Op = Increment(key: Key, amount: int) | Set(key: Key, value: int)

  function ValueOf(counters: Counters, key: Key): int {
    if key in counters then counters[key] else 0
  }

  /**
   * The upsert of one op, or `None` where the statement fails: an empty
   * organization id, a proposed row the CHECK refuses, a sum out of bigint range.
   */
  function Upsert(counters: Counters, op: Op): Option<Counters> {
    match op
    case Increment(key, amount) =>
      if key.0 == "" || amount < 0 || ValueOf(counters, key) + amount >= TWO_63 then None
      else Some(counters[key := ValueOf(counters, key) + amount])
    case Set(key, value) =>
      if key.0 == "" || value < 0 then None
      else Some(counters[key := value])
  }

  /** An op fails exactly for an empty organization, a negative argument, or an increment past int64. */
  lemma UpsertFailsExactly(counters: Counters, organization: string, metric: string, n: int)
    ensures Upsert(counters, Increment((organization, metric), n)).None?
       <==> organization == "" || n < 0 || ValueOf(counters, (organization, metric)) + n > 9223372036854775807
    ensures Upsert(counters, Set((organization, metric), n)).None? <==> organization == "" || n < 0
  {
  }

  class UsageRepository {
    var counters: Counters

    constructor ()
      ensures counters == map[]
    {
      counters := map[];
    }

    method IncrementUsage(organization: string, metric: string, amount: int) returns (value: Option<int>)
      modifies this
      ensures match Upsert(old(counters), Increment((organization, metric), amount))
              case None => counters == old(counters) && value.None?
              case Some(after) => counters == after && value == Some(ValueOf(after, (organization, metric)))
    {
      var key := (organization, metric);
      if organization == "" || amount < 0 {
        return None;
      }
      if key in counters {
        if counters[key] + amount >= TWO_63 {
          return None;
        }
        counters := counters[key := counters[key] + amount];
      } else {
        if amount >= TWO_63 {
          return None;
        }
        counters := counters[key := amount];
      }
      value := Some(counters[key]);
    }

    method SetUsage(organization: string, metric: string, value: int) returns (stored: Option<int>)
      modifies this
      ensures match Upsert(old(counters), Set((organization, metric), value))
              case None => counters == old(counters) && stored.None?
              case Some(after) => counters == after && stored == Some(value)
    {
      if organization == "" || value < 0 {
        return None;
      }
      counters := counters[(organization, metric) := value];
      stored := Some(value);
    }
  }

  /** Every op of every tenant, in the order they commit; a failing one changes nothing. */
  function After(counters: Counters, ops: seq<Op>): Counters
    decreases |ops|
  {
    if ops == [] then counters
    else
      var before := After(counters, ops[..|ops| - 1]);
      match Upsert(before, ops[|ops| - 1])
      case None => before
      case Some(after) => after
  }

  /** Sum of the increments of one counter. */
  function Sum(ops: seq<Op>, key: Key): int
    decreases |ops|
  {
    if ops == [] then 0
    else
      var e := ops[|ops| - 1];
      Sum(ops[..|ops| - 1], key) + if e.key == key && e.Increment? then e.amount else 0
  }

  ghost predicate NeverSet(ops: seq<Op>, key: Key) {
    forall i :: 0 <= i < |ops| && ops[i].key == key ==> ops[i].Increment?
  }

  /** Increments of the counter are not negative, and its running total stays within int64. */
  ghost predicate Fits(start: int, ops: seq<Op>, key: Key) {
    && (forall i :: 0 <= i < |ops| && ops[i].key == key && ops[i].Increment? ==> ops[i].amount >= 0)
    && start + Sum(ops, key) < TWO_63
  }

  lemma {:induction false} SumGrows(ops: seq<Op>, key: Key)
    requires forall i :: 0 <= i < |ops| && ops[i].key == key && ops[i].Increment? ==> ops[i].amount >= 0
    ensures Sum(ops, key) >= 0
    decreases |ops|
  {
    if ops != [] { SumGrows(ops[..|ops| - 1], key); }
  }

  /** Without a set, a counter is what it was plus the sum of its increments, whatever other counters do. */
  lemma {:induction false} CounterAddsUp(counters: Counters, ops: seq<Op>, key: Key)
    requires key.0 != "" && NeverSet(ops, key) && Fits(ValueOf(counters, key), ops, key)
    ensures ValueOf(After(counters, ops), key) == ValueOf(counters, key) + Sum(ops, key)
    decreases |ops|
  {
    if ops != [] {
      var init, e := ops[..|ops| - 1], ops[|ops| - 1];
      SumGrows(init, key);
      assert Sum(ops, key) == Sum(init, key) + if e.key == key then e.amount else 0;
      assert e.key == key ==> e.amount >= 0;
      CounterAddsUp(counters, init, key);
    }
  }

  lemma {:induction false} AfterAppends(counters: Counters, first: seq<Op>, second: seq<Op>)
    ensures After(counters, first + second) == After(After(counters, first), second)
    decreases |second|
  {
    if second == [] {
      assert first + second == first;
    } else {
      assert (first + second)[..|first + second| - 1] == first + second[..|second| - 1];
      AfterAppends(counters, first, second[..|second| - 1]);
    }
  }

  /** A counter is the last value it was set to plus the increments since, whatever came before or elsewhere. */
  lemma CounterSinceLastSet(counters: Counters, before: seq<Op>, key: Key, value: int, since: seq<Op>)
    requires key.0 != "" && 0 <= value && NeverSet(since, key) && Fits(value, since, key)
    ensures ValueOf(After(counters, before + [Set(key, value)] + since), key) == value + Sum(since, key)
  {
    var upToSet := before + [Set(key, value)];
    assert upToSet[..|upToSet| - 1] == before;
    AfterAppends(counters, upToSet, since);
    CounterAddsUp(After(counters, upToSet), since, key);
  }

  /** Counters are never negative and never leave int64. */
  lemma {:induction false} CountersStayInRange(counters: Counters, ops: seq<Op>)
    requires forall k :: k in counters ==> 0 <= counters[k] < TWO_63
    requires forall i :: 0 <= i < |ops| && ops[i].Set? ==> ops[i].value < TWO_63
    ensures forall k :: k in After(counters, ops) ==> 0 <= After(counters, ops)[k] < TWO_63
    decreases |ops|
  {
    if ops != [] {
      CountersStayInRange(counters, ops[..|ops| - 1]);
    }
  }

  // ----- Plans -----

  datatype PlanLimits = PlanLimits(users: int, documents: int, apiRequests: int, storage: int)

  const FREE := PlanLimits(1, 50, 1000, 104857600)
  const PRO := PlanLimits(10, 5000, 100000, 10737418240)
  const ENTERPRISE := PlanLimits(UNLIMITED, UNLIMITED, UNLIMITED, UNLIMITED)

  const METRICS: seq<string> := ["users", "documents", "api_requests", "storage"]

  function LimitForPlan(plan: string, metric: string): int {
    var p := if plan == "pro" then PRO else if plan == "enterprise" then ENTERPRISE else FREE;
    if metric == "users" then p.users
    else if metric == "documents" then p.documents
    else if metric == "api_requests" then p.apiRequests
    else if metric == "storage" then p.storage
    else 0
  }

  /** The subscription's (plan, status), `None` where reading it failed; only a live one counts. */
  function ResolvePlan(subscription: Option<(string, string)>): string {
    if subscription.None? || subscription.value.0 == "" then "free"
    else if subscription.value.1 == "active" || subscription.value.1 == "trialing" then subscription.value.0
    else "free"
  }

  /** The plans in figures: 1 MiB = 1048576; an unknown plan is the free one, an unknown metric allows nothing. */
  lemma PlansInFigures(plan: string, metric: string)
    ensures plan == "pro" ==>
              LimitForPlan(plan, metric) == match metric
                                            case "users" => 10
                                            case "documents" => 5000
                                            case "api_requests" => 100000
                                            case "storage" => 10 * 1024 * 1048576
                                            case _ => 0
    ensures plan == "enterprise" ==>
              LimitForPlan(plan, metric)
              == if metric in {"users", "documents", "api_requests", "storage"} then -1 else 0
    ensures plan != "pro" && plan != "enterprise" ==>
              LimitForPlan(plan, metric) == match metric
                                            case "users" => 1
                                            case "documents" => 50
                                            case "api_requests" => 1000
                                            case "storage" => 100 * 1048576
                                            case _ => 0
  {
  }

  /** A plan other than the free one is in force exactly while its subscription is active or on trial. */
  lemma PlanInForceExactly(subscription: Option<(string, string)>, plan: string)
    requires plan != "free"
    ensures ResolvePlan(subscription) == plan
       <==> plan != "" && (subscription == Some((plan, "active")) || subscription == Some((plan, "trialing")))
  {
  }

  datatype Entitlement = Entitlement(metric: string, used: int, limit: int, remaining: int, allowed: bool)

  function Check(metric: string, used: int, limit: int, amount: int): Entitlement {
    if limit == UNLIMITED then Entitlement(metric, used, limit, UNLIMITED, true)
    else
      Entitlement(metric, used, limit, if limit - used < 0 then 0 else limit - used, Wrap(used + amount) <= limit)
  }

  method CanUse(subscription: Option<(string, string)>, metric: string, usage: string -> Option<int>, amount: int)
    returns (e: Option<Entitlement>)
    ensures match usage(metric)
            case None => e.None?
            case Some(used) => e == Some(Check(metric, used, LimitForPlan(ResolvePlan(subscription), metric), amount))
    ensures e.Some? ==>
              && e.value.metric == metric && usage(metric) == Some(e.value.used)
              && e.value.limit == LimitForPlan(ResolvePlan(subscription), metric)
              && (e.value.limit == -1 ==> e.value.remaining == -1 && e.value.allowed)
              && (e.value.limit != -1 && e.value.used <= e.value.limit ==>
                    e.value.remaining + e.value.used == e.value.limit)
              && (e.value.limit != -1 && e.value.used > e.value.limit ==> e.value.remaining == 0)
  {
    var limit := LimitForPlan(ResolvePlan(subscription), metric);
    var used := usage(metric);
    if used.None? {
      return None;
    }
    var result := Entitlement(metric, used.value, limit, 0, false);
    if limit == UNLIMITED {
      result := result.(remaining := UNLIMITED, allowed := true);
    } else {
      result := result.(remaining := limit - used.value);
      if result.remaining < 0 {
        result := result.(remaining := 0);
      }
      result := result.(allowed := Wrap(used.value + amount) <= limit);
    }
    e := Some(result);
  }

  function Row(metric: string, used: int, limit: int): Entitlement {
    Check(metric, used, limit, 0).(allowed := limit == UNLIMITED || used < limit)
  }

  method GetEntitlements(subscription: Option<(string, string)>, usage: string -> Option<int>)
    returns (rows: Option<seq<Entitlement>>)
    ensures rows.Some? <==> forall m :: m in METRICS ==> usage(m).Some?
    ensures rows.Some? ==>
              && |rows.value| == 4
              && rows.value[0].metric == "users" && rows.value[1].metric == "documents"
              && rows.value[2].metric == "api_requests" && rows.value[3].metric == "storage"
    ensures rows.Some? ==>
              && |rows.value| == |METRICS|
              && forall i :: 0 <= i < |METRICS| ==>
                    usage(METRICS[i]).Some?
                    && rows.value[i]
                       == Row(METRICS[i], usage(METRICS[i]).value, LimitForPlan(ResolvePlan(subscription), METRICS[i]))
  {
    var result: seq<Entitlement> := [];
    var plan := ResolvePlan(subscription);
    for k := 0 to |METRICS|
      invariant |result| == k
      invariant forall i :: 0 <= i < k ==>
                  usage(METRICS[i]).Some?
                  && result[i] == Row(METRICS[i], usage(METRICS[i]).value, LimitForPlan(plan, METRICS[i]))
    {
      var metric := METRICS[k];
      var limit := LimitForPlan(plan, metric);
      var used := usage(metric);
      if used.None? {
        assert metric in METRICS;
        return None;
      }
      var e := Entitlement(metric, used.value, limit, 0, false);
      if limit == UNLIMITED {
        e := e.(remaining := UNLIMITED, allowed := true);
      } else {
        e := e.(remaining := limit - used.value);
        if e.remaining < 0 {
          e := e.(remaining := 0);
        }
        e := e.(allowed := used.value < limit);
      }
      result := result + [e];
    }
    rows := Some(result);
  }

  // ----- What a check promises -----

  lemma LimitsAreSmall(plan: string, metric: string)
    ensures LimitForPlan(plan, metric) == UNLIMITED || 0 <= LimitForPlan(plan, metric) < TWO_63 - 1
  {
  }

  lemma WrapIsExact(x: int)
    requires 0 <= x < TWO_64
    ensures Wrap(x) == if x < TWO_63 then x else x - TWO_64
  {
  }

  /**
   * The check agrees with the counter: it allows exactly what an increment would
   * leave within the limit, and that is what Remaining says, exactly as long as
   * the sum fits an int64. Beyond that it allows what cannot be stored at all.
   */
  lemma CheckAgreesExactly(plan: string, metric: string, used: int, amount: int)
    requires 0 <= used < TWO_63 && 1 <= amount < TWO_63
    ensures var limit := LimitForPlan(plan, metric);
            var e := Check(metric, used, limit, amount);
            && (limit == UNLIMITED ==> e.allowed)
            && (limit != UNLIMITED ==>
                  && (used + amount < TWO_63 <==> (e.allowed <==> used + amount <= limit))
                  && (used + amount < TWO_63 <==> (e.allowed <==> amount <= e.remaining))
                  && (used + amount >= TWO_63 ==> e.allowed))
  {
    LimitsAreSmall(plan, metric);
    WrapIsExact(used + amount);
  }

  /**
   * In terms of the counter: "allowed iff the increment commits a value within the
   * limit, or there is no limit" is true exactly if the sum fits an int64.
   */
  lemma AllowedIffIncrementStaysWithin(
    counters: Counters, organization: string, plan: string, metric: string, amount: int)
    requires organization != "" && 1 <= amount < TWO_63
    requires 0 <= ValueOf(counters, (organization, metric)) < TWO_63
    ensures var key, limit := (organization, metric), LimitForPlan(plan, metric);
            var after := Upsert(counters, Increment(key, amount));
            (Check(metric, ValueOf(counters, key), limit, amount).allowed
             <==> after.Some? && (limit == UNLIMITED || ValueOf(after.value, key) <= limit))
            <==> ValueOf(counters, key) + amount < TWO_63
  {
    LimitsAreSmall(plan, metric);
    WrapIsExact(ValueOf(counters, (organization, metric)) + amount);
  }

  /** A free tenant limited to one user, with a full counter, is allowed one more. */
  lemma FullCounterIsAllowed()
    ensures ResolvePlan(None) == "free" && LimitForPlan("free", "users") == 1
    ensures Check("users", TWO_63 - 1, 1, 1).allowed && Check("users", TWO_63 - 1, 1, 1).remaining == 0
    ensures Upsert(map[("org", "users") := TWO_63 - 1], Increment(("org", "users"), 1)).None?
  {
    WrapIsExact(TWO_63);
  }

  /** A row of the overview is the check for one more unit, short of a counter at the very top of int64. */
  lemma RowIsCheckForOne(plan: string, metric: string, used: int)
    requires 0 <= used < TWO_63
    ensures var limit := LimitForPlan(plan, metric);
            Row(metric, used, limit) == Check(metric, used, limit, 1) <==> limit == UNLIMITED || used < TWO_63 - 1
  {
    LimitsAreSmall(plan, metric);
    WrapIsExact(used + 1);
  }
}
