/** How a reconcile dates the conditions it changes. */
module Dates {
  import opened PolicyTypes
  import opened StatusBook
  import opened Decision

  /** The clock reading that a condition of this type carries when a reconcile changes its status. */
  function Stamp(kind: ConditionType, move: Move, clock: Clock): Time {
    match kind
    case VPARecommendationReady => clock.sync
    case MaintenanceInProgress => if move.Start? then clock.first else clock.second
    case LastMaintenanceFailed => clock.third
  }

  /** From `c` to `c'` the condition of this type is dated by the reconcile exactly when its status changes. */
  ghost predicate Dated(c: seq<Condition>, c': seq<Condition>, kind: ConditionType, move: Move, clock: Clock) {
    var v, v' := ViewOf(c, kind), ViewOf(c', kind);
    || v' == v
    || (&& v'.Some? && (v.Some? ==> v.value.status != v'.value.status)
        && v'.value.since == Stamp(kind, move, clock))
  }

  ghost predicate KeepsTidy(g: int, c: seq<Condition>, c': seq<Condition>) {
    Tidy(c, g) ==> Tidy(c', g)
  }

  /** The two conditions about runs are dated so, and the one about the recommendation is left alone. */
  ghost predicate DatesRun(g: int, c: seq<Condition>, c': seq<Condition>, move: Move, clock: Clock) {
    && KeepsTidy(g, c, c')
    && ViewOf(c', VPARecommendationReady) == ViewOf(c, VPARecommendationReady)
    && Dated(c, c', MaintenanceInProgress, move, clock)
    && Dated(c, c', LastMaintenanceFailed, move, clock)
  }

  /** All three are. */
  ghost predicate DatesAll(g: int, c: seq<Condition>, c': seq<Condition>, move: Move, clock: Clock) {
    KeepsTidy(g, c, c') && forall kind :: Dated(c, c', kind, move, clock)
  }
}
