/**
 Incidents over whole runs. Each response action lives in two tables, as response_engine/lifecycle.py
 describes: its own row is pending until it is authorized, declined or lapsed, and an authorized one has
 a command that follows the lifecycle from there. The history of a row is kept beside it.
 */
module IncidentRuns {
  import opened Wrappers
  import opened Lifecycle
  import opened ResponseStatus

  function Text(s: State): string {
    match s
    case Pending => "PENDING"
    case Authorized => "AUTHORIZED"
    case Dispatched => "DISPATCHED"
    case Accepted => "ACCEPTED"
    case Succeeded => "SUCCEEDED"
    case Failed => "FAILED"
    case Rejected => "REJECTED"
    case Indeterminate => "INDETERMINATE"
    case Cancelled => "CANCELLED"
    case Expired => "EXPIRED"
  }

  /** The states' stored texts are ten distinct words; the report texts are those the status fold looks for. */
  lemma TextsDistinct(s: State, t: State)
    ensures Text(s) == Text(t) ==> s == t
    ensures Text(s) in {"FAILED", "REJECTED", "INDETERMINATE", "EXPIRED"}
        <==> s in {Failed, Rejected, Indeterminate, Expired}
    ensures Text(s) in {"AUTHORIZED", "DISPATCHED", "ACCEPTED"} <==> s in {Authorized, Dispatched, Accepted}
    ensures (Text(s) == "SUCCEEDED" <==> s == Succeeded) && (Text(s) == "PENDING" <==> s == Pending)
    ensures Text(s) == "CANCELLED" <==> s == Cancelled
  {
  }

  datatype Row = Row(
    action: string, lifecycle: State, command: Option<State>, detail: Option<string>, simulation: Option<string>,
    history: seq<State>)

  function ItemOf(r: Row): Item {
    Item(Some(r.action), Some(Text(r.lifecycle)), if r.command.Some? then Some(Text(r.command.value)) else None,
         r.detail, r.simulation)
  }

  /** The state of the single lifecycle that the two tables stand for; a declined row is the cancelled state. */
  function Canonical(r: Row): State {
    match r.command
    case Some(c) => c
    case None => if r.lifecycle == Rejected then Cancelled else r.lifecycle
  }

  datatype Change = Authorize | Decline | Lapse | Advance(to: State, detail: Option<string>)

  predicate Allowed(r: Row, c: Change) {
    match c
    case Advance(to, _) => r.command.Some? && IsLegalTransition(r.command.value, to)
    case _ => r.command.None? && r.lifecycle == Pending
  }

  function Apply(r: Row, c: Change): Row {
    match c
    case Authorize => r.(lifecycle := Authorized, command := Some(Authorized), history := r.history + [Authorized])
    case Decline => r.(lifecycle := Rejected, history := r.history + [Cancelled])
    case Lapse => r.(lifecycle := Expired, history := r.history + [Expired])
    case Advance(to, detail) => r.(command := Some(to), detail := detail, history := r.history + [to])
  }

  predicate Sound(r: Row) {
    && IsHistory(r.history) && r.history[|r.history| - 1] == Canonical(r)
    && if r.command.Some? then r.lifecycle == Authorized && r.command.value != Pending
       else r.lifecycle in {Pending, Rejected, Expired}
  }

  // ---- one row ----

  /** Every change of the two tables is one legal transition of the single lifecycle, and keeps the history true. */
  lemma ChangeIsTransition(r: Row, c: Change)
    requires Sound(r) && Allowed(r, c)
    ensures IsLegalTransition(Canonical(r), Canonical(Apply(r, c)))
    ensures Sound(Apply(r, c))
  {
    assert Apply(r, c).history == r.history + [Canonical(Apply(r, c))];
  }

  /** Conversely, every legal transition from a row's state is made by some change of the tables. */
  lemma TransitionIsChange(r: Row, to: State) returns (c: Change)
    requires Sound(r) && IsLegalTransition(Canonical(r), to)
    ensures Allowed(r, c) && Canonical(Apply(r, c)) == to
  {
    if r.command.Some? {
      c := Advance(to, None);
    } else {
      c := if to == Authorized then Authorize else if to == Cancelled then Decline else Lapse;
    }
  }

  /** A pending action declined or lapsed, or a command cancelled: nothing is left to run, and nothing ran. */
  predicate Withdraws(c: Change) {
    c.Decline? || c.Lapse? || (c.Advance? && c.to == Cancelled)
  }

  function RowRank(r: Row): nat {
    Precedence(ItemStatus(ItemOf(r)))
  }

  /** A change lowers what its row contributes exactly when it withdraws a containment action. */
  lemma RowDropsExactly(r: Row, c: Change)
    requires Sound(r) && Allowed(r, c)
    ensures RowRank(Apply(r, c)) < RowRank(r) <==> IsContainment(Some(r.action)) && Withdraws(c)
  {
  }

  function Previewed(r: Row): Status {
    if r.simulation == Some("simulated") then SimulatedContainment else ResponseRecorded
  }

  /**
   What a row contributes, by the state of its lifecycle. A containment action that was withdrawn before
   dispatch, and every other action, counts as a preview or a record whatever became of it.
   */
  lemma RowContributesExactly(r: Row)
    requires Sound(r)
    ensures ItemStatus(ItemOf(r))
         == if r.action !in {"KILL_PROCESS", "QUARANTINE_FILE", "ISOLATE_HOST"} then Previewed(r)
            else match Canonical(r)
                 case Pending => AwaitingApproval
                 case Authorized => ResponseExecuting
                 case Dispatched => ResponseExecuting
                 case Accepted => ResponseExecuting
                 case Succeeded => if SaysVerified(ItemOf(r)) then Contained else ContainmentUnverified
                 case Cancelled => Previewed(r)
                 case Expired => if r.command.Some? then ContainmentFailed else Previewed(r)
                 case _ => ContainmentFailed
    ensures SaysVerified(ItemOf(r)) <==> exists rest :: r.detail == Some("verified:" + rest)
  {
    VerifiedExactly(ItemOf(r));
  }

  // ---- an incident ----

  datatype Event = Append(action: string, simulation: Option<string>) | Touch(row: nat, change: Change)

  predicate Possible(rows: seq<Row>, ev: Event) {
    ev.Touch? ==> ev.row < |rows| && Allowed(rows[ev.row], ev.change)
  }

  function Step(rows: seq<Row>, ev: Event): seq<Row>
    requires Possible(rows, ev)
  {
    match ev
    case Append(action, simulation) => rows + [Row(action, Pending, None, None, simulation, [Pending])]
    case Touch(i, change) => rows[i := Apply(rows[i], change)]
  }

  predicate Run(rows: seq<Row>, evs: seq<Event>)
    decreases |evs|
  {
    evs == [] || (Possible(rows, evs[0]) && Run(Step(rows, evs[0]), evs[1..]))
  }

  function Execute(rows: seq<Row>, evs: seq<Event>): seq<Row>
    requires Run(rows, evs)
    decreases |evs|
  {
    if evs == [] then rows else Execute(Step(rows, evs[0]), evs[1..])
  }

  function Items(rows: seq<Row>): (items: seq<Item>)
    ensures |items| == |rows| && forall i :: 0 <= i < |rows| ==> items[i] == ItemOf(rows[i])
  {
    seq(|rows|, i requires 0 <= i < |rows| => ItemOf(rows[i]))
  }

  /** The status of an incident that nobody has resolved. */
  function StatusOf(rows: seq<Row>): Status {
    Derive(Items(rows), None)
  }

  predicate AllSound(rows: seq<Row>) {
    forall i :: 0 <= i < |rows| ==> Sound(rows[i])
  }

  predicate WithdrawsContainment(rows: seq<Row>, ev: Event)
    requires Possible(rows, ev)
  {
    ev.Touch? && Withdraws(ev.change) && IsContainment(Some(rows[ev.row].action))
  }

  /** No event of the run withdraws a containment action. */
  predicate Steady(rows: seq<Row>, evs: seq<Event>)
    requires Run(rows, evs)
    decreases |evs|
  {
    evs == [] || (!WithdrawsContainment(rows, evs[0]) && Steady(Step(rows, evs[0]), evs[1..]))
  }

  lemma StepStaysSound(rows: seq<Row>, ev: Event)
    requires AllSound(rows) && Possible(rows, ev)
    ensures AllSound(Step(rows, ev))
  {
    if ev.Touch? {
      ChangeIsTransition(rows[ev.row], ev.change);
    }
  }

  lemma {:induction false} RunStaysSound(rows: seq<Row>, evs: seq<Event>)
    requires AllSound(rows) && Run(rows, evs)
    ensures AllSound(Execute(rows, evs))
    decreases |evs|
  {
    if evs != [] {
      StepStaysSound(rows, evs[0]);
      RunStaysSound(Step(rows, evs[0]), evs[1..]);
    }
  }

  /** Row by row, a list that contributes at least as much has at least as high a status. */
  lemma StatusFollowsRows(rows: seq<Row>, later: seq<Row>)
    requires |rows| <= |later| && forall i :: 0 <= i < |rows| ==> RowRank(rows[i]) <= RowRank(later[i])
    ensures Precedence(StatusOf(rows)) <= Precedence(StatusOf(later))
  {
    JoinIsHighest(Items(later));
    if StatusOf(rows) != Detected {
      var i := HighestRow(rows);
      assert Items(later)[i] in Items(later);
      assert RowRank(rows[i]) <= RowRank(later[i]);
    }
  }

  /** Every row's contribution is at most the status. */
  lemma RowAtMostStatus(rows: seq<Row>, i: nat)
    requires i < |rows|
    ensures RowRank(rows[i]) <= Precedence(StatusOf(rows))
  {
    JoinIsHighest(Items(rows));
    assert Items(rows)[i] in Items(rows);
  }

  predicate StandsAbove(rows: seq<Row>, i: nat)
    requires i < |rows|
  {
    forall j :: 0 <= j < |rows| && j != i ==> RowRank(rows[j]) < RowRank(rows[i])
  }

  /** Without a withdrawal, or with another row as high, the status stays. */
  lemma StepKeepsStatus(rows: seq<Row>, ev: Event)
    requires AllSound(rows) && Possible(rows, ev)
    requires !WithdrawsContainment(rows, ev) || !StandsAbove(rows, ev.row)
    ensures Precedence(StatusOf(rows)) <= Precedence(StatusOf(Step(rows, ev)))
  {
    var later := Step(rows, ev);
    if ev.Touch? {
      RowDropsExactly(rows[ev.row], ev.change);
    }
    if !WithdrawsContainment(rows, ev) {
      StatusFollowsRows(rows, later);
    } else {
      var j :| 0 <= j < |rows| && j != ev.row && RowRank(rows[ev.row]) <= RowRank(rows[j]);
      var top := HighestRow(rows);
      RowAtMostStatus(later, if top == ev.row then j else top);
    }
  }

  /** Withdrawing the one containment action that stands above all others lowers the status. */
  lemma WithdrawalDropsStatus(rows: seq<Row>, ev: Event)
    requires AllSound(rows) && Possible(rows, ev)
    requires WithdrawsContainment(rows, ev) && StandsAbove(rows, ev.row)
    ensures Precedence(StatusOf(Step(rows, ev))) < Precedence(StatusOf(rows))
  {
    var later := Step(rows, ev);
    RowDropsExactly(rows[ev.row], ev.change);
    RowAtMostStatus(rows, ev.row);
    RowAtMostStatus(later, ev.row);
    var top := HighestRow(later);
    assert RowRank(later[top]) < RowRank(rows[ev.row]);
  }

  /**
   One event lowers the status exactly when it withdraws the one containment action that stands above
   all the others.
   */
  lemma StepDropsExactly(rows: seq<Row>, ev: Event)
    requires AllSound(rows) && Possible(rows, ev)
    ensures Precedence(StatusOf(Step(rows, ev))) < Precedence(StatusOf(rows))
        <==> WithdrawsContainment(rows, ev) && StandsAbove(rows, ev.row)
  {
    if WithdrawsContainment(rows, ev) && StandsAbove(rows, ev.row) {
      WithdrawalDropsStatus(rows, ev);
    } else {
      StepKeepsStatus(rows, ev);
    }
  }

  /**
   However actions are added and their changes interleaved, the status never drops while no containment
   action is withdrawn.
   */
  lemma {:induction false} StatusNeverDrops(rows: seq<Row>, evs: seq<Event>)
    requires AllSound(rows) && Run(rows, evs) && Steady(rows, evs)
    ensures Precedence(StatusOf(rows)) <= Precedence(StatusOf(Execute(rows, evs)))
    decreases |evs|
  {
    if evs != [] {
      StepStaysSound(rows, evs[0]);
      StepDropsExactly(rows, evs[0]);
      StatusNeverDrops(Step(rows, evs[0]), evs[1..]);
    }
  }

  lemma StatusOfOne(r: Row)
    ensures StatusOf([r]) == ItemStatus(ItemOf(r))
  {
    assert Items([r]) == [ItemOf(r)];
    JoinIsHighest([ItemOf(r)]);
  }

  /** Letting a pending containment action lapse takes its incident from awaiting approval back to recorded. */
  lemma LapseDropsStatus()
    ensures var evs := [Append("KILL_PROCESS", None)];
            && Run([], evs) && Possible(Execute([], evs), Touch(0, Lapse))
            && StatusOf(Execute([], evs)) == AwaitingApproval
            && StatusOf(Step(Execute([], evs), Touch(0, Lapse))) == ResponseRecorded
  {
    var row := Row("KILL_PROCESS", Pending, None, None, None, [Pending]);
    assert Step([], Append("KILL_PROCESS", None)) == [row];
    assert Execute([], [Append("KILL_PROCESS", None)]) == [row];
    StatusOfOne(row);
    StatusOfOne(Apply(row, Lapse));
    assert [row][0 := Apply(row, Lapse)] == [Apply(row, Lapse)];
  }

  lemma ContainedRowWasDispatched(r: Row)
    requires Sound(r) && ItemStatus(ItemOf(r)) in {Contained, ContainmentUnverified}
    ensures IsContainment(Some(r.action)) && r.command == Some(Succeeded)
    ensures |r.history| > 3 && r.history[1] == Authorized && r.history[2] == Dispatched
    ensures r.history[|r.history| - 1] == Succeeded
    ensures IsVerified(r.detail) <==> ItemStatus(ItemOf(r)) == Contained
  {
    HistoryShape(r.history, |r.history| - 1);
  }

  /**
   A contained incident, verified or not, has a containment action that was authorized, then dispatched,
   then succeeded.
   */
  lemma ContainedWasDispatched(evs: seq<Event>) returns (r: Row)
    requires Run([], evs) && StatusOf(Execute([], evs)) in {Contained, ContainmentUnverified}
    ensures r in Execute([], evs) && IsContainment(Some(r.action)) && IsHistory(r.history)
    ensures |r.history| > 3 && r.history[1] == Authorized && r.history[2] == Dispatched
    ensures r.history[|r.history| - 1] == Succeeded
    ensures IsVerified(r.detail) <==> StatusOf(Execute([], evs)) == Contained
  {
    var rows := Execute([], evs);
    RunStaysSound([], evs);
    var i := HighestRow(rows);
    r := rows[i];
    ContainedRowWasDispatched(r);
  }

  lemma HighestRow(rows: seq<Row>) returns (i: nat)
    requires StatusOf(rows) != Detected
    ensures i < |rows| && ItemStatus(ItemOf(rows[i])) == StatusOf(rows)
  {
    var items := Items(rows);
    JoinIsHighest(items);
    var x :| x in items && ItemStatus(x) == Join(items);
    i :| 0 <= i < |items| && items[i] == x;
  }

  // ---- what a row keeps and what it reports ----

  /** The detail that came with the latest change of a row's command, or the one it had before. */
  function LatestDetail(before: Option<string>, evs: seq<Event>, i: nat): Option<string>
    decreases |evs|
  {
    if evs == [] then before
    else if evs[0].Touch? && evs[0].row == i && evs[0].change.Advance? then
      LatestDetail(evs[0].change.detail, evs[1..], i)
    else
      LatestDetail(before, evs[1..], i)
  }

  /**
   Rows are never removed, reordered or renamed: after any run, a row has the action and the simulation it
   had, and the detail of the latest change of its command.
   */
  lemma {:induction false} RowsKeepTheirAction(rows: seq<Row>, evs: seq<Event>, i: nat)
    requires Run(rows, evs) && i < |rows|
    ensures |Execute(rows, evs)| == |rows| + Appends(evs)
    ensures var r := Execute(rows, evs)[i];
            && r.action == rows[i].action && r.simulation == rows[i].simulation
            && r.detail == LatestDetail(rows[i].detail, evs, i)
    decreases |evs|
  {
    if evs != [] {
      RowsKeepTheirAction(Step(rows, evs[0]), evs[1..], i);
    }
  }

  /** An appended action is pending, holds what it was appended with, and has no detail until one is reported. */
  lemma AppendedRowKeepsItsAction(rows: seq<Row>, action: string, simulation: Option<string>, evs: seq<Event>)
    requires Run(rows, [Append(action, simulation)] + evs)
    ensures Execute(rows, [Append(action, simulation)])
         == rows + [Row(action, Pending, None, None, simulation, [Pending])]
    ensures var later := Execute(rows, [Append(action, simulation)] + evs);
            && |rows| < |later|
            && later[|rows|].action == action && later[|rows|].simulation == simulation
            && later[|rows|].detail == LatestDetail(None, evs, |rows|)
  {
    assert ([Append(action, simulation)] + evs)[1..] == evs;
    RowsKeepTheirAction(Step(rows, Append(action, simulation)), evs, |rows|);
  }

  // ---- how long a run can be ----

  function Work(rows: seq<Row>): nat {
    if rows == [] then 0 else Work(rows[..|rows| - 1]) + Remaining(Canonical(rows[|rows| - 1]))
  }

  lemma {:induction false} WorkUpdated(rows: seq<Row>, i: nat, r: Row)
    requires i < |rows|
    ensures Work(rows[i := r]) == Work(rows) - Remaining(Canonical(rows[i])) + Remaining(Canonical(r))
  {
    var n := |rows| - 1;
    if i == n {
      assert rows[i := r][..n] == rows[..n];
    } else {
      assert rows[i := r][..n] == rows[..n][i := r];
      WorkUpdated(rows[..n], i, r);
    }
  }

  function Appends(evs: seq<Event>): nat {
    if evs == [] then 0 else (if evs[0].Append? then 1 else 0) + Appends(evs[1..])
  }

  /** However n actions interleave, they make no more than 4n transitions in all. */
  lemma {:induction false} RunsAreBounded(rows: seq<Row>, evs: seq<Event>)
    requires AllSound(rows) && Run(rows, evs)
    ensures |evs| + Work(Execute(rows, evs)) <= Work(rows) + 5 * Appends(evs)
    ensures rows == [] ==> |evs| - Appends(evs) <= 4 * Appends(evs)
    decreases |evs|
  {
    if evs != [] {
      var next := Step(rows, evs[0]);
      StepStaysSound(rows, evs[0]);
      RunsAreBounded(next, evs[1..]);
      match evs[0]
      case Append(_, _) =>
        assert next[..|next| - 1] == rows;
      case Touch(i, change) =>
        WorkUpdated(rows, i, Apply(rows[i], change));
        ChangeIsTransition(rows[i], change);
        TransitionDescends(Canonical(rows[i]), Canonical(Apply(rows[i], change)));
    }
  }
}
