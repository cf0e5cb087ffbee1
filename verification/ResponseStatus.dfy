/** The one status of an incident's response actions (derive_response_status in response_engine/automation.py). */
module ResponseStatus {
  import opened Wrappers

  datatype Status =
    | Resolved | Contained | ContainmentUnverified | ContainmentFailed | ResponseExecuting | AwaitingApproval
    | SimulatedContainment | ResponseRecorded | Detected

  /** One response action as listed to the fold; a field that is absent or null is None. */
  datatype Item = Item(
    action: Option<string>, lifecycle: Option<string>, command: Option<string>, detail: Option<string>,
    simulation: Option<string>)

  const VERIFIED_PREFIX := "verified:"

  predicate IsContainment(action: Option<string>) {
    action in {Some("KILL_PROCESS"), Some("QUARANTINE_FILE"), Some("ISOLATE_HOST")}
  }

  predicate IsVerified(detail: Option<string>) {
    detail.Some? && VERIFIED_PREFIX <= detail.value
  }

  /** What a single item contributes. */
  function ItemStatus(x: Item): (s: Status)
    ensures s != Resolved && s != Detected
  {
    var containment := IsContainment(x.action);
    if containment && x.command == Some("SUCCEEDED") then
      if IsVerified(x.detail) then Contained else ContainmentUnverified
    else if containment && x.command in {Some("FAILED"), Some("REJECTED"), Some("INDETERMINATE"), Some("EXPIRED")} then
      ContainmentFailed
    else if containment && x.command in {Some("AUTHORIZED"), Some("DISPATCHED"), Some("ACCEPTED")} then
      ResponseExecuting
    else if containment && x.lifecycle == Some("PENDING") then
      AwaitingApproval
    else if x.simulation == Some("simulated") then
      SimulatedContainment
    else
      ResponseRecorded
  }

  function Precedence(s: Status): nat {
    match s
    case Resolved => 8
    case Contained => 7
    case ContainmentUnverified => 6
    case ContainmentFailed => 5
    case ResponseExecuting => 4
    case AwaitingApproval => 3
    case SimulatedContainment => 2
    case ResponseRecorded => 1
    case Detected => 0
  }

  const ORDER := [
    Contained, ContainmentUnverified, ContainmentFailed, ResponseExecuting, AwaitingApproval, SimulatedContainment,
    ResponseRecorded
  ]

  /** The join of two statuses. */
  function Higher(s: Status, t: Status): Status {
    if Precedence(s) >= Precedence(t) then s else t
  }

  /** The status of an unresolved incident: the join of what its items contribute. */
  function Join(items: seq<Item>): (s: Status)
    ensures s != Resolved
  {
    if items == [] then Detected else Higher(ItemStatus(items[0]), Join(items[1..]))
  }

  predicate Closed(incident: Option<string>) {
    incident == Some("resolved") || incident == Some("false_positive")
  }

  function Derive(items: seq<Item>, incident: Option<string>): Status {
    if Closed(incident) then Resolved else Join(items)
  }

  lemma {:induction false} JoinIsHighest(items: seq<Item>)
    ensures forall x :: x in items ==> Precedence(ItemStatus(x)) <= Precedence(Join(items))
    ensures if items == [] then Join(items) == Detected else exists x :: x in items && ItemStatus(x) == Join(items)
  {
    if items != [] {
      JoinIsHighest(items[1..]);
      assert items[0] in items && forall x :: x in items <==> x == items[0] || x in items[1..];
      if Join(items) != ItemStatus(items[0]) {
        var x :| x in items[1..] && ItemStatus(x) == Join(items[1..]);
      }
    }
  }

  /** derive_response_status */
  method DeriveStatus(items: seq<Item>, incident: Option<string>) returns (status: Status)
    ensures status == Derive(items, incident)
  {
    if Closed(incident) {
      return Resolved;
    }
    var found: set<Status> := {};
    for i := 0 to |items|
      invariant forall s :: s in found <==> exists j :: 0 <= j < i && ItemStatus(items[j]) == s
    {
      found := found + {ItemStatus(items[i])};
    }
    JoinIsHighest(items);
    assert forall s :: s in found <==> exists x :: x in items && ItemStatus(x) == s;
    for k := 0 to |ORDER|
      invariant forall j :: 0 <= j < k ==> ORDER[j] !in found
    {
      if ORDER[k] in found {
        JoinAtOrder(items, k);
        return ORDER[k];
      }
    }
    if items != [] {
      OrderHolds(ItemStatus(items[0]));
      assert false;
    }
    status := Detected;
  }

  /** The order runs down the precedences and leaves out no status that an item can contribute. */
  lemma OrderRank(k: nat)
    requires k < |ORDER|
    ensures Precedence(ORDER[k]) == 7 - k
  {
  }

  lemma OrderHolds(s: Status)
    requires s != Resolved && s != Detected
    ensures 0 <= 7 - Precedence(s) < |ORDER| && ORDER[7 - Precedence(s)] == s
  {
  }

  /** The first status of the order that some item contributes is the join. */
  lemma JoinAtOrder(items: seq<Item>, k: nat)
    requires k < |ORDER| && exists x :: x in items && ItemStatus(x) == ORDER[k]
    requires forall j :: 0 <= j < k ==> forall x :: x in items ==> ItemStatus(x) != ORDER[j]
    ensures Join(items) == ORDER[k]
  {
    JoinIsHighest(items);
    var x :| x in items && ItemStatus(x) == Join(items);
    OrderHolds(ItemStatus(x));
    OrderRank(k);
  }

  // ---- what each item contributes, on its own terms ----

  predicate Containing(x: Item) {
    x.action == Some("KILL_PROCESS") || x.action == Some("QUARANTINE_FILE") || x.action == Some("ISOLATE_HOST")
  }

  predicate CommandIn(x: Item, states: set<string>) {
    x.command.Some? && x.command.value in states
  }

  ghost predicate SaysVerified(x: Item) {
    exists rest :: x.detail == Some("verified:" + rest)
  }

  lemma VerifiedExactly(x: Item)
    ensures IsVerified(x.detail) <==> SaysVerified(x)
  {
    if IsVerified(x.detail) {
      assert x.detail.value == "verified:" + x.detail.value[9..];
    }
  }

  /** What an item contributes, contribution by contribution. */
  lemma ContributionsExactly(x: Item)
    ensures ItemStatus(x) == Contained <==> Containing(x) && CommandIn(x, {"SUCCEEDED"}) && SaysVerified(x)
    ensures ItemStatus(x) == ContainmentUnverified <==> Containing(x) && CommandIn(x, {"SUCCEEDED"}) && !SaysVerified(x)
    ensures ItemStatus(x) == ContainmentFailed
        <==> Containing(x) && CommandIn(x, {"FAILED", "REJECTED", "INDETERMINATE", "EXPIRED"})
    ensures ItemStatus(x) == ResponseExecuting
        <==> Containing(x) && CommandIn(x, {"AUTHORIZED", "DISPATCHED", "ACCEPTED"})
    ensures ItemStatus(x) == AwaitingApproval <==> Idle(x) && Containing(x) && x.lifecycle == Some("PENDING")
    ensures ItemStatus(x) == SimulatedContainment
        <==> x.simulation == Some("simulated") && !(Containing(x) && (!Idle(x) || x.lifecycle == Some("PENDING")))
    ensures ItemStatus(x) == ResponseRecorded
        <==> x.simulation != Some("simulated") && !(Containing(x) && (!Idle(x) || x.lifecycle == Some("PENDING")))
  {
    VerifiedExactly(x);
  }

  /** No command of this item is under way or reported. */
  predicate Idle(x: Item) {
    !CommandIn(x, {"SUCCEEDED", "FAILED", "REJECTED", "INDETERMINATE", "EXPIRED", "AUTHORIZED", "DISPATCHED", "ACCEPTED"})
  }

  /** Only a resolved incident or a false positive is reported as resolved. */
  lemma ResolvedExactly(items: seq<Item>, incident: Option<string>)
    ensures Derive(items, incident) == Resolved <==> incident == Some("resolved") || incident == Some("false_positive")
  {
  }

  // ---- the laws of the fold ----

  lemma HigherIsJoin(s: Status, t: Status, u: Status)
    ensures Higher(s, s) == s && Higher(s, t) == Higher(t, s)
    ensures Higher(Higher(s, t), u) == Higher(s, Higher(t, u))
    ensures Higher(Detected, s) == s
  {
  }

  /** The status of two lists together is the higher of their statuses. */
  lemma {:induction false} JoinOfConcat(xs: seq<Item>, ys: seq<Item>)
    ensures Join(xs + ys) == Higher(Join(xs), Join(ys))
  {
    if xs == [] {
      assert xs + ys == ys;
    } else {
      assert (xs + ys)[1..] == xs[1..] + ys;
      JoinOfConcat(xs[1..], ys);
    }
  }

  /** Only which items are listed matters: neither order nor repetition does, and more items never lower the status. */
  lemma JoinMonotone(xs: seq<Item>, ys: seq<Item>)
    requires forall x :: x in xs ==> x in ys
    ensures Precedence(Join(xs)) <= Precedence(Join(ys))
    ensures (forall y :: y in ys ==> y in xs) ==> Join(xs) == Join(ys)
  {
    JoinIsHighest(xs);
    JoinIsHighest(ys);
  }
}
