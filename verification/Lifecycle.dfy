/** The response lifecycle state machine (response_engine/lifecycle.py). */
module Lifecycle {

  datatype State =
    | Pending | Authorized | Dispatched | Accepted | Succeeded | Failed | Rejected | Indeterminate | Cancelled | Expired

  predicate IsTerminal(s: State) {
    s in {Succeeded, Failed, Rejected, Indeterminate, Cancelled, Expired}
  }

  function Legal(s: State): set<State> {
    match s
    case Pending => {Authorized, Cancelled}
    case Authorized => {Dispatched, Cancelled}
    case Dispatched => {Accepted, Succeeded, Failed, Rejected, Indeterminate}
    case Accepted => {Succeeded, Failed, Rejected, Indeterminate}
    case _ => {}
  }

  /** is_legal_transition */
  predicate IsLegalTransition(current: State, requested: State) {
    if IsTerminal(current) then false
    else if requested == Expired then true
    else requested in Legal(current)
  }

  /** How far along the path to a report a state stands; a terminal state has left the path. */
  function Stage(s: State): int {
    match s
    case Pending => 0
    case Authorized => 1
    case Dispatched => 2
    case Accepted => 3
    case _ => -1
  }

  /**
   The legal transitions: one stage on; to a report once dispatched; to cancelled before dispatch; to
   expired at any stage; and from terminal states none.
   */
  lemma TransitionsExactly(s: State, t: State)
    ensures IsLegalTransition(s, t)
        <==> Stage(s) >= 0
             && (|| Stage(t) == Stage(s) + 1
                 || (t in {Succeeded, Failed, Rejected, Indeterminate} && Stage(s) >= 2)
                 || (t == Cancelled && Stage(s) < 2)
                 || t == Expired)
  {
  }

  /** How many transitions a state still has ahead of it at most. */
  function Remaining(s: State): (n: nat)
    ensures n <= 4
  {
    match s
    case Pending => 4
    case Authorized => 3
    case Dispatched => 2
    case Accepted => 1
    case _ => 0
  }

  lemma TransitionDescends(s: State, t: State)
    requires IsLegalTransition(s, t)
    ensures Remaining(t) < Remaining(s)
  {
  }

  // ---- the history of one action ----

  /** Every state follows legally from the one before it. */
  predicate IsHistory(h: seq<State>) {
    h != [] && h[0] == Pending && forall i :: 0 < i < |h| ==> IsLegalTransition(h[i - 1], h[i])
  }

  lemma {:induction false} HistoryDescends(h: seq<State>, i: nat, j: nat)
    requires IsHistory(h) && i <= j < |h|
    ensures Remaining(h[j]) + (j - i) <= Remaining(h[i])
    decreases j
  {
    if i < j {
      HistoryDescends(h, i, j - 1);
      TransitionDescends(h[j - 1], h[j]);
    }
  }

  /** One action makes at most four transitions, meets no state twice, and ends at its first terminal state. */
  lemma HistoryIsShort(h: seq<State>)
    requires IsHistory(h)
    ensures |h| <= 5
    ensures forall i, j :: 0 <= i < j < |h| ==> h[i] != h[j]
    ensures forall i :: 0 <= i < |h| - 1 ==> !IsTerminal(h[i])
  {
    HistoryDescends(h, 0, |h| - 1);
    forall i, j | 0 <= i < j < |h|
      ensures h[i] != h[j]
    {
      HistoryDescends(h, i, j);
    }
    forall i | 0 <= i < |h| - 1
      ensures !IsTerminal(h[i])
    {
      assert IsLegalTransition(h[i + 1 - 1], h[i + 1]);
    }
  }

  /** Where in a history each state can stand, and what stands before it. */
  lemma {:induction false} HistoryShape(h: seq<State>, i: nat)
    requires IsHistory(h) && i < |h|
    ensures h[i] == Pending <==> i == 0
    ensures h[i] == Authorized ==> i == 1
    ensures h[i] == Dispatched ==> i == 2 && h[1] == Authorized
    ensures h[i] in {Accepted, Succeeded, Failed, Rejected, Indeterminate}
        ==> i > 2 && h[1] == Authorized && h[2] == Dispatched
    ensures h[i] == Cancelled ==> i <= 2
  {
    if i > 0 {
      HistoryShape(h, i - 1);
      assert IsLegalTransition(h[i - 1], h[i]);
    }
  }

  /** A cancelled action was never dispatched, and a dispatched one is never cancelled. */
  lemma CancelledNeverDispatched(h: seq<State>)
    requires IsHistory(h)
    ensures !(Dispatched in h && Cancelled in h)
  {
    HistoryIsShort(h);
    forall i | 0 <= i < |h|
      ensures h[i] == Dispatched ==> i == 2
      ensures h[i] == Cancelled ==> i <= 2 && i == |h| - 1
    {
      HistoryShape(h, i);
    }
  }
}
