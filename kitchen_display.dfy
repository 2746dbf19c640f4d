/**
 * The admin kitchen display: for each order card, the one forward action
 * its status offers (received, cooking, ready, completed) and the colour
 * of its status badge. The status change itself is a PATCH to the server.
 */
module KitchenDisplay {
  import opened Wrappers
  import opened OrderServer

  const Cooking := "cooking"
  const Ready := "ready"
  const Completed := "completed"

  /** A button on the order card: its caption and the status it sends. */
  datatype Action = Action(caption: string, target: string)

  /** The buttons under an order card, one conditional block per status. */
  function OfferedActions(status: string): (r: seq<Action>)
    ensures |r| <= 1
  {
    (if status == Received then [Action("Start Cooking", Cooking)] else [])
    + (if status == Cooking then [Action("Mark Ready", Ready)] else [])
    + (if status == Ready then [Action("Complete", Completed)] else [])
  }

  /** The status the card's button moves an order to, if it has one. */
  function NextStatus(status: string): Option<string> {
    var actions := OfferedActions(status);
    if actions == [] then None else Some(actions[0].target)
  }

  /** Each lifecycle status offers exactly one action, to the next status; any other status offers none. */
  lemma OfferedActionsByStatus(status: string)
    ensures status == Received ==> OfferedActions(status) == [Action("Start Cooking", Cooking)]
    ensures status == Cooking ==> OfferedActions(status) == [Action("Mark Ready", Ready)]
    ensures status == Ready ==> OfferedActions(status) == [Action("Complete", Completed)]
    ensures status != Received && status != Cooking && status != Ready ==> OfferedActions(status) == []
  {
  }

  /** How many forward steps remain before `completed`; 0 for `completed` and for unknown statuses. */
  function StepsLeft(status: string): nat {
    if status == Received then 3
    else if status == Cooking then 2
    else if status == Ready then 1
    else 0
  }

  /** Every offered action brings the order exactly one step closer to completion. */
  lemma NextStatusAdvances(status: string)
    ensures NextStatus(status).Some? <==> StepsLeft(status) > 0
    ensures NextStatus(status).Some? ==> StepsLeft(NextStatus(status).value) == StepsLeft(status) - 1
  {
    OfferedActionsByStatus(status);
  }

  /** The statuses an order passes through by following the offered actions from `status`. */
  function Lifecycle(status: string): seq<string>
    decreases StepsLeft(status)
  {
    NextStatusAdvances(status);
    match NextStatus(status)
    case None => [status]
    case Some(next) => [status] + Lifecycle(next)
  }

  /**
   * Following the actions counts the remaining steps down by one at a time,
   * so no status is visited twice and the walk stops at a status with no action.
   */
  lemma {:induction false} LifecycleNeverRevisits(status: string)
    ensures var path := Lifecycle(status);
      && |path| == StepsLeft(status) + 1
      && (forall k :: 0 <= k < |path| ==> StepsLeft(path[k]) == StepsLeft(status) - k)
      && (forall i, j :: 0 <= i < j < |path| ==> path[i] != path[j])
      && NextStatus(path[|path| - 1]).None?
    decreases StepsLeft(status)
  {
    NextStatusAdvances(status);
    var path := Lifecycle(status);
    match NextStatus(status)
    case None =>
    case Some(next) =>
      LifecycleNeverRevisits(next);
      assert path == [status] + Lifecycle(next);
      forall k | 0 <= k < |path| ensures StepsLeft(path[k]) == StepsLeft(status) - k {
        if k > 0 { assert path[k] == Lifecycle(next)[k - 1]; }
      }
      forall i, j | 0 <= i < j < |path| ensures path[i] != path[j] {
        assert StepsLeft(path[i]) != StepsLeft(path[j]);
      }
  }

  /** From `received` the offered actions reach `completed` in exactly three steps. */
  lemma ReceivedReachesCompleted()
    ensures Lifecycle(Received) == [Received, Cooking, Ready, Completed]
  {
    OfferedActionsByStatus(Received);
    OfferedActionsByStatus(Cooking);
    OfferedActionsByStatus(Ready);
    OfferedActionsByStatus(Completed);
  }

  /** Every order the server creates starts at the head of that lifecycle. */
  lemma NewOrderStartsLifecycle(req: CreateRequest, id: OrderId, now: int)
    requires HasItems(req)
    ensures Lifecycle(NewOrder(req, id, now).status) == [Received, Cooking, Ready, Completed]
  {
    ReceivedReachesCompleted();
  }

  /**
   * Pressing an offered button sends a patch carrying only the new status:
   * the stored order moves to that status and keeps its payment status.
   */
  lemma ActionPatchAdvancesOrder(o: Order)
    requires NextStatus(o.status).Some?
    ensures var r := ApplyPatch(o, PatchRequest(Some(NextStatus(o.status).value), None));
      && r.status == NextStatus(o.status).value
      && r.paymentStatus == o.paymentStatus
      && StepsLeft(r.status) == StepsLeft(o.status) - 1
  {
    OfferedActionsByStatus(o.status);
    NextStatusAdvances(o.status);
  }

  datatype Badge = Green | Yellow | Blue

  /** The status badge colour. */
  function BadgeFor(status: string): (b: Badge)
    ensures b == Green <==> status == Completed
    ensures b == Yellow <==> status == Ready
    ensures b == Blue <==> status != Completed && status != Ready
  {
    if status == Completed then Green
    else if status == Ready then Yellow
    else Blue
  }
}
