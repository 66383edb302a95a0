/** Status and times of a conversation, told from what happened to it. */
module ChatTimes {
  import opened Prelude
  import opened Chats

  // ----- Who wrote last -----

  /** A message of one side to a thread: an answer, or the first one of a new conversation. */
  predicate IsMessage(threads: seq<Thread>, step: Step, id: nat, byCustomer: bool) {
    || (step.Reply? && step.id == id && id < |threads| && step.byCustomer == byCustomer)
    || (step.Create? && !Refused(threads, step) && id == |threads| && byCustomer)
  }

  /** A later message, a chosen status or the end of the order can give the thread another status. */
  predicate MaySetStatus(step: Step, id: nat, orderId: Option<string>) {
    || ((step.Reply? || step.SetStatus?) && step.id == id)
    || (step.OrderEnded? && orderId == Some(step.orderId))
  }

  lemma {:induction false} MessageSets(threads: seq<Thread>, step: Step, id: nat, byCustomer: bool)
    requires IsMessage(threads, step, id, byCustomer)
    ensures id < |Apply(threads, step)|
    ensures Apply(threads, step)[id].status == if byCustomer then Open else InProgress
  {}

  lemma {:induction false} StatusStays(threads: seq<Thread>, step: Step, id: nat)
    requires id < |threads| && threads[id].status != Resolved && !MaySetStatus(step, id, threads[id].orderId)
    ensures |Apply(threads, step)| >= |threads|
    ensures Apply(threads, step)[id].status == threads[id].status && Apply(threads, step)[id].orderId == threads[id].orderId
  {}

  /** In every run a thread that a message was the last to set is open after a customer's and in progress after one of
      the staff. */
  lemma {:induction false} LastMessageDecides(steps: seq<Step>, k: nat, id: nat, byCustomer: bool)
    requires k < |steps| && IsMessage(Run(steps[..k]), steps[k], id, byCustomer)
    requires id < |Run(steps[..k + 1])|
    requires forall j :: k < j < |steps| ==> !MaySetStatus(steps[j], id, Run(steps[..k + 1])[id].orderId)
    ensures id < |Run(steps)|
    ensures Run(steps)[id].status == if byCustomer then Open else InProgress
    ensures Run(steps)[id].orderId == Run(steps[..k + 1])[id].orderId
  {
    hide Apply, IsMessage, MaySetStatus;
    var n := |steps| - 1;
    if k == n {
      assert steps[..k + 1] == steps;
      MessageSets(Run(steps[..n]), steps[n], id, byCustomer);
    } else {
      assert steps[..n][..k] == steps[..k] && steps[..n][..k + 1] == steps[..k + 1];
      LastMessageDecides(steps[..n], k, id, byCustomer);
      StatusStays(Run(steps[..n]), steps[n], id);
    }
  }

  /** What a conversation is about never changes, and a new one is about what it was started for. */
  lemma {:induction false} AboutStays(threads: seq<Thread>, step: Step, id: nat)
    requires id < |Apply(threads, step)|
    ensures var after := Apply(threads, step)[id];
      if id < |threads| then
        after.customerId == threads[id].customerId && after.orderId == threads[id].orderId && after.source == threads[id].source
      else if step.EnsureDelivery? then
        after.customerId == step.customerId && after.orderId == Some(step.orderId) && after.source == DeliveryChat
        && after.deliverymanId == Some(step.deliverymanId)
      else
        step.Create? && after.customerId == step.customerId && after.orderId == step.about && after.deliverymanId.None?
        && after.source == if step.about.Some? then FromOrder else Support
  {}

  /** The staff member of the last assignment of the thread, if there was one. */
  function LastAssigned(steps: seq<Step>, id: nat): Option<string> {
    if steps == [] then None
    else
      var n := |steps| - 1;
      if steps[n].Assign? && steps[n].id == id && id < |Run(steps[..n])| then steps[n].staff else LastAssigned(steps[..n], id)
  }

  lemma {:induction false} NeverAssigned(steps: seq<Step>, id: nat)
    requires id >= |Run(steps)|
    ensures LastAssigned(steps, id).None?
  {
    if steps != [] {
      var n := |steps| - 1;
      StampsWithin(Run(steps[..n]), steps[n]);
      hide Apply;
      NeverAssigned(steps[..n], id);
    }
  }

  /** In every run a thread is assigned to whom it was assigned last. */
  lemma {:induction false} RunAssigned(steps: seq<Step>, id: nat)
    requires id < |Run(steps)|
    ensures Run(steps)[id].assignedStaff == LastAssigned(steps, id)
  {
    var n := |steps| - 1;
    if id < |Run(steps[..n])| {
      RunAssigned(steps[..n], id);
    } else {
      NeverAssigned(steps[..n], id);
    }
  }

  // ----- When -----

  datatype Event = Started | CustomerMessage | StaffMessage | CustomerRead | StaffRead | StatusChange

  datatype Stamp = Stamp(id: nat, event: Event, at: nat)

  /** The messages, reads and status changes of a step, with their time. */
  function Stamps(threads: seq<Thread>, step: Step): seq<Stamp> {
    match step
    case Create(_, _, now) => if Refused(threads, step) then [] else [Stamp(|threads|, CustomerMessage, now)]
    case Reply(id, byCustomer, now) =>
      if id < |threads| then [Stamp(id, if byCustomer then CustomerMessage else StaffMessage, now)] else []
    case MarkRead(id, byCustomer, now) =>
      if id < |threads| then [Stamp(id, if byCustomer then CustomerRead else StaffRead, now)] else []
    case SetStatus(id, _, now) => if id < |threads| then [Stamp(id, StatusChange, now)] else []
    case EnsureDelivery(orderId, _, _, now) =>
      if FindFirst(threads, IsDeliveryOf(orderId)).Some? then [] else [Stamp(|threads|, Started, now)]
    case _ => []
  }

  function History(steps: seq<Step>): seq<Stamp> {
    if steps == [] then []
    else History(steps[..|steps| - 1]) + Stamps(Run(steps[..|steps| - 1]), steps[|steps| - 1])
  }

  /** The time of a thread's last event of some kinds, unless one of other kinds came after it. */
  function LastAt(history: seq<Stamp>, id: nat, kinds: set<Event>, voids: set<Event>): Option<nat> {
    if history == [] then None
    else
      var last, front := history[|history| - 1], history[..|history| - 1];
      if last.id == id && last.event in kinds then Some(last.at)
      else if last.id == id && last.event in voids then None
      else LastAt(front, id, kinds, voids)
  }

  ghost predicate Timed(t: Thread, history: seq<Stamp>, id: nat) {
    && LastAt(history, id, {Started, CustomerMessage, StaffMessage}, {}) == Some(t.lastMessageAt)
    && LastAt(history, id, {CustomerMessage, CustomerRead}, {}) == t.customerLastReadAt
    && LastAt(history, id, {StaffMessage, StaffRead, StatusChange}, {CustomerMessage}) == t.staffLastReadAt
  }

  ghost predicate AllTimed(threads: seq<Thread>, history: seq<Stamp>) {
    && (forall k :: 0 <= k < |history| ==> history[k].id < |threads|)
    && (forall id: nat :: id < |threads| ==> Timed(threads[id], history, id))
  }

  lemma {:induction false} LastSnoc(history: seq<Stamp>, stamp: Stamp, id: nat, kinds: set<Event>, voids: set<Event>)
    ensures LastAt(history + [stamp], id, kinds, voids)
         == if stamp.id == id && stamp.event in kinds then Some(stamp.at)
            else if stamp.id == id && stamp.event in voids then None
            else LastAt(history, id, kinds, voids)
  {
    assert (history + [stamp])[..|history|] == history;
  }

  lemma {:induction false} NothingBefore(history: seq<Stamp>, id: nat, kinds: set<Event>, voids: set<Event>)
    requires forall k :: 0 <= k < |history| ==> history[k].id < id
    ensures LastAt(history, id, kinds, voids).None?
  {
    if history != [] {
      NothingBefore(history[..|history| - 1], id, kinds, voids);
    }
  }

  /** The times of a thread, those of no thread yet being none. */
  function TimesOf(threads: seq<Thread>, id: nat): (Option<nat>, Option<nat>, Option<nat>) {
    if id < |threads| then (Some(threads[id].lastMessageAt), threads[id].customerLastReadAt, threads[id].staffLastReadAt)
    else (None, None, None)
  }

  function Shifted(time: Option<nat>, stamp: Stamp, kinds: set<Event>, voids: set<Event>): Option<nat> {
    if stamp.event in kinds then Some(stamp.at) else if stamp.event in voids then None else time
  }

  lemma {:induction false} StepTimes(threads: seq<Thread>, step: Step, id: nat)
    requires id < |Apply(threads, step)|
    ensures var after, stamps, before := TimesOf(Apply(threads, step), id), Stamps(threads, step), TimesOf(threads, id);
      && |stamps| <= 1
      && (forall k :: 0 <= k < |stamps| ==> stamps[k].id < |Apply(threads, step)|)
      && |Apply(threads, step)| >= |threads|
      && if stamps != [] && stamps[0].id == id
         then after == (Shifted(before.0, stamps[0], {Started, CustomerMessage, StaffMessage}, {}),
                        Shifted(before.1, stamps[0], {CustomerMessage, CustomerRead}, {}),
                        Shifted(before.2, stamps[0], {StaffMessage, StaffRead, StatusChange}, {CustomerMessage}))
         else after == before
  {}

  lemma {:induction false} StepTimed(threads: seq<Thread>, history: seq<Stamp>, step: Step)
    requires AllTimed(threads, history)
    ensures AllTimed(Apply(threads, step), history + Stamps(threads, step))
  {
    var after, stamps := Apply(threads, step), Stamps(threads, step);
    StampsWithin(threads, step);
    forall id: nat | id < |after|
      ensures Timed(after[id], history + stamps, id)
    {
      StepTimes(threads, step, id);
      hide Apply, Stamps, LastAt;
      if id >= |threads| {
        NothingBefore(history, id, {Started, CustomerMessage, StaffMessage}, {});
        NothingBefore(history, id, {CustomerMessage, CustomerRead}, {});
        NothingBefore(history, id, {StaffMessage, StaffRead, StatusChange}, {CustomerMessage});
      }
      if stamps == [] {
        assert history + stamps == history;
      } else {
        assert history + stamps == history + [stamps[0]];
        LastSnoc(history, stamps[0], id, {Started, CustomerMessage, StaffMessage}, {});
        LastSnoc(history, stamps[0], id, {CustomerMessage, CustomerRead}, {});
        LastSnoc(history, stamps[0], id, {StaffMessage, StaffRead, StatusChange}, {CustomerMessage});
      }
    }
  }

  lemma {:induction false} StampsWithin(threads: seq<Thread>, step: Step)
    ensures |Apply(threads, step)| >= |threads|
    ensures forall k :: 0 <= k < |Stamps(threads, step)| ==> Stamps(threads, step)[k].id < |Apply(threads, step)|
  {}

  /** In every run a thread's last message is that of the last message or its start, the customer's last read the
      customer's last message or read, and the staff's last read the staff's last message, read or change of status, or
      none when the customer has written since. */
  lemma {:induction false} RunTimed(steps: seq<Step>)
    ensures AllTimed(Run(steps), History(steps))
  {
    if steps != [] {
      hide Apply, AllTimed, Stamps;
      RunTimed(steps[..|steps| - 1]);
      StepTimed(Run(steps[..|steps| - 1]), History(steps[..|steps| - 1]), steps[|steps| - 1]);
    } else {
      assert Run(steps) == [] && History(steps) == [];
    }
  }
}
