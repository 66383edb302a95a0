/** What every run of conversation operations keeps. */
module ChatRuns {
  import opened Prelude
  import opened Chats

  // ----- What happened to a thread -----

  datatype Event = CustomerMessage | StaffMessage | CustomerRead | StaffRead | StatusChange

  datatype Entry = Entry(id: nat, event: Event)

  /** The messages, reads and status changes a step adds to the record. */
  function Emitted(threads: seq<Thread>, step: Step): seq<Entry> {
    match step
    case Create(_, _, _) => if Refused(threads, step) then [] else [Entry(|threads|, CustomerMessage)]
    case Reply(id, byCustomer, _) =>
      if id < |threads| then [Entry(id, if byCustomer then CustomerMessage else StaffMessage)] else []
    case MarkRead(id, byCustomer, _) =>
      if id < |threads| then [Entry(id, if byCustomer then CustomerRead else StaffRead)] else []
    case SetStatus(id, _, _) => if id < |threads| then [Entry(id, StatusChange)] else []
    case _ => []
  }

  function Record(steps: seq<Step>): seq<Entry> {
    if steps == [] then []
    else Record(steps[..|steps| - 1]) + Emitted(Run(steps[..|steps| - 1]), steps[|steps| - 1])
  }

  /** How often `counted` happened to a thread since the last event that clears. */
  function CountSince(record: seq<Entry>, id: nat, counted: Event, clears: set<Event>): nat {
    if record == [] then 0
    else
      var last, front := record[|record| - 1], record[..|record| - 1];
      if last.id != id then CountSince(front, id, counted, clears)
      else if last.event in clears then 0
      else CountSince(front, id, counted, clears) + (if last.event == counted then 1 else 0)
  }

  /** Customer messages since the last staff reply, staff read or status change. */
  function StaffUnreadOf(record: seq<Entry>, id: nat): nat {
    CountSince(record, id, CustomerMessage, {StaffMessage, StaffRead, StatusChange})
  }

  /** Staff messages since the last customer message or customer read. */
  function CustomerUnreadOf(record: seq<Entry>, id: nat): nat {
    CountSince(record, id, StaffMessage, {CustomerMessage, CustomerRead})
  }

  // ----- Invariants -----

  ghost predicate ThreadConsistent(t: Thread) {
    && (t.status == Resolved <==> t.resolvedAt.Some?)
    && (t.staffUnread > 0 ==> t.staffLastReadAt.None?)
  }

  ghost predicate OneDeliveryEach(threads: seq<Thread>) {
    forall i, j :: 0 <= i < j < |threads| && threads[i].source == DeliveryChat && threads[j].source == DeliveryChat
      ==> threads[i].orderId != threads[j].orderId
  }

  ghost predicate DeliveryHasOrder(threads: seq<Thread>) {
    forall i :: 0 <= i < |threads| && threads[i].source == DeliveryChat ==> threads[i].orderId.Some?
  }

  ghost predicate Consistent(threads: seq<Thread>) {
    && (forall i :: 0 <= i < |threads| ==> ThreadConsistent(threads[i]))
    && OneDeliveryEach(threads)
    && DeliveryHasOrder(threads)
  }

  /** The thread a step may leave open, if it changes or adds one. */
  function Touched(threads: seq<Thread>, step: Step): Option<nat> {
    match step
    case Create(_, _, _) => if Refused(threads, step) then None else Some(|threads|)
    case EnsureDelivery(orderId, _, _, _) =>
      var at := FindFirst(threads, IsDeliveryOf(orderId));
      if at.Some? then at else Some(|threads|)
    case OrderEnded(_, _) => None
    case _ => if step.id < |threads| then Some(step.id) else None
  }

  /** Changing a thread, but not what it is about. */
  lemma {:induction false} ChangeConsistent(threads: seq<Thread>, id: nat, t: Thread)
    requires Consistent(threads) && id < |threads| && ThreadConsistent(t)
    requires t.source == threads[id].source && t.orderId == threads[id].orderId
    ensures Consistent(threads[id := t])
  {
    hide ThreadConsistent;
  }

  lemma {:induction false} AddConsistent(threads: seq<Thread>, t: Thread)
    requires Consistent(threads) && ThreadConsistent(t)
    requires t.source == DeliveryChat ==> t.orderId.Some? && FindFirst(threads, IsDeliveryOf(t.orderId.value)).None?
    ensures Consistent(threads + [t])
  {
    hide ThreadConsistent;
    if t.source == DeliveryChat {
      forall i | 0 <= i < |threads| && threads[i].source == DeliveryChat
        ensures threads[i].orderId != t.orderId
      {
        assert !IsDeliveryOf(t.orderId.value)(threads[i]);
      }
    }
  }

  lemma {:induction false} StepConsistent(threads: seq<Thread>, step: Step)
    requires Consistent(threads)
    ensures Consistent(Apply(threads, step))
  {
    var after := Apply(threads, step);
    if after != threads {
      var at := Touched(threads, step);
      if |after| > |threads| {
        AddConsistent(threads, after[|threads|]);
      } else if step.OrderEnded? {
        var id := FindFirst(threads, IsDeliveryOf(step.orderId)).value;
        ChangeConsistent(threads, id, after[id]);
      } else {
        ChangeConsistent(threads, at.value, after[at.value]);
      }
    }
  }

  /** In every reachable table a thread is resolved exactly when its resolution time is set, unread customer messages
      mean staff have not read since, and an order has at most one delivery thread. */
  lemma {:induction false} RunConsistent(steps: seq<Step>)
    ensures Consistent(Run(steps))
  {
    if steps != [] {
      hide Apply, Consistent;
      RunConsistent(steps[..|steps| - 1]);
      StepConsistent(Run(steps[..|steps| - 1]), steps[|steps| - 1]);
    } else {
      assert Run(steps) == [];
    }
  }

  // ----- Unread counters -----

  lemma {:induction false} CountSnoc(record: seq<Entry>, entry: Entry, id: nat, counted: Event, clears: set<Event>)
    ensures CountSince(record + [entry], id, counted, clears)
         == if entry.id != id then CountSince(record, id, counted, clears)
            else if entry.event in clears then 0
            else CountSince(record, id, counted, clears) + (if entry.event == counted then 1 else 0)
  {
    assert (record + [entry])[..|record|] == record;
  }

  /** A thread not yet created has no record. */
  ghost predicate NothingBeyond(record: seq<Entry>, count: nat) {
    forall k :: 0 <= k < |record| ==> record[k].id < count
  }

  lemma {:induction false} NothingCounts(record: seq<Entry>, id: nat, counted: Event, clears: set<Event>)
    requires NothingBeyond(record, id)
    ensures CountSince(record, id, counted, clears) == 0
  {
    if record != [] {
      NothingCounts(record[..|record| - 1], id, counted, clears);
    }
  }

  ghost predicate Counted(threads: seq<Thread>, record: seq<Entry>) {
    && NothingBeyond(record, |threads|)
    && (forall id: nat :: id < |threads| ==>
          threads[id].staffUnread == StaffUnreadOf(record, id) && threads[id].customerUnread == CustomerUnreadOf(record, id))
  }

  function CountersBefore(threads: seq<Thread>, id: nat): (nat, nat) {
    if id < |threads| then (threads[id].staffUnread, threads[id].customerUnread) else (0, 0)
  }

  /** How an event moves one counter. */
  function Moved(count: nat, event: Event, counted: Event, clears: set<Event>): nat {
    if event in clears then 0 else count + (if event == counted then 1 else 0)
  }

  lemma {:induction false} StepCounters(threads: seq<Thread>, step: Step, id: nat)
    requires id < |Apply(threads, step)|
    ensures var after, events, before := Apply(threads, step)[id], Emitted(threads, step), CountersBefore(threads, id);
      && |events| <= 1
      && if events != [] && events[0].id == id
         then after.staffUnread == Moved(before.0, events[0].event, CustomerMessage, {StaffMessage, StaffRead, StatusChange})
              && after.customerUnread == Moved(before.1, events[0].event, StaffMessage, {CustomerMessage, CustomerRead})
         else (after.staffUnread, after.customerUnread) == before
  {}

  lemma {:induction false} StepCounted(threads: seq<Thread>, record: seq<Entry>, step: Step)
    requires Counted(threads, record)
    ensures Counted(Apply(threads, step), record + Emitted(threads, step))
  {
    var after, events := Apply(threads, step), Emitted(threads, step);
    assert NothingBeyond(record + events, |after|);
    forall id: nat | id < |after|
      ensures after[id].staffUnread == StaffUnreadOf(record + events, id)
      ensures after[id].customerUnread == CustomerUnreadOf(record + events, id)
    {
      StepCounters(threads, step, id);
      hide Apply, Emitted, CountSince;
      if id >= |threads| {
        NothingCounts(record, id, CustomerMessage, {StaffMessage, StaffRead, StatusChange});
        NothingCounts(record, id, StaffMessage, {CustomerMessage, CustomerRead});
      }
      if events == [] {
        assert record + events == record;
      } else {
        assert record + events == record + [events[0]];
        CountSnoc(record, events[0], id, CustomerMessage, {StaffMessage, StaffRead, StatusChange});
        CountSnoc(record, events[0], id, StaffMessage, {CustomerMessage, CustomerRead});
      }
    }
  }

  /** In every run the staff counter is the number of customer messages since the last staff reply, staff read or status
      change, and the customer counter the number of staff messages since the customer last wrote or read. */
  lemma {:induction false} RunCounted(steps: seq<Step>)
    ensures Counted(Run(steps), Record(steps))
  {
    if steps != [] {
      hide Apply, Counted, Emitted;
      var front, last := steps[..|steps| - 1], steps[|steps| - 1];
      RunCounted(front);
      StepCounted(Run(front), Record(front), last);
    } else {
      assert Run(steps) == [] && Record(steps) == [];
    }
  }

  // ----- Open conversations about one order -----

  ghost predicate OpenTogether(s: Thread, t: Thread) {
    s.status != Resolved && t.status != Resolved && s.orderId.Some? && s.orderId == t.orderId && s.customerId == t.customerId
  }

  /** No customer has two open threads about one order. */
  ghost predicate OneOpenEach(threads: seq<Thread>) {
    forall i, j :: 0 <= i < j < |threads| ==> !OpenTogether(threads[i], threads[j])
  }

  /** Some thread other than number `but` is open for the order and the customer. */
  ghost predicate HasOpen(threads: seq<Thread>, but: nat, orderId: Option<string>, customerId: string) {
    orderId.Some?
    && exists i :: 0 <= i < |threads| && i != but && IsOpenFor(orderId.value, customerId)(threads[i])
  }

  /** Another thread about the same order is open for the same customer. */
  ghost predicate BesideOpen(threads: seq<Thread>, id: nat) {
    id < |threads| && HasOpen(threads, id, threads[id].orderId, threads[id].customerId)
  }

  /** A message, an assignment, a status other than resolved, or a delivery thread, next to an open thread of the same
      order and customer. */
  ghost predicate OpensSecond(threads: seq<Thread>, step: Step) {
    match step
    case Reply(id, _, _) => BesideOpen(threads, id)
    case Assign(id, _) => BesideOpen(threads, id)
    case SetStatus(id, status, _) => status != Resolved && BesideOpen(threads, id)
    case EnsureDelivery(orderId, customerId, _, _) =>
      (match FindFirst(threads, IsDeliveryOf(orderId))
       case Some(id) => BesideOpen(threads, id)
       case None => HasOpen(threads, |threads|, Some(orderId), customerId))
    case _ => false
  }

  /** A step keeps at most one open thread per order and customer exactly when it does not open a second one. */
  lemma {:induction false} StepOneOpen(threads: seq<Thread>, step: Step)
    requires OneOpenEach(threads)
    ensures OneOpenEach(Apply(threads, step)) <==> !OpensSecond(threads, step)
  {
    var after := Apply(threads, step);
    var at := Touched(threads, step);
    if at.Some? {
      assert at.value < |after| && |threads| <= |after| <= |threads| + 1;
      assert forall i :: 0 <= i < |threads| && i != at.value ==> after[i] == threads[i];
      ChangedOneOpen(threads, after, at.value);
      TouchedBeside(threads, step, at.value);
    } else if step.OrderEnded? {
      assert |after| == |threads|;
      assert forall i :: 0 <= i < |threads| ==> after[i] == threads[i] || after[i].status == Resolved;
    }
  }

  /** Thread `at` would stand next to another open thread. */
  ghost predicate Doubles(threads: seq<Thread>, at: nat, t: Thread) {
    exists i :: 0 <= i < |threads| && i != at && OpenTogether(threads[i], t)
  }

  lemma {:induction false} DoublesIs(threads: seq<Thread>, at: nat, t: Thread)
    ensures Doubles(threads, at, t) <==> t.status != Resolved && HasOpen(threads, at, t.orderId, t.customerId)
  {
    if t.orderId.Some? {
      forall i | 0 <= i < |threads|
        ensures OpenTogether(threads[i], t) <==> t.status != Resolved && IsOpenFor(t.orderId.value, t.customerId)(threads[i])
      {}
    }
  }

  /** Two threads that were together before still are when nothing changes between them. */
  lemma {:induction false} AlreadyApart(threads: seq<Thread>, at: nat)
    requires OneOpenEach(threads) && at < |threads|
    ensures !Doubles(threads, at, threads[at])
  {
    forall i | 0 <= i < |threads| && i != at
      ensures !OpenTogether(threads[i], threads[at])
    {
      assert i < at ==> !OpenTogether(threads[i], threads[at]);
      assert at < i ==> !OpenTogether(threads[at], threads[i]);
    }
  }

  lemma {:induction false} TouchedBeside(threads: seq<Thread>, step: Step, at: nat)
    requires OneOpenEach(threads) && Touched(threads, step) == Some(at)
    ensures at < |Apply(threads, step)|
    ensures Doubles(threads, at, Apply(threads, step)[at]) <==> OpensSecond(threads, step)
  {
    var t := Apply(threads, step)[at];
    DoublesIs(threads, at, t);
    match step {
      case MarkRead(_, _, _) =>
        AlreadyApart(threads, at);
        DoublesIs(threads, at, threads[at]);
      case Create(customerId, about, _) =>
        if about.Some? {
          assert FindFirst(threads, IsOpenFor(about.value, customerId)).None?;
        }
      case _ =>
    }
  }

  lemma {:induction false} ChangedOneOpen(threads: seq<Thread>, after: seq<Thread>, at: nat)
    requires OneOpenEach(threads) && at < |after| && |threads| <= |after| <= |threads| + 1
    requires |after| == |threads| + 1 ==> at == |threads|
    requires forall i :: 0 <= i < |threads| && i != at ==> after[i] == threads[i]
    ensures OneOpenEach(after) <==> !Doubles(threads, at, after[at])
  {
    if OneOpenEach(after) {
      forall i | 0 <= i < |threads| && i != at
        ensures !OpenTogether(threads[i], after[at])
      {
        assert after[i] == threads[i];
        assert i < at ==> !OpenTogether(after[i], after[at]);
        assert at < i ==> !OpenTogether(after[at], after[i]);
      }
    } else {
      var i, j :| 0 <= i < j < |after| && OpenTogether(after[i], after[j]);
      assert i == at || j == at;
      if i == at {
        assert OpenTogether(threads[j], after[at]);
      } else {
        assert OpenTogether(threads[i], after[at]);
      }
    }
  }

  /** Starting a conversation never opens a second one, nor does reading. */
  lemma {:induction false} CreateOpensNoSecond(threads: seq<Thread>, step: Step)
    requires OneOpenEach(threads) && (step.Create? || step.MarkRead?)
    ensures OneOpenEach(Apply(threads, step))
  {
    StepOneOpen(threads, step);
  }

  /** A run without a step that opens a second thread never holds two open ones. */
  lemma {:induction false} RunOneOpen(steps: seq<Step>)
    requires forall k :: 0 <= k < |steps| ==> !OpensSecond(Run(steps[..k]), steps[k])
    ensures OneOpenEach(Run(steps))
  {
    hide Apply, OpensSecond, OneOpenEach;
    if steps != [] {
      var n := |steps| - 1;
      forall k | 0 <= k < n
        ensures !OpensSecond(Run(steps[..n][..k]), steps[..n][k])
      {
        assert steps[..n][..k] == steps[..k];
      }
      RunOneOpen(steps[..n]);
      StepOneOpen(Run(steps[..n]), steps[n]);
    } else {
      NoneOpen();
    }
  }

  lemma {:induction false} NoneOpen()
    ensures OneOpenEach(Run([]))
  {
    assert Run([]) == [];
  }

  /** But answering a resolved conversation after starting a new one about the same order does. */
  lemma {:induction false} ReplyReopens(customerId: string, orderId: string)
    ensures var steps := [Create(customerId, Some(orderId), 1), SetStatus(0, Resolved, 2), Create(customerId, Some(orderId), 3)];
      OneOpenEach(Run(steps)) && !OneOpenEach(Run(steps + [Reply(0, true, 4)]))
  {
    var a := Create(customerId, Some(orderId), 1);
    var b := SetStatus(0, Resolved, 2);
    var c := Create(customerId, Some(orderId), 3);
    var d := Reply(0, true, 4);
    assert [a][..0] == [] && [a, b][..1] == [a] && [a, b, c][..2] == [a, b] && ([a, b, c] + [d])[..3] == [a, b, c];
    var first := NewThread(customerId, Some(orderId), 1);
    assert Run([]) == [];
    assert Run([a]) == [first];
    assert Run([a, b]) == [StatusSet(first, Resolved, 2)];
    var second := NewThread(customerId, Some(orderId), 3);
    assert !Refused(Run([a, b]), c);
    assert Run([a, b, c]) == [StatusSet(first, Resolved, 2), second];
    assert Run([a, b, c] + [d]) == [Replied(StatusSet(first, Resolved, 2), true, 4), second];
    assert OpenTogether(Run([a, b, c] + [d])[0], Run([a, b, c] + [d])[1]);
  }
}
