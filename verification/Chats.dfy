/** Support conversations: status, resolution time and unread counters.
    Models createThread, reply, markRead, assign, updateStatus, ensureDeliveryThreadForOrder and
    syncDeliveryThreadForOrderLifecycle. A thread's id is its place in the table; `now` is the clock's answer. */
module Chats {
  import opened Prelude

  datatype Status = Open | InProgress | Resolved

  datatype Source = Support | FromOrder | DeliveryChat

  datatype Thread = Thread(
    customerId: string,
    orderId: Option<string>,
    source: Source,
    status: Status,
    resolvedAt: Option<nat>,
    customerUnread: nat,
    staffUnread: nat,
    customerLastReadAt: Option<nat>,
    staffLastReadAt: Option<nat>,
    assignedStaff: Option<string>,
    deliverymanId: Option<string>,
    lastMessageAt: nat
  )

  // ----- One thread -----

  function NewThread(customerId: string, orderId: Option<string>, now: nat): Thread {
    Thread(customerId, orderId, if orderId.Some? then FromOrder else Support, Open, None, 0, 1, Some(now), None, None, None, now)
  }

  function NewDeliveryThread(customerId: string, orderId: string, deliverymanId: string, now: nat): Thread {
    Thread(customerId, Some(orderId), DeliveryChat, Open, None, 0, 0, None, None, None, Some(deliverymanId), now)
  }

  function Replied(t: Thread, byCustomer: bool, now: nat): Thread {
    t.(lastMessageAt := now,
       status := if byCustomer then Open else InProgress,
       resolvedAt := None,
       customerUnread := if byCustomer then 0 else t.customerUnread + 1,
       staffUnread := if byCustomer then t.staffUnread + 1 else 0,
       customerLastReadAt := if byCustomer then Some(now) else t.customerLastReadAt,
       staffLastReadAt := if byCustomer then None else Some(now))
  }

  function Read(t: Thread, byCustomer: bool, now: nat): Thread {
    if byCustomer then t.(customerLastReadAt := Some(now), customerUnread := 0)
    else t.(staffLastReadAt := Some(now), staffUnread := 0)
  }

  function Assigned(t: Thread, staff: Option<string>): Thread {
    t.(assignedStaff := staff,
       status := if t.status == Resolved then InProgress else t.status,
       resolvedAt := if t.status == Resolved then None else t.resolvedAt)
  }

  function StatusSet(t: Thread, status: Status, now: nat): Thread {
    t.(status := status, resolvedAt := if status == Resolved then Some(now) else None,
       staffLastReadAt := Some(now), staffUnread := 0)
  }

  function Redelivered(t: Thread, deliverymanId: string): Thread {
    t.(deliverymanId := Some(deliverymanId),
       status := if t.status == Resolved then Open else t.status,
       resolvedAt := if t.status == Resolved then None else t.resolvedAt)
  }

  function Closed(t: Thread, now: nat): Thread { t.(status := Resolved, resolvedAt := Some(now)) }

  // ----- The table -----

  function IsOpenFor(orderId: string, customerId: string): Thread -> bool {
    (t: Thread) => t.orderId == Some(orderId) && t.customerId == customerId && t.status != Resolved
  }

  function IsDeliveryOf(orderId: string): Thread -> bool {
    (t: Thread) => t.orderId == Some(orderId) && t.source == DeliveryChat
  }

  /** The first thread that fits. */
  function FindFirst(threads: seq<Thread>, fits: Thread -> bool): (at: Option<nat>)
    ensures at.Some? ==> at.value < |threads| && fits(threads[at.value])
    ensures at.None? ==> forall i :: 0 <= i < |threads| ==> !fits(threads[i])
  {
    if threads == [] then None
    else
      var n := |threads| - 1;
      var earlier := FindFirst(threads[..n], fits);
      if earlier.Some? then earlier else if fits(threads[n]) then Some(n) else None
  }

  datatype Step =
    | Create(customerId: string, about: Option<string>, now: nat)
    | Reply(id: nat, byCustomer: bool, now: nat)
    | MarkRead(id: nat, byCustomer: bool, now: nat)
    | Assign(id: nat, staff: Option<string>)
    | SetStatus(id: nat, status: Status, now: nat)
    | EnsureDelivery(orderId: string, customerId: string, deliverymanId: string, now: nat)
    | OrderEnded(orderId: string, now: nat)

  /** A customer may not start a second conversation about an order while one is open. */
  predicate Refused(threads: seq<Thread>, step: Step)
    requires step.Create?
  {
    step.about.Some? && FindFirst(threads, IsOpenFor(step.about.value, step.customerId)).Some?
  }

  /** The table after a permitted step; a step on a missing thread is refused. */
  function Apply(threads: seq<Thread>, step: Step): seq<Thread> {
    match step
    case Create(customerId, orderId, now) =>
      if Refused(threads, step) then threads else threads + [NewThread(customerId, orderId, now)]
    case Reply(id, byCustomer, now) =>
      if id < |threads| then threads[id := Replied(threads[id], byCustomer, now)] else threads
    case MarkRead(id, byCustomer, now) =>
      if id < |threads| then threads[id := Read(threads[id], byCustomer, now)] else threads
    case Assign(id, staff) =>
      if id < |threads| then threads[id := Assigned(threads[id], staff)] else threads
    case SetStatus(id, status, now) =>
      if id < |threads| then threads[id := StatusSet(threads[id], status, now)] else threads
    case EnsureDelivery(orderId, customerId, deliverymanId, now) =>
      (match FindFirst(threads, IsDeliveryOf(orderId))
       case Some(id) => threads[id := Redelivered(threads[id], deliverymanId)]
       case None => threads + [NewDeliveryThread(customerId, orderId, deliverymanId, now)])
    case OrderEnded(orderId, now) =>
      (match FindFirst(threads, IsDeliveryOf(orderId))
       case Some(id) => if threads[id].status == Resolved then threads else threads[id := Closed(threads[id], now)]
       case None => threads)
  }

  function Run(steps: seq<Step>): seq<Thread> {
    if steps == [] then [] else Apply(Run(steps[..|steps| - 1]), steps[|steps| - 1])
  }

  // ----- The service -----

  class ChatService {
    var threads: seq<Thread>

    constructor ()
      ensures threads == []
    {
      threads := [];
    }

    /** The place of the first thread that fits, or the number of threads. */
    method Find(fits: Thread -> bool) returns (id: nat)
      ensures id <= |threads|
      ensures FindFirst(threads, fits) == if id < |threads| then Some(id) else None
    {
      id := 0;
      while id < |threads| && !fits(threads[id])
        invariant id <= |threads| && FindFirst(threads[..id], fits).None?
      {
        assert threads[..id + 1][..id] == threads[..id];
        id := id + 1;
      }
      FirstFit(threads, id, fits);
    }

    method CreateThread(customerId: string, orderId: Option<string>, now: nat) returns (ok: bool)
      modifies this
      ensures threads == Apply(old(threads), Create(customerId, orderId, now))
      ensures ok <==> !Refused(old(threads), Create(customerId, orderId, now))
    {
      if orderId.Some? {
        var existing := Find(IsOpenFor(orderId.value, customerId));
        if existing < |threads| {
          return false;
        }
      }
      threads := threads + [NewThread(customerId, orderId, now)];
      return true;
    }

    method ReplyTo(id: nat, byCustomer: bool, now: nat) returns (ok: bool)
      modifies this
      ensures threads == Apply(old(threads), Reply(id, byCustomer, now)) && (ok <==> id < |old(threads)|)
    {
      if id >= |threads| {
        return false;
      }
      var t := threads[id].(lastMessageAt := now, resolvedAt := None);
      if byCustomer {
        t := t.(status := Open, customerUnread := 0, staffUnread := t.staffUnread + 1,
                customerLastReadAt := Some(now), staffLastReadAt := None);
      } else {
        t := t.(status := InProgress, customerUnread := t.customerUnread + 1, staffUnread := 0, staffLastReadAt := Some(now));
      }
      threads := threads[id := t];
      return true;
    }

    method MarkThreadRead(id: nat, byCustomer: bool, now: nat) returns (ok: bool)
      modifies this
      ensures threads == Apply(old(threads), MarkRead(id, byCustomer, now)) && (ok <==> id < |old(threads)|)
    {
      if id >= |threads| {
        return false;
      }
      if byCustomer {
        threads := threads[id := threads[id].(customerLastReadAt := Some(now), customerUnread := 0)];
      } else {
        threads := threads[id := threads[id].(staffLastReadAt := Some(now), staffUnread := 0)];
      }
      return true;
    }

    method AssignTo(id: nat, staff: Option<string>) returns (ok: bool)
      modifies this
      ensures threads == Apply(old(threads), Assign(id, staff)) && (ok <==> id < |old(threads)|)
    {
      if id >= |threads| {
        return false;
      }
      var t := threads[id].(assignedStaff := staff);
      if threads[id].status == Resolved {
        t := t.(status := InProgress, resolvedAt := None);
      }
      threads := threads[id := t];
      return true;
    }

    method UpdateStatus(id: nat, status: Status, now: nat) returns (ok: bool)
      modifies this
      ensures threads == Apply(old(threads), SetStatus(id, status, now)) && (ok <==> id < |old(threads)|)
    {
      if id >= |threads| {
        return false;
      }
      var resolvedAt := if status == Resolved then Some(now) else None;
      threads := threads[id := threads[id].(
        status := status, resolvedAt := resolvedAt, staffLastReadAt := Some(now), staffUnread := 0)];
      return true;
    }

    method EnsureDeliveryThread(orderId: string, customerId: string, deliverymanId: string, now: nat) returns (id: nat)
      modifies this
      ensures threads == Apply(old(threads), EnsureDelivery(orderId, customerId, deliverymanId, now))
      ensures id < |threads| && IsDeliveryOf(orderId)(threads[id]) && threads[id].deliverymanId == Some(deliverymanId)
      ensures threads[id].status != Resolved
    {
      id := Find(IsDeliveryOf(orderId));
      if id < |threads| {
        var t := threads[id].(deliverymanId := Some(deliverymanId));
        if threads[id].status == Resolved {
          t := t.(status := Open, resolvedAt := None);
        }
        threads := threads[id := t];
      } else {
        threads := threads + [NewDeliveryThread(customerId, orderId, deliverymanId, now)];
      }
    }

    /** Delivered and cancelled orders resolve their delivery thread; other changes of an order do nothing. */
    method SyncOrder(orderId: string, ended: bool, now: nat)
      modifies this
      ensures threads == if ended then Apply(old(threads), OrderEnded(orderId, now)) else old(threads)
    {
      if !ended {
        return;
      }
      var id := Find(IsDeliveryOf(orderId));
      if id == |threads| || threads[id].status == Resolved {
        return;
      }
      threads := threads[id := threads[id].(status := Resolved, resolvedAt := Some(now))];
    }
  }

  lemma {:induction false} FirstFit(threads: seq<Thread>, id: nat, fits: Thread -> bool)
    requires id <= |threads| && FindFirst(threads[..id], fits).None?
    requires id < |threads| ==> fits(threads[id])
    ensures FindFirst(threads, fits) == if id < |threads| then Some(id) else None
    decreases |threads|
  {
    if id == |threads| {
      assert threads[..id] == threads;
    } else {
      var n := |threads| - 1;
      assert threads[..n][..id] == threads[..id];
      if id < n {
        FirstFit(threads[..n], id, fits);
      } else {
        assert threads[..n] == threads[..id];
      }
    }
  }
}
