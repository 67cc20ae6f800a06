/** The ports of a module (`mod_port_t`, `ports`, `num_locked_ports` and the port waiting list
  * of `mod_t`) and their arbitration, `mod_lock_port` / `mod_unlock_port`, which are the same
  * in the snooping and the directory variant. */
module Ports {
  import opened Wrappers
  import opened States

  /** An access waiting for a port: its direction decides where it queues, and
    * `port_waiting_list_event` is the event it resumes at. */
  datatype PortWaiter = PortWaiter(stack: StackRef, downUp: bool, event: Event)

  /** What a lock request did: bound a port (its event is scheduled at once), or queued. */
  datatype LockOutcome = Locked(port: nat) | Queued

  /** The number of ports bound to some access. */
  function CountHeld(ports: seq<Option<StackRef>>): (n: nat)
    ensures n <= |ports|
  {
    if |ports| == 0 then 0
    else CountHeld(ports[..|ports| - 1]) + (if ports[|ports| - 1].Some? then 1 else 0)
  }

  /** Every port is bound exactly when the count is the number of ports, and none is exactly
    * when the count is 0. */
  lemma {:induction false} CountHeldExtremes(ports: seq<Option<StackRef>>)
    ensures CountHeld(ports) == |ports| <==> forall i :: 0 <= i < |ports| ==> ports[i].Some?
    ensures CountHeld(ports) == 0 <==> forall i :: 0 <= i < |ports| ==> ports[i].None?
  {
    if |ports| > 0 {
      var last := |ports| - 1;
      CountHeldExtremes(ports[..last]);
      assert forall i :: 0 <= i < last ==> ports[..last][i] == ports[i];
    }
  }

  /** Rebinding one port changes the count by the difference it makes at that port. */
  lemma {:induction false} CountHeldUpdate(ports: seq<Option<StackRef>>, i: nat, x: Option<StackRef>)
    requires i < |ports|
    ensures CountHeld(ports[i := x]) + (if ports[i].Some? then 1 else 0)
         == CountHeld(ports) + (if x.Some? then 1 else 0)
  {
    var last := |ports| - 1;
    if i == last {
      assert ports[i := x][..last] == ports[..last];
    } else {
      assert ports[i := x][..last] == ports[..last][i := x];
      CountHeldUpdate(ports[..last], i, x);
    }
  }

  /** The free port the search of `mod_lock_port` stops at: the first one. */
  function FirstFree(ports: seq<Option<StackRef>>): (r: Option<nat>)
    ensures r.Some? ==>
      (r.value < |ports| && ports[r.value].None? && forall j :: 0 <= j < r.value ==> ports[j].Some?)
    ensures r.None? <==> forall j :: 0 <= j < |ports| ==> ports[j].Some?
  {
    if |ports| == 0 then None
    else if ports[0].None? then Some(0)
    else match FirstFree(ports[1..])
      case None => None
      case Some(j) => Some(j + 1)
  }

  /** While fewer ports are locked than there are ports, a free one exists. */
  lemma FreePortExists(ports: seq<Option<StackRef>>)
    requires CountHeld(ports) < |ports|
    ensures FirstFree(ports).Some?
  {
    CountHeldExtremes(ports);
  }

  /** The bindings agree in both directions, the count is the number of bound ports, and no
    * waiting access holds a port or waits twice. */
  ghost predicate Bound(ports: seq<Option<StackRef>>, portOf: map<StackRef, nat>, numLocked: nat, waiting: seq<PortWaiter>)
  {
    numLocked == CountHeld(ports)
    && (forall s :: s in portOf ==> portOf[s] < |ports| && ports[portOf[s]] == Some(s))
    && (forall i :: 0 <= i < |ports| && ports[i].Some? ==>
          ports[i].value in portOf && portOf[ports[i].value] == i)
    && (forall i :: 0 <= i < |waiting| ==> waiting[i].stack !in portOf)
    && (forall i, j :: 0 <= i < j < |waiting| ==> waiting[i].stack != waiting[j].stack)
  }

  /** Binding a free port to an access that holds none and does not wait keeps the bindings. */
  lemma BindKeepsBound(ports: seq<Option<StackRef>>, portOf: map<StackRef, nat>, numLocked: nat,
                       waiting: seq<PortWaiter>, i: nat, stack: StackRef)
    requires Bound(ports, portOf, numLocked, waiting)
    requires i < |ports| && ports[i].None? && stack !in portOf
    requires forall k :: 0 <= k < |waiting| ==> waiting[k].stack != stack
    ensures Bound(ports[i := Some(stack)], portOf[stack := i], numLocked + 1, waiting)
  {
    CountHeldUpdate(ports, i, Some(stack));
  }

  /** Releasing a bound port keeps the bindings. */
  lemma UnbindKeepsBound(ports: seq<Option<StackRef>>, portOf: map<StackRef, nat>, numLocked: nat,
                         waiting: seq<PortWaiter>, stack: StackRef)
    requires Bound(ports, portOf, numLocked, waiting)
    requires stack in portOf
    ensures numLocked > 0
    ensures Bound(ports[portOf[stack] := None], portOf - {stack}, numLocked - 1, waiting)
  {
    CountHeldUpdate(ports, portOf[stack], None);
    var p := portOf[stack];
    var ports' := ports[p := None];
    forall i | 0 <= i < |ports'| && ports'[i].Some?
      ensures ports'[i].value in portOf - {stack} && (portOf - {stack})[ports'[i].value] == i
    {
      assert ports[i].Some? && ports'[i].value == ports[i].value;
    }
  }

  /** Taking the head off the waiting list keeps the bindings. */
  lemma DequeueKeepsBound(ports: seq<Option<StackRef>>, portOf: map<StackRef, nat>, numLocked: nat,
                          waiting: seq<PortWaiter>)
    requires Bound(ports, portOf, numLocked, waiting) && |waiting| > 0
    ensures Bound(ports, portOf, numLocked, waiting[1..])
    ensures forall k :: 0 <= k < |waiting| - 1 ==> waiting[1..][k].stack != waiting[0].stack
  {
    forall k | 0 <= k < |waiting| - 1
      ensures waiting[1..][k].stack != waiting[0].stack
    {
      assert waiting[1..][k] == waiting[k + 1];
    }
  }

  /** Queueing an access that holds no port and is not queued keeps the bindings. */
  lemma EnqueueKeepsBound(ports: seq<Option<StackRef>>, portOf: map<StackRef, nat>, numLocked: nat,
                          waiting: seq<PortWaiter>, w: PortWaiter, atHead: bool)
    requires Bound(ports, portOf, numLocked, waiting)
    requires w.stack !in portOf && forall k :: 0 <= k < |waiting| ==> waiting[k].stack != w.stack
    ensures Bound(ports, portOf, numLocked, if atHead then [w] + waiting else waiting + [w])
  {
    var q := if atHead then [w] + waiting else waiting + [w];
    forall i, j | 0 <= i < j < |q|
      ensures q[i].stack != q[j].stack
    {
      if atHead {
        if i > 0 {
          assert q[i] == waiting[i - 1] && q[j] == waiting[j - 1];
        }
      } else if j == |waiting| {
        assert q[i] == waiting[i];
      }
    }
  }

  /** Freeing one port of a full arbiter leaves exactly that port free. */
  lemma FreedPortIsFirstFree(ports: seq<Option<StackRef>>, p: nat)
    requires p < |ports| && CountHeld(ports) == |ports|
    ensures FirstFree(ports[p := None]) == Some(p)
  {
    CountHeldExtremes(ports);
    var ports' := ports[p := None];
    assert ports'[p].None?;
    assert forall j :: 0 <= j < |ports'| && j != p ==> ports'[j] == ports[j];
  }

  class PortArbiter {
    const numPorts: nat
    /** `ports[i].stack`: the access holding port `i`, if any. */
    const ports: array<Option<StackRef>>
    /** `stack->port` of every access holding a port. */
    var portOf: map<StackRef, nat>
    var numLocked: nat
    /** The port waiting list, head first. */
    var waiting: seq<PortWaiter>

    /** An access only waits while every port is taken. */
    ghost predicate Valid()
      reads this, ports
    {
      ports.Length == numPorts
      && Bound(ports[..], portOf, numLocked, waiting)
      && (|waiting| > 0 ==> numLocked == numPorts)
    }

    constructor (numPorts: nat)
      ensures Valid() && fresh(ports)
      ensures this.numPorts == numPorts && numLocked == 0 && portOf == map[] && waiting == []
      ensures forall i :: 0 <= i < numPorts ==> ports[i].None?
    {
      this.numPorts := numPorts;
      ports := new Option<StackRef>[numPorts](_ => None);
      portOf := map[];
      numLocked := 0;
      waiting := [];
      new;
      assert forall i :: 0 <= i < numPorts ==> ports[..][i].None?;
      CountHeldExtremes(ports[..]);
    }

    /** `mod_lock_port`: with every port locked, queue the access (a down-up request at the head,
      * any other at the tail); otherwise bind the first free port to it. It is also called from
      * `Unlock` after one port is freed, when the waiting list may still be non-empty. */
    method Lock(stack: StackRef, downUp: bool, event: Event) returns (outcome: LockOutcome)
      requires ports.Length == numPorts && Bound(ports[..], portOf, numLocked, waiting)
      requires |waiting| > 0 ==> numLocked + 1 >= numPorts
      requires stack !in portOf
      requires forall i :: 0 <= i < |waiting| ==> waiting[i].stack != stack
      modifies this, ports
      ensures Valid()
      ensures numLocked <= numPorts
      ensures old(numLocked) >= numPorts ==>
        outcome == Queued
        && waiting == (if downUp then [PortWaiter(stack, downUp, event)] + old(waiting)
                       else old(waiting) + [PortWaiter(stack, downUp, event)])
        && ports[..] == old(ports[..]) && portOf == old(portOf) && numLocked == old(numLocked)
      ensures old(numLocked) < numPorts ==>
        outcome.Locked? && FirstFree(old(ports[..])) == Some(outcome.port)
        && ports[..] == old(ports[..])[outcome.port := Some(stack)]
        && portOf == old(portOf)[stack := outcome.port]
        && numLocked == old(numLocked) + 1
        && waiting == old(waiting)
    {
      if numLocked >= numPorts {
        Enqueue(PortWaiter(stack, downUp, event));
        return Queued;
      }
      var i := Bind(stack);
      outcome := Locked(i);
    }

    /** The binding half of `mod_lock_port`: the first free port goes to `stack`. */
    method Bind(stack: StackRef) returns (port: nat)
      requires ports.Length == numPorts && Bound(ports[..], portOf, numLocked, waiting)
      requires |waiting| > 0 ==> numLocked + 1 >= numPorts
      requires numLocked < numPorts
      requires stack !in portOf
      requires forall i :: 0 <= i < |waiting| ==> waiting[i].stack != stack
      modifies `portOf, `numLocked, ports
      ensures Valid()
      ensures FirstFree(old(ports[..])) == Some(port)
      ensures ports[..] == old(ports[..])[port := Some(stack)]
      ensures portOf == old(portOf)[stack := port]
      ensures numLocked == old(numLocked) + 1
    {
      FreePortExists(ports[..]);
      var i := 0;
      while i < numPorts && ports[i].Some?
        invariant 0 <= i <= numPorts
        invariant forall j :: 0 <= j < i ==> ports[j].Some?
      {
        i := i + 1;
      }
      ghost var before := ports[..];
      assert FirstFree(before) == Some(i);
      BindKeepsBound(before, portOf, numLocked, waiting, i, stack);
      ports[i] := Some(stack);
      portOf := portOf[stack := i];
      numLocked := numLocked + 1;
      assert ports[..] == before[i := Some(stack)];
      port := i;
    }

    /** The queueing half of `mod_lock_port`: a down-up request goes to the head of the
      * waiting list, any other to the tail. */
    method Enqueue(w: PortWaiter)
      requires ports.Length == numPorts && Bound(ports[..], portOf, numLocked, waiting)
      requires numLocked >= numPorts
      requires w.stack !in portOf
      requires forall i :: 0 <= i < |waiting| ==> waiting[i].stack != w.stack
      modifies `waiting
      ensures Valid()
      ensures waiting == (if w.downUp then [w] + old(waiting) else old(waiting) + [w])
    {
      EnqueueKeepsBound(ports[..], portOf, numLocked, waiting, w, w.downUp);
      if w.downUp {
        waiting := [w] + waiting;
      } else {
        waiting := waiting + [w];
      }
    }

    /** The first half of `mod_unlock_port`: clear both bindings and decrement the count. */
    method Release(port: nat, stack: StackRef)
      requires Valid()
      requires stack in portOf && portOf[stack] == port
      modifies this, ports
      ensures ports.Length == numPorts && Bound(ports[..], portOf, numLocked, waiting)
      ensures ports[..] == old(ports[..])[port := None]
      ensures portOf == old(portOf) - {stack}
      ensures numLocked == old(numLocked) - 1
      ensures waiting == old(waiting)
      ensures old(waiting) != [] ==> FirstFree(ports[..]) == Some(port)
    {
      ghost var before := ports[..];
      UnbindKeepsBound(before, portOf, numLocked, waiting, stack);
      if |waiting| > 0 {
        FreedPortIsFirstFree(before, port);
      }
      ports[port] := None;
      portOf := portOf - {stack};
      numLocked := numLocked - 1;
      assert ports[..] == before[port := None];
    }

    /** `mod_unlock_port`: release the port held by `stack`; the access at the head of the
      * waiting list (if any) is removed and locks again, which binds it the port just freed. */
    method Unlock(port: nat, stack: StackRef) returns (woken: Option<PortWaiter>)
      requires Valid()
      requires stack in portOf && portOf[stack] == port
      modifies this, ports
      ensures Valid()
      ensures old(waiting) == [] ==>
        woken.None? && waiting == []
        && ports[..] == old(ports[..])[port := None]
        && portOf == old(portOf) - {stack}
        && numLocked == old(numLocked) - 1
      ensures old(waiting) != [] ==>
        woken == Some(old(waiting)[0]) && waiting == old(waiting)[1..]
        && ports[..] == old(ports[..])[port := Some(old(waiting)[0].stack)]
        && portOf == (old(portOf) - {stack})[old(waiting)[0].stack := port]
        && numLocked == old(numLocked)
    {
      ghost var before := ports[..];
      Release(port, stack);
      if |waiting| == 0 {
        return None;
      }
      var head := waiting[0];
      DequeueKeepsBound(ports[..], portOf, numLocked, waiting);
      waiting := waiting[1..];
      // every other port is still taken, so the search stops at the port just freed
      ghost var freed := ports[..];
      var outcome := Lock(head.stack, head.downUp, head.event);
      assert freed[port := Some(head.stack)] == before[port := Some(head.stack)];
      woken := Some(head);
    }
  }
}
