/** util.go and resolver.go: address deltas of one resolved host, carried to the pools that subscribed to it. */
module Resolver {
  import opened Wrappers
  import opened Text
  import opened RoundRobin

  // ---- util.go ----

  function Sub(a1: seq<string>, a2: seq<string>): seq<string> {
    if a1 == [] then [] else (if a1[0] in a2 then [] else [a1[0]]) + Sub(a1[1..], a2)
  }

  method InStrArray(s: string, a: seq<string>) returns (r: bool)
    ensures r <==> s in a
  {
    var i := 0;
    while i < |a|
      invariant 0 <= i <= |a|
      invariant s !in a[..i]
    {
      if a[i] == s {
        return true;
      }
      i := i + 1;
    }
    return false;
  }

  method StrArraySub(a1: seq<string>, a2: seq<string>) returns (r: seq<string>)
    ensures r == Sub(a1, a2)
  {
    r := [];
    var i := 0;
    assert a1[0..] == a1;
    while i < |a1|
      invariant 0 <= i <= |a1|
      invariant r + Sub(a1[i..], a2) == Sub(a1, a2)
    {
      var found := InStrArray(a1[i], a2);
      assert a1[i..][1..] == a1[i + 1..];
      if !found {
        r := r + [a1[i]];
      }
      i := i + 1;
    }
  }

  /** The elements of the first list that the second lacks. */
  lemma {:induction false} SubMembers(a1: seq<string>, a2: seq<string>)
    ensures forall s :: s in Sub(a1, a2) <==> s in a1 && s !in a2
  {
    if a1 != [] {
      SubMembers(a1[1..], a2);
    }
  }

  /** Their order stays. */
  lemma {:induction false} SubKeepsOrder(a: seq<string>, b: seq<string>, c: seq<string>)
    ensures Sub(a + b, c) == Sub(a, c) + Sub(b, c)
    ensures forall x: string :: x !in c ==> Sub([x], c) == [x]
  {
    if a == [] {
      assert a + b == b;
    } else {
      SubKeepsOrder(a[1..], b, c);
      assert (a + b)[0] == a[0] && (a + b)[1..] == a[1..] + b;
    }
    forall x: string | x !in c
      ensures Sub([x], c) == [x]
    {
      assert [x][1..] == [];
    }
  }

  // ---- notifications ----

  datatype Notification = Notification(newAddrs: seq<string>, removedAddrs: seq<string>)

  /** Whether an address is a member after one notification, and after a queue of them. */
  function Applied(n: Notification, ip: string, present: bool): bool {
    (present || ip in n.newAddrs) && ip !in n.removedAddrs
  }

  function AppliedAll(queue: seq<Notification>, ip: string, present: bool): bool {
    if queue == [] then present
    else Applied(queue[|queue| - 1], ip, AppliedAll(queue[..|queue| - 1], ip, present))
  }

  lemma {:induction false} AppliedHead(queue: seq<Notification>, ip: string, present: bool)
    requires queue != []
    ensures AppliedAll(queue, ip, present) == AppliedAll(queue[1..], ip, Applied(queue[0], ip, present))
  {
    var n := |queue| - 1;
    if n > 0 {
      AppliedHead(queue[..n], ip, present);
      assert queue[..n][1..] == queue[1..][..n - 1];
    }
  }

  predicate Mentioned(queue: seq<Notification>, ip: string) {
    exists i :: 0 <= i < |queue| && (ip in queue[i].newAddrs || ip in queue[i].removedAddrs)
  }

  /** An address that the queue mentions ends up as the last mention says, whether it was present or not. */
  lemma {:induction false} MentionDecides(queue: seq<Notification>, ip: string)
    requires Mentioned(queue, ip)
    ensures AppliedAll(queue, ip, true) == AppliedAll(queue, ip, false)
  {
    var n := |queue| - 1;
    if ip !in queue[n].newAddrs && ip !in queue[n].removedAddrs {
      assert forall i :: 0 <= i < n ==> queue[..n][i] == queue[i];
      MentionDecides(queue[..n], ip);
    }
  }

  lemma {:induction false} NoMentionKeeps(queue: seq<Notification>, ip: string, present: bool)
    requires !Mentioned(queue, ip)
    ensures AppliedAll(queue, ip, present) == present
  {
    if queue != [] {
      var n := |queue| - 1;
      assert forall i :: 0 <= i < n ==> queue[..n][i] == queue[i];
      NoMentionKeeps(queue[..n], ip, present);
    }
  }

  /** A pool that starts from the current address set, with older deltas still to come, ends at that set. */
  lemma LateStart(queue: seq<Notification>, ip: string, present: bool, current: bool)
    requires AppliedAll(queue, ip, present) == current
    ensures AppliedAll(queue, ip, current) == current
  {
    if Mentioned(queue, ip) {
      MentionDecides(queue, ip);
    } else {
      NoMentionKeeps(queue, ip, current);
    }
  }

  lemma MentionGrows(queue: seq<Notification>, n: Notification, ip: string)
    ensures Mentioned(queue + [n], ip) <==> Mentioned(queue, ip) || ip in n.newAddrs || ip in n.removedAddrs
  {
    var all := queue + [n];
    assert forall i :: 0 <= i < |queue| ==> all[i] == queue[i];
    assert all[|queue|] == n;
  }

  lemma MentionShrinks(queue: seq<Notification>, ip: string)
    requires queue != []
    ensures Mentioned(queue[1..], ip) ==> Mentioned(queue, ip)
  {
    assert forall i :: 0 <= i < |queue| - 1 ==> queue[1..][i] == queue[i + 1];
  }

  /** A mentioned address is settled by the queue for every pool alike; any other stays as it is. */
  lemma Settles(queue: seq<Notification>, ip: string, one: bool, other: bool)
    ensures Mentioned(queue, ip) ==> AppliedAll(queue, ip, one) == AppliedAll(queue, ip, other) == AppliedAll(queue, ip, true)
    ensures !Mentioned(queue, ip) ==> forall present :: AppliedAll(queue, ip, present) == present
  {
    if Mentioned(queue, ip) {
      MentionDecides(queue, ip);
    } else {
      NoMentionKeeps(queue, ip, true);
      NoMentionKeeps(queue, ip, false);
    }
  }

  lemma QueueGrows(queue: seq<Notification>, n: Notification, ip: string, present: bool)
    ensures AppliedAll(queue + [n], ip, present) == Applied(n, ip, AppliedAll(queue, ip, present))
  {
    assert (queue + [n])[..|queue|] == queue;
  }

  // ---- subscriptions ----

  /** A callback: the pool to update, with the protocol and port its members of this host use. */
  datatype Subscription = Subscription(pool: RoundRobinBackend, protocol: string, port: string, serial: nat)

  predicate WellFormed(s: Subscription) {
    (s.protocol == "udp" || s.protocol == "tcp") && ':' !in s.port
  }

  predicate SameTarget(s: Subscription, t: Subscription) {
    s.pool == t.pool && s.protocol == t.protocol && s.port == t.port
  }

  ghost predicate Holds(s: Subscription, ip: string)
    reads s.pool
  {
    Endpoint(s.protocol, ip, s.port) in s.pool.Members()
  }

  lemma SameTargetHolds(s: Subscription, t: Subscription, ip: string)
    ensures SameTarget(s, t) ==> Holds(s, ip) == Holds(t, ip)
  {
  }

  /** One of the first `i` callbacks has the target of `s`. */
  predicate Served(callbacks: seq<Subscription>, i: nat, s: Subscription)
    requires i <= |callbacks|
  {
    exists k :: 0 <= k < i && SameTarget(callbacks[k], s)
  }

  lemma ServedStep(callbacks: seq<Subscription>, i: nat, s: Subscription)
    requires i < |callbacks|
    ensures Served(callbacks, i + 1, s) <==> Served(callbacks, i, s) || SameTarget(callbacks[i], s)
  {
  }

  /** A target that is served twice is none the worse. */
  lemma AppliedTwice(n: Notification, ip: string, present: bool)
    ensures Applied(n, ip, Applied(n, ip, present)) == Applied(n, ip, present)
  {
  }

  /** Subscriptions of one pool that differ in protocol or port never touch each other's members. */
  lemma EndpointsApart(s: Subscription, ip1: string, t: Subscription, ip2: string)
    requires WellFormed(s) && WellFormed(t)
    requires Endpoint(s.protocol, ip1, s.port) == Endpoint(t.protocol, ip2, t.port)
    ensures s.protocol == t.protocol && s.port == t.port && ip1 == ip2
  {
    var j1, j2 := JoinHostPort(ip1, s.port), JoinHostPort(ip2, t.port);
    var e := Endpoint(s.protocol, ip1, s.port);
    assert |s.protocol| == 3 == |t.protocol|;
    assert e[..3] == s.protocol && e[..3] == t.protocol;
    assert e[6..] == j1 && e[6..] == j2;
    var h1 := if ':' in ip1 then "[" + ip1 + "]" else ip1;
    var h2 := if ':' in ip2 then "[" + ip2 + "]" else ip2;
    assert j1 == h1 + ":" + s.port && j2 == h2 + ":" + t.port;
    LastCut(h1, ':', s.port, h2, t.port);
    JoinHostPortInjective(ip1, ip2, s.port);
  }

  lemma EndpointIn(s: Subscription, ips: seq<string>, ip: string)
    ensures Endpoint(s.protocol, ip, s.port) in Endpoints(s.protocol, ips, s.port) <==> ip in ips
  {
    hide Endpoint;
    if Endpoint(s.protocol, ip, s.port) in Endpoints(s.protocol, ips, s.port) {
      var i :| 0 <= i < |ips| && Endpoint(s.protocol, ip, s.port) == Endpoint(s.protocol, ips[i], s.port);
      EndpointInjective(s.protocol, ip, ips[i], s.port);
    }
  }

  lemma EndpointNotIn(s: Subscription, ip: string, t: Subscription, ips: seq<string>)
    requires WellFormed(s) && WellFormed(t) && (s.protocol != t.protocol || s.port != t.port)
    ensures Endpoint(s.protocol, ip, s.port) !in Endpoints(t.protocol, ips, t.port)
  {
    hide Endpoint;
    if Endpoint(s.protocol, ip, s.port) in Endpoints(t.protocol, ips, t.port) {
      var i :| 0 <= i < |ips| && Endpoint(s.protocol, ip, s.port) == Endpoint(t.protocol, ips[i], t.port);
      EndpointsApart(s, ip, t, ips[i]);
    }
  }

  /** Calling one subscription's callback, when a backend can be created for every endpoint. */
  method Notify(s: Subscription, n: Notification)
    requires WellFormed(s) && s.pool.Valid()
    modifies s.pool
    ensures s.pool.Valid()
    ensures forall ip :: Holds(s, ip) == Applied(n, ip, old(Holds(s, ip)))
    ensures forall t, ip :: WellFormed(t) && t.pool == s.pool && !SameTarget(s, t) ==> Holds(t, ip) == old(Holds(t, ip))
  {
    hide Endpoint, Addresses;
    s.pool.HostIPChanged(s.protocol, n.newAddrs, n.removedAddrs, s.port, Endpoints(s.protocol, n.newAddrs, s.port), s.serial);
    forall ip
      ensures Holds(s, ip) == Applied(n, ip, old(Holds(s, ip)))
    {
      EndpointIn(s, n.newAddrs, ip);
      EndpointIn(s, n.removedAddrs, ip);
    }
    forall t, ip | WellFormed(t) && t.pool == s.pool && !SameTarget(s, t)
      ensures Holds(t, ip) == old(Holds(t, ip))
    {
      EndpointNotIn(t, ip, s, n.newAddrs);
      EndpointNotIn(t, ip, s, n.removedAddrs);
    }
  }

  // ---- one host ----

  /** What one resolution does to the address set and the failure count. */
  datatype Known = Known(addrs: seq<string>, failed: nat)

  function Resolved(k: Known, result: Option<seq<string>>): Known {
    match result
    case Some(addrs) => Known(addrs, 0)
    case None => if k.failed + 1 > 3 && k.addrs != [] then Known([], 0) else Known(k.addrs, k.failed + 1)
  }

  function AfterFailures(k: Known, times: nat): Known {
    if times == 0 then k else Resolved(AfterFailures(k, times - 1), None)
  }

  /** Up to three failures in a row leave the addresses alone, the fourth drops them all. */
  lemma FourthFailureDrops(addrs: seq<string>)
    requires addrs != []
    ensures forall n :: 0 <= n <= 3 ==> AfterFailures(Known(addrs, 0), n) == Known(addrs, n)
    ensures AfterFailures(Known(addrs, 0), 4) == Known([], 0)
  {
    var k := Known(addrs, 0);
    assert AfterFailures(k, 0) == k;
    assert AfterFailures(k, 1) == Known(addrs, 1);
    assert AfterFailures(k, 2) == Known(addrs, 2);
    assert AfterFailures(k, 3) == Known(addrs, 3);
  }

  function Names(addrs: seq<string>): iset<string> {
    iset ip | ip in addrs
  }

  /** Once the pending notifications are delivered, the pool of a subscription holds exactly the current addresses
      and what it keeps, which none of them touches. */
  ghost predicate Bound(s: Subscription, pending: seq<Notification>, addrs: seq<string>, keeps: iset<string>)
    reads s.pool
  {
    && WellFormed(s) && s.pool.Valid()
    && (forall ip :: BoundAt(s, pending, addrs, keeps, ip))
  }

  ghost predicate BoundAt(s: Subscription, pending: seq<Notification>, addrs: seq<string>, keeps: iset<string>, ip: string)
    reads s.pool
  {
    && AppliedAll(pending, ip, Holds(s, ip)) == (ip in addrs || ip in keeps)
    && (ip in keeps ==> ip !in addrs && !Mentioned(pending, ip))
  }

  /** Another address list with the same elements will do. */
  lemma BoundSame(s: Subscription, pending: seq<Notification>, addrs: seq<string>, more: seq<string>, keeps: iset<string>)
    requires Bound(s, pending, addrs, keeps) && forall ip :: ip in addrs <==> ip in more
    ensures Bound(s, pending, more, keeps) && keeps - Names(more) == keeps
  {
    hide AppliedAll, Holds, Mentioned, WellFormed;
    forall ip: string
      ensures BoundAt(s, pending, more, keeps, ip) && (ip in keeps ==> ip !in more)
    {
      assert BoundAt(s, pending, addrs, keeps, ip);
    }
  }

  /** A notification that leads from one address set to the next, at the end of the queue. */
  lemma BoundIssued(s: Subscription, pending: seq<Notification>, was: seq<string>, now: seq<string>,
                    n: Notification, keeps: iset<string>)
    requires Bound(s, pending, was, keeps) && forall ip :: Applied(n, ip, ip in was) == (ip in now)
    requires forall ip :: ip in n.removedAddrs ==> ip in was
    requires forall ip :: ip in n.newAddrs <==> ip in now && ip !in was
    ensures Bound(s, pending + [n], now, keeps - Names(now))
  {
    hide AppliedAll, Holds, Mentioned, WellFormed;
    forall ip: string
      ensures BoundAt(s, pending + [n], now, keeps - Names(now), ip)
    {
      assert BoundAt(s, pending, was, keeps, ip);
      QueueGrows(pending, n, ip, Holds(s, ip));
      MentionGrows(pending, n, ip);
    }
  }

  /** The endpoints of the subscription's form that its pool holds. */
  ghost function HeldBy(s: Subscription): iset<string>
    reads s.pool
  {
    iset ip: string | Holds(s, ip)
  }

  /** A success starts the count again: whatever failed before, three more failures keep the addresses. */
  lemma SuccessForgetsFailures(k: Known, addrs: seq<string>)
    requires addrs != []
    ensures Resolved(k, Some(addrs)).addrs == addrs
    ensures forall n :: 0 <= n <= 3 ==> AfterFailures(Resolved(k, Some(addrs)), n).addrs == addrs
    ensures AfterFailures(Resolved(k, Some(addrs)), 4).addrs == []
  {
    FourthFailureDrops(addrs);
  }

  class AddressWithCallback {
    var addrs: seq<string>
    var failed: nat
    var callbacks: seq<Subscription>
    /** Notifications issued and not yet delivered, oldest first. */
    var pending: seq<Notification>

    ghost function Pools(): set<object>
      reads this
    {
      set i | 0 <= i < |callbacks| :: callbacks[i].pool
    }

    /** For each pool, the endpoints of this form that it held for another reason when it subscribed, and that the
        host has not resolved to since. */
    ghost var kept: seq<iset<string>>

    ghost predicate Valid()
      reads this, Pools()
    {
      && callbacks != [] && |kept| == |callbacks|
      && forall i :: 0 <= i < |callbacks| ==> Bound(callbacks[i], pending, addrs, kept[i])
    }

    constructor (s: Subscription)
      requires WellFormed(s) && s.pool.Valid()
      ensures Valid() && addrs == [] && callbacks == [s] && pending == [] && failed == 0
      ensures kept == [HeldBy(s)]
    {
      addrs, failed, callbacks, pending := [], 0, [s], [];
      kept := [HeldBy(s)];
    }

    /** ResolveHost for a host that is new; a failed or empty first lookup changes nothing. */
    static method ResolveHost(s: Subscription, result: Option<seq<string>>) returns (e: AddressWithCallback)
      requires WellFormed(s) && s.pool.Valid()
      ensures fresh(e) && e.Valid() && e.callbacks == [s]
      ensures e.addrs == if result.Some? then result.value else []
      ensures |e.kept| == 1 && e.kept[0] == HeldBy(s) - Names(e.addrs)
    {
      hide Bound;
      e := new AddressWithCallback(s);
      if result.Some? && |result.value| > 0 {
        e.AddressResolved(result);
      }
    }

    /** addressResolved; `result` is the outcome of the lookup. */
    method AddressResolved(result: Option<seq<string>>)
      requires Valid()
      modifies this
      ensures Valid() && callbacks == old(callbacks)
      ensures Known(addrs, failed) == Resolved(Known(old(addrs), old(failed)), result)
      ensures pending == old(pending) || exists n :: pending == old(pending) + [n]
      ensures |kept| == |old(kept)| && forall i :: 0 <= i < |kept| ==> kept[i] == old(kept)[i] - Names(addrs)
    {
      match result {
        case None => Failed();
        case Some(resolved) => Succeeded(resolved);
      }
    }

    method Failed()
      requires Valid()
      modifies this
      ensures Valid() && callbacks == old(callbacks)
      ensures Known(addrs, failed) == Resolved(Known(old(addrs), old(failed)), None)
      ensures pending == old(pending) || exists n :: pending == old(pending) + [n]
      ensures |kept| == |old(kept)| && forall i :: 0 <= i < |kept| ==> kept[i] == old(kept)[i] - Names(addrs)
    {
      hide Bound, Names;
      PoolsApart();
      failed := failed + 1;
      KeptApart();
      if failed > 3 && |addrs| > 0 {
        var removed := addrs;
        addrs, failed := [], 0;
        Issue(Notification([], removed), removed);
      }
    }

    lemma PoolsApart()
      ensures forall i :: 0 <= i < |callbacks| ==> callbacks[i].pool as object != this
    {
    }

    /** No pool counts a current address among those it keeps. */
    lemma KeptApart()
      requires Valid()
      ensures forall i :: 0 <= i < |kept| ==> kept[i] - Names(addrs) == kept[i] && kept[i] - Names([]) == kept[i]
    {
      forall i | 0 <= i < |kept|
        ensures kept[i] - Names(addrs) == kept[i] && kept[i] - Names([]) == kept[i]
      {
        BoundSame(callbacks[i], pending, addrs, addrs, kept[i]);
      }
    }

    method Succeeded(resolved: seq<string>)
      requires Valid()
      modifies this
      ensures Valid() && callbacks == old(callbacks)
      ensures addrs == resolved && failed == 0
      ensures pending == old(pending) || exists n :: pending == old(pending) + [n]
      ensures |kept| == |old(kept)| && forall i :: 0 <= i < |kept| ==> kept[i] == old(kept)[i] - Names(addrs)
    {
      hide Sub, Bound, Names;
      PoolsApart();
      var newAddrs := StrArraySub(resolved, addrs);
      var removed := StrArraySub(addrs, resolved);
      SubMembers(resolved, addrs);
      SubMembers(addrs, resolved);
      var was := addrs;
      failed, addrs := 0, resolved;
      if |newAddrs| > 0 || |removed| > 0 {
        Issue(Notification(newAddrs, removed), was);
      } else {
        forall ip
          ensures ip in was <==> ip in resolved
        {
          assert ip !in removed && ip !in newAddrs;
        }
        forall i | 0 <= i < |callbacks|
          ensures Bound(callbacks[i], pending, resolved, kept[i]) && kept[i] - Names(resolved) == kept[i]
        {
          BoundSame(callbacks[i], pending, was, resolved, kept[i]);
        }
      }
    }

    /** `go notifyAddressChanged(…)`: the notification joins the queue. */
    method Issue(n: Notification, ghost was: seq<string>)
      requires callbacks != [] && |kept| == |callbacks|
      requires forall i :: 0 <= i < |callbacks| ==> Bound(callbacks[i], pending, was, kept[i])
      requires forall ip :: Applied(n, ip, ip in was) == (ip in addrs)
      requires forall ip :: ip in n.removedAddrs ==> ip in was
      requires forall ip :: ip in n.newAddrs <==> ip in addrs && ip !in was
      modifies this`pending, this`kept
      ensures Valid() && pending == old(pending) + [n]
      ensures |kept| == |old(kept)| && forall i :: 0 <= i < |kept| ==> kept[i] == old(kept)[i] - Names(addrs)
    {
      hide Bound, Applied, Names;
      PoolsApart();
      ghost var resolving := Names(addrs);
      ghost var before := kept;
      forall i | 0 <= i < |callbacks|
        ensures Bound(callbacks[i], pending + [n], addrs, kept[i] - resolving)
      {
        BoundIssued(callbacks[i], pending, was, addrs, n, kept[i]);
      }
      pending := pending + [n];
      kept := seq(|before|, i requires 0 <= i < |before| => before[i] - resolving);
    }

    /** ResolveHost for a host that is already being resolved: the callback joins and gets the current
        addresses at once, while older notifications may still be on their way. A target may join twice. */
    method Register(s: Subscription)
      requires Valid() && WellFormed(s) && s.pool.Valid()
      modifies this`callbacks, this`kept, s.pool
      ensures Valid() && callbacks == old(callbacks) + [s]
      ensures |kept| == |old(kept)| + 1 && kept[..|old(kept)|] == old(kept)
      ensures HeldBy(s) == old(HeldBy(s)) + Names(addrs)
      ensures kept[|old(kept)|] == iset ip | ip in old(HeldBy(s)) && ip !in addrs && !Mentioned(pending, ip)
    {
      hide AppliedAll, WellFormed, Mentioned;
      ghost var before, held := callbacks, HeldBy(s);
      ghost var own := iset ip | ip in held && ip !in addrs && !Mentioned(pending, ip);
      forall ip: string
        ensures ip in addrs ==> AppliedAll(pending, ip, true)
        ensures AppliedAll(pending, ip, ip in held || ip in addrs) == (ip in addrs || ip in own)
      {
        Settles(pending, ip, Holds(before[0], ip), Holds(s, ip));
        assert BoundAt(before[0], pending, addrs, kept[0], ip);
      }
      label Before:
      Notify(s, Notification(addrs, []));
      forall i | 0 <= i < |before|
        ensures Bound(before[i], pending, addrs, kept[i])
      {
        forall ip: string
          ensures BoundAt(before[i], pending, addrs, kept[i], ip)
        {
          assert old@Before(BoundAt(before[i], pending, addrs, kept[i], ip));
          SameTargetHolds(s, before[i], ip);
          assert !SameTarget(s, before[i]) ==> Holds(before[i], ip) == old@Before(Holds(before[i], ip));
        }
      }
      assert Bound(s, pending, addrs, own);
      callbacks, kept := callbacks + [s], kept + [own];
    }

    /** notifyAddressChanged for the oldest notification, to all callbacks registered by now. */
    method DeliverNext()
      requires Valid() && pending != []
      modifies this`pending, Pools()
      ensures Valid() && pending == old(pending)[1..] && addrs == old(addrs) && callbacks == old(callbacks)
      ensures kept == old(kept)
    {
      hide AppliedAll, Applied, Mentioned;
      var n := pending[0];
      forall i, ip | 0 <= i < |callbacks|
        ensures AppliedAll(pending[1..], ip, Applied(n, ip, Holds(callbacks[i], ip))) == (ip in addrs || ip in kept[i])
        ensures ip in kept[i] ==> ip !in addrs && !Mentioned(pending[1..], ip)
      {
        assert BoundAt(callbacks[i], pending, addrs, kept[i], ip);
        AppliedHead(pending, ip, Holds(callbacks[i], ip));
        MentionShrinks(pending, ip);
      }
      NotifyAll(n);
      pending := pending[1..];
    }

    method NotifyAll(n: Notification)
      requires forall i :: 0 <= i < |callbacks| ==> WellFormed(callbacks[i]) && callbacks[i].pool.Valid()
      modifies Pools()
      ensures forall j :: 0 <= j < |callbacks| ==> callbacks[j].pool.Valid()
      ensures forall j, ip :: 0 <= j < |callbacks| ==>
        Holds(callbacks[j], ip) == Applied(n, ip, old(Holds(callbacks[j], ip)))
    {
      hide Applied, WellFormed;
      var i := 0;
      while i < |callbacks|
        invariant 0 <= i <= |callbacks|
        invariant forall j :: 0 <= j < |callbacks| ==> callbacks[j].pool.Valid()
        invariant forall j, ip :: 0 <= j < |callbacks| ==>
          Holds(callbacks[j], ip) == if Served(callbacks, i, callbacks[j])
                                     then Applied(n, ip, old(Holds(callbacks[j], ip))) else old(Holds(callbacks[j], ip))
      {
        label Before:
        Notify(callbacks[i], n);
        forall j, ip | 0 <= j < |callbacks|
          ensures Holds(callbacks[j], ip) == if Served(callbacks, i + 1, callbacks[j])
                                             then Applied(n, ip, old(Holds(callbacks[j], ip))) else old(Holds(callbacks[j], ip))
        {
          ServedStep(callbacks, i, callbacks[j]);
          AppliedTwice(n, ip, old(Holds(callbacks[j], ip)));
          if SameTarget(callbacks[i], callbacks[j]) {
            SameTargetHolds(callbacks[i], callbacks[j], ip);
            assert Holds(callbacks[j], ip) == Applied(n, ip, old@Before(Holds(callbacks[j], ip)));
          } else {
            assert Holds(callbacks[j], ip) == old@Before(Holds(callbacks[j], ip));
          }
        }
        i := i + 1;
      }
    }
  }

  /** With nothing left in flight, every subscribed pool holds exactly the last address set and what it keeps, so
      exactly the last address set if and only if it keeps nothing. */
  lemma Converged(e: AddressWithCallback, i: nat)
    requires e.Valid() && e.pending == [] && i < |e.callbacks|
    ensures e.callbacks[i].pool.Valid() && HeldBy(e.callbacks[i]) == Names(e.addrs) + e.kept[i]
    ensures HeldBy(e.callbacks[i]) == Names(e.addrs) <==> e.kept[i] == iset{}
  {
    hide Holds, WellFormed;
    assert Bound(e.callbacks[i], e.pending, e.addrs, e.kept[i]);
    forall ip
      ensures ip in HeldBy(e.callbacks[i]) <==> ip in e.addrs || ip in e.kept[i]
      ensures ip in e.kept[i] ==> ip !in e.addrs
    {
      assert BoundAt(e.callbacks[i], e.pending, e.addrs, e.kept[i], ip);
    }
    assert HeldBy(e.callbacks[i]) == Names(e.addrs) ==> forall ip :: ip !in e.kept[i];
  }
}
