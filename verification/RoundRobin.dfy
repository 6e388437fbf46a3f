/** Trying the members of a ring one after the other, as the backend pool and the Redis publisher do. */
module Rotation {
  import opened Wrappers

  /** The position `j` steps after `start` on a ring of `n`. */
  function Slot(start: nat, j: nat, n: nat): (r: nat)
    requires n > 0
    ensures r < n
  {
    (start + j) % n
  }

  /** The first offset from `i` on at which the ring, read from `start`, accepts. */
  function Offset(accepts: seq<bool>, start: nat, i: nat): (r: Option<nat>)
    requires accepts != [] && i <= |accepts|
    ensures r.Some? ==> i <= r.value < |accepts| && accepts[Slot(start, r.value, |accepts|)]
    ensures forall j :: i <= j < (if r.Some? then r.value else |accepts|) ==> !accepts[Slot(start, j, |accepts|)]
    decreases |accepts| - i
  {
    if i == |accepts| then None
    else if accepts[Slot(start, i, |accepts|)] then Some(i)
    else Offset(accepts, start, i + 1)
  }

  lemma ModSmall(x: nat, n: nat)
    requires n > 0
    ensures x < n ==> x % n == x
    ensures n <= x < 2 * n ==> x % n == x - n
  {
  }

  /** The offset at which a full turn from `start` meets position `x`. */
  function Turn(start: nat, n: nat, x: nat): (j: nat)
    requires start < n && x < n
    ensures j < n && Slot(start, j, n) == x
  {
    ModSmall(start + (if x >= start then x - start else x - start + n), n);
    if x >= start then x - start else x - start + n
  }

  /** A full turn that fails has offered the message to everybody. */
  lemma AllRefused(accepts: seq<bool>, start: nat)
    requires accepts != [] && start < |accepts|
    ensures Offset(accepts, start, 0) == None <==> forall x :: 0 <= x < |accepts| ==> !accepts[x]
  {
    hide Slot;
    if Offset(accepts, start, 0) == None {
      forall x | 0 <= x < |accepts|
        ensures !accepts[x]
      {
        var j := Turn(start, |accepts|, x);
        assert !accepts[Slot(start, j, |accepts|)];
      }
    }
  }

  /** A turn never comes back to a position. */
  lemma NoRepeat(start: nat, n: nat, i: nat, j: nat)
    requires start < n && i < j < n
    ensures Slot(start, i, n) != Slot(start, j, n)
  {
    ModSmall(start + i, n);
    ModSmall(start + j, n);
  }
}

/** backend.go, RoundRobinBackend: a list and a map of the same backends, and the index of the last turn. */
module RoundRobin {
  import opened Wrappers
  import opened Text
  import opened Rotation

  /** A backend object: its address, and a number that tells objects of one address apart. */
  datatype Backend = Backend(address: string, serial: nat)

  function Accepts(bs: seq<Backend>, willing: set<string>): (r: seq<bool>)
    ensures |r| == |bs| && forall i :: 0 <= i < |bs| ==> r[i] == (bs[i].address in willing)
  {
    seq(|bs|, i requires 0 <= i < |bs| => bs[i].address in willing)
  }

  function Addresses(bs: seq<Backend>): (r: set<string>)
    ensures forall i :: 0 <= i < |bs| ==> bs[i].address in r
    ensures forall a :: a in r ==> exists i :: 0 <= i < |bs| && bs[i].address == a
  {
    set i | 0 <= i < |bs| :: bs[i].address
  }

  lemma CutOne(bs: seq<Backend>, i: nat)
    requires i < |bs| && forall j, k :: 0 <= j < k < |bs| ==> bs[j].address != bs[k].address
    ensures Addresses(bs[..i] + bs[i + 1..]) == Addresses(bs) - {bs[i].address}
  {
    var cut := bs[..i] + bs[i + 1..];
    forall a | a in Addresses(bs) - {bs[i].address}
      ensures a in Addresses(cut)
    {
      var j :| 0 <= j < |bs| && bs[j].address == a;
      assert cut[if j < i then j else j - 1] == bs[j];
    }
  }

  lemma AppendOne(bs: seq<Backend>, b: Backend)
    ensures Addresses(bs + [b]) == Addresses(bs) + {b.address}
  {
    var more := bs + [b];
    assert more[|bs|] == b;
    forall a | a in Addresses(bs)
      ensures a in Addresses(more)
    {
      var j :| 0 <= j < |bs| && bs[j].address == a;
      assert more[j] == bs[j];
    }
  }

  /** The list without the backends of an address, in the same order. */
  function Without(bs: seq<Backend>, address: string): seq<Backend> {
    if bs == [] then []
    else if bs[0].address == address then Without(bs[1..], address)
    else [bs[0]] + Without(bs[1..], address)
  }

  lemma {:induction false} WithoutAbsent(bs: seq<Backend>, address: string)
    requires forall i :: 0 <= i < |bs| ==> bs[i].address != address
    ensures Without(bs, address) == bs
  {
    if bs != [] {
      WithoutAbsent(bs[1..], address);
      assert bs == [bs[0]] + bs[1..];
    }
  }

  lemma {:induction false} CutIsWithout(bs: seq<Backend>, i: nat)
    requires i < |bs| && forall j, k :: 0 <= j < k < |bs| ==> bs[j].address != bs[k].address
    ensures bs[..i] + bs[i + 1..] == Without(bs, bs[i].address)
  {
    if i == 0 {
      WithoutAbsent(bs[1..], bs[0].address);
      assert bs[..0] + bs[1..] == bs[1..];
    } else {
      CutIsWithout(bs[1..], i - 1);
      assert bs[..i] + bs[i + 1..] == [bs[0]] + (bs[1..][..i - 1] + bs[1..][i..]);
    }
  }

  function Next(index: nat, n: nat): nat
    requires n > 0
  {
    (index + 1) % n
  }

  class RoundRobinBackend {
    var index: nat
    var backends: seq<Backend>
    var backendMap: map<string, Backend>

    /** List and map hold the same backends, no address twice. */
    ghost predicate Valid()
      reads this
    {
      && (forall i, j :: 0 <= i < j < |backends| ==> backends[i].address != backends[j].address)
      && (forall i :: 0 <= i < |backends| ==>
            backends[i].address in backendMap && backendMap[backends[i].address] == backends[i])
      && backendMap.Keys == Addresses(backends)
    }

    ghost function Members(): set<string>
      reads this
    {
      Addresses(backends)
    }

    constructor ()
      ensures Valid() && backends == [] && index == 0 && Members() == {}
    {
      index, backends, backendMap := 0, [], map[];
    }

    /** The loop that takes the backend of an address out of the list. */
    method CutAddress(address: string) returns (found: bool)
      requires Valid()
      modifies this`backends
      ensures found <==> address in old(Addresses(backends))
      ensures backends == Without(old(backends), address)
      ensures Addresses(backends) == old(Addresses(backends)) - {address}
      ensures forall i :: 0 <= i < |backends| ==> backends[i] in old(backends)
      ensures forall i, j :: 0 <= i < j < |backends| ==> backends[i].address != backends[j].address
    {
      hide Without, Addresses;
      var i := 0;
      while i < |backends|
        invariant 0 <= i <= |backends|
        invariant backends == old(backends)
        invariant forall j :: 0 <= j < i ==> backends[j].address != address
      {
        if backends[i].address == address {
          CutOne(backends, i);
          CutIsWithout(backends, i);
          backends := backends[..i] + backends[i + 1..];
          return true;
        }
        i := i + 1;
      }
      WithoutAbsent(backends, address);
      return false;
    }

    method RemoveBackend(address: string)
      requires Valid()
      modifies this
      ensures Valid() && index == old(index)
      ensures Members() == old(Members()) - {address}
      ensures backendMap == old(backendMap) - {address}
      ensures backends == Without(old(backends), address)
    {
      hide Without, Addresses;
      if address !in backendMap {
        WithoutAbsent(backends, address);
      }
      if address in backendMap {
        var _ := CutAddress(address);
        backendMap := backendMap - {address};
      }
    }

    /** A backend whose address is already present replaces the old one and moves to the end. */
    method AddBackend(backend: Backend)
      requires Valid()
      modifies this
      ensures Valid() && index == old(index)
      ensures Members() == old(Members()) + {backend.address}
      ensures backendMap == old(backendMap)[backend.address := backend]
      ensures backends == Without(old(backends), backend.address) + [backend]
    {
      hide Without, Addresses;
      RemoveBackend(backend.address);
      Append(backend);
    }

    method Append(backend: Backend)
      requires Valid() && backend.address !in Members()
      modifies this
      ensures Valid() && index == old(index)
      ensures Members() == old(Members()) + {backend.address}
      ensures backendMap == old(backendMap)[backend.address := backend]
      ensures backends == old(backends) + [backend]
    {
      hide Addresses;
      AppendOne(backends, backend);
      ghost var before := backends;
      backends := backends + [backend];
      backendMap := backendMap[backend.address := backend];
      assert forall i :: 0 <= i < |before| ==> backends[i] == before[i] && before[i].address != backend.address;
    }

    method GetBackend(address: string) returns (r: Option<Backend>)
      requires Valid()
      ensures r.Some? <==> address in Members()
      ensures r.Some? ==> r.value in backends && r.value.address == address
    {
      if address in backendMap {
        var i :| 0 <= i < |backends| && backends[i].address == address;
        assert backendMap[address] == backends[i];
        return Some(backendMap[address]);
      }
      return None;
    }

    /** getNextBackendIndex. */
    method GetNextBackendIndex() returns (r: Option<nat>)
      modifies this`index
      ensures backends == [] ==> r == None && index == old(index)
      ensures backends != [] ==> r == Some(index) && index == Next(old(index), |backends|) < |backends|
    {
      if |backends| <= 0 {
        return None;
      }
      index := (index + 1) % |backends|;
      return Some(index);
    }

    /** One Send, for the backends that accept at this moment. `offered` lists the addresses the message was
        offered to. It goes round once from the next index, stops at the first that accepts, and fails only
        when everybody refused. */
    method Send(willing: set<string>) returns (used: Option<Backend>, offered: seq<string>)
      requires Valid()
      modifies this`index
      ensures Valid()
      ensures backends == [] ==> used == None && offered == [] && index == old(index)
      ensures backends != [] ==> index == Next(old(index), |backends|) < |backends|
      ensures |offered| <= |backends|
      ensures forall j :: 0 <= j < |offered| ==> offered[j] == backends[Slot(index, j, |backends|)].address
      ensures forall i, j :: 0 <= i < j < |offered| ==> offered[i] != offered[j]
      ensures forall j :: 0 <= j < |offered| - 1 ==> offered[j] !in willing
      ensures used.Some? ==> used.value in backends && used.value.address in willing
      ensures used.Some? ==> offered != [] && used.value.address == offered[|offered| - 1]
      ensures used.None? <==> Members() !! willing
      ensures (used, index) == SendTo(backends, old(index), willing)
    {
      hide Addresses, Accepts, Offset;
      var start := GetNextBackendIndex();
      if start.None? {
        return None, [];
      }
      used, offered := OfferInTurn(willing);
      Distinct(backends, index, offered);
      if used.None? {
        Refusals(backends, index, offered, willing);
      } else {
        assert used.value.address in Members();
      }
    }

    /** The loop of Send. */
    method OfferInTurn(willing: set<string>) returns (used: Option<Backend>, offered: seq<string>)
      requires backends != [] && index < |backends|
      ensures |offered| <= |backends|
      ensures forall j :: 0 <= j < |offered| ==> offered[j] == backends[Slot(index, j, |backends|)].address
      ensures forall j :: 0 <= j < |offered| - 1 ==> offered[j] !in willing
      ensures used.Some? ==> used.value in backends && used.value.address in willing
      ensures used.Some? ==> offered != [] && used.value.address == offered[|offered| - 1]
      ensures used.None? ==> |offered| == |backends| && forall j :: 0 <= j < |offered| ==> offered[j] !in willing
      ensures used == match Offset(Accepts(backends, willing), index, 0)
                      case None => None case Some(j) => Some(backends[Slot(index, j, |backends|)])
    {
      offered := [];
      used := None;
      var at := index;
      var n := |backends|;
      ghost var accepts := Accepts(backends, willing);
      while n > 0
        invariant 0 <= n <= |backends| && at == index + |backends| - n
        invariant |offered| == |backends| - n
        invariant Offset(accepts, index, 0) == Offset(accepts, index, |offered|)
        invariant forall j :: 0 <= j < |offered| ==>
          offered[j] == backends[Slot(index, j, |backends|)].address && offered[j] !in willing
      {
        assert at % |backends| == Slot(index, |offered|, |backends|);
        var backend := backends[at % |backends|];
        at := at + 1;
        if backend.address in willing {
          return Some(backend), offered + [backend.address];
        }
        offered := offered + [backend.address];
        n := n - 1;
      }
    }

    /** hostIPChanged: new addresses join first, removed ones leave afterwards. `creatable` are the endpoints a
        backend can be created for; a protocol other than udp and tcp changes nothing. */
    method HostIPChanged(protocol: string, newIPs: seq<string>, removedIPs: seq<string>, port: string,
                         creatable: set<string>, serial: nat)
      requires Valid()
      modifies this
      ensures Valid()
      ensures Members() ==
              if protocol == "udp" || protocol == "tcp"
              then old(Members()) + (Endpoints(protocol, newIPs, port) * creatable) - Endpoints(protocol, removedIPs, port)
              else old(Members())
    {
      hide Addresses, Endpoints;
      if protocol == "udp" || protocol == "tcp" {
        JoinAll(protocol, newIPs, port, creatable, serial);
        LeaveAll(protocol, removedIPs, port);
      }
    }

    method JoinAll(protocol: string, ips: seq<string>, port: string, creatable: set<string>, serial: nat)
      requires Valid()
      modifies this
      ensures Valid() && Members() == old(Members()) + (Endpoints(protocol, ips, port) * creatable)
    {
      hide Addresses, Without, Endpoint;
      var i := 0;
      while i < |ips|
        invariant 0 <= i <= |ips| && Valid()
        invariant Members() == old(Members()) + (Endpoints(protocol, ips[..i], port) * creatable)
      {
        var endpoint := Endpoint(protocol, ips[i], port);
        if endpoint in creatable {
          AddBackend(Backend(endpoint, serial));
        }
        EndpointsGrow(protocol, ips, port, i);
        i := i + 1;
      }
      assert ips[..i] == ips;
    }

    method LeaveAll(protocol: string, ips: seq<string>, port: string)
      requires Valid()
      modifies this
      ensures Valid() && Members() == old(Members()) - Endpoints(protocol, ips, port)
    {
      hide Addresses, Without, Endpoint;
      var i := 0;
      while i < |ips|
        invariant 0 <= i <= |ips| && Valid()
        invariant Members() == old(Members()) - Endpoints(protocol, ips[..i], port)
      {
        RemoveBackend(Endpoint(protocol, ips[i], port));
        EndpointsGrow(protocol, ips, port, i);
        i := i + 1;
      }
      assert ips[..i] == ips;
    }
  }

  function Endpoint(protocol: string, ip: string, port: string): string {
    protocol + "://" + JoinHostPort(ip, port)
  }

  function Endpoints(protocol: string, ips: seq<string>, port: string): (r: set<string>)
    ensures forall i :: 0 <= i < |ips| ==> Endpoint(protocol, ips[i], port) in r
    ensures forall a :: a in r ==> exists i :: 0 <= i < |ips| && a == Endpoint(protocol, ips[i], port)
  {
    set i | 0 <= i < |ips| :: Endpoint(protocol, ips[i], port)
  }

  lemma EndpointsGrow(protocol: string, ips: seq<string>, port: string, i: nat)
    requires i < |ips|
    ensures Endpoints(protocol, ips[..i + 1], port)
         == Endpoints(protocol, ips[..i], port) + {Endpoint(protocol, ips[i], port)}
  {
    hide Endpoint;
    var a, b := ips[..i + 1], ips[..i];
    forall e | e in Endpoints(protocol, a, port)
      ensures e in Endpoints(protocol, b, port) + {Endpoint(protocol, ips[i], port)}
    {
      var j :| 0 <= j < |a| && e == Endpoint(protocol, a[j], port);
      if j < i {
        assert b[j] == a[j];
      }
    }
    forall e | e in Endpoints(protocol, b, port)
      ensures e in Endpoints(protocol, a, port)
    {
      var j :| 0 <= j < |b| && e == Endpoint(protocol, b[j], port);
      assert a[j] == b[j];
    }
    assert a[i] == ips[i];
  }

  /** The address a backend is known by: a host with a colon is bracketed. */
  lemma EndpointText(ip: string, port: string)
    ensures ':' !in ip ==> Endpoint("udp", ip, port) == "udp://" + ip + ":" + port
    ensures ':' in ip ==> Endpoint("tcp", ip, port) == "tcp://[" + ip + "]:" + port
  {
    assert "udp" + "://" == "udp://" && "tcp" + "://" + "[" == "tcp://[";
  }

  /** Different addresses of a host are different members. */
  lemma EndpointInjective(protocol: string, ip1: string, ip2: string, port: string)
    requires Endpoint(protocol, ip1, port) == Endpoint(protocol, ip2, port)
    ensures ip1 == ip2
  {
    hide JoinHostPort;
    var front := protocol + "://";
    var a1, a2 := JoinHostPort(ip1, port), JoinHostPort(ip2, port);
    assert (front + a1)[|front|..] == a1 && (front + a2)[|front|..] == a2;
    JoinHostPortInjective(ip1, ip2, port);
  }

  lemma Distinct(bs: seq<Backend>, start: nat, offered: seq<string>)
    requires start < |bs| && |offered| <= |bs|
    requires forall i, j :: 0 <= i < j < |bs| ==> bs[i].address != bs[j].address
    requires forall j :: 0 <= j < |offered| ==> offered[j] == bs[Slot(start, j, |bs|)].address
    ensures forall i, j :: 0 <= i < j < |offered| ==> offered[i] != offered[j]
  {
    forall i, j | 0 <= i < j < |offered|
      ensures offered[i] != offered[j]
    {
      NoRepeat(start, |bs|, i, j);
    }
  }

  lemma Refusals(bs: seq<Backend>, start: nat, offered: seq<string>, willing: set<string>)
    requires start < |bs| == |offered|
    requires forall j :: 0 <= j < |offered| ==> offered[j] == bs[Slot(start, j, |bs|)].address && offered[j] !in willing
    ensures Addresses(bs) !! willing
  {
    forall i | 0 <= i < |bs|
      ensures bs[i].address !in willing
    {
      var j := Turn(start, |bs|, i);
      assert offered[j] == bs[i].address;
    }
  }

  /** One send as a function: the backend that takes the message, if any, and the index it leaves. */
  function SendTo(bs: seq<Backend>, index: nat, willing: set<string>): (Option<Backend>, nat) {
    if bs == [] then (None, index)
    else
      var at := Next(index, |bs|);
      match Offset(Accepts(bs, willing), at, 0)
      case None => (None, at)
      case Some(j) => (Some(bs[Slot(at, j, |bs|)]), at)
  }

  // ---- fairness ----

  /** How many of `m` sends in a row a backend takes. */
  function Taken(bs: seq<Backend>, index: nat, willing: set<string>, address: string, m: nat): nat
    decreases m
  {
    if m == 0 then 0
    else
      var (used, after) := SendTo(bs, index, willing);
      (if used.Some? && used.value.address == address then 1 else 0) + Taken(bs, after, willing, address, m - 1)
  }

  /** How often a pool of `n` backends that all accept picks position `i` in `m` sends, when `index` is the
      index left by the send before. */
  function Picks(index: nat, n: nat, i: nat, m: nat): nat
    requires n > 0
    decreases m
  {
    if m == 0 then 0
    else (if Next(index, n) == i then 1 else 0) + Picks(Next(index, n), n, i, m - 1)
  }

  function Distance(from: nat, n: nat, i: nat): nat
    requires from < n && i < n
  {
    if i >= from then i - from else i - from + n
  }

  lemma {:induction false} PicksExactly(index: nat, n: nat, i: nat, q: nat, r: nat)
    requires i < n && r < n
    ensures Picks(index, n, i, q * n + r) == q + (if Distance(Next(index, n), n, i) < r then 1 else 0)
    decreases q, r
  {
    var at := Next(index, n);
    assert at < n;
    ModSmall(at + 1, n);
    if r > 0 {
      PicksExactly(at, n, i, q, r - 1);
      assert q * n + r - 1 == q * n + (r - 1);
    } else if q > 0 {
      PicksExactly(at, n, i, q - 1, n - 1);
      assert q * n == (q - 1) * n + n;
      assert (q - 1) * n + (n - 1) == q * n + 0 - 1;
    }
  }

  lemma TakenAtIndex(bs: seq<Backend>, index: nat, willing: set<string>)
    requires bs != [] && Addresses(bs) <= willing
    ensures SendTo(bs, index, willing) == (Some(bs[Next(index, |bs|)]), Next(index, |bs|))
  {
    var at := Next(index, |bs|);
    ModSmall(at, |bs|);
    assert Accepts(bs, willing)[Slot(at, 0, |bs|)];
  }

  lemma {:induction false} TakenIsPicked(bs: seq<Backend>, index: nat, willing: set<string>, i: nat, m: nat)
    requires i < |bs| && Addresses(bs) <= willing
    requires forall j, k :: 0 <= j < k < |bs| ==> bs[j].address != bs[k].address
    ensures Taken(bs, index, willing, bs[i].address, m) == Picks(index, |bs|, i, m)
    decreases m
  {
    hide SendTo, Addresses;
    if m > 0 {
      TakenAtIndex(bs, index, willing);
      TakenIsPicked(bs, Next(index, |bs|), willing, i, m - 1);
    }
  }

  /** While all backends of a pool accept, any window of `m` sends gives each of them floor(m/n) or ceil(m/n)
      messages, from whatever index it starts. */
  lemma Fairness(bs: seq<Backend>, index: nat, willing: set<string>, i: nat, m: nat)
    requires i < |bs| && Addresses(bs) <= willing
    requires forall j, k :: 0 <= j < k < |bs| ==> bs[j].address != bs[k].address
    ensures var (n, k) := (|bs|, Taken(bs, index, willing, bs[i].address, m));
      k == m / n || (m % n != 0 && k == m / n + 1)
  {
    hide Taken, Picks, Addresses;
    TakenIsPicked(bs, index, willing, i, m);
    DivMod(m, |bs|);
    PicksExactly(index, |bs|, i, m / |bs|, m % |bs|);
  }

  lemma DivMod(m: nat, n: nat)
    requires n > 0
    ensures (m / n) * n + m % n == m
  {
  }
}
