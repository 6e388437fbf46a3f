/** What a session store is for: the last binding of a session holds until it is deleted or its time is over. */
module SessionHistory {
  import opened Wrappers
  import opened Text

  datatype Event<V> = Added(session: string, value: V, life: int) | Deleted(session: string)
  datatype Timed<V> = Timed(at: int, event: Event<V>)

  /** The plain meaning of a history, asked at time `now`. */
  function Answer<V>(h: seq<Timed<V>>, session: string, now: int): Option<V> {
    if h == [] then None
    else
      var last := h[|h| - 1];
      if last.event.session != session then Answer(h[..|h| - 1], session, now)
      else
        match last.event
        case Deleted(_) => None
        case Added(_, v, life) => if last.at + life > now then Some(v) else None
  }

  predicate LastOf<V>(h: seq<Timed<V>>, i: nat, session: string) {
    i < |h| && h[i].event.session == session && forall j :: i < j < |h| ==> h[j].event.session != session
  }

  predicate LiveAdd<V(==)>(h: seq<Timed<V>>, i: nat, session: string, now: int, v: V) {
    LastOf(h, i, session) && h[i].event.Added? && h[i].event.value == v && h[i].at + h[i].event.life > now
  }

  /** A lookup answers a value exactly when the last event of the session is an add of it whose time has not
      run out. */
  lemma {:induction false} AnswerIsLastAdd<V>(h: seq<Timed<V>>, session: string, now: int, v: V)
    ensures Answer(h, session, now) == Some(v) <==> exists i: nat :: LiveAdd(h, i, session, now, v)
  {
    if h != [] {
      var n := |h| - 1;
      if h[n].event.session == session {
        assert LastOf(h, n, session);
        assert forall i: nat :: LastOf(h, i, session) ==> i == n;
        assert Answer(h, session, now) == Some(v) <==> LiveAdd(h, n, session, now, v);
      } else {
        AnswerIsLastAdd(h[..n], session, now, v);
        assert forall i: nat :: LastOf(h, i, session) <==> LastOf(h[..n], i, session);
        assert forall i: nat :: LiveAdd(h, i, session, now, v) <==> LiveAdd(h[..n], i, session, now, v);
      }
    }
  }

  lemma AnswerAppend<V>(h: seq<Timed<V>>, e: Timed<V>, session: string, now: int)
    ensures Answer(h + [e], session, now) ==
            if e.event.session != session then Answer(h, session, now)
            else match e.event
              case Deleted(_) => None
              case Added(_, v, life) => if e.at + life > now then Some(v) else None
  {
    assert (h + [e])[..|h|] == h;
  }

  // ---- durations ----

  const SECOND := 1_000_000_000
  /** The largest number of seconds that `time.Duration`, a 64-bit count of nanoseconds, can hold. */
  const MAX_SECONDS := 9_223_372_036

  /** The value a 64-bit multiplication leaves. */
  function Wrap64(n: int): int {
    (n + TWO_63) % (2 * TWO_63) - TWO_63
  }

  /** AddBackend's lifetime in nanoseconds: the configured timeout, or the message's Expires if that is longer. */
  function Lifetime(timeout: int, expireSeconds: int): int {
    if expireSeconds * SECOND > timeout then Wrap64(expireSeconds * SECOND) else timeout
  }

  /** The lifetime is the longer of the two exactly for values of Expires that fit a Duration. */
  lemma LifetimeIsMaximum(timeout: int, expireSeconds: int)
    requires IsInt64(timeout)
    ensures Lifetime(timeout, expireSeconds) == (if expireSeconds * SECOND > timeout then expireSeconds * SECOND else timeout)
       <==> expireSeconds <= MAX_SECONDS
  {
  }

  /** The wrapped value is the only 64-bit number that differs by a multiple of 2^64. */
  lemma WrapsOnce(n: int, m: int)
    requires IsInt64(m)
    ensures IsInt64(Wrap64(n))
    ensures Wrap64(n) == m <==> (n - m) % (2 * TWO_63) == 0
  {
  }

  /** An Expires value whose nanoseconds do not wrap below the timeout. */
  predicate Binds(timeout: int, expireSeconds: int) {
    expireSeconds <= MAX_SECONDS || Wrap64(expireSeconds * SECOND) >= timeout
  }

  /** Exactly those give a lifetime of at least the timeout. */
  lemma LifetimeCoversTimeout(timeout: int, expireSeconds: int)
    requires IsInt64(timeout)
    ensures Lifetime(timeout, expireSeconds) >= timeout <==> Binds(timeout, expireSeconds)
  {
  }
}

/** backend.go, LocalSessionBasedBackend: expiring bindings to backend objects, times in nanoseconds. */
module LocalSessions {
  import opened Wrappers
  import opened Text
  import opened SessionHistory

  datatype ExpireBackend<V> = ExpireBackend(backend: V, expire: int)

  class LocalSessionBasedBackend<V> {
    const timeout: int
    var backends: map<string, ExpireBackend<V>>
    var nextCleanTime: int
    /** All adds and removals so far, and the latest clock reading. */
    ghost var history: seq<Timed<V>>
    ghost var clock: int

    ghost function Held(session: string, now: int): Option<V>
      reads this
    {
      if session in backends && backends[session].expire > now then Some(backends[session].backend) else None
    }

    /** Now and later, the map answers what the history says. */
    ghost predicate Valid()
      reads this
    {
      && IsInt64(timeout)
      && forall s, t :: t >= clock ==> Held(s, t) == Answer(history, s, t)
    }

    constructor (timeout: int, now: int)
      requires IsInt64(timeout)
      ensures Valid() && history == [] && clock == now && this.timeout == timeout
    {
      this.timeout := timeout;
      backends, nextCleanTime := map[], now + timeout;
      history, clock := [], now;
    }

    /** Deletes an expired binding on the way; no answer changes by that. */
    method GetBackend(session: string, now: int) returns (r: Option<V>)
      requires Valid() && now >= clock
      modifies this
      ensures Valid() && history == old(history) && clock == now
      ensures r == Answer(history, session, now)
      ensures backends == if r.Some? then old(backends) else old(backends) - {session}
    {
      clock := now;
      assert Held(session, now) == Answer(history, session, now);
      if session in backends {
        if backends[session].expire > now {
          return Some(backends[session].backend);
        }
        backends := backends - {session};
        Forgotten(session);
      }
      return None;
    }

    /** Entries that have run out can go. */
    lemma Forgotten(session: string)
      requires forall s, t :: t >= clock && s != session ==> Held(s, t) == Answer(history, s, t)
      requires Answer(history, session, clock) == None && session !in backends && IsInt64(timeout)
      ensures Valid()
    {
      forall s, t | t >= clock
        ensures Held(s, t) == Answer(history, s, t)
      {
        StaysSilent(history, s, clock, t);
      }
    }

    method AddBackend(session: string, backend: V, expireSeconds: int, now: int)
      requires Valid() && now >= clock
      modifies this
      ensures Valid() && clock == now
      ensures history == old(history) + [Timed(now, Added(session, backend, Lifetime(timeout, expireSeconds)))]
    {
      hide Lifetime;
      var life := timeout;
      if expireSeconds * SECOND > life {
        life := Wrap64(expireSeconds * SECOND);
      }
      assert life == Lifetime(timeout, expireSeconds) by { LifetimeChosen(timeout, expireSeconds); }
      clock := now;
      ghost var e := Timed(now, Added(session, backend, life));
      backends := backends[session := ExpireBackend(backend, now + life)];
      forall s, t | t >= clock
        ensures Held(s, t) == Answer(history + [e], s, t)
      {
        AnswerAppend(history, e, s, t);
        assert s != session ==> Held(s, t) == old(Held(s, t));
      }
      history := history + [e];
      CleanExpiredSession(now);
    }

    method RemoveSession(session: string, now: int)
      requires Valid() && now >= clock
      modifies this
      ensures Valid() && clock == now
      ensures history == old(history) + [Timed(now, Deleted(session))]
    {
      clock := now;
      ghost var e: Timed<V> := Timed(now, Deleted(session));
      backends := backends - {session};
      forall s, t | t >= clock
        ensures Held(s, t) == Answer(history + [e], s, t)
      {
        AnswerAppend(history, e, s, t);
        assert s != session ==> Held(s, t) == old(Held(s, t));
      }
      history := history + [e];
    }

    /** cleanExpiredSession: at most once per timeout, drops what expired before now. */
    method CleanExpiredSession(now: int)
      requires Valid() && now == clock
      modifies this
      ensures Valid() && history == old(history) && clock == old(clock)
      ensures old(nextCleanTime) > now ==> backends == old(backends) && nextCleanTime == old(nextCleanTime)
      ensures old(nextCleanTime) <= now ==>
        nextCleanTime == now + timeout && backends == map s | s in old(backends) && old(backends)[s].expire >= now :: old(backends)[s]
    {
      if nextCleanTime > now {
        return;
      }
      nextCleanTime := now + timeout;
      var expired: set<string> := {};
      var left := backends.Keys;
      while left != {}
        invariant left <= backends.Keys && backends == old(backends) && nextCleanTime == now + timeout
        invariant history == old(history) && clock == now
        invariant forall s :: s in expired <==> s in backends && s !in left && backends[s].expire < now
        decreases left
      {
        var s :| s in left;
        if backends[s].expire < now {
          expired := expired + {s};
        }
        left := left - {s};
      }
      while expired != {}
        invariant forall s :: s in expired ==> s in backends && backends[s].expire < now
        invariant forall s :: s in backends ==> s in old(backends) && backends[s] == old(backends)[s]
        invariant forall s :: s in old(backends) && s !in backends ==> old(backends)[s].expire < now
        invariant forall s :: s in backends && backends[s].expire < now ==> s in expired
        invariant nextCleanTime == now + timeout
        invariant forall s, t :: t >= now ==> Held(s, t) == old(Held(s, t))
        invariant history == old(history) && clock == now
        decreases expired
      {
        var s :| s in expired;
        backends := backends - {s};
        expired := expired - {s};
      }
    }
  }

  lemma LifetimeChosen(timeout: int, expireSeconds: int)
    ensures Lifetime(timeout, expireSeconds)
         == if expireSeconds * SECOND > timeout then Wrap64(expireSeconds * SECOND) else timeout
  {
  }

  /** An answer that is gone never comes back by waiting. */
  lemma {:induction false} StaysSilent<V>(h: seq<Timed<V>>, session: string, now: int, later: int)
    requires later >= now
    ensures Answer(h, session, now) == None ==> Answer(h, session, later) == None
  {
    if h != [] {
      StaysSilent(h[..|h| - 1], session, now, later);
    }
  }
}

/** backend.go, RedisSessionBackendAddrMgr: bindings to backend addresses learnt from Redis, times in seconds. */
module RedisSessions {
  import opened Wrappers
  import opened SessionHistory

  datatype AddrInfo = AddrInfo(address: string, expires: int)

  class RedisSessionBackendAddrMgr {
    var sessionBackendAddrs: map<string, AddrInfo>
    var nextCleanTime: int
    ghost var history: seq<Timed<string>>
    ghost var clock: int

    ghost function Held(session: string, now: int): Option<string>
      reads this
    {
      if session in sessionBackendAddrs && sessionBackendAddrs[session].expires > now
      then Some(sessionBackendAddrs[session].address) else None
    }

    ghost predicate Valid()
      reads this
    {
      forall s, t :: t >= clock ==> Held(s, t) == Answer(history, s, t)
    }

    constructor (now: int)
      ensures Valid() && history == [] && clock == now
    {
      sessionBackendAddrs, nextCleanTime := map[], 0;
      history, clock := [], now;
    }

    method GetBackendAddress(session: string, now: int) returns (r: Option<string>)
      requires Valid() && now >= clock
      modifies this
      ensures Valid() && history == old(history) && clock == now
      ensures r == Answer(history, session, now)
    {
      clock := now;
      CleanExpiredSession(now);
      assert Held(session, now) == Answer(history, session, now);
      if session in sessionBackendAddrs && sessionBackendAddrs[session].expires > now {
        return Some(sessionBackendAddrs[session].address);
      }
      return None;
    }

    method SetBackendAddress(session: string, address: string, life: int, now: int)
      requires Valid() && now >= clock
      modifies this
      ensures Valid() && clock == now
      ensures history == old(history) + [Timed(now, Added(session, address, life))]
    {
      clock := now;
      CleanExpiredSession(now);
      ghost var e := Timed(now, Added(session, address, life));
      ghost var before := sessionBackendAddrs;
      sessionBackendAddrs := sessionBackendAddrs[session := AddrInfo(address, life + now)];
      forall s, t | t >= clock
        ensures Held(s, t) == Answer(history + [e], s, t)
      {
        AnswerAppend(history, e, s, t);
        assert s != session ==> (s in before <==> s in sessionBackendAddrs);
      }
      history := history + [e];
    }

    method RemoveBackend(session: string, now: int) returns (found: bool)
      requires Valid() && now >= clock
      modifies this
      ensures Valid() && clock == now
      ensures history == old(history) + [Timed(now, Deleted(session))]
      ensures found <==> session in old(sessionBackendAddrs)
      ensures sessionBackendAddrs == old(sessionBackendAddrs) - {session}
    {
      clock := now;
      ghost var e: Timed<string> := Timed(now, Deleted(session));
      found := session in sessionBackendAddrs;
      if found {
        sessionBackendAddrs := sessionBackendAddrs - {session};
      }
      forall s, t | t >= clock
        ensures Held(s, t) == Answer(history + [e], s, t)
      {
        AnswerAppend(history, e, s, t);
        assert s != session ==> Held(s, t) == old(Held(s, t));
      }
      history := history + [e];
    }

    /** cleanExpiredSession: at most once a minute, drops what has expired by now. */
    method CleanExpiredSession(now: int)
      requires Valid() && now == clock
      modifies this
      ensures Valid() && history == old(history) && clock == old(clock)
      ensures old(nextCleanTime) > now ==> sessionBackendAddrs == old(sessionBackendAddrs) && nextCleanTime == old(nextCleanTime)
      ensures old(nextCleanTime) <= now ==>
        nextCleanTime == now + 60 && sessionBackendAddrs == map s | s in old(sessionBackendAddrs) && old(sessionBackendAddrs)[s].expires > now :: old(sessionBackendAddrs)[s]
    {
      if nextCleanTime > now {
        return;
      }
      nextCleanTime := now + 60;
      var expired: set<string> := {};
      var left := sessionBackendAddrs.Keys;
      while left != {}
        invariant left <= sessionBackendAddrs.Keys && sessionBackendAddrs == old(sessionBackendAddrs) && nextCleanTime == now + 60
        invariant history == old(history) && clock == now
        invariant forall s :: s in expired <==> s in sessionBackendAddrs && s !in left && sessionBackendAddrs[s].expires <= now
        decreases left
      {
        var s :| s in left;
        if sessionBackendAddrs[s].expires <= now {
          expired := expired + {s};
        }
        left := left - {s};
      }
      while expired != {}
        invariant forall s :: s in expired ==> s in sessionBackendAddrs && sessionBackendAddrs[s].expires <= now
        invariant forall s :: s in sessionBackendAddrs ==> s in old(sessionBackendAddrs) && sessionBackendAddrs[s] == old(sessionBackendAddrs)[s]
        invariant forall s :: s in old(sessionBackendAddrs) && s !in sessionBackendAddrs ==> old(sessionBackendAddrs)[s].expires <= now
        invariant forall s :: s in sessionBackendAddrs && sessionBackendAddrs[s].expires <= now ==> s in expired
        invariant nextCleanTime == now + 60
        invariant forall s, t :: t >= now ==> Held(s, t) == old(Held(s, t))
        invariant history == old(history) && clock == now
        decreases expired
      {
        var s :| s in expired;
        sessionBackendAddrs := sessionBackendAddrs - {s};
        expired := expired - {s};
      }
    }
  }
}
