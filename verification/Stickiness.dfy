/** proxy.go and backend.go, sessions: which backend a request is offered to over a whole run. */
module Stickiness {
  import opened Wrappers
  import opened Text
  import opened SessionHistory
  import opened LocalSessions
  import opened SessionWire
  import opened RoundRobin
  import opened HeaderViews
  import Identity

  /** What reaches the session code: a request bound for a backend, or a response. For a request, `remote` is
      the backend the Redis store would name, `pooled` the one a pool would hand the message to, and `willing`
      says whether a backend named by a store accepts the message. */
  datatype Arrival =
    | Request(session: string, at: int, expires: int, remote: Option<string>, pooled: Option<string>, willing: bool)
    | Response(session: string, at: int, bye: bool, remote: Option<string>)

  type History = seq<Timed<string>>

  /** The backend a request is offered to; for a pool, the member that takes it. */
  function Target(h: History, a: Arrival): Option<string>
    requires a.Request?
  {
    var bound := Answer(h, a.session, a.at);
    if bound.Some? then bound else if a.remote.Some? then a.remote else a.pooled
  }

  /** The backend that has taken the request. */
  function Used(h: History, a: Arrival): Option<string>
    requires a.Request?
  {
    if Answer(h, a.session, a.at).Some? || a.remote.Some? then (if a.willing then Target(h, a) else None) else a.pooled
  }

  /** The local store's history after one arrival. */
  function After(timeout: int, h: History, a: Arrival): History {
    match a
    case Request(s, at, expires, _, _, _) =>
      if s != "" && Used(h, a).Some? then h + [Timed(at, Added(s, Used(h, a).value, Lifetime(timeout, expires)))] else h
    case Response(s, at, bye, remote) =>
      if bye && (Answer(h, s, at).Some? || remote.Some?) then h + [Timed(at, Deleted(s))] else h
  }

  function Run(timeout: int, h: History, arrivals: seq<Arrival>): History {
    if arrivals == [] then h
    else After(timeout, Run(timeout, h, arrivals[..|arrivals| - 1]), arrivals[|arrivals| - 1])
  }

  /** A request that no backend took binds nothing; one that was taken binds its session to who took it. */
  lemma SendBindsTaker(timeout: int, h: History, a: Arrival, now: int)
    requires a.Request?
    ensures Used(h, a) == None || a.session == "" ==> After(timeout, h, a) == h
    ensures Used(h, a).Some? && a.session != "" && now < a.at + Lifetime(timeout, a.expires) ==>
      Answer(After(timeout, h, a), a.session, now) == Used(h, a)
  {
    hide Lifetime, Answer;
    if Used(h, a).Some? {
      AnswerAppend(h, Timed(a.at, Added(a.session, Used(h, a).value, Lifetime(timeout, a.expires))), a.session, now);
    }
  }

  /** A bound session goes to its backend, an unbound one to what Redis names, and only then to a pool; a backend that
      a store names gets the message only if it accepts. */
  lemma WhoIsOffered(h: History, a: Arrival)
    requires a.Request?
    ensures Answer(h, a.session, a.at).Some? ==> Target(h, a) == Answer(h, a.session, a.at)
    ensures Answer(h, a.session, a.at).None? && a.remote.Some? ==> Target(h, a) == a.remote
    ensures Answer(h, a.session, a.at).None? && a.remote.None? ==> Target(h, a) == a.pooled && Used(h, a) == a.pooled
    ensures Answer(h, a.session, a.at).Some? || a.remote.Some? ==> Used(h, a) == if a.willing then Target(h, a) else None
  {
    hide Answer;
  }

  /** A response to a BYE unbinds the session; any other response leaves all as it was; and no arrival touches the
      answer for another session. */
  lemma ByeUnbinds(timeout: int, h: History, a: Arrival, other: string, now: int)
    ensures a.Response? && a.bye && now >= a.at ==> Answer(After(timeout, h, a), a.session, now) == None
    ensures a.Response? && !a.bye ==> After(timeout, h, a) == h
    ensures other != a.session ==> Answer(After(timeout, h, a), other, now) == Answer(h, other, now)
  {
    hide Lifetime, Answer;
    if a.Response? {
      AnswerAppend(h, Timed(a.at, Deleted(a.session)), a.session, now);
      AnswerAppend(h, Timed(a.at, Deleted(a.session)), other, now);
      if now >= a.at {
        StaysSilent(h, a.session, a.at, now);
      }
    } else if Used(h, a).Some? {
      AnswerAppend(h, Timed(a.at, Added(a.session, Used(h, a).value, Lifetime(timeout, a.expires))), other, now);
    }
  }

  function LastEvent(h: History, session: string): Option<Timed<string>> {
    if h == [] then None
    else if h[|h| - 1].event.session == session then Some(h[|h| - 1])
    else LastEvent(h[..|h| - 1], session)
  }

  lemma LastEventAppend(h: History, e: Timed<string>, session: string)
    ensures LastEvent(h + [e], session) == if e.event.session == session then Some(e) else LastEvent(h, session)
  {
    assert (h + [e])[..|h|] == h;
  }

  lemma {:induction false} AnswerByLastEvent(h: History, session: string, now: int)
    ensures Answer(h, session, now) ==
              match LastEvent(h, session)
              case None => None
              case Some(Timed(_, Deleted(_))) => None
              case Some(Timed(at, Added(_, b, life))) => if at + life > now then Some(b) else None
  {
    if h != [] {
      AnswerByLastEvent(h[..|h| - 1], session, now);
    }
  }

  /** The session is bound to `b` for at least the timeout after its last successful send. */
  predicate BoundTo(h: History, session: string, b: string, timeout: int) {
    match LastEvent(h, session)
    case Some(Timed(at, Added(_, v, life))) => v == b && life >= timeout
    case _ => false
  }

  /** A request arrives less than the timeout after the last successful send of its session. */
  predicate Timely(timeout: int, h: History, a: Arrival) {
    LastEvent(h, a.session).Some? && a.at < LastEvent(h, a.session).value.at + timeout
  }

  /** Of one session's arrivals: requests are timely and name an Expires that does not wrap below the timeout,
      responses are not to a BYE. Arrivals of other sessions may be anything. */
  predicate Behaves(timeout: int, h: History, a: Arrival, session: string) {
    a.session == session ==>
      match a
      case Request(_, _, expires, _, _, _) => Timely(timeout, h, a) && Binds(timeout, expires)
      case Response(_, _, bye, _) => !bye
  }

  lemma StaysBound(timeout: int, h: History, a: Arrival, session: string, b: string)
    requires IsInt64(timeout) && BoundTo(h, session, b, timeout) && Behaves(timeout, h, a, session)
    ensures BoundTo(After(timeout, h, a), session, b, timeout)
    ensures a.Request? && a.session == session ==> Target(h, a) == Some(b)
  {
    hide Lifetime, Answer, LastEvent;
    AnswerByLastEvent(h, a.session, a.at);
    if a.Request? {
      LifetimeCoversTimeout(timeout, a.expires);
      if Used(h, a).Some? {
        LastEventAppend(h, Timed(a.at, Added(a.session, Used(h, a).value, Lifetime(timeout, a.expires))), session);
      }
    } else {
      LastEventAppend(h, Timed(a.at, Deleted(a.session)), session);
    }
  }

  /** The arrivals from `first` up to but not including `last`, seen from the history each one meets. */
  predicate Behaved(timeout: int, h: History, arrivals: seq<Arrival>, first: nat, last: nat, session: string)
    requires last <= |arrivals|
  {
    forall k :: first <= k < last ==> Behaves(timeout, Run(timeout, h, arrivals[..k]), arrivals[k], session)
  }

  lemma {:induction false} BoundThroughout(timeout: int, h: History, arrivals: seq<Arrival>, i: nat, k: nat,
                                           session: string, b: string)
    requires IsInt64(timeout) && i < k <= |arrivals| && session != ""
    requires arrivals[i].Request? && arrivals[i].session == session && Binds(timeout, arrivals[i].expires)
    requires Used(Run(timeout, h, arrivals[..i]), arrivals[i]) == Some(b)
    requires Behaved(timeout, h, arrivals, i + 1, k, session)
    ensures BoundTo(Run(timeout, h, arrivals[..k]), session, b, timeout)
    decreases k
  {
    hide Lifetime, Answer, LastEvent, Used, Behaves;
    var prefix := arrivals[..k];
    assert prefix[..k - 1] == arrivals[..k - 1] && prefix[k - 1] == arrivals[k - 1];
    var before := Run(timeout, h, arrivals[..k - 1]);
    if k == i + 1 {
      var e := Timed(arrivals[i].at, Added(session, b, Lifetime(timeout, arrivals[i].expires)));
      LastEventAppend(before, e, session);
      LifetimeCoversTimeout(timeout, arrivals[i].expires);
    } else {
      BoundThroughout(timeout, h, arrivals, i, k - 1, session, b);
      StaysBound(timeout, before, arrivals[k - 1], session, b);
    }
  }

  /** Once a request of a session has been taken by a backend, every later request of it that arrives in time is
      offered to that backend, whatever other sessions, Redis updates and pools do in between. */
  lemma SessionIsSticky(timeout: int, h: History, arrivals: seq<Arrival>, i: nat, j: nat, b: string)
    requires IsInt64(timeout) && i < j < |arrivals|
    requires arrivals[i].Request? && arrivals[i].session != "" && Binds(timeout, arrivals[i].expires)
    requires Used(Run(timeout, h, arrivals[..i]), arrivals[i]) == Some(b)
    requires arrivals[j].Request? && arrivals[j].session == arrivals[i].session
    requires Behaved(timeout, h, arrivals, i + 1, j, arrivals[i].session)
    requires Timely(timeout, Run(timeout, h, arrivals[..j]), arrivals[j])
    ensures Target(Run(timeout, h, arrivals[..j]), arrivals[j]) == Some(b)
  {
    hide Lifetime, Answer, LastEvent, Used, Behaves;
    var hj := Run(timeout, h, arrivals[..j]);
    BoundThroughout(timeout, h, arrivals, i, j, arrivals[i].session, b);
    AnswerByLastEvent(hj, arrivals[j].session, arrivals[j].at);
  }

  /** The same for the messages of one conversation, in either direction and after any rewrites of the proxy. */
  lemma ConversationIsSticky(v: View, w: View, rv: seq<Identity.Rewrite>, rw: seq<Identity.Rewrite>,
                             timeout: int, h: History, arrivals: seq<Arrival>, i: nat, j: nat, b: string)
    requires Identity.SameConversation(v, w) && Identity.CallIdOf(v).Some? && Tidy(v) && Tidy(w)
    requires IsInt64(timeout) && i < j < |arrivals| && arrivals[i].Request? && arrivals[j].Request?
    requires Identity.SessionIdOf(Identity.ApplyAll(v, rv)) == Some(arrivals[i].session)
    requires Identity.SessionIdOf(Identity.ApplyAll(w, rw)) == Some(arrivals[j].session)
    requires Binds(timeout, arrivals[i].expires)
    requires Used(Run(timeout, h, arrivals[..i]), arrivals[i]) == Some(b)
    requires Behaved(timeout, h, arrivals, i + 1, j, arrivals[i].session)
    requires Timely(timeout, Run(timeout, h, arrivals[..j]), arrivals[j])
    ensures Target(Run(timeout, h, arrivals[..j]), arrivals[j]) == Some(b)
  {
    hide Answer, LastEvent, Used, Behaved, Timely, Binds, Target, Run, Tidy, Identity.SameConversation,
         Identity.ApplyAll, Identity.CallIdOf, Identity.PartyOf, Identity.SessionIdOf;
    Identity.RewritesKeepSession(v, rv);
    Identity.RewritesKeepSession(w, rw);
    Identity.OneConversationOneSession(v, w);
    Identity.SessionIdIsNotEmpty(v);
    SessionIsSticky(timeout, h, arrivals, i, j, b);
  }

  /** One send binds its session for the whole timeout exactly when its Expires fits a Duration or wraps to at
      least the timeout. */
  lemma SendBindsExactly(timeout: int, h: History, session: string, b: string, at: int, expires: int)
    requires IsInt64(timeout) && timeout > 0
    ensures (forall now :: at <= now < at + timeout ==>
               Answer(h + [Timed(at, Added(session, b, Lifetime(timeout, expires)))], session, now) == Some(b))
       <==> expires <= MAX_SECONDS || Wrap64(expires * SECOND) >= timeout
  {
    hide Lifetime, Answer;
    LifetimeCoversTimeout(timeout, expires);
    var life := Lifetime(timeout, expires);
    var e := Timed(at, Added(session, b, life));
    forall now | at <= now < at + timeout
      ensures Answer(h + [e], session, now) == Some(b) <==> at + life > now
    {
      AnswerAppend(h, e, session, now);
    }
    if life < timeout {
      assert Answer(h + [e], session, at + timeout - 1) != Some(b);
    }
  }

  /** `Expires: 9223372037` makes the product wrap, and the binding is over before it began. */
  lemma OverflowUnbinds(h: History, session: string, b: string, at: int)
    ensures Lifetime(1200 * SECOND, MAX_SECONDS + 1) < 0
    ensures Answer(h + [Timed(at, Added(session, b, Lifetime(1200 * SECOND, MAX_SECONDS + 1)))], session, at) == None
  {
    hide Answer;
    AnswerAppend(h, Timed(at, Added(session, b, Lifetime(1200 * SECOND, MAX_SECONDS + 1))), session, at);
  }

  // ---- the code ----

  /** CompositeSessionBasedBackend with the two members NewProxy gives it: the local store, and a Redis store
      when one is configured. Backends are named by their addresses. */
  class SessionStores {
    const local: LocalSessionBasedBackend<string>
    const redis: RedisPublisher?

    ghost function Repr(): set<object> {
      {this, local} + (if redis == null then {} else {redis, redis.addrs})
    }

    ghost predicate Valid()
      reads Repr()
    {
      local.Valid() && (redis != null ==> redis.Valid() && redis.addrs.clock <= local.clock / SECOND)
    }

    constructor (timeout: int, now: int, redis: RedisPublisher?)
      requires IsInt64(timeout) && (redis != null ==> redis.Valid() && redis.addrs.clock <= now / SECOND)
      ensures Valid() && this.redis == redis && fresh(local) && local.timeout == timeout
      ensures local.history == [] && local.clock == now
    {
      this.redis := redis;
      local := new LocalSessionBasedBackend(timeout, now);
    }

    ghost function RedisHistory(): seq<Timed<string>>
      reads Repr()
    {
      if redis == null then [] else redis.addrs.history
    }

    /** The first store that knows the session; a Redis answer counts only when a pool has that address. */
    method GetBackend(session: string, now: int, known: set<string>) returns (fromLocal: Option<string>, fromRedis: Option<string>)
      requires Valid() && now >= local.clock
      modifies local, if redis == null then {} else {redis.addrs}
      ensures Valid() && local.clock == now
      ensures local.history == old(local.history) && RedisHistory() == old(RedisHistory())
      ensures fromLocal == Answer(local.history, session, now)
      ensures fromLocal.Some? || redis == null ==> fromRedis == None
      ensures fromLocal.None? && redis != null ==>
        fromRedis == KnownOnly(Answer(RedisHistory(), session, now / SECOND), known)
    {
      hide Answer;
      Seconds(local.clock, now);
      fromLocal := local.GetBackend(session, now);
      fromRedis := None;
      if fromLocal.None? && redis != null {
        var address := redis.addrs.GetBackendAddress(session, now / SECOND);
        fromRedis := KnownOnly(address, known);
      }
    }

    method AddBackend(session: string, backend: string, expireSeconds: int, now: int, accepting: seq<bool>)
      returns (line: Option<string>)
      requires Valid() && now >= local.clock && (redis != null ==> |accepting| == redis.clients)
      modifies local, redis
      ensures Valid() && local.clock == now && RedisHistory() == old(RedisHistory())
      ensures local.history
           == old(local.history) + [Timed(now, Added(session, backend, Lifetime(local.timeout, expireSeconds)))]
      ensures line == PublishedAdd(redis, session, backend, expireSeconds, accepting)
    {
      hide Answer, Lifetime, EncodeAdd;
      Seconds(local.clock, now);
      local.AddBackend(session, backend, expireSeconds, now);
      line := None;
      if redis != null {
        line := redis.AddBackend(session, backend, expireSeconds, accepting);
      }
    }

    method RemoveSession(session: string, now: int, accepting: seq<bool>) returns (line: Option<string>)
      requires Valid() && now >= local.clock && (redis != null ==> |accepting| == redis.clients)
      modifies local, redis, if redis == null then {} else {redis.addrs}
      ensures Valid() && local.clock == now
      ensures local.history == old(local.history) + [Timed(now, Deleted(session))]
      ensures redis != null ==> RedisHistory() == old(RedisHistory()) + [Timed(now / SECOND, Deleted(session))]
      ensures line == if redis != null && true in accepting then Some(EncodeDelete(session)) else None
    {
      hide Answer, EncodeDelete;
      Seconds(local.clock, now);
      local.RemoveSession(session, now);
      line := None;
      if redis != null {
        line := redis.RemoveSession(session, accepting, now / SECOND);
      }
    }
  }

  /** The line the other proxies get to see, if some client takes it. */
  function PublishedAdd(redis: RedisPublisher?, session: string, backend: string, expires: int, accepting: seq<bool>): Option<string> {
    if redis != null && true in accepting
    then Some(EncodeAdd(session, backend, WholeSeconds(Lifetime(redis.timeout, expires)))) else None
  }

  /** What the Redis store contributes: asked only when the local store knows nothing. */
  ghost function RemoteAnswer(stores: SessionStores, session: string, now: int, known: set<string>): Option<string>
    reads stores.Repr()
  {
    if stores.redis == null || Answer(stores.local.history, session, now).Some? then None
    else KnownOnly(Answer(stores.RedisHistory(), session, now / SECOND), known)
  }

  function KnownOnly(address: Option<string>, known: set<string>): Option<string> {
    if address.Some? && address.value in known then address else None
  }

  lemma Seconds(earlier: int, later: int)
    requires earlier <= later
    ensures earlier / SECOND <= later / SECOND
  {
  }

  /** Without a binding the pool of the receiving transport is preferred to that of the protocol. */
  method OfferToPool(prefer: RoundRobinBackend?, item: RoundRobinBackend?, willing: set<string>)
    returns (used: Option<string>)
    requires prefer != null || item != null
    requires (prefer != null ==> prefer.Valid()) && (item != null ==> item.Valid())
    modifies if prefer != null then {prefer} else {item}
    ensures (prefer != null ==> prefer.Valid()) && (item != null ==> item.Valid())
    ensures used.None? <==> (if prefer != null then prefer else item).Members() !! willing
    ensures used.Some? ==> used.value in (if prefer != null then prefer else item).Members() && used.value in willing
    ensures prefer != null ==> prefer.backends == old(prefer.backends)
    ensures prefer == null ==> item.backends == old(item.backends)
  {
    hide SendTo;
    var pool := if prefer != null then prefer else item;
    var taken, _ := pool.Send(willing);
    used := if taken.Some? then Some(taken.value.address) else None;
  }

  /** A binding is published exactly when there is a store and some client takes the line, and what the other proxies
      read of it is the session, the backend and the lifetime in whole seconds. */
  lemma PublishedIsBinding(redis: RedisPublisher?, session: string, backend: string, expires: int, accepting: seq<bool>)
    requires ' ' !in session && ' ' !in backend
    requires redis != null ==> 0 <= Lifetime(redis.timeout, expires) < 0x8000_0000 * SECOND
    ensures var line := PublishedAdd(redis, session, backend, expires, accepting);
      && (line.Some? <==> redis != null && exists i :: 0 <= i < |accepting| && accepting[i])
      && (line.Some? ==>
            && Decode(line.value).Some? && Decode(line.value).value.Add?
            && Decode(line.value).value.session == session && Decode(line.value).value.address == backend
            && var n := Decode(line.value).value.life;
               n * SECOND <= Lifetime(redis.timeout, expires) < (n + 1) * SECOND)
  {
    hide Decode, EncodeAdd, Lifetime;
    if redis != null {
      PublishedLife(session, backend, Lifetime(redis.timeout, expires));
    }
  }

  /** An address from Redis that no pool has counts as no answer. */
  lemma OnlyKnownCounts(a: string, known: set<string>)
    ensures KnownOnly(Some(a), known) == Some(a) <==> a in known
    ensures a !in known ==> KnownOnly(Some(a), known) == None
    ensures KnownOnly(None, known) == None
  {
  }

  /** sendToBackend. `session` is empty when the message has no session id; `prefer` and `item` are the pools of
      the receiving transport and of the protocol, `willing` the addresses that accept the message now. */
  method SendToBackend(stores: SessionStores, session: string, expires: int, now: int,
                       prefer: RoundRobinBackend?, item: RoundRobinBackend?,
                       known: set<string>, willing: set<string>, accepting: seq<bool>)
    returns (used: Option<string>, line: Option<string>, ghost arrival: Arrival)
    requires stores.Valid() && now >= stores.local.clock
    requires stores.redis != null ==> |accepting| == stores.redis.clients
    requires prefer != null || item != null
    requires (prefer != null ==> prefer.Valid()) && (item != null ==> item.Valid())
    modifies stores.local, stores.redis, if stores.redis == null then {} else {stores.redis.addrs}
    modifies if prefer != null then {prefer} else {item}
    ensures stores.Valid() && stores.local.clock == now
    ensures arrival.Request? && arrival.session == session && arrival.at == now && arrival.expires == expires
    ensures arrival.remote == old(RemoteAnswer(stores, session, now, known))
    ensures stores.RedisHistory() == old(stores.RedisHistory())
    ensures line == if used.Some? && session != "" then PublishedAdd(stores.redis, session, used.value, expires, accepting) else None
    ensures used == Used(old(stores.local.history), arrival)
    ensures stores.local.history == After(stores.local.timeout, old(stores.local.history), arrival)
    ensures (prefer != null ==> prefer.Valid()) && (item != null ==> item.Valid())
    ensures used.Some? ==> used.value in willing
    ensures used.Some? && Answer(old(stores.local.history), session, now).None? && arrival.remote.None? ==>
      used.value in (if prefer != null then prefer else item).Members()
    ensures used.None? && Answer(old(stores.local.history), session, now).None? && arrival.remote.None? ==>
      (if prefer != null then prefer else item).Members() !! willing
  {
    hide Answer, Lifetime, Addresses;
    var fromLocal, fromRedis := stores.GetBackend(session, now, known);
    ghost var before := stores.local.history;
    ghost var pooled: Option<string> := None;
    if fromLocal.Some? || fromRedis.Some? {
      var bound := if fromLocal.Some? then fromLocal.value else fromRedis.value;
      used := if bound in willing then Some(bound) else None;
      arrival := Request(session, now, expires, fromRedis, None, bound in willing);
    } else {
      used := OfferToPool(prefer, item, willing);
      arrival := Request(session, now, expires, None, used, true);
    }
    line := None;
    if used.Some? && |session| > 0 {
      line := stores.AddBackend(session, used.value, expires, now, accepting);
    }
  }

  /** handleSession: a response to a BYE ends the session if some store still knows it. */
  method HandleSession(stores: SessionStores, session: string, bye: bool, now: int,
                       known: set<string>, accepting: seq<bool>)
    returns (line: Option<string>, ghost arrival: Arrival)
    requires stores.Valid() && now >= stores.local.clock
    requires stores.redis != null ==> |accepting| == stores.redis.clients
    modifies stores.local, stores.redis, if stores.redis == null then {} else {stores.redis.addrs}
    ensures stores.Valid() && stores.local.clock == now
    ensures arrival.Response? && arrival.session == session && arrival.at == now && arrival.bye == bye
    ensures arrival.remote == old(RemoteAnswer(stores, session, now, known))
    ensures stores.local.history == After(stores.local.timeout, old(stores.local.history), arrival)
    ensures var ends := bye && (Answer(old(stores.local.history), session, now).Some? || arrival.remote.Some?);
      && line == (if ends && stores.redis != null && true in accepting then Some(EncodeDelete(session)) else None)
      && stores.RedisHistory() == old(stores.RedisHistory())
           + (if ends && stores.redis != null then [Timed(now / SECOND, Deleted(session))] else [])
  {
    hide Answer, Lifetime;
    var fromLocal, fromRedis := stores.GetBackend(session, now, known);
    arrival := Response(session, now, bye, fromRedis);
    line := None;
    if (fromLocal.Some? || fromRedis.Some?) && bye {
      line := stores.RemoveSession(session, now, accepting);
    }
  }
}
