/** backend.go, MasterSlaveRedisSessionBasedBackend: the lines that travel through Redis, and the client that
    publishes and applies them. */
module SessionWire {
  import opened Wrappers
  import opened Text
  import opened SessionHistory
  import opened Rotation
  import opened RedisSessions

  datatype Update = Add(session: string, address: string, life: int) | Delete(session: string)

  function EncodeAdd(session: string, address: string, seconds: int): string {
    "add" + [' '] + (session + [' '] + (address + [' '] + Itoa(seconds)))
  }

  function EncodeDelete(session: string): string {
    "delete" + [' '] + session
  }

  /** sessionBackendUpdated's reading of a line; anything else is ignored. */
  function Decode(line: string): Option<Update> {
    var fields := Split(line, ' ');
    if fields[0] == "add" && |fields| == 4 then Some(Add(fields[1], fields[2], ParseInt(fields[3], TWO_31).Ignored()))
    else if fields[0] == "delete" && |fields| == 2 then Some(Delete(fields[1]))
    else None
  }

  function Clamp32(n: int): int {
    if n >= TWO_31 then TWO_31 - 1 else if n < -TWO_31 then -TWO_31 else n
  }

  lemma {:induction false} SplitCount(a: string, sep: char, b: string)
    ensures |Split(a + [sep] + b, sep)| == |Split(a, sep)| + |Split(b, sep)|
    ensures |Split(a, sep)| > 1 <==> sep in a
    decreases |a|
  {
    hide Split;
    if sep in a {
      CutJoins(a, sep);
      var front, rest := Before(a, sep), After(a, sep).value;
      assert a + [sep] + b == front + [sep] + (rest + [sep] + b);
      SplitFirst(front, sep, rest + [sep] + b);
      SplitFirst(front, sep, rest);
      SplitCount(rest, sep, b);
    } else {
      SplitFirst(a, sep, b);
    }
  }

  /** An add line is understood exactly when neither name holds a blank; the seconds arrive clamped to 32 bits. */
  lemma AddLine(session: string, address: string, seconds: int)
    ensures Decode(EncodeAdd(session, address, seconds))
         == if ' ' !in session && ' ' !in address then Some(Add(session, address, Clamp32(seconds))) else None
  {
    hide Split, Itoa, IndexByte;
    var number := Itoa(seconds);
    ItoaLacks(seconds, ' ');
    ParseItoa(seconds, TWO_31);
    SplitFirst("add", ' ', session + [' '] + (address + [' '] + number));
    SplitFirst(number, ' ', "");
    if ' ' !in session && ' ' !in address {
      SplitFirst(session, ' ', address + [' '] + number);
      SplitFirst(address, ' ', number);
      assert Split(EncodeAdd(session, address, seconds), ' ') == ["add", session, address, number];
    } else {
      SplitCount(session, ' ', address + [' '] + number);
      SplitCount(address, ' ', number);
      assert |Split(EncodeAdd(session, address, seconds), ' ')| > 4;
    }
  }

  lemma DeleteLine(session: string)
    ensures Decode(EncodeDelete(session)) == if ' ' !in session then Some(Delete(session)) else None
  {
    hide Split, IndexByte;
    SplitFirst("delete", ' ', session);
    SplitCount(session, ' ', "");
    if ' ' !in session {
      SplitFirst(session, ' ', "");
    }
    var fields := Split(EncodeDelete(session), ' ');
    assert fields[0] == "delete";
    assert ' ' !in session ==> fields == ["delete", session];
  }

  /** What a line adds to the history of the store that receives it. */
  function EventsOf(line: string, at: int): seq<Timed<string>> {
    match Decode(line)
    case None => []
    case Some(Add(s, a, life)) => [Timed(at, Added(s, a, life))]
    case Some(Delete(s)) => [Timed(at, Deleted(s))]
  }

  /** `int64(d.Seconds())`, which drops the fraction. */
  function WholeSeconds(nanoseconds: int): int {
    if nanoseconds >= 0 then nanoseconds / SECOND else -((-nanoseconds) / SECOND)
  }

  /** The lines as they are published. */
  lemma LineTexts(session: string, address: string, seconds: int)
    ensures EncodeAdd(session, address, seconds) == "add " + session + " " + address + " " + Itoa(seconds)
    ensures EncodeDelete(session) == "delete " + session
  {
    hide Itoa;
    assert "add" + [' '] == "add ";
    assert "delete" + [' '] == "delete ";
  }

  /** A published binding lives as long as the local one, in whole seconds rounded toward zero. */
  lemma PublishedLife(session: string, address: string, life: int)
    requires ' ' !in session && ' ' !in address && -TWO_31 * SECOND < life < TWO_31 * SECOND
    ensures Decode(EncodeAdd(session, address, WholeSeconds(life))).Some?
    ensures var d := Decode(EncodeAdd(session, address, WholeSeconds(life))).value;
      && d.Add? && d.session == session && d.address == address
      && (life >= 0 ==> d.life * SECOND <= life < (d.life + 1) * SECOND)
      && (life < 0 ==> (d.life - 1) * SECOND < life <= d.life * SECOND)
  {
    hide Decode, EncodeAdd;
    AddLine(session, address, WholeSeconds(life));
    TowardZero(life);
  }

  lemma TowardZero(life: int)
    ensures var n := WholeSeconds(life);
      (life >= 0 ==> n * SECOND <= life < (n + 1) * SECOND) && (life < 0 ==> (n - 1) * SECOND < life <= n * SECOND)
  {
  }

  class RedisPublisher {
    const clients: nat
    const timeout: int
    const addrs: RedisSessionBackendAddrMgr
    var masterIndex: nat

    ghost predicate Valid()
      reads this, addrs
    {
      addrs.Valid() && (clients > 0 ==> masterIndex < clients)
    }

    constructor (clients: nat, timeout: int, now: int)
      ensures Valid() && masterIndex == 0 && addrs.history == [] && addrs.clock == now && fresh(addrs)
    {
      this.clients, this.timeout, masterIndex := clients, timeout, 0;
      addrs := new RedisSessionBackendAddrMgr(now);
    }

    /** One round of publishing; `accepting` says which clients would take the line (one that is nil takes none). It
        starts at the master, stops at the first client that takes it and makes that one the master. */
    method ForEachRedis(accepting: seq<bool>) returns (ok: bool)
      requires Valid() && |accepting| == clients
      modifies this
      ensures Valid()
      ensures ok <==> exists i :: 0 <= i < clients && accepting[i]
      ensures !ok ==> masterIndex == old(masterIndex)
      ensures ok ==> masterIndex == NextMaster(old(masterIndex), accepting) && accepting[masterIndex]
    {
      if clients == 0 {
        return false;
      }
      AllRefused(accepting, masterIndex);
      var i := 0;
      while i < clients
        invariant 0 <= i <= clients
        invariant masterIndex == old(masterIndex)
        invariant Offset(accepting, masterIndex, 0) == Offset(accepting, masterIndex, i)
      {
        var at := (masterIndex + i) % clients;
        assert at == Slot(masterIndex, i, clients);
        if accepting[at] {
          ModSmall(masterIndex, clients);
          if i > 0 {
            masterIndex := at;
          }
          return true;
        }
        i := i + 1;
      }
      return false;
    }

    /** AddBackend: returns the line when some client took it. */
    method AddBackend(session: string, address: string, expireSeconds: int, accepting: seq<bool>)
      returns (line: Option<string>)
      requires Valid() && |accepting| == clients
      modifies this
      ensures Valid()
      ensures line == if exists i :: 0 <= i < clients && accepting[i]
                      then Some(EncodeAdd(session, address, WholeSeconds(Lifetime(timeout, expireSeconds)))) else None
    {
      hide EncodeAdd, Lifetime;
      var ok := ForEachRedis(accepting);
      line := if ok then Some(EncodeAdd(session, address, WholeSeconds(Lifetime(timeout, expireSeconds)))) else None;
    }

    /** RemoveSession publishes first and then forgets the session here at once. */
    method RemoveSession(session: string, accepting: seq<bool>, now: int) returns (line: Option<string>)
      requires Valid() && |accepting| == clients && now >= addrs.clock
      modifies this, addrs
      ensures Valid() && addrs.clock == now
      ensures addrs.history == old(addrs.history) + [Timed(now, Deleted(session))]
      ensures line == if exists i :: 0 <= i < clients && accepting[i] then Some(EncodeDelete(session)) else None
    {
      var ok := ForEachRedis(accepting);
      var _ := addrs.RemoveBackend(session, now);
      line := if ok then Some(EncodeDelete(session)) else None;
    }

    /** sessionBackendUpdated. */
    method SessionBackendUpdated(line: string, now: int)
      requires Valid() && now >= addrs.clock
      modifies addrs
      ensures Valid() && addrs.clock >= old(addrs.clock) && addrs.clock <= now
      ensures addrs.history == old(addrs.history) + EventsOf(line, now)
    {
      hide Split, ParseInt;
      var fields := Split(line, ' ');
      if fields[0] == "add" && |fields| == 4 {
        addrs.SetBackendAddress(fields[1], fields[2], ParseInt(fields[3], TWO_31).Ignored(), now);
      } else if fields[0] == "delete" && |fields| == 2 {
        var _ := addrs.RemoveBackend(fields[1], now);
      }
    }
  }

  /** The client one round ends at. */
  function NextMaster(master: nat, accepting: seq<bool>): nat {
    if accepting == [] then master
    else match Offset(accepting, master, 0)
      case None => master
      case Some(k) => Slot(master, k, |accepting|)
  }

  /** That client is the first, going round from the master, that accepts. */
  lemma MasterIsFirstAcceptor(master: nat, accepting: seq<bool>, k: nat)
    requires k < |accepting| && accepting[Slot(master, k, |accepting|)]
    requires forall j :: 0 <= j < k ==> !accepting[Slot(master, j, |accepting|)]
    ensures NextMaster(master, accepting) == Slot(master, k, |accepting|)
  {
    hide Offset, Slot;
    var o := Offset(accepting, master, 0);
  }

  function MasterAfter(master: nat, rounds: seq<seq<bool>>): nat {
    if rounds == [] then master else NextMaster(MasterAfter(master, rounds[..|rounds| - 1]), rounds[|rounds| - 1])
  }

  /** Over any run the master is a valid index, and the client that accepted in the last round in which
      somebody did. */
  lemma {:induction false} MasterFollowsAcceptance(master: nat, rounds: seq<seq<bool>>, n: nat, last: nat)
    requires master < n && forall r :: r in rounds ==> |r| == n
    requires last < |rounds| && (exists i :: 0 <= i < n && rounds[last][i])
    requires forall k :: last < k < |rounds| ==> forall i :: 0 <= i < n ==> !rounds[k][i]
    ensures MasterAfter(master, rounds) < n && rounds[last][MasterAfter(master, rounds)]
    ensures MasterAfter(master, rounds) == MasterAfter(master, rounds[..last + 1])
  {
    hide Offset;
    var front := rounds[..|rounds| - 1];
    MasterInRange(master, front, n);
    var accepting := rounds[|rounds| - 1];
    assert accepting in rounds;
    AllRefused(accepting, MasterAfter(master, front));
    if last < |rounds| - 1 {
      assert forall k :: 0 <= k < |front| ==> front[k] == rounds[k];
      MasterFollowsAcceptance(master, front, n, last);
      assert front[..last + 1] == rounds[..last + 1];
    } else {
      assert rounds[..last + 1] == rounds;
    }
  }

  lemma {:induction false} MasterInRange(master: nat, rounds: seq<seq<bool>>, n: nat)
    requires master < n && forall r :: r in rounds ==> |r| == n
    ensures MasterAfter(master, rounds) < n
  {
    if rounds != [] {
      assert rounds[|rounds| - 1] in rounds;
      MasterInRange(master, rounds[..|rounds| - 1], n);
    }
  }
}

/** Several in-order copies of one log of lines, delivered to one proxy in any interleaving. */
module Replication {
  import opened Wrappers
  import opened SessionHistory
  import opened SessionWire

  /** A copy delivers its next line, or the proxy forgets a session itself, whether or not some client took the
      delete line it published before. */
  datatype Step = Deliver(copy: nat, at: int) | LocalDelete(session: string, at: int)

  /** How many lines a copy has delivered. */
  function Delivered(steps: seq<Step>, copy: nat): nat {
    if steps == [] then 0
    else
      var last := steps[|steps| - 1];
      Delivered(steps[..|steps| - 1], copy) + (if last.Deliver? && last.copy == copy then 1 else 0)
  }

  function Concerns(line: string, session: string): bool {
    Decode(line).Some? && Decode(line).value.session == session
  }

  /** The last line of the log that concerns a session, or -1. */
  function LastLine(log: seq<string>, session: string): (r: int)
    ensures -1 <= r < |log|
    ensures r >= 0 ==> Concerns(log[r], session)
    ensures forall i :: r < i < |log| ==> !Concerns(log[i], session)
  {
    if log == [] then -1
    else if Concerns(log[|log| - 1], session) then |log| - 1
    else LastLine(log[..|log| - 1], session)
  }

  /** The address one plain replay of the log leaves for a session. */
  function Replayed(log: seq<string>, session: string): Option<string> {
    var p := LastLine(log, session);
    if p >= 0 && Decode(log[p]).value.Add? then Some(Decode(log[p]).value.address) else None
  }

  /** The position of the log that a delivery at index `j` has reached. */
  function LineOf(steps: seq<Step>, j: nat): nat
    requires j < |steps| && steps[j].Deliver?
  {
    Delivered(steps[..j], steps[j].copy)
  }

  /** Every copy delivers the lines of the log; a local delete may come at any time. */
  predicate Legal(log: seq<string>, copies: nat, steps: seq<Step>) {
    forall j :: 0 <= j < |steps| ==> LegalStep(log, copies, steps, j)
  }

  predicate LegalStep(log: seq<string>, copies: nat, steps: seq<Step>, j: nat)
    requires j < |steps|
  {
    steps[j].Deliver? ==> steps[j].copy < copies && LineOf(steps, j) < |log|
  }

  /** A local delete follows a delete line of its session, and comes before any copy has delivered a later line
      that adds the session again. */
  predicate Prompt(log: seq<string>, copies: nat, steps: seq<Step>, j: nat)
    requires j < |steps|
  {
    steps[j].LocalDelete? ==> exists p: nat :: p < |log| && PromptAfter(log, copies, steps, j, p)
  }

  predicate PromptAfter(log: seq<string>, copies: nat, steps: seq<Step>, j: nat, p: nat)
    requires j < |steps| && steps[j].LocalDelete? && p < |log|
  {
    && Decode(log[p]) == Some(Delete(steps[j].session))
    && forall q, c :: p < q < |log| && AddsAgain(log[q], steps[j].session) && 0 <= c < copies
         ==> Delivered(steps[..j], c) <= q
  }

  predicate AddsAgain(line: string, session: string) {
    Concerns(line, session) && Decode(line).value.Add?
  }

  predicate Complete(log: seq<string>, copies: nat, steps: seq<Step>) {
    forall c :: 0 <= c < copies ==> Delivered(steps, c) == |log|
  }

  /** What the steps do to the receiving store's history. */
  function HistoryOf(log: seq<string>, copies: nat, steps: seq<Step>): seq<Timed<string>>
    requires Legal(log, copies, steps)
  {
    if steps == [] then []
    else
      var n := |steps| - 1;
      LegalPrefix(log, copies, steps, n);
      assert LegalStep(log, copies, steps, n);
      HistoryOf(log, copies, steps[..n])
      + match steps[n]
        case Deliver(c, at) => EventsOf(log[LineOf(steps, n)], at)
        case LocalDelete(session, at) => [Timed(at, Deleted(session))]
  }

  lemma LegalPrefix(log: seq<string>, copies: nat, steps: seq<Step>, n: nat)
    requires Legal(log, copies, steps) && n <= |steps|
    ensures Legal(log, copies, steps[..n])
  {
    hide Concerns, Decode, Delivered;
    forall j | 0 <= j < n
      ensures LegalStep(log, copies, steps[..n], j)
    {
      assert LegalStep(log, copies, steps, j);
      assert steps[..n][..j] == steps[..j];
    }
  }

  predicate StepConcerns(log: seq<string>, steps: seq<Step>, j: nat, session: string)
    requires j < |steps|
  {
    match steps[j]
    case Deliver(_, _) => LineOf(steps, j) < |log| && Concerns(log[LineOf(steps, j)], session)
    case LocalDelete(s, _) => s == session
  }

  /** No add delivered has run out at time `now`. */
  predicate Lasting(log: seq<string>, steps: seq<Step>, now: int) {
    forall j :: 0 <= j < |steps| && steps[j].Deliver? && LineOf(steps, j) < |log| ==>
      match Decode(log[LineOf(steps, j)])
      case Some(Add(_, _, life)) => steps[j].at + life > now
      case _ => true
  }

  /** A copy that has not reached a line yet but reaches it in the end delivers it in between. */
  lemma {:induction false} Reaches(steps: seq<Step>, m: nat, copy: nat, line: nat) returns (j: nat)
    requires m <= |steps| && Delivered(steps[..m], copy) <= line < Delivered(steps, copy)
    ensures m <= j < |steps| && steps[j].Deliver? && steps[j].copy == copy && LineOf(steps, j) == line
    decreases |steps|
  {
    var n := |steps| - 1;
    assert steps[..|steps|] == steps;
    if m == |steps| {
      assert false;
    } else if Delivered(steps[..n], copy) > line {
      assert steps[..n][..m] == steps[..m];
      j := Reaches(steps[..n], m, copy, line);
      assert steps[..n][..j] == steps[..j];
    } else {
      j := n;
    }
  }

  lemma ReachesConcerned(log: seq<string>, steps: seq<Step>, m: nat, copy: nat, line: nat, session: string)
    returns (j: nat)
    requires m <= |steps| && Delivered(steps[..m], copy) <= line < Delivered(steps, copy)
    requires line < |log| && Concerns(log[line], session)
    ensures m <= j < |steps| && StepConcerns(log, steps, j, session)
  {
    j := Reaches(steps, m, copy, line);
  }

  lemma HistoryStep(log: seq<string>, copies: nat, steps: seq<Step>, session: string, now: int)
    requires Legal(log, copies, steps) && steps != []
    ensures var n := |steps| - 1;
      LegalStep(log, copies, steps, n) && Legal(log, copies, steps[..n])
      && (!StepConcerns(log, steps, n, session) ==>
            Answer(HistoryOf(log, copies, steps), session, now) == Answer(HistoryOf(log, copies, steps[..n]), session, now))
      && (StepConcerns(log, steps, n, session) ==>
            Answer(HistoryOf(log, copies, steps), session, now) ==
              match steps[n]
              case LocalDelete(_, _) => None
              case Deliver(_, at) =>
                (match Decode(log[LineOf(steps, n)])
                 case Some(Add(_, a, life)) => if at + life > now then Some(a) else None
                 case _ => None))
  {
    hide Decode, LineOf, Answer, Legal;
    var n := |steps| - 1;
    LegalAt(log, copies, steps, n);
    LegalPrefix(log, copies, steps, n);
    var h := HistoryOf(log, copies, steps[..n]);
    var events := match steps[n]
      case Deliver(c, at) => EventsOf(log[LineOf(steps, n)], at)
      case LocalDelete(s, at) => [Timed(at, Deleted(s))];
    assert HistoryOf(log, copies, steps) == h + events;
    if events == [] {
      assert h + events == h;
    } else {
      assert events == [events[0]];
      AnswerAppend(h, events[0], session, now);
    }
  }

  lemma LegalAt(log: seq<string>, copies: nat, steps: seq<Step>, j: nat)
    requires Legal(log, copies, steps) && j < |steps|
    ensures LegalStep(log, copies, steps, j)
  {
  }

  /** The session is forgotten locally at step `j`. */
  predicate Forgets(log: seq<string>, steps: seq<Step>, j: nat, session: string)
    requires j < |steps|
  {
    StepConcerns(log, steps, j, session) && steps[j].LocalDelete?
  }

  /** At step `j` some copy has the last line of the session still to deliver. */
  predicate Pending(log: seq<string>, copies: nat, steps: seq<Step>, j: nat, session: string)
    requires j < |steps|
  {
    exists c: nat :: c < copies && Delivered(steps[..j], c) <= LastLine(log, session)
  }

  /** No local delete of the session comes after every copy has delivered its last line. */
  predicate InTime(log: seq<string>, copies: nat, steps: seq<Step>, session: string) {
    forall j: nat :: j < |steps| && Forgets(log, steps, j, session) ==> Pending(log, copies, steps, j, session)
  }

  /** The first `m` steps already decide, as long as no later step concerns the session: a last step that delivers
      leaves what a plain replay leaves, a last step that forgets leaves nothing. */
  lemma {:induction false} Settled(log: seq<string>, copies: nat, steps: seq<Step>, m: nat, session: string, now: int)
    requires copies > 0 && Legal(log, copies, steps) && Complete(log, copies, steps) && Lasting(log, steps, now)
    requires m <= |steps| && Legal(log, copies, steps[..m])
    requires forall j :: m <= j < |steps| ==> !StepConcerns(log, steps, j, session)
    ensures InTime(log, copies, steps, session) ==>
      Answer(HistoryOf(log, copies, steps[..m]), session, now) == Replayed(log, session)
    ensures !InTime(log, copies, steps, session) ==>
      Answer(HistoryOf(log, copies, steps[..m]), session, now) == None
  {
    hide Decode, Answer, HistoryOf, Lasting, Delivered, LegalStep, InTime, Pending;
    if m == 0 {
      assert steps[..0] == [];
      NoSteps(log, copies, session, now);
      NeverConcerned(log, copies, steps, session);
    } else {
      var n, front := m - 1, steps[..m];
      assert front[..n] == steps[..n];
      assert front[n] == steps[n] && (front[n].Deliver? ==> LineOf(front, n) == LineOf(steps, n));
      HistoryStep(log, copies, front, session, now);
      if !StepConcerns(log, steps, n, session) {
        Settled(log, copies, steps, n, session, now);
      } else {
        LegalAt(log, copies, steps, n);
        if steps[n].Deliver? {
          DeliveredLast(log, copies, steps, n, session, now);
        } else {
          ForgottenLast(log, copies, steps, n, session);
        }
      }
    }
  }

  lemma NoSteps(log: seq<string>, copies: nat, session: string, now: int)
    ensures Legal(log, copies, []) && Answer(HistoryOf(log, copies, []), session, now) == None
  {
  }

  lemma NoneDelivered(copy: nat)
    ensures Delivered([], copy) == 0
  {
  }

  /** A session that no step concerns is in no line of the log. */
  lemma NeverConcerned(log: seq<string>, copies: nat, steps: seq<Step>, session: string)
    requires copies > 0 && Complete(log, copies, steps)
    requires forall j :: 0 <= j < |steps| ==> !StepConcerns(log, steps, j, session)
    ensures Replayed(log, session) == None
  {
    hide Decode, Delivered;
    var last := LastLine(log, session);
    if last >= 0 {
      assert Delivered(steps, 0) == |log|;
      NoneDelivered(0);
      assert steps[..0] == [];
      var j := ReachesConcerned(log, steps, 0, 0, last, session);
      assert false;
    }
  }

  /** A last step that delivers has delivered the last line, after every local delete. */
  lemma DeliveredLast(log: seq<string>, copies: nat, steps: seq<Step>, n: nat, session: string, now: int)
    requires Legal(log, copies, steps) && Complete(log, copies, steps) && Lasting(log, steps, now)
    requires n < |steps| && steps[n].Deliver? && StepConcerns(log, steps, n, session)
    requires forall j :: n < j < |steps| ==> !StepConcerns(log, steps, j, session)
    ensures Replayed(log, session) ==
              match Decode(log[LineOf(steps, n)])
              case Some(Add(_, a, life)) => if steps[n].at + life > now then Some(a) else None
              case _ => None
    ensures InTime(log, copies, steps, session)
  {
    hide Decode;
    var last := LastLine(log, session);
    LegalAt(log, copies, steps, n);
    var c := steps[n].copy;
    assert Delivered(steps, c) == |log|;
    var p := Delivered(steps[..n], c);
    if p < last {
      DeliveredNext(steps, n, c);
      var j := ReachesConcerned(log, steps, n + 1, c, last, session);
      assert false;
    }
    forall j: nat | j < |steps| && Forgets(log, steps, j, session)
      ensures Pending(log, copies, steps, j, session)
    {
      assert j <= n;
      DeliveredGrows(steps, j, n, c);
    }
  }

  /** A local delete as the last step comes after everything was delivered. */
  lemma ForgottenLast(log: seq<string>, copies: nat, steps: seq<Step>, n: nat, session: string)
    requires Legal(log, copies, steps) && Complete(log, copies, steps)
    requires n < |steps| && Forgets(log, steps, n, session)
    requires forall j :: n < j < |steps| ==> !StepConcerns(log, steps, j, session)
    ensures !InTime(log, copies, steps, session)
  {
    hide Decode, Delivered;
    var last := LastLine(log, session);
    if Pending(log, copies, steps, n, session) {
      var c: nat :| c < copies && Delivered(steps[..n], c) <= last;
      assert Delivered(steps, c) == |log|;
      DeliveredNext(steps, n, c);
      var j := ReachesConcerned(log, steps, n + 1, c, last, session);
      assert false;
    }
  }

  lemma {:induction false} DeliveredGrows(steps: seq<Step>, i: nat, j: nat, copy: nat)
    requires i <= j <= |steps|
    ensures Delivered(steps[..i], copy) <= Delivered(steps[..j], copy)
    decreases j
  {
    if i < j {
      DeliveredGrows(steps, i, j - 1, copy);
      DeliveredNext(steps, j - 1, copy);
    }
  }

  lemma DeliveredNext(steps: seq<Step>, n: nat, copy: nat)
    requires n < |steps|
    ensures Delivered(steps[..n + 1], copy)
         == Delivered(steps[..n], copy) + (if steps[n].Deliver? && steps[n].copy == copy then 1 else 0)
  {
    assert steps[..n + 1][..n] == steps[..n];
  }

  /** When every copy has delivered the whole log, in whatever order the copies and any local deletes were
      interleaved, the store answers what one sequential replay leaves if and only if that is nothing, or no
      local delete of the session came after every copy had delivered its last line. */
  lemma ConvergesExactly(log: seq<string>, copies: nat, steps: seq<Step>, session: string, now: int)
    requires copies > 0 && Legal(log, copies, steps) && Complete(log, copies, steps) && Lasting(log, steps, now)
    ensures Answer(HistoryOf(log, copies, steps), session, now) == Replayed(log, session)
       <==> Replayed(log, session) == None || InTime(log, copies, steps, session)
    ensures !InTime(log, copies, steps, session) ==> Answer(HistoryOf(log, copies, steps), session, now) == None
  {
    hide Decode, Legal, Complete, Lasting, Replayed, InTime, HistoryOf, Answer;
    assert steps[..|steps|] == steps;
    Settled(log, copies, steps, |steps|, session, now);
  }

  /** Prompt local deletes are in time for every session that the log leaves bound. */
  lemma PromptIsInTime(log: seq<string>, copies: nat, steps: seq<Step>, session: string)
    requires copies > 0 && Legal(log, copies, steps) && Replayed(log, session).Some?
    requires forall j: nat :: j < |steps| ==> Prompt(log, copies, steps, j)
    ensures InTime(log, copies, steps, session)
  {
    hide Decode, Delivered;
    var last := LastLine(log, session);
    forall j: nat | j < |steps| && Forgets(log, steps, j, session)
      ensures Pending(log, copies, steps, j, session)
    {
      assert Prompt(log, copies, steps, j);
      var p: nat :| p < |log| && PromptAfter(log, copies, steps, j, p);
      assert p < last && AddsAgain(log[last], session);
      assert Delivered(steps[..j], 0) <= last;
    }
  }

  /** Convergence: with prompt local deletes the store answers, for every session, what one sequential replay of
      the log leaves. */
  lemma Convergence(log: seq<string>, copies: nat, steps: seq<Step>, session: string, now: int)
    requires copies > 0 && Legal(log, copies, steps) && Complete(log, copies, steps) && Lasting(log, steps, now)
    requires forall j: nat :: j < |steps| ==> Prompt(log, copies, steps, j)
    ensures Answer(HistoryOf(log, copies, steps), session, now) == Replayed(log, session)
  {
    hide Decode, Complete, Lasting, Replayed, InTime, HistoryOf, Answer, Prompt, LegalStep;
    ConvergesExactly(log, copies, steps, session, now);
    if Replayed(log, session).Some? {
      PromptIsInTime(log, copies, steps, session);
    }
  }

  /** Two proxies fed by the same log agree on a session exactly when the log leaves it unbound or both, or
      neither, forgot it in time. */
  lemma ProxiesAgree(log: seq<string>, copies1: nat, steps1: seq<Step>, copies2: nat, steps2: seq<Step>,
                     session: string, now: int)
    requires copies1 > 0 && Legal(log, copies1, steps1) && Complete(log, copies1, steps1) && Lasting(log, steps1, now)
    requires copies2 > 0 && Legal(log, copies2, steps2) && Complete(log, copies2, steps2) && Lasting(log, steps2, now)
    ensures Answer(HistoryOf(log, copies1, steps1), session, now) == Answer(HistoryOf(log, copies2, steps2), session, now)
       <==> Replayed(log, session) == None
            || (InTime(log, copies1, steps1, session) <==> InTime(log, copies2, steps2, session))
  {
    hide Decode, Legal, Complete, Lasting, Replayed, InTime, HistoryOf, Answer;
    ConvergesExactly(log, copies1, steps1, session, now);
    ConvergesExactly(log, copies2, steps2, session, now);
  }

  // ---- a local delete that comes too late ----

  /** A session bound to `a`, ended, and bound again to `b`. */
  function BoundTwice(session: string, a: string, b: string): seq<string> {
    [EncodeAdd(session, a, 60), EncodeDelete(session), EncodeAdd(session, b, 60)]
  }

  /** One copy delivers all three lines at time 0, and the proxy that ended the session forgets it either right
      after the first line or, being late, at the end. */
  function ForgetAt(session: string, late: bool): seq<Step> {
    if late then [Deliver(0, 0), Deliver(0, 0), Deliver(0, 0), LocalDelete(session, 0)]
    else [Deliver(0, 0), LocalDelete(session, 0), Deliver(0, 0), Deliver(0, 0)]
  }

  lemma DeliveredOf(session: string, late: bool)
    ensures var steps := ForgetAt(session, late);
      Delivered(steps[..0], 0) == 0 && Delivered(steps[..1], 0) == 1
      && Delivered(steps[..2], 0) == (if late then 2 else 1)
      && Delivered(steps[..3], 0) == (if late then 3 else 2) && Delivered(steps[..4], 0) == 3
  {
    var steps := ForgetAt(session, late);
    assert steps[..0] == [];
    NoneDelivered(0);
    DeliveredNext(steps, 0, 0);
    DeliveredNext(steps, 1, 0);
    DeliveredNext(steps, 2, 0);
    DeliveredNext(steps, 3, 0);
  }

  lemma LinesOf(session: string, a: string, b: string)
    requires ' ' !in session && ' ' !in a && ' ' !in b
    ensures var log := BoundTwice(session, a, b);
      |log| == 3 && Decode(log[0]) == Some(Add(session, a, 60)) && Decode(log[1]) == Some(Delete(session))
      && Decode(log[2]) == Some(Add(session, b, 60))
      && LastLine(log, session) == 2 && Replayed(log, session) == Some(b)
  {
    hide Decode, EncodeAdd, EncodeDelete;
    AddLine(session, a, 60);
    AddLine(session, b, 60);
    DeleteLine(session);
  }

  /** The late one loses the new binding at this proxy for good, the prompt one keeps it. */
  lemma LateLocalDeleteDiverges(session: string, a: string, b: string, late: bool)
    requires ' ' !in session && ' ' !in a && ' ' !in b
    ensures var (log, steps) := (BoundTwice(session, a, b), ForgetAt(session, late));
      Legal(log, 1, steps) && Complete(log, 1, steps) && Lasting(log, steps, 0) && Replayed(log, session) == Some(b)
      && Answer(HistoryOf(log, 1, steps), session, 0) == if late then None else Some(b)
  {
    hide Decode, BoundTwice, HistoryOf, Answer, Delivered, LastLine, Replayed;
    var log, steps := BoundTwice(session, a, b), ForgetAt(session, late);
    LinesOf(session, a, b);
    DeliveredOf(session, late);
    assert steps[..4] == steps;
    forall j | 0 <= j < |steps|
      ensures LegalStep(log, 1, steps, j)
    {
      assert j == 0 || j == 1 || j == 2 || j == 3;
    }
    ConvergesExactly(log, 1, steps, session, 0);
    var at := if late then 3 else 1;
    assert Forgets(log, steps, at, session);
    assert Pending(log, 1, steps, at, session) <==> Delivered(steps[..at], 0) <= 2;
    assert forall j: nat :: j < |steps| && steps[j].LocalDelete? ==> j == at;
  }
}
