/** The backend connection pool under concurrent clients (backend/db.go).

    Every channel operation, counter update and network outcome is a step of its own, so clients
    interleave between any two of them. The pool is open throughout. */
module Pool {
  import opened Prelude

  type ConnId = nat

  /** What a client does after giving a slot back. */
  datatype Then = Retry | Leave

  /** Where a client stands inside PopConn, PushConn or closeConn. */
  datatype Pc =
    | Outside                                // holds nothing, in no operation
    | LoopTest                               // GetConnFromCache: about to look at the cache length
    | WantCache                              // saw a non-empty cache, about to receive from it
    | WantEither                             // GetConnFromIdle: waiting on both channels
    | GotCache(co: ConnId, inLoop: bool)     // received a connection, not yet counted
    | GotIdle                                // received an idle slot, not yet counted
    | Probe(co: ConnId, inLoop: bool)        // counted, about to ping if the connection is old
    | Dial                                   // counted, about to connect
    | PingNew(co: ConnId)                    // connected, about to ping
    | Reuse(co: ConnId)                      // tryReuse
    | Holding(co: ConnId)                    // PopConn has returned the connection
    | Pushing(co: ConnId, failed: bool)      // PushConn entered, not yet counted
    | Closing(next: Then)                    // closeConn entered, not yet counted
    | SendCache(co: ConnId)                  // counted, about to send to the cache
    | SendIdle(next: Then)                   // counted, about to send to the idle channel

  /** What the clients share: the channels and the counters. */
  datatype Shared = Shared(
    max: nat, idle: nat, cache: seq<ConnId>, push: int, pop: int, nextId: nat, dropped: nat)

  datatype State = State(pool: Shared, pcs: seq<Pc>)

  /** The choices of a client and of the network. */
  datatype Event =
    | Advance            // the next step, or the channel operation it waits for
    | TakeIdle           // the idle case of the select
    | TakeCache          // the cache case of the select
    | Succeed            // connected, alive, reset
    | Fail               // connect, ping or reset failed
    | Release            // Close, the connection being sound
    | ReleaseBroken      // Close, the connection having failed
    | PushFailed         // PushConn with an error

  /** One step of client `i`, if the event fits where the client stands. */
  function Step(s: State, i: nat, e: Event): Option<State>
    requires i < |s.pcs|
  {
    match Act(s.pool, s.pcs[i], e)
    case None => None
    case Some((pool, pc)) => Some(State(pool, s.pcs[i := pc]))
  }

  function Act(s: Shared, pc: Pc, e: Event): Option<(Shared, Pc)> {
    match (pc, e)
    case (Outside, Advance) => Some((s, LoopTest))
    case (LoopTest, Advance) => Some((s, if |s.cache| > 0 then WantCache else WantEither))
    case (WantCache, Advance) => Receive(s, true)
    case (WantEither, TakeCache) => Receive(s, false)
    case (WantEither, TakeIdle) => if s.idle == 0 then None else Some((s.(idle := s.idle - 1), GotIdle))
    case (GotCache(co, inLoop), Advance) => Some((s.(pop := s.pop + 1), Probe(co, inLoop)))
    case (GotIdle, Advance) => Some((s.(pop := s.pop + 1), Dial))
    case (Probe(co, _), Succeed) => Some((s, Reuse(co)))
    case (Probe(_, inLoop), Fail) => Some((s, Closing(if inLoop then Retry else Leave)))
    case (Dial, Succeed) => Some((s.(nextId := s.nextId + 1), PingNew(s.nextId)))
    case (Dial, Fail) => Some((s, Closing(Leave)))
    case (PingNew(co), Succeed) => Some((s, Reuse(co)))
    case (PingNew(_), Fail) => Some((s, Closing(Leave)))
    case (Reuse(co), Succeed) => Some((s, Holding(co)))
    case (Reuse(_), Fail) => Some((s, Closing(Leave)))
    case (Holding(co), Release) => Some((s, Pushing(co, false)))
    case (Holding(co), PushFailed) => Some((s, Pushing(co, true)))
    case (Holding(_), ReleaseBroken) => Some((s, Closing(Leave)))
    case (Pushing(co, failed), Advance) =>
      Some((s.(push := s.push + 1), if failed then SendIdle(Leave) else SendCache(co)))
    case (Closing(next), Advance) => Some((s.(push := s.push + 1), SendIdle(next)))
    case (SendCache(co), Advance) =>
      if |s.cache| < s.max then Some((s.(cache := s.cache + [co]), Outside)) else Some((s, SendIdle(Leave)))
    case (SendIdle(next), Advance) =>
      Some((if s.idle < s.max then s.(idle := s.idle + 1) else s.(dropped := s.dropped + 1),
            if next == Retry then LoopTest else Outside))
    case _ => None
  }

  function Receive(s: Shared, inLoop: bool): Option<(Shared, Pc)> {
    if s.cache == [] then None else Some((s.(cache := s.cache[1..]), GotCache(s.cache[0], inLoop)))
  }

  // ---------------------------------------------------------------- what is counted

  /** The client has a slot of the pool. */
  function Slot(pc: Pc): int {
    if pc.Outside? || pc.LoopTest? || pc.WantCache? || pc.WantEither? then 0 else 1
  }

  /** The client has taken a slot or announced its return, and the counters and channels do not agree
      about it yet. */
  function Pending(pc: Pc): int {
    if pc.GotCache? || pc.GotIdle? || pc.SendCache? || pc.SendIdle? then 1 else 0
  }

  function Tally(pcs: seq<Pc>, weight: Pc -> int): int {
    if pcs == [] then 0 else Tally(pcs[..|pcs| - 1], weight) + weight(pcs[|pcs| - 1])
  }

  lemma {:induction false} TallyUpdate(pcs: seq<Pc>, weight: Pc -> int, i: nat, pc: Pc)
    requires i < |pcs|
    ensures Tally(pcs[i := pc], weight) == Tally(pcs, weight) - weight(pcs[i]) + weight(pc)
  {
    var n := |pcs| - 1;
    if i == n {
      assert pcs[i := pc][..n] == pcs[..n];
    } else {
      TallyUpdate(pcs[..n], weight, i, pc);
      assert pcs[i := pc][..n] == pcs[..n][i := pc];
    }
  }

  lemma {:induction false} TallyBounds(pcs: seq<Pc>, i: nat)
    requires i < |pcs|
    ensures Slot(pcs[i]) <= Tally(pcs, Slot)
    ensures Pending(pcs[i]) <= Tally(pcs, Pending) <= Tally(pcs, Slot)
  {
    TallyNatural(pcs);
    var n := |pcs| - 1;
    TallyNatural(pcs[..n]);
    if i < n {
      TallyBounds(pcs[..n], i);
    }
  }

  lemma {:induction false} TallyNatural(pcs: seq<Pc>)
    ensures 0 <= Tally(pcs, Pending) <= Tally(pcs, Slot)
  {
    if pcs != [] {
      TallyNatural(pcs[..|pcs| - 1]);
    }
  }

  // ---------------------------------------------------------------- who has which connection

  function ConnOf(pc: Pc): Option<ConnId> {
    match pc
    case GotCache(co, _) => Some(co)
    case Probe(co, _) => Some(co)
    case PingNew(co) => Some(co)
    case Reuse(co) => Some(co)
    case Holding(co) => Some(co)
    case Pushing(co, _) => Some(co)
    case SendCache(co) => Some(co)
    case _ => None
  }

  /** Connections are never shared: not between clients, not with the cache. */
  ghost predicate Exclusive(s: State) {
    Queued(s.pool) && Owned(s.pool, s.pcs) && Apart(s.pcs)
  }

  ghost predicate Queued(s: Shared) {
    && (forall a, b :: 0 <= a < b < |s.cache| ==> s.cache[a] != s.cache[b])
    && (forall a :: 0 <= a < |s.cache| ==> s.cache[a] < s.nextId)
  }

  ghost predicate Owns(s: Shared, pc: Pc) {
    ConnOf(pc).Some? ==> ConnOf(pc).value < s.nextId && ConnOf(pc).value !in s.cache
  }

  ghost predicate Owned(s: Shared, pcs: seq<Pc>) {
    forall i :: 0 <= i < |pcs| ==> Owns(s, pcs[i])
  }

  ghost predicate Apart(pcs: seq<Pc>) {
    forall i, j :: 0 <= i < j < |pcs| && ConnOf(pcs[i]).Some? ==> ConnOf(pcs[i]) != ConnOf(pcs[j])
  }

  /** Slots are conserved, the counters tell the slots in the channels, and nothing is ever dropped. */
  ghost predicate Conserved(s: State) {
    Balanced(s.pool, Tally(s.pcs, Slot), Tally(s.pcs, Pending))
  }

  ghost predicate Balanced(s: Shared, slots: int, pending: int) {
    && s.idle + |s.cache| + slots == s.max
    && s.push - s.pop == s.idle + |s.cache| + pending
    && s.dropped == 0
  }

  ghost predicate Inv(s: State) {
    Conserved(s) && Exclusive(s)
  }

  /** One client's step, the others' slots being `slots - Slot(pc)`. */
  lemma ActBalances(s: Shared, pc: Pc, e: Event, slots: int, pending: int)
    requires Balanced(s, slots, pending) && Slot(pc) <= slots && Act(s, pc, e).Some?
    ensures var (s', pc') := Act(s, pc, e).value;
            Balanced(s', slots - Slot(pc) + Slot(pc'), pending - Pending(pc) + Pending(pc'))
    ensures Act(s, pc, e).value.0.max == s.max
  {
  }

  /** No step breaks the conservation of slots. */
  lemma StepConserves(s: State, i: nat, e: Event)
    requires Conserved(s) && i < |s.pcs| && Step(s, i, e).Some?
    ensures Conserved(Step(s, i, e).value) && Step(s, i, e).value.pool.max == s.pool.max
  {
    var pc' := Act(s.pool, s.pcs[i], e).value.1;
    TallyUpdate(s.pcs, Slot, i, pc');
    TallyUpdate(s.pcs, Pending, i, pc');
    TallyBounds(s.pcs, i);
    ActBalances(s.pool, s.pcs[i], e, Tally(s.pcs, Slot), Tally(s.pcs, Pending));
  }

  /** A client that sends finds room: the branch that drops a slot is never taken, nor is the one that
      closes a connection for want of room in the cache. */
  lemma SendsHaveRoom(s: State, i: nat)
    requires Conserved(s) && i < |s.pcs|
    ensures s.pcs[i].SendIdle? ==> s.pool.idle < s.pool.max
    ensures s.pcs[i].SendCache? ==> |s.pool.cache| < s.pool.max
  {
    TallyBounds(s.pcs, i);
  }

  /** How a connection can change hands in one step. */
  datatype Move = Stays | FromCache | Created | ToCache

  ghost predicate Moves(move: Move, s: Shared, pc: Pc, s': Shared, pc': Pc) {
    match move
    case Stays =>
      s'.cache == s.cache && s'.nextId == s.nextId && (ConnOf(pc').Some? ==> ConnOf(pc') == ConnOf(pc))
    case FromCache =>
      s.cache != [] && s'.cache == s.cache[1..] && s'.nextId == s.nextId && ConnOf(pc') == Some(s.cache[0])
    case Created =>
      s'.cache == s.cache && s'.nextId == s.nextId + 1 && ConnOf(pc') == Some(s.nextId)
    case ToCache =>
      && ConnOf(pc).Some? && ConnOf(pc').None?
      && s'.cache == s.cache + [ConnOf(pc).value] && s'.nextId == s.nextId
  }

  lemma ActMoves(s: Shared, pc: Pc, e: Event) returns (move: Move)
    requires Act(s, pc, e).Some?
    ensures var (s', pc') := Act(s, pc, e).value; Moves(move, s, pc, s', pc')
  {
    move := match pc
      case WantCache => FromCache
      case WantEither => if e == TakeCache then FromCache else Stays
      case Dial => if e == Succeed then Created else Stays
      case SendCache(_) => if |s.cache| < s.max then ToCache else Stays
      case _ => Stays;
  }

  /** No step lets two owners have one connection. */
  lemma StepExclusive(s: State, i: nat, e: Event)
    requires Exclusive(s) && i < |s.pcs| && Step(s, i, e).Some?
    ensures Exclusive(Step(s, i, e).value)
  {
    var (pool, pc) := Act(s.pool, s.pcs[i], e).value;
    var move := ActMoves(s.pool, s.pcs[i], e);
    assert Owns(s.pool, s.pcs[i]);
    QueueStep(s.pool, s.pcs[i], pool, pc, move);
    forall j | 0 <= j < |s.pcs| && j != i
      ensures Owns(pool, s.pcs[j])
      ensures ConnOf(pc).Some? ==> ConnOf(pc) != ConnOf(s.pcs[j])
    {
      assert Owns(s.pool, s.pcs[j]);
    }
  }

  lemma QueueStep(s: Shared, pc: Pc, s': Shared, pc': Pc, move: Move)
    requires Queued(s) && Owns(s, pc)
    requires Moves(move, s, pc, s', pc')
    ensures Queued(s') && Owns(s', pc')
  {
  }

  // ---------------------------------------------------------------- runs

  /** Open: `max` slots, the first of them connected. */
  method Open(maxConnNum: int, clients: nat) returns (s: State)
    ensures s.pool.max == if 0 < maxConnNum then maxConnNum else 1024
    ensures s.pool.push == s.pool.max && s.pool.pop == 0 && |s.pool.cache| == Initial(maxConnNum)
    ensures |s.pool.cache| == if maxConnNum <= 0 then 16 else if maxConnNum < 16 then maxConnNum else maxConnNum / 4
    ensures s == Opened(maxConnNum, clients) && Inv(s)
  {
    var max: nat := if 0 < maxConnNum then maxConnNum else 1024;
    var initConnNum := Initial(maxConnNum);
    var idle: nat, cache: seq<ConnId>, push, nextId: nat := 0, [], 0, 0;
    for i := 0 to max
      invariant |cache| == nextId == (if i < initConnNum then i else initConnNum)
      invariant idle == i - |cache| && push == i
      invariant forall a :: 0 <= a < |cache| ==> cache[a] == a
    {
      if i < initConnNum {
        cache := cache + [nextId];
        nextId := nextId + 1;
      } else {
        idle := idle + 1;
      }
      push := push + 1;
    }
    s := State(Shared(max, idle, cache, push, 0, nextId, 0), seq(clients, _ => Outside));
    assert cache == seq(initConnNum, a => a);
    NobodyIn(s.pcs);
  }

  /** A pool just opened: the first connections are cached, the other slots idle. */
  function Opened(maxConnNum: int, clients: nat): State {
    var max: nat := if 0 < maxConnNum then maxConnNum else 1024;
    var cached := Initial(maxConnNum);
    State(Shared(max, max - cached, seq(cached, a => a), max, 0, cached, 0), seq(clients, _ => Outside))
  }

  function Initial(maxConnNum: int): (n: nat)
    ensures n <= if 0 < maxConnNum then maxConnNum else 1024
  {
    if 0 < maxConnNum then (if maxConnNum < 16 then maxConnNum else maxConnNum / 4) else 16
  }

  lemma {:induction false} NobodyIn(pcs: seq<Pc>)
    requires forall i :: 0 <= i < |pcs| ==> pcs[i] == Outside
    ensures Tally(pcs, Slot) == 0 && Tally(pcs, Pending) == 0
  {
    if pcs != [] {
      NobodyIn(pcs[..|pcs| - 1]);
    }
  }

  datatype Action = Action(client: nat, event: Event)

  /** The state after a schedule; actions that are not possible when their turn comes are skipped. */
  function Run(s: State, schedule: seq<Action>): (r: State)
    ensures |r.pcs| == |s.pcs|
  {
    if schedule == [] then s
    else
      var before := Run(s, schedule[..|schedule| - 1]);
      var a := schedule[|schedule| - 1];
      if a.client < |before.pcs| && Step(before, a.client, a.event).Some?
      then Step(before, a.client, a.event).value else before
  }

  lemma {:induction false} RunKeepsInv(s: State, schedule: seq<Action>)
    requires Inv(s)
    ensures Inv(Run(s, schedule)) && Run(s, schedule).pool.max == s.pool.max
  {
    if schedule != [] {
      var before := Run(s, schedule[..|schedule| - 1]);
      RunKeepsInv(s, schedule[..|schedule| - 1]);
      var a := schedule[|schedule| - 1];
      if a.client < |before.pcs| && Step(before, a.client, a.event).Some? {
        StepConserves(before, a.client, a.event);
        StepExclusive(before, a.client, a.event);
      }
    }
  }

  /** Nobody is in the middle of taking or returning a slot. */
  ghost predicate Settled(s: State) {
    forall i :: 0 <= i < |s.pcs| ==> Pending(s.pcs[i]) == 0
  }

  lemma {:induction false} SettledTally(pcs: seq<Pc>)
    requires forall i :: 0 <= i < |pcs| ==> Pending(pcs[i]) == 0
    ensures Tally(pcs, Pending) == 0
  {
    if pcs != [] {
      SettledTally(pcs[..|pcs| - 1]);
    }
  }

  /** Pool conservation over every interleaving of any number of clients, with connects, pings and
      resets failing at will: idle, cached and checked-out slots always make up the pool; whenever no
      client is between taking a slot and counting it, the counters tell the free slots exactly; no
      slot is ever dropped; and no connection has two owners. */
  lemma PoolConservation(s: State, schedule: seq<Action>)
    requires Inv(s)
    ensures var r := Run(s, schedule);
            && r.pool.idle + |r.pool.cache| + Tally(r.pcs, Slot) == s.pool.max
            && (Settled(r) ==> r.pool.push - r.pool.pop == r.pool.idle + |r.pool.cache|)
            && r.pool.dropped == 0
            && forall i, j, co :: 0 <= i < j < |r.pcs| && r.pcs[i] == Holding(co) ==> r.pcs[j] != Holding(co) && co !in r.pool.cache
  {
    RunKeepsInv(s, schedule);
    var r := Run(s, schedule);
    if Settled(r) {
      SettledTally(r.pcs);
    }
    forall i, j, co | 0 <= i < j < |r.pcs| && r.pcs[i] == Holding(co)
      ensures r.pcs[j] != Holding(co) && co !in r.pool.cache
    {
      assert ConnOf(r.pcs[i]) == Some(co) && ConnOf(r.pcs[i]) != ConnOf(r.pcs[j]);
    }
  }

  // ---------------------------------------------------------------- broken connections

  /** Nobody has the connection, nor has the cache; `pushed` allows for one about to be returned as failed. */
  ghost predicate Gone(s: State, co: ConnId, pushed: bool) {
    && co < s.pool.nextId && co !in s.pool.cache
    && forall j :: 0 <= j < |s.pcs| && ConnOf(s.pcs[j]) == Some(co) ==> pushed && s.pcs[j] == Pushing(co, true)
  }

  lemma GoneStep(s: State, co: ConnId, pushed: bool, i: nat, e: Event)
    requires Gone(s, co, pushed) && i < |s.pcs| && Step(s, i, e).Some?
    ensures Gone(Step(s, i, e).value, co, pushed)
  {
    var move := ActMoves(s.pool, s.pcs[i], e);
  }

  lemma {:induction false} GoneStays(s: State, co: ConnId, pushed: bool, schedule: seq<Action>)
    requires Gone(s, co, pushed)
    ensures Gone(Run(s, schedule), co, pushed)
  {
    if schedule != [] {
      var before := Run(s, schedule[..|schedule| - 1]);
      GoneStays(s, co, pushed, schedule[..|schedule| - 1]);
      var a := schedule[|schedule| - 1];
      if a.client < |before.pcs| && Step(before, a.client, a.event).Some? {
        GoneStep(before, co, pushed, a.client, a.event);
      }
    }
  }

  lemma FailingGone(s: State, i: nat, e: Event, co: ConnId)
    requires Exclusive(s) && i < |s.pcs| && ConnOf(s.pcs[i]) == Some(co)
    requires (e == Fail || e == ReleaseBroken || e == PushFailed) && Step(s, i, e).Some?
    ensures Gone(Step(s, i, e).value, co, e == PushFailed)
  {
    assert Owns(s.pool, s.pcs[i]);
  }

  /** A connection whose ping or reset failed, or that is released as broken, is never handed out again: after
      any further schedule it is in no client's hands and not in the cache. One returned with an error is in
      nobody's hands but those returning it. */
  lemma BrokenIsGone(s: State, i: nat, e: Event, co: ConnId, schedule: seq<Action>)
    requires Inv(s) && i < |s.pcs| && ConnOf(s.pcs[i]) == Some(co)
    requires (e == Fail || e == ReleaseBroken || e == PushFailed) && Step(s, i, e).Some?
    ensures var r := Run(Step(s, i, e).value, schedule);
            && co !in r.pool.cache
            && forall j :: 0 <= j < |r.pcs| ==>
                 && r.pcs[j] != Holding(co)
                 && (ConnOf(r.pcs[j]) == Some(co) ==> e == PushFailed && r.pcs[j] == Pushing(co, true))
  {
    FailingGone(s, i, e, co);
    GoneStays(Step(s, i, e).value, co, e == PushFailed, schedule);
  }

  /** A connection is handed out only after a reset that succeeded, and reset only after a ping that did. */
  lemma HandedOutSound(s: State, i: nat, e: Event, co: ConnId)
    requires i < |s.pcs| && Step(s, i, e).Some?
    ensures Step(s, i, e).value.pcs[i] == Holding(co) ==> e == Succeed && s.pcs[i] == Reuse(co)
    ensures Step(s, i, e).value.pcs[i] == Reuse(co) ==>
              e == Succeed && (s.pcs[i].Probe? || s.pcs[i].PingNew?) && ConnOf(s.pcs[i]) == Some(co)
  {
  }

  /** Client `i` alone, by events of these kinds only, brings the pool from `s` to here. */
  ghost predicate Leads(s: State, i: nat, events: set<Event>, pool: Shared, pc: Pc)
    requires i < |s.pcs|
  {
    exists schedule :: Only(schedule, i, events) && Run(s, schedule) == State(pool, s.pcs[i := pc])
  }

  predicate Only(schedule: seq<Action>, i: nat, events: set<Event>) {
    forall k :: 0 <= k < |schedule| ==> schedule[k].client == i && schedule[k].event in events
  }

  lemma LeadsNowhere(s: State, i: nat, events: set<Event>)
    requires i < |s.pcs|
    ensures Leads(s, i, events, s.pool, s.pcs[i])
  {
    assert Only([], i, events) && Run(s, []) == s;
    assert s.pcs[i := s.pcs[i]] == s.pcs;
  }

  lemma LeadsNext(s: State, i: nat, events: set<Event>, pool: Shared, pc: Pc, e: Event)
    requires i < |s.pcs| && Leads(s, i, events, pool, pc) && e in events && Act(pool, pc, e).Some?
    ensures Leads(s, i, events, Act(pool, pc, e).value.0, Act(pool, pc, e).value.1)
  {
    var schedule :| Only(schedule, i, events) && Run(s, schedule) == State(pool, s.pcs[i := pc]);
    var (pool', pc') := Act(pool, pc, e).value;
    RunNext(s, schedule, Action(i, e));
    assert s.pcs[i := pc][i := pc'] == s.pcs[i := pc'];
    assert Only(schedule + [Action(i, e)], i, events);
  }

  lemma LooksAtCache(s: State, i: nat, events: set<Event>)
    requires i < |s.pcs| && s.pcs[i] == Outside && Advance in events
    ensures Leads(s, i, events, s.pool, if |s.pool.cache| > 0 then WantCache else WantEither)
  {
    LeadsNowhere(s, i, events);
    LeadsNext(s, i, events, s.pool, Outside, Advance);
    LeadsNext(s, i, events, s.pool, LoopTest, Advance);
  }

  lemma PingAndReset(s: State, i: nat, events: set<Event>, pool: Shared, pc: Pc, co: ConnId)
    requires i < |s.pcs| && Succeed in events && ((pc.Probe? && pc.co == co) || pc == PingNew(co))
    requires Leads(s, i, events, pool, pc)
    ensures Leads(s, i, events, pool, Holding(co))
  {
    LeadsNext(s, i, events, pool, pc, Succeed);
    LeadsNext(s, i, events, pool, Reuse(co), Succeed);
  }

  /** A client that finds a connection in the cache is given the one longest there, once ping and reset have
      succeeded. */
  lemma CachedIsHanded(s: State, i: nat)
    requires i < |s.pcs| && s.pcs[i] == Outside && s.pool.cache != []
    ensures Leads(s, i, {Advance, Succeed}, s.pool.(cache := s.pool.cache[1..], pop := s.pool.pop + 1), Holding(s.pool.cache[0]))
  {
    var p, co, events := s.pool, s.pool.cache[0], {Advance, Succeed};
    var p1 := p.(cache := p.cache[1..]);
    var p2 := p1.(pop := p.pop + 1);
    LooksAtCache(s, i, events);
    LeadsNext(s, i, events, p, WantCache, Advance);
    LeadsNext(s, i, events, p1, GotCache(co, true), Advance);
    PingAndReset(s, i, events, p2, Probe(co, true), co);
  }

  /** With the cache empty and an idle slot it is given a new one. */
  lemma IdleIsConnected(s: State, i: nat)
    requires i < |s.pcs| && s.pcs[i] == Outside && s.pool.cache == [] && s.pool.idle > 0
    ensures Leads(s, i, {Advance, TakeIdle, Succeed},
                  s.pool.(idle := s.pool.idle - 1, pop := s.pool.pop + 1, nextId := s.pool.nextId + 1), Holding(s.pool.nextId))
  {
    var p, co, events := s.pool, s.pool.nextId, {Advance, TakeIdle, Succeed};
    var p1 := p.(idle := p.idle - 1);
    var p2 := p1.(pop := p.pop + 1);
    var p3 := p2.(nextId := p.nextId + 1);
    LooksAtCache(s, i, events);
    LeadsNext(s, i, events, p, WantEither, TakeIdle);
    LeadsNext(s, i, events, p1, GotIdle, Advance);
    LeadsNext(s, i, events, p2, Dial, Succeed);
    PingAndReset(s, i, events, p3, PingNew(co), co);
  }

  /** A client that waits for either takes what comes first from the cache, too. */
  lemma WaitingTakesCached(s: State, i: nat)
    requires i < |s.pcs| && s.pcs[i] == WantEither && s.pool.cache != []
    ensures Leads(s, i, {TakeCache, Advance, Succeed},
                  s.pool.(cache := s.pool.cache[1..], pop := s.pool.pop + 1), Holding(s.pool.cache[0]))
  {
    var p, co, events := s.pool, s.pool.cache[0], {TakeCache, Advance, Succeed};
    var p1 := p.(cache := p.cache[1..]);
    var p2 := p1.(pop := p.pop + 1);
    LeadsNowhere(s, i, events);
    LeadsNext(s, i, events, p, WantEither, TakeCache);
    LeadsNext(s, i, events, p1, GotCache(co, false), Advance);
    PingAndReset(s, i, events, p2, Probe(co, false), co);
  }

  /** A sound connection that is released goes to the end of the cache. */
  lemma ReleasedIsCached(s: State, i: nat, co: ConnId)
    requires Conserved(s) && i < |s.pcs| && s.pcs[i] == Holding(co)
    ensures Leads(s, i, {Release, Advance}, s.pool.(cache := s.pool.cache + [co], push := s.pool.push + 1), Outside)
  {
    TallyBounds(s.pcs, i);
    var p, events := s.pool, {Release, Advance};
    var p1 := p.(push := p.push + 1);
    LeadsNowhere(s, i, events);
    LeadsNext(s, i, events, p, Holding(co), Release);
    LeadsNext(s, i, events, p, Pushing(co, false), Advance);
    LeadsNext(s, i, events, p1, SendCache(co), Advance);
  }

  /** A broken one gives back its slot and nothing else. */
  lemma BrokenGivesSlot(s: State, i: nat, co: ConnId)
    requires Conserved(s) && i < |s.pcs| && s.pcs[i] == Holding(co)
    ensures Leads(s, i, {ReleaseBroken, Advance}, s.pool.(idle := s.pool.idle + 1, push := s.pool.push + 1), Outside)
    ensures Leads(s, i, {PushFailed, Advance}, s.pool.(idle := s.pool.idle + 1, push := s.pool.push + 1), Outside)
  {
    TallyBounds(s.pcs, i);
    var p, events := s.pool, {ReleaseBroken, Advance};
    var p1 := p.(push := p.push + 1);
    LeadsNowhere(s, i, events);
    LeadsNext(s, i, events, p, Holding(co), ReleaseBroken);
    LeadsNext(s, i, events, p, Closing(Leave), Advance);
    LeadsNext(s, i, events, p1, SendIdle(Leave), Advance);
    events := {PushFailed, Advance};
    LeadsNowhere(s, i, events);
    LeadsNext(s, i, events, p, Holding(co), PushFailed);
    LeadsNext(s, i, events, p, Pushing(co, true), Advance);
    LeadsNext(s, i, events, p1, SendIdle(Leave), Advance);
  }

  /** A failed ping of a cached connection gives its slot back; the client looks for another connection if it
      came from the cache loop, and has an error if it had waited for either channel. */
  lemma FailedPingRetries(s: State, i: nat, co: ConnId, inLoop: bool)
    requires Conserved(s) && i < |s.pcs| && s.pcs[i] == Probe(co, inLoop)
    ensures Leads(s, i, {Fail, Advance}, s.pool.(idle := s.pool.idle + 1, push := s.pool.push + 1),
                  if inLoop then LoopTest else Outside)
  {
    TallyBounds(s.pcs, i);
    var p, events, next := s.pool, {Fail, Advance}, if inLoop then Retry else Leave;
    var p1 := p.(push := p.push + 1);
    LeadsNowhere(s, i, events);
    LeadsNext(s, i, events, p, Probe(co, inLoop), Fail);
    LeadsNext(s, i, events, p, Closing(next), Advance);
    LeadsNext(s, i, events, p1, SendIdle(next), Advance);
  }

  /** A connect, a ping of a new connection or a reset that fails ends in an error, the slot being given back. */
  lemma FailedConnectEnds(s: State, i: nat, co: ConnId)
    requires Conserved(s) && i < |s.pcs| && (s.pcs[i] == Dial || s.pcs[i] == PingNew(co) || s.pcs[i] == Reuse(co))
    ensures Leads(s, i, {Fail, Advance}, s.pool.(idle := s.pool.idle + 1, push := s.pool.push + 1), Outside)
  {
    TallyBounds(s.pcs, i);
    var p, events := s.pool, {Fail, Advance};
    var p1 := p.(push := p.push + 1);
    LeadsNowhere(s, i, events);
    LeadsNext(s, i, events, p, s.pcs[i], Fail);
    LeadsNext(s, i, events, p, Closing(Leave), Advance);
    LeadsNext(s, i, events, p1, SendIdle(Leave), Advance);
  }

  // ---------------------------------------------------------------- waiting

  /** A client has no step exactly when it waits for the cache alone and the cache is empty, or waits for
      either channel and both are empty. */
  lemma BlockedWhen(s: State, i: nat)
    requires i < |s.pcs|
    ensures (forall e :: Step(s, i, e).None?) <==>
            || (s.pcs[i].WantCache? && s.pool.cache == [])
            || (s.pcs[i].WantEither? && s.pool.cache == [] && s.pool.idle == 0)
  {
    var p := s.pool;
    var pc := s.pcs[i];
    assert pc.WantEither? && p.idle > 0 ==> Act(p, pc, TakeIdle).Some?;
    assert pc.WantEither? && p.cache != [] ==> Act(p, pc, TakeCache).Some?;
    assert pc.Probe? || pc.Dial? || pc.PingNew? || pc.Reuse? ==> Act(p, pc, Fail).Some?;
    assert pc.Holding? ==> Act(p, pc, Release).Some?;
    var waits := pc.WantEither? || pc.Probe? || pc.Dial? || pc.PingNew? || pc.Reuse? || pc.Holding?;
    assert !waits && !(pc.WantCache? && p.cache == []) ==> Act(p, pc, Advance).Some?;
    assert forall e :: Step(s, i, e).Some? <==> Act(p, pc, e).Some?;
  }

  /** While slots are conserved, a client waiting for either channel waits only for slots that others have;
      one waiting for the cache alone may wait with `idle` slots to be had. */
  lemma BlockedBehindOthers(s: State, i: nat)
    requires Conserved(s) && i < |s.pcs| && (forall e :: Step(s, i, e).None?)
    ensures Tally(s.pcs, Slot) == s.pool.max - s.pool.idle
    ensures s.pcs[i].WantEither? ==> Tally(s.pcs, Slot) == s.pool.max
  {
    BlockedWhen(s, i);
  }

  lemma RunNext(s: State, schedule: seq<Action>, a: Action)
    ensures var before := Run(s, schedule);
            Run(s, schedule + [a]) ==
            if a.client < |before.pcs| && Step(before, a.client, a.event).Some?
            then Step(before, a.client, a.event).value else before
  {
    assert (schedule + [a])[..|schedule|] == schedule;
  }

  /** The first `n` clients have seen a non-empty cache and are about to receive from it. */
  ghost predicate Lined(s: State, start: State, n: nat) {
    && s.pool == start.pool && |s.pcs| == |start.pcs|
    && forall i :: 0 <= i < |s.pcs| ==> s.pcs[i] == if i < n then WantCache else start.pcs[i]
  }

  lemma {:induction false} LineUp(start: State, n: nat) returns (schedule: seq<Action>)
    requires n <= |start.pcs| && start.pool.cache != [] && forall i :: 0 <= i < |start.pcs| ==> start.pcs[i] == Outside
    ensures Lined(Run(start, schedule), start, n)
  {
    if n == 0 {
      schedule := [];
    } else {
      var before := LineUp(start, n - 1);
      var a := Action(n - 1, Advance);
      RunNext(start, before, a);
      RunNext(start, before + [a], a);
      schedule := before + [a] + [a];
    }
  }

  /** `k` of the clients in line have received. */
  ghost predicate Received(s: State, start: State, n: nat, k: nat)
    requires k <= |start.pool.cache|
  {
    && s.pool == start.pool.(cache := start.pool.cache[k..]) && |s.pcs| == |start.pcs|
    && forall i :: k <= i < n && i < |s.pcs| ==> s.pcs[i] == WantCache
  }

  lemma {:induction false} Drain(start: State, n: nat, k: nat) returns (schedule: seq<Action>)
    requires n <= |start.pcs| && start.pool.cache != [] && forall i :: 0 <= i < |start.pcs| ==> start.pcs[i] == Outside
    requires k <= n && k <= |start.pool.cache|
    ensures Received(Run(start, schedule), start, n, k)
    decreases k
  {
    if k == 0 {
      schedule := LineUp(start, n);
    } else {
      var before := Drain(start, n, k - 1);
      RunNext(start, before, Action(k - 1, Advance));
      schedule := before + [Action(k - 1, Advance)];
      assert start.pool.cache[k - 1..][1..] == start.pool.cache[k..];
    }
  }

  /** A client can be stuck with idle slots to be had, in any pool of 16 slots or more as soon as there are
      more clients than connections opened at first: all of them see a non-empty cache and go on to receive
      from the cache alone, and the one that comes last has no step until somebody returns a connection. */
  lemma CacheWaitIgnoresIdle(maxConnNum: int, clients: nat) returns (schedule: seq<Action>, i: nat)
    requires maxConnNum >= 16 && clients > Initial(maxConnNum)
    ensures var r := Run(Opened(maxConnNum, clients), schedule);
            && i < |r.pcs| && (forall e :: Step(r, i, e).None?)
            && r.pool.idle == maxConnNum - Initial(maxConnNum) > 0
  {
    var start := Opened(maxConnNum, clients);
    i := Initial(maxConnNum);
    assert |start.pool.cache| == i >= 4;
    schedule := Drain(start, i + 1, i);
    BlockedWhen(Run(start, schedule), i);
  }
}
