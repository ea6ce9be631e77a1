/** The transactions of one client connection (proxy/server/conn_tx.go, conn_set.go, conn_query.go).

    Every connection taken from a pool gets the next handle; `trace` keeps, handle by handle, what was
    done with it. Backend calls succeed. */
module Transactions {
  import opened Prelude

  type Node = nat
  type Handle = nat

  datatype Op =
    | Take(node: Node, master: bool)
    | Begin
    | AutocommitOff
    | AutocommitOn
    | Execute
    | Commit
    | Rollback
    | Give

  datatype Session = Session(inTrans: bool, autocommit: bool, tx: map<Node, Handle>, trace: seq<seq<Op>>)

  predicate InTransaction(s: Session) {
    s.inTrans || !s.autocommit
  }

  // ---------------------------------------------------------------- commands

  /** `slaves` are the nodes with a slave to give; `rollback` is set when the statement failed. */
  datatype Command =
    | DoBegin
    | DoCommit
    | DoRollback
    | SetAutocommit(flag: string, isNumber: bool)
    | Statement(nodes: seq<Node>, fromSlave: bool, slaves: set<Node>, rollback: bool)

  function UpperChar(c: char): char {
    if 'a' <= c <= 'z' then (c as int - 32) as char else c
  }

  function Upper(s: string): string {
    seq(|s|, i requires 0 <= i < |s| => UpperChar(s[i]))
  }

  /** 0 and 1 must be numbers, ON and OFF may be quoted. */
  function AutocommitFlag(flag: string, isNumber: bool): Option<bool> {
    if (flag == "0" || flag == "1") && !isNumber then None
    else if Upper(flag) == "1" || Upper(flag) == "ON" then Some(true)
    else if Upper(flag) == "0" || Upper(flag) == "OFF" then Some(false)
    else None
  }

  function Handles(tx: map<Node, Handle>): set<Handle> {
    set n | n in tx :: tx[n]
  }

  /** The same is done with each of `hs`. */
  function Send(trace: seq<seq<Op>>, hs: set<Handle>, ops: seq<Op>): (r: seq<seq<Op>>)
    ensures |r| == |trace|
  {
    seq(|trace|, h requires 0 <= h < |trace| => if h in hs then trace[h] + ops else trace[h])
  }

  function EndAll(s: Session, op: Op): Session {
    s.(inTrans := false, tx := map[], trace := Send(s.trace, Handles(s.tx), [op, Give]))
  }

  predicate Accepted(s: Session, c: Command) {
    match c
    case SetAutocommit(flag, isNumber) => AutocommitFlag(flag, isNumber).Some?
    case Statement(nodes, _, _, _) =>
      && nodes != []
      && (InTransaction(s) ==> |nodes| == 1 && !(|s.tx| == 1 && nodes[0] !in s.tx))
    case _ => true
  }

  /** A statement outside a transaction has the connection of each node to itself. */
  function OneShot(node: Node, c: Command): seq<Op>
    requires c.Statement?
  {
    [Take(node, !(c.fromSlave && node in c.slaves)), Execute] + (if c.rollback then [Rollback] else []) + [Give]
  }

  function StatementStep(s: Session, c: Command): Session
    requires c.Statement? && Accepted(s, c)
  {
    if !InTransaction(s) then
      s.(trace := s.trace + seq(|c.nodes|, k requires 0 <= k < |c.nodes| => OneShot(c.nodes[k], c)))
    else if c.nodes[0] in s.tx then
      s.(trace := Send(s.trace, {s.tx[c.nodes[0]]}, [Execute]))
    else
      s.(tx := s.tx[c.nodes[0] := |s.trace|],
         trace := s.trace + [[Take(c.nodes[0], true), if s.autocommit then Begin else AutocommitOff, Execute]])
  }

  function Step(s: Session, c: Command): Session {
    if !Accepted(s, c) then s
    else
      match c
      case DoBegin => s.(inTrans := true, trace := Send(s.trace, Handles(s.tx), [Begin]))
      case DoCommit => EndAll(s, Commit)
      case DoRollback => EndAll(s, Rollback)
      case SetAutocommit(flag, isNumber) =>
        if AutocommitFlag(flag, isNumber).value then EndAll(s.(autocommit := true), AutocommitOn)
        else s.(autocommit := false)
      case Statement(_, _, _, _) => StatementStep(s, c)
  }

  // ---------------------------------------------------------------- the client connection

  const SERVER_STATUS_IN_TRANS: bv16 := 0x0001
  const SERVER_STATUS_AUTOCOMMIT: bv16 := 0x0002

  class ClientConn {
    var status: bv16
    var txConns: map<Node, Handle>
    var trace: seq<seq<Op>>

    constructor ()
      ensures Valid() && State() == Start()
    {
      status, txConns, trace := SERVER_STATUS_AUTOCOMMIT, map[], [];
    }

    predicate IsAutoCommit()
      reads this
    {
      status & SERVER_STATUS_AUTOCOMMIT > 0
    }

    predicate IsInTransaction()
      reads this
    {
      status & SERVER_STATUS_IN_TRANS > 0 || !IsAutoCommit()
    }

    function State(): Session
      reads this
    {
      Session(status & SERVER_STATUS_IN_TRANS > 0, status & SERVER_STATUS_AUTOCOMMIT > 0, txConns, trace)
    }

    /** No handle is kept under two nodes. */
    ghost predicate Valid()
      reads this
    {
      Separate(txConns, trace)
    }

    /** Walks the kept connections in some order. */
    method SendEach(conns: map<Node, Handle>, ops: seq<Op>)
      requires Separate(conns, trace)
      modifies `trace
      ensures trace == Send(old(trace), Handles(conns), ops)
    {
      var todo := conns.Keys;
      ghost var sent: set<Handle> := {};
      assert trace == Send(trace, sent, ops);
      while todo != {}
        invariant forall n :: n in todo ==> n in conns
        invariant forall h :: h in sent <==> exists n :: n in conns && n !in todo && conns[n] == h
        invariant trace == Send(old(trace), sent, ops)
      {
        HasMember(todo);
        var n :| n in todo;
        var co := conns[n];
        assert co !in sent;
        trace := trace[co := trace[co] + ops];
        sent := sent + {co};
        todo := todo - {n};
      }
      assert forall h :: h in sent <==> h in Handles(conns);
    }

    method HandleBegin()
      requires Valid()
      modifies this
      ensures Valid() && State() == Step(old(State()), DoBegin)
    {
      SendEach(txConns, [Begin]);
      status := status | SERVER_STATUS_IN_TRANS;
    }

    method Commit()
      requires Valid()
      modifies this
      ensures Valid() && State() == Step(old(State()), DoCommit)
    {
      status := status & !SERVER_STATUS_IN_TRANS;
      SendEach(txConns, [Op.Commit, Give]);
      txConns := map[];
    }

    method Rollback()
      requires Valid()
      modifies this
      ensures Valid() && State() == Step(old(State()), DoRollback)
    {
      status := status & !SERVER_STATUS_IN_TRANS;
      SendEach(txConns, [Op.Rollback, Give]);
      txConns := map[];
    }

    method TurnOn()
      requires Valid()
      modifies this
      ensures Valid() && State() == EndAll(old(State()).(autocommit := true), AutocommitOn)
    {
      status := status | SERVER_STATUS_AUTOCOMMIT;
      if status & SERVER_STATUS_IN_TRANS > 0 {
        status := status & !SERVER_STATUS_IN_TRANS;
      }
      SendEach(txConns, [AutocommitOn, Give]);
      txConns := map[];
    }

    method TurnOff()
      requires Valid()
      modifies `status
      ensures State() == old(State()).(autocommit := false)
    {
      status := status & !SERVER_STATUS_AUTOCOMMIT;
    }

    method HandleSetAutoCommit(flag: string, isNumber: bool) returns (ok: bool)
      requires Valid()
      modifies this
      ensures Valid() && State() == Step(old(State()), SetAutocommit(flag, isNumber))
      ensures ok <==> Accepted(old(State()), SetAutocommit(flag, isNumber))
    {
      if (flag == "0" || flag == "1") && !isNumber {
        return false;
      }
      var word := Upper(flag);
      if word == "1" || word == "ON" {
        TurnOn();
      } else if word == "0" || word == "OFF" {
        TurnOff();
      } else {
        return false;
      }
      return true;
    }

    /** The next handle, on the master of `n` or on one of its slaves. */
    method GetConn(n: Node, master: bool) returns (co: Handle)
      modifies `trace
      ensures co == |old(trace)| && trace == old(trace) + [[Take(n, master)]]
    {
      co := |trace|;
      trace := trace + [[Take(n, master)]];
    }

    method GetBackendConn(n: Node, fromSlave: bool, slaves: set<Node>) returns (co: Handle)
      requires Valid()
      modifies `trace, `txConns
      ensures Valid() && co < |trace|
      ensures !IsInTransaction() ==>
                && co == |old(trace)| && txConns == old(txConns)
                && trace == old(trace) + [[Take(n, !(fromSlave && n in slaves))]]
      ensures IsInTransaction() && n in old(txConns) ==>
                co == old(txConns)[n] && txConns == old(txConns) && trace == old(trace)
      ensures IsInTransaction() && n !in old(txConns) ==>
                && co == |old(trace)| && txConns == old(txConns)[n := co]
                && trace == old(trace) + [[Take(n, true), if IsAutoCommit() then Begin else AutocommitOff]]
    {
      if !IsInTransaction() {
        if fromSlave && n in slaves {
          co := GetConn(n, false);
        } else {
          co := GetConn(n, true);
        }
      } else if n in txConns {
        co := txConns[n];
      } else {
        co := GetConn(n, true);
        var op := if IsAutoCommit() then Begin else AutocommitOff;
        trace := trace[co := trace[co] + [op]];
        txConns := txConns[n := co];
        assert trace[co] == [Take(n, true), op];
        assert trace == old(trace) + [[Take(n, true), op]];
      }
    }

    /** The connections a statement is given, by node. */
    method GetShardConns(c: Command) returns (conns: Option<map<Node, Handle>>)
      requires Valid() && c.Statement? && Different(c.nodes)
      modifies `trace, `txConns
      ensures Valid()
      ensures conns.Some? <==> Accepted(old(State()), c)
      ensures conns.None? ==> State() == old(State())
      ensures conns.Some? ==> Separate(conns.value, trace)
      ensures conns.Some? && !IsInTransaction() ==>
                && txConns == old(txConns)
                && NumberedFrom(conns.value, c.nodes, |c.nodes|, |old(trace)|)
                && trace == old(trace) + Taken(c, |c.nodes|)
      ensures conns.Some? && IsInTransaction() ==>
                && c.nodes[0] in txConns && conns.value == map[c.nodes[0] := txConns[c.nodes[0]]]
                && (c.nodes[0] in old(txConns) ==> txConns == old(txConns) && trace == old(trace))
                && (c.nodes[0] !in old(txConns) ==>
                      && txConns == old(txConns)[c.nodes[0] := |old(trace)|]
                      && trace == old(trace) + [[Take(c.nodes[0], true), if IsAutoCommit() then Begin else AutocommitOff]])
    {
      var nodes := c.nodes;
      if |nodes| == 0 {
        return None;
      }
      if IsInTransaction() {
        if 1 < |nodes| {
          return None;
        }
        if |txConns| == 1 && nodes[0] !in txConns {
          return None;
        }
        var co := GetBackendConn(nodes[0], c.fromSlave, c.slaves);
        return Some(map[nodes[0] := co]);
      }
      var found := TakeEach(c);
      return Some(found);
    }

    /** Outside a transaction: a connection that is not kept. */
    method TakeOne(c: Command, n: Node) returns (co: Handle)
      requires Valid() && c.Statement? && !IsInTransaction()
      modifies `trace, `txConns
      ensures Valid() && txConns == old(txConns)
      ensures co == |old(trace)| && trace == old(trace) + [TakeFor(c, n)]
    {
      co := GetBackendConn(n, c.fromSlave, c.slaves);
    }

    /** Outside a transaction: one connection for each node. */
    method TakeEach(c: Command) returns (found: map<Node, Handle>)
      requires Valid() && c.Statement? && Different(c.nodes) && !IsInTransaction()
      modifies `trace, `txConns
      ensures Valid() && txConns == old(txConns)
      ensures NumberedFrom(found, c.nodes, |c.nodes|, |old(trace)|) && Separate(found, trace)
      ensures trace == old(trace) + Taken(c, |c.nodes|)
    {
      found := map[];
      TakenNone(trace, c);
      for i := 0 to |c.nodes|
        invariant Valid() && txConns == old(txConns)
        invariant NumberedFrom(found, c.nodes, i, |old(trace)|)
        invariant trace == old(trace) + Taken(c, i)
      {
        TakenNext(old(trace), trace, c, i);
        NumberedNext(found, c.nodes, i, |old(trace)|);
        var n := c.nodes[i];
        var co := TakeOne(c, n);
        assert co == |old(trace)| + i;
        found := found[n := co];
      }
      NumberedSeparate(found, c.nodes, |old(trace)|, trace);
    }

    method CloseShardConns(conns: map<Node, Handle>, rollback: bool)
      requires Separate(conns, trace)
      modifies `trace
      ensures trace == if IsInTransaction() then old(trace)
                       else Send(old(trace), Handles(conns), (if rollback then [Op.Rollback] else []) + [Give])
    {
      if IsInTransaction() {
        return;
      }
      SendEach(conns, (if rollback then [Op.Rollback] else []) + [Give]);
    }

    /** A sharded statement: connections, execution on each of them, release. */
    method HandleStatement(c: Command) returns (ok: bool)
      requires Valid() && c.Statement? && Different(c.nodes)
      modifies this
      ensures Valid() && State() == Step(old(State()), c)
      ensures ok <==> Accepted(old(State()), c)
    {
      var conns := GetShardConns(c);
      if conns.None? {
        return false;
      }
      ghost var taken := trace;
      SendEach(conns.value, [Execute]);
      CloseShardConns(conns.value, c.rollback);
      if IsInTransaction() {
        ExecuteKept(old(State()), c, txConns[c.nodes[0]]);
      } else {
        OneShots(old(trace), c, conns.value);
      }
      return true;
    }
  }

  function Taken(c: Command, k: nat): seq<seq<Op>>
    requires c.Statement? && k <= |c.nodes|
  {
    seq(k, i requires 0 <= i < k => TakeFor(c, c.nodes[i]))
  }

  /** What is known of a connection that was just taken outside a transaction. */
  function TakeFor(c: Command, n: Node): seq<Op>
    requires c.Statement?
  {
    [Take(n, !(c.fromSlave && n in c.slaves))]
  }

  lemma TakenNone(trace: seq<seq<Op>>, c: Command)
    requires c.Statement?
    ensures trace == trace + Taken(c, 0)
  {
    assert Taken(c, 0) == [];
  }

  lemma TakenNext(before: seq<seq<Op>>, now: seq<seq<Op>>, c: Command, k: nat)
    requires c.Statement? && k < |c.nodes| && now == before + Taken(c, k)
    ensures now + [TakeFor(c, c.nodes[k])] == before + Taken(c, k + 1)
    ensures |now| == |before| + k
  {
    assert Taken(c, k + 1) == Taken(c, k) + [TakeFor(c, c.nodes[k])];
  }

  /** The first `k` nodes have consecutive handles. */
  ghost predicate NumberedFrom(conns: map<Node, Handle>, nodes: seq<Node>, k: nat, first: Handle)
    requires k <= |nodes|
  {
    && (forall i :: 0 <= i < k ==> nodes[i] in conns && conns[nodes[i]] == first + i)
    && (forall n :: n in conns ==> exists i :: 0 <= i < k && nodes[i] == n)
  }

  lemma NumberedNext(conns: map<Node, Handle>, nodes: seq<Node>, k: nat, first: Handle)
    requires k < |nodes| && Different(nodes) && NumberedFrom(conns, nodes, k, first)
    ensures NumberedFrom(conns[nodes[k] := first + k], nodes, k + 1, first)
  {
  }

  lemma NumberedSeparate(conns: map<Node, Handle>, nodes: seq<Node>, first: Handle, trace: seq<seq<Op>>)
    requires NumberedFrom(conns, nodes, |nodes|, first) && |trace| == first + |nodes|
    ensures Separate(conns, trace)
  {
  }

  ghost predicate Separate(tx: map<Node, Handle>, trace: seq<seq<Op>>) {
    && (forall n :: n in tx ==> tx[n] < |trace|)
    && (forall m, n :: m in tx && n in tx && tx[m] == tx[n] ==> m == n)
  }

  ghost predicate Different(nodes: seq<Node>) {
    forall i, j :: 0 <= i < j < |nodes| ==> nodes[i] != nodes[j]
  }

  lemma ExecuteKept(s: Session, c: Command, h: Handle)
    requires c.Statement? && Accepted(s, c) && InTransaction(s)
    requires c.nodes[0] in s.tx ==> h == s.tx[c.nodes[0]]
    requires c.nodes[0] !in s.tx ==> h == |s.trace|
    ensures Handles(map[c.nodes[0] := h]) == {h}
    ensures StatementStep(s, c).trace ==
            Send(if c.nodes[0] in s.tx then s.trace
                 else s.trace + [[Take(c.nodes[0], true), if s.autocommit then Begin else AutocommitOff]], {h}, [Execute])
  {
    var n, op := c.nodes[0], if s.autocommit then Begin else AutocommitOff;
    OneHandle(n, h);
    assert [Take(n, true), op] + [Execute] == [Take(n, true), op, Execute];
    if n !in s.tx {
      assert Send(s.trace + [[Take(n, true), op]], {h}, [Execute]) == s.trace + [[Take(n, true), op, Execute]];
    }
  }

  lemma OneHandle(n: Node, h: Handle)
    ensures Handles(map[n := h]) == {h}
  {
    assert map[n := h][n] == h;
    assert forall k :: k in Handles(map[n := h]) <==> k in {h};
  }

  lemma OneShots(trace: seq<seq<Op>>, c: Command, conns: map<Node, Handle>)
    requires c.Statement? && NumberedFrom(conns, c.nodes, |c.nodes|, |trace|)
    ensures Send(Send(trace + Taken(c, |c.nodes|), Handles(conns), [Execute]), Handles(conns), LastOps(c))
            == trace + seq(|c.nodes|, k requires 0 <= k < |c.nodes| => OneShot(c.nodes[k], c))
  {
    var taken, hs := trace + Taken(c, |c.nodes|), Handles(conns);
    var left := Send(Send(taken, hs, [Execute]), hs, LastOps(c));
    var right := trace + seq(|c.nodes|, k requires 0 <= k < |c.nodes| => OneShot(c.nodes[k], c));
    assert |left| == |right|;
    forall h | 0 <= h < |left|
      ensures left[h] == right[h]
    {
      NumberedHandles(conns, c.nodes, |trace|, h);
      SentTwice(taken, hs, [Execute], LastOps(c), h);
      if h >= |trace| {
        OneShotOps(c, c.nodes[h - |trace|]);
      }
    }
  }

  lemma SentTwice(trace: seq<seq<Op>>, hs: set<Handle>, first: seq<Op>, second: seq<Op>, h: Handle)
    requires h < |trace|
    ensures Send(Send(trace, hs, first), hs, second)[h] == if h in hs then trace[h] + first + second else trace[h]
  {
  }

  function LastOps(c: Command): seq<Op>
    requires c.Statement?
  {
    (if c.rollback then [Rollback] else []) + [Give]
  }

  lemma OneShotOps(c: Command, n: Node)
    requires c.Statement?
    ensures TakeFor(c, n) + [Execute] + LastOps(c) == OneShot(n, c)
  {
  }

  lemma NumberedHandles(conns: map<Node, Handle>, nodes: seq<Node>, first: Handle, h: Handle)
    requires NumberedFrom(conns, nodes, |nodes|, first)
    ensures h in Handles(conns) <==> first <= h < first + |nodes|
  {
    if first <= h < first + |nodes| {
      assert conns[nodes[h - first]] == h;
    }
  }

  // ---------------------------------------------------------------- runs

  function Start(): Session {
    Session(false, true, map[], [])
  }

  function Run(s: Session, cs: seq<Command>): Session {
    if cs == [] then s else Step(Run(s, cs[..|cs| - 1]), cs[|cs| - 1])
  }

  /** A kept connection: the master of `node`, a transaction started on it, statements since. A client
      that says begin again has it said to the backend too. */
  predicate OpenLife(node: Node, ops: seq<Op>) {
    && |ops| >= 2 && ops[0] == Take(node, true) && (ops[1] == Begin || ops[1] == AutocommitOff)
    && forall i :: 2 <= i < |ops| ==> ops[i] == Execute || ops[i] == Begin
  }

  predicate IsEnd(op: Op) {
    op == Commit || op == Rollback || op == AutocommitOn
  }

  /** A connection of a transaction that is over: ended, then given back, nothing after. */
  predicate Ended(ops: seq<Op>) {
    && |ops| >= 4 && ops[0].Take? && OpenLife(ops[0].node, ops[..|ops| - 2])
    && IsEnd(ops[|ops| - 2]) && ops[|ops| - 1] == Give
  }

  predicate Single(ops: seq<Op>) {
    && |ops| >= 3 && ops[0].Take?
    && (ops == [ops[0], Execute, Give] || ops == [ops[0], Execute, Rollback, Give])
  }

  ghost predicate Lives(tx: map<Node, Handle>, trace: seq<seq<Op>>)
    requires Separate(tx, trace)
  {
    && (forall n :: n in tx ==> OpenLife(n, trace[tx[n]]))
    && (forall h :: 0 <= h < |trace| && h !in Handles(tx) ==> Ended(trace[h]) || Single(trace[h]))
  }

  ghost predicate Inv(s: Session) {
    && Separate(s.tx, s.trace)
    && (forall m, n :: m in s.tx && n in s.tx ==> m == n)
    && (s.tx != map[] ==> InTransaction(s))
    && Lives(s.tx, s.trace)
  }

  lemma EndKeepsInv(s: Session, op: Op)
    requires Inv(s) && IsEnd(op)
    ensures Inv(EndAll(s, op))
  {
    var s' := EndAll(s, op);
    forall h | 0 <= h < |s.trace|
      ensures Ended(s'.trace[h]) || Single(s'.trace[h])
    {
      if h in Handles(s.tx) {
        var n :| n in s.tx && s.tx[n] == h;
        assert s'.trace[h][..|s'.trace[h]| - 2] == s.trace[h];
      }
    }
  }

  lemma MoreKeepsInv(s: Session, hs: set<Handle>, op: Op)
    requires Inv(s) && hs <= Handles(s.tx) && (op == Execute || op == Begin)
    ensures Inv(s.(trace := Send(s.trace, hs, [op])))
  {
    var trace := Send(s.trace, hs, [op]);
    forall n | n in s.tx
      ensures OpenLife(n, trace[s.tx[n]])
    {
      assert OpenLife(n, s.trace[s.tx[n]]);
    }
    forall h | 0 <= h < |trace| && h !in Handles(s.tx)
      ensures Ended(trace[h]) || Single(trace[h])
    {
      assert trace[h] == s.trace[h];
    }
  }

  lemma OneShotSingle(node: Node, c: Command)
    requires c.Statement?
    ensures Single(OneShot(node, c))
  {
  }

  lemma StatementKeepsInv(s: Session, c: Command)
    requires Inv(s) && c.Statement? && Accepted(s, c)
    ensures Inv(StatementStep(s, c))
  {
    var s' := StatementStep(s, c);
    if !InTransaction(s) {
      forall h | |s.trace| <= h < |s'.trace|
        ensures Single(s'.trace[h])
      {
        OneShotSingle(c.nodes[h - |s.trace|], c);
      }
    } else if c.nodes[0] in s.tx {
      MoreKeepsInv(s, {s.tx[c.nodes[0]]}, Execute);
    } else {
      OnlyOneKept(s);
      FirstKeepsInv(s, c.nodes[0]);
    }
  }

  /** The first statement of a transaction. */
  lemma FirstKeepsInv(s: Session, n: Node)
    requires Inv(s) && s.tx == map[] && InTransaction(s)
    ensures Inv(s.(tx := s.tx[n := |s.trace|],
                   trace := s.trace + [[Take(n, true), if s.autocommit then Begin else AutocommitOff, Execute]]))
  {
    var h := |s.trace|;
    OneHandle(n, h);
    assert s.tx[n := h] == map[n := h];
  }

  lemma OnlyOneKept(s: Session)
    requires forall m, n :: m in s.tx && n in s.tx ==> m == n
    ensures s.tx == map[] || |s.tx| == 1
  {
    if s.tx != map[] {
      HasMember(s.tx.Keys);
      var n :| n in s.tx;
      assert forall m :: m in s.tx.Keys <==> m in {n};
      SameMembers(s.tx.Keys, {n});
    }
  }

  /** What every command keeps. */
  lemma StepKeepsInv(s: Session, c: Command)
    requires Inv(s)
    ensures Inv(Step(s, c))
  {
    if Accepted(s, c) {
      match c
      case DoBegin => MoreKeepsInv(s, Handles(s.tx), Begin);
      case DoCommit => EndKeepsInv(s, Commit);
      case DoRollback => EndKeepsInv(s, Rollback);
      case SetAutocommit(flag, isNumber) =>
        if AutocommitFlag(flag, isNumber).value {
          EndKeepsInv(s.(autocommit := true, inTrans := true), AutocommitOn);
        }
      case Statement(_, _, _, _) => StatementKeepsInv(s, c);
    }
  }

  lemma {:induction false} RunKeepsInv(s: Session, cs: seq<Command>)
    requires Inv(s)
    ensures Inv(Run(s, cs))
  {
    if cs != [] {
      RunKeepsInv(s, cs[..|cs| - 1]);
      StepKeepsInv(Run(s, cs[..|cs| - 1]), cs[|cs| - 1]);
    }
  }

  // ---------------------------------------------------------------- what the server makes of it

  /** A session as the server sees it: whether autocommit is on, whether a transaction is open, and how many
      of the statements executed so far wait for its end and how many are there to stay. */
  datatype Server = Server(autocommit: bool, open: bool, pending: nat, lasting: nat)

  const FRESH := Server(true, false, 0, 0)

  /** Sections 13.3.1 and 13.3.3 of the MySQL Reference Manual: begin ends an open transaction as commit
      does and opens another; without autocommit any statement opens one; setting autocommit commits only
      if it was off. */
  function Served(s: Server, op: Op): Server {
    match op
    case Take(_, _) => FRESH
    case Begin => Server(s.autocommit, true, 0, s.lasting + s.pending)
    case AutocommitOff => s.(autocommit := false)
    case AutocommitOn => if s.autocommit then s else Server(true, false, 0, s.lasting + s.pending)
    case Execute =>
      if s.autocommit && !s.open then s.(lasting := s.lasting + 1) else s.(open := true, pending := s.pending + 1)
    case Commit => Server(s.autocommit, false, 0, s.lasting + s.pending)
    case Rollback => Server(s.autocommit, false, 0, s.lasting)
    case Give => s
  }

  function After(ops: seq<Op>): Server {
    if ops == [] then FRESH else Served(After(ops[..|ops| - 1]), ops[|ops| - 1])
  }

  function Executes(ops: seq<Op>): nat {
    if ops == [] then 0 else Executes(ops[..|ops| - 1]) + (if ops[|ops| - 1] == Execute then 1 else 0)
  }

  /** The statements in front of the last begin. */
  function BeforeBegin(ops: seq<Op>): nat {
    if ops == [] then 0
    else if ops[|ops| - 1] == Begin then Executes(ops[..|ops| - 1])
    else BeforeBegin(ops[..|ops| - 1])
  }

  lemma NextOp(front: seq<Op>, op: Op)
    ensures After(front + [op]) == Served(After(front), op)
    ensures Executes(front + [op]) == Executes(front) + if op == Execute then 1 else 0
    ensures BeforeBegin(front + [op]) == if op == Begin then Executes(front) else BeforeBegin(front)
  {
    assert (front + [op])[..|front|] == front;
  }

  /** On a kept connection the statements since the last begin wait, those `before` it have been committed. */
  predicate Waiting(start: Op, server: Server, before: int, all: int) {
    && (server.autocommit <==> start == Begin) && (start == Begin ==> server.open)
    && server.lasting == before && server.lasting + server.pending == all
  }

  lemma {:induction false} OpenServer(node: Node, ops: seq<Op>)
    requires OpenLife(node, ops)
    ensures Waiting(ops[1], After(ops), BeforeBegin(ops), Executes(ops))
  {
    var n := |ops| - 1;
    if n == 1 {
      TakenServer(ops[..1]);
      NextServed(ops);
      StartServed(ops[1], After(ops));
    } else {
      OpenServer(node, ops[..n]);
      MoreServed(ops[1], After(ops[..n]), BeforeBegin(ops[..n]), Executes(ops[..n]), ops[n]);
    }
  }

  lemma TakenServer(ops: seq<Op>)
    requires |ops| == 1 && ops[0].Take?
    ensures After(ops) == FRESH && Executes(ops) == 0 && BeforeBegin(ops) == 0
  {
    assert ops == ops[..0] + [ops[0]];
    NextOp(ops[..0], ops[0]);
  }

  lemma NextServed(ops: seq<Op>)
    requires |ops| == 2 && (ops[1] == Begin || ops[1] == AutocommitOff)
    requires After(ops[..1]) == FRESH && Executes(ops[..1]) == 0 && BeforeBegin(ops[..1]) == 0
    ensures After(ops) == Served(FRESH, ops[1]) && BeforeBegin(ops) == 0 && Executes(ops) == 0
  {
  }

  lemma StartServed(start: Op, server: Server)
    requires (start == Begin || start == AutocommitOff) && server == Served(FRESH, start)
    ensures Waiting(start, server, 0, 0)
  {
  }

  lemma MoreServed(start: Op, server: Server, before: int, all: int, op: Op)
    requires Waiting(start, server, before, all) && (op == Execute || op == Begin)
    ensures Waiting(start, Served(server, op), if op == Begin then all else before, if op == Execute then all + 1 else all)
  {
  }

  /** A connection of a transaction goes back to the pool with the transaction still open exactly when the
      transaction was started by begin, autocommit being on, and ended by setting autocommit; the pool
      rolls it back when the connection is next taken. */
  lemma GivenBackOpen(ops: seq<Op>)
    requires Ended(ops)
    ensures After(ops).open <==> ops[1] == Begin && ops[|ops| - 2] == AutocommitOn
  {
    EndedServer(ops);
  }

  /** What an ended transaction leaves at the server. Commit keeps all its statements; rollback those in front
      of a second begin and no others; setting autocommit keeps all if autocommit was off, and else those in
      front of a second begin, the others still waiting. */
  predicate Left(start: Op, end: Op, server: Server, before: int, all: int) {
    if end == AutocommitOn && start == Begin then server.lasting == before && server.lasting + server.pending == all && server.open
    else server.lasting == (if end == Rollback then before else all) && server.pending == 0 && !server.open
  }

  lemma EndedServer(ops: seq<Op>)
    requires Ended(ops)
    ensures Left(ops[1], ops[|ops| - 2], After(ops), BeforeBegin(ops), Executes(ops))
  {
    var n := |ops| - 2;
    assert ops == ops[..n] + [ops[n], Give];
    EndedAfter(ops[0].node, ops[..n], ops[n], ops);
  }

  lemma EndedAfter(node: Node, front: seq<Op>, end: Op, ops: seq<Op>)
    requires OpenLife(node, front) && IsEnd(end) && ops == front + [end, Give]
    ensures Left(front[1], end, After(ops), BeforeBegin(front), Executes(front))
    ensures BeforeBegin(ops) == BeforeBegin(front) && Executes(ops) == Executes(front)
  {
    OpenServer(node, front);
    EndServed(front[1], After(front), BeforeBegin(front), Executes(front), end);
    GivenAfter(front, end, ops);
  }

  lemma GivenAfter(front: seq<Op>, end: Op, ops: seq<Op>)
    requires IsEnd(end) && ops == front + [end, Give]
    ensures After(ops) == Served(After(front), end)
    ensures BeforeBegin(ops) == BeforeBegin(front) && Executes(ops) == Executes(front)
  {
    NextOp(front, end);
    NextOp(front + [end], Give);
    assert ops == front + [end] + [Give];
  }

  lemma EndServed(start: Op, server: Server, before: int, all: int, end: Op)
    requires Waiting(start, server, before, all) && IsEnd(end)
    ensures Left(start, end, Served(server, end), before, all)
  {
  }

  /** A statement outside a transaction stays at once and leaves none open. */
  lemma SingleServer(ops: seq<Op>)
    requires Single(ops)
    ensures After(ops) == Server(true, false, 0, 1) && Executes(ops) == 1
  {
    NextOp([], ops[0]);
    NextOp([ops[0]], Execute);
    NextOp([ops[0], Execute], ops[2]);
    assert [] + [ops[0]] == [ops[0]] && [ops[0]] + [Execute] == [ops[0], Execute];
    assert [ops[0], Execute] + [ops[2]] == ops[..3];
    if |ops| == 4 {
      NextOp(ops[..3], Give);
      assert ops[..3] + [Give] == ops;
    } else {
      assert ops[..3] == ops;
    }
  }

  /** begin, a statement, set autocommit = 1: the connection is given back with the transaction open. */
  lemma AutocommitLeavesOpen(node: Node)
    ensures var s := Run(Start(), [DoBegin, Statement([node], false, {}, false), SetAutocommit("1", true)]);
            && s.trace == [[Take(node, true), Begin, Execute, AutocommitOn, Give]] && s.tx == map[]
            && Ended(s.trace[0]) && After(s.trace[0]).open
  {
    var statement := Statement([node], false, {}, false);
    var cs := [DoBegin, statement, SetAutocommit("1", true)];
    assert cs[..2] == [DoBegin, statement] && cs[..2][..1] == [DoBegin] && [DoBegin][..0] == [];
    var s1 := Session(true, true, map[], []);
    assert Run(Start(), []) == Start() && Send([], {}, [Begin]) == [];
    assert Handles(map[]) == {};
    assert Run(Start(), cs[..2][..1]) == s1;
    var ops := [Take(node, true), Begin, Execute];
    assert Run(Start(), cs[..2]) == s1.(tx := map[node := 0], trace := [ops]);
    assert Upper("1") == "1";
    OneHandle(node, 0);
    var all := [Take(node, true), Begin, Execute, AutocommitOn, Give];
    assert ops + [AutocommitOn, Give] == all && all[..3] == ops;
    assert Send([ops], {0}, [AutocommitOn, Give]) == [all];
    GivenBackOpen(all);
  }

  // ---------------------------------------------------------------- counting what was done

  function Times(ops: seq<Op>, p: Op -> bool): nat {
    if ops == [] then 0 else Times(ops[..|ops| - 1], p) + (if p(ops[|ops| - 1]) then 1 else 0)
  }

  lemma {:induction false} NeverOf(ops: seq<Op>, p: Op -> bool)
    requires forall i :: 0 <= i < |ops| ==> !p(ops[i])
    ensures Times(ops, p) == 0
  {
    if ops != [] {
      NeverOf(ops[..|ops| - 1], p);
    }
  }

  lemma OpenCounts(node: Node, ops: seq<Op>)
    requires OpenLife(node, ops)
    ensures Times(ops, op => op == Give) == 0 && Times(ops, IsEnd) == 0
  {
    NeverOf(ops, op => op == Give);
    NeverOf(ops, IsEnd);
  }

  lemma EndedCounts(ops: seq<Op>)
    requires Ended(ops)
    ensures Times(ops, op => op == Give) == 1 && Times(ops, IsEnd) == 1
  {
    var n := |ops| - 1;
    OpenCounts(ops[0].node, ops[..n - 1]);
    assert ops[..n][..n - 1] == ops[..n - 1];
  }

  lemma SingleCounts(ops: seq<Op>)
    requires Single(ops)
    ensures Times(ops, op => op == Give) == 1
  {
    var n := |ops| - 1;
    NeverOf(ops[..n], op => op == Give);
  }

  /** Over every run of commands: connections are kept only inside a transaction and for one node
      only; a kept one is on a master, has not been ended and not been given back; every other one that
      was ever taken has been given back exactly once, as the last thing done with it, and if a
      transaction was started on it that was ended by exactly one command. At the server it is then over,
      except that setting autocommit does not end what begin started with autocommit on. */
  lemma TransactionRuns(cs: seq<Command>)
    ensures var s := Run(Start(), cs);
            && (s.tx != map[] ==> InTransaction(s) && |s.tx| == 1)
            && (forall n :: n in s.tx ==>
                  && s.tx[n] < |s.trace| && OpenLife(n, s.trace[s.tx[n]])
                  && Times(s.trace[s.tx[n]], op => op == Give) == 0 && Times(s.trace[s.tx[n]], IsEnd) == 0)
            && (forall h :: 0 <= h < |s.trace| && h !in Handles(s.tx) ==>
                  GivenBackOnce(s.trace[h]))
  {
    var s := Run(Start(), cs);
    RunKeepsInv(Start(), cs);
    OnlyOneKept(s);
    forall n | n in s.tx
      ensures Times(s.trace[s.tx[n]], op => op == Give) == 0 && Times(s.trace[s.tx[n]], IsEnd) == 0
    {
      OpenCounts(n, s.trace[s.tx[n]]);
    }
    forall h | 0 <= h < |s.trace| && h !in Handles(s.tx)
      ensures GivenBackOnce(s.trace[h])
    {
      OnceGivenBack(s.trace[h]);
    }
  }

  /** Given back exactly once, last of all; ended by exactly one command if a transaction was started; and at
      the server no transaction is open and no statement waits, but for the one exception. */
  ghost predicate GivenBackOnce(ops: seq<Op>) {
    && ops != [] && ops[|ops| - 1] == Give && Times(ops, op => op == Give) == 1
    && (Ended(ops) || Single(ops)) && (Ended(ops) ==> Times(ops, IsEnd) == 1)
    && (After(ops).open <==> Ended(ops) && ops[1] == Begin && ops[|ops| - 2] == AutocommitOn)
    && (After(ops).pending > 0 ==> After(ops).open)
  }

  lemma OnceGivenBack(ops: seq<Op>)
    requires Ended(ops) || Single(ops)
    ensures GivenBackOnce(ops)
  {
    if Ended(ops) {
      EndedCounts(ops);
      EndedServer(ops);
    } else {
      SingleCounts(ops);
      SingleServer(ops);
    }
  }

  // ---------------------------------------------------------------- commit and rollback

  /** Handle `h` has been given back, and nothing else has changed. */
  ghost predicate GivenBack(s: Session, s': Session, h: Handle) {
    && s'.tx == map[] && |s'.trace| == |s.trace| && h < |s.trace|
    && s'.trace[h] != [] && s'.trace[h][|s'.trace[h]| - 1] == Give
    && forall k :: 0 <= k < |s.trace| && k != h ==> s'.trace[k] == s.trace[k]
  }

  /** After any run in which a connection is kept: a commit makes exactly the statements of its transaction
      last; a rollback makes none last that was not committed by a begin in between; no statement waits
      any longer. */
  lemma CommitOrRollback(cs: seq<Command>, n: Node)
    requires n in Run(Start(), cs).tx
    ensures var s := Run(Start(), cs);
            var h := s.tx[n];
            && GivenBack(s, Step(s, DoCommit), h) && GivenBack(s, Step(s, DoRollback), h)
            && Step(s, DoCommit).trace[h] == s.trace[h] + [Commit, Give]
            && Step(s, DoRollback).trace[h] == s.trace[h] + [Rollback, Give]
            && After(Step(s, DoCommit).trace[h]).pending == 0 == After(Step(s, DoRollback).trace[h]).pending
            && After(Step(s, DoCommit).trace[h]).lasting == Executes(s.trace[h])
            && After(Step(s, DoRollback).trace[h]).lasting == BeforeBegin(s.trace[h])
  {
    RunKeepsInv(Start(), cs);
    EndsTransaction(Run(Start(), cs), n, Commit);
    EndsTransaction(Run(Start(), cs), n, Rollback);
  }

  /** Begin reaches the kept connection; switching autocommit on ends it there and gives it back. */
  lemma BeginOrAutocommit(cs: seq<Command>, n: Node, flag: string, isNumber: bool)
    requires n in Run(Start(), cs).tx
    ensures var s := Run(Start(), cs);
            var h, begun, on := s.tx[n], Step(s, DoBegin), Step(s, SetAutocommit(flag, isNumber));
            && begun.tx == s.tx && |begun.trace| == |s.trace| && h < |s.trace| && begun.trace[h] == s.trace[h] + [Begin]
            && (AutocommitFlag(flag, isNumber) == Some(true) ==>
                  GivenBack(s, on, h) && on.trace[h] == s.trace[h] + [AutocommitOn, Give])
            && (AutocommitFlag(flag, isNumber) == Some(false) ==> on.tx == s.tx && on.trace == s.trace)
  {
    var s := Run(Start(), cs);
    RunKeepsInv(Start(), cs);
    assert forall k :: k in Handles(s.tx) ==> k == s.tx[n];
    assert s.tx[n] in Handles(s.tx);
  }

  lemma EndsTransaction(s: Session, n: Node, op: Op)
    requires Inv(s) && n in s.tx && (op == Commit || op == Rollback)
    ensures var h, s' := s.tx[n], EndAll(s, op);
            && GivenBack(s, s', h) && s'.trace[h] == s.trace[h] + [op, Give] && After(s'.trace[h]).pending == 0
            && After(s'.trace[h]).lasting == if op == Commit then Executes(s.trace[h]) else BeforeBegin(s.trace[h])
  {
    var h, s' := s.tx[n], EndAll(s, op);
    assert forall k :: k in Handles(s.tx) ==> k == h;
    assert h in Handles(s.tx);
    EndedAfter(n, s.trace[h], op, s'.trace[h]);
  }

  /** Unless begin was said again inside the transaction, a rollback leaves nothing of it. */
  lemma {:induction false} OneBegin(ops: seq<Op>)
    requires forall i :: 2 <= i < |ops| ==> ops[i] != Begin
    requires |ops| >= 1 ==> ops[0].Take?
    ensures BeforeBegin(ops) == 0
  {
    if ops != [] {
      var n := |ops| - 1;
      OneBegin(ops[..n]);
      if n == 1 {
        var front := ops[..1];
        assert front[..0] == [] && Executes([]) == 0;
        assert Executes(front) == 0;
      }
    }
  }

  // ---------------------------------------------------------------- one connection per transaction

  /** The command does not end a transaction. */
  predicate Continues(c: Command) {
    match c
    case DoCommit => false
    case DoRollback => false
    case SetAutocommit(flag, isNumber) => AutocommitFlag(flag, isNumber) != Some(true)
    case _ => true
  }

  lemma {:induction false} KeptThrough(s: Session, cs: seq<Command>)
    requires Inv(s) && s.tx != map[] && forall i :: 0 <= i < |cs| ==> Continues(cs[i])
    ensures Run(s, cs).tx == s.tx
  {
    if cs != [] {
      var before := Run(s, cs[..|cs| - 1]);
      KeptThrough(s, cs[..|cs| - 1]);
      RunKeepsInv(s, cs[..|cs| - 1]);
      OnlyOneKept(before);
      assert Continues(cs[|cs| - 1]);
    }
  }

  /** The step of a statement has executed on handle `h`, and on no other. */
  ghost predicate RunsOn(before: Session, after: Session, h: Handle) {
    forall k :: 0 <= k < |after.trace| ==>
      Executes(after.trace[k]) ==
      (if k < |before.trace| then Executes(before.trace[k]) else 0) + (if k == h then 1 else 0)
  }

  lemma ExecuteOnce(s: Session, c: Command) returns (h: Handle)
    requires Inv(s) && InTransaction(s) && c.Statement? && Accepted(s, c)
    ensures var s' := Step(s, c);
            s'.tx == map[c.nodes[0] := h] && h < |s'.trace| && RunsOn(s, s', h) && InTransaction(s')
  {
    var s', n := Step(s, c), c.nodes[0];
    OnlyOneKept(s);
    if n in s.tx {
      h := s.tx[n];
      OneMore(s.trace[h]);
    } else {
      h := |s.trace|;
      OneOfThree(Take(n, true), if s.autocommit then Begin else AutocommitOff);
    }
    assert s'.tx == map[n := h];
  }

  lemma OneMore(ops: seq<Op>)
    ensures Executes(ops + [Execute]) == Executes(ops) + 1
  {
    assert (ops + [Execute])[..|ops|] == ops;
  }

  lemma OneOfThree(take: Op, start: Op)
    requires take != Execute && start != Execute
    ensures Executes([take, start, Execute]) == 1
  {
    var ops := [take, start, Execute];
    var none := ops[..0];
    NextOp(none, take);
    NextOp(none + [take], start);
    NextOp(none + [take] + [start], Execute);
    assert ops == none + [take] + [start] + [Execute];
  }

  /** All statements of a transaction use the same connection to the same master: whatever lies between
      two of them, as long as nothing ends the transaction. */
  lemma SameConnection(s: Session, first: Command, between: seq<Command>, second: Command) returns (h: Handle)
    requires Inv(s) && InTransaction(s)
    requires first.Statement? && Accepted(s, first)
    requires forall i :: 0 <= i < |between| ==> Continues(between[i])
    requires second.Statement? && Accepted(Run(Step(s, first), between), second)
    ensures var mid := Run(Step(s, first), between);
            && first.nodes == second.nodes
            && RunsOn(s, Step(s, first), h) && RunsOn(mid, Step(mid, second), h)
            && h < |mid.trace| && mid.trace[h] != [] && mid.trace[h][0] == Take(first.nodes[0], true)
  {
    h := ExecuteOnce(s, first);
    var next := Step(s, first);
    StepKeepsInv(s, first);
    KeptThrough(next, between);
    RunKeepsInv(next, between);
    assert first.nodes == [first.nodes[0]];
    ExecuteAgain(Run(next, between), first.nodes[0], h, second);
  }

  /** While a connection is kept, a statement is accepted for its node only, and runs on it. */
  lemma ExecuteAgain(s: Session, n: Node, h: Handle, c: Command)
    requires Inv(s) && s.tx == map[n := h] && c.Statement? && Accepted(s, c)
    ensures c.nodes == [n] && RunsOn(s, Step(s, c), h)
    ensures h < |s.trace| && s.trace[h] != [] && s.trace[h][0] == Take(n, true)
  {
    assert n in s.tx;
    assert |s.tx| == 1;
    assert c.nodes[0] in s.tx;
    assert OpenLife(n, s.trace[h]);
    var h2 := ExecuteOnce(s, c);
    assert map[c.nodes[0] := h2][n] == h2;
  }

  // ---------------------------------------------------------------- modes and masters

  lemma RunNext(cs: seq<Command>, c: Command)
    ensures Run(Start(), cs + [c]) == Step(Run(Start(), cs), c)
  {
    assert (cs + [c])[..|cs|] == cs;
  }

  /** When a client is in a transaction, after any run: from begin on; from switching autocommit off on,
      commits and rollbacks notwithstanding; not after switching it on; a statement changes nothing. */
  lemma Modes(cs: seq<Command>, flag: string, isNumber: bool, c: Command)
    requires c.Statement?
    ensures InTransaction(Run(Start(), cs + [DoBegin]))
    ensures AutocommitFlag(flag, isNumber) == Some(true) ==> !InTransaction(Run(Start(), cs + [SetAutocommit(flag, isNumber)]))
    ensures AutocommitFlag(flag, isNumber) == Some(false) ==>
              && InTransaction(Run(Start(), cs + [SetAutocommit(flag, isNumber)]))
              && InTransaction(Run(Start(), cs + [SetAutocommit(flag, isNumber)] + [DoCommit]))
              && InTransaction(Run(Start(), cs + [SetAutocommit(flag, isNumber)] + [DoRollback]))
    ensures !InTransaction(Run(Start(), cs)) ==>
              && !InTransaction(Run(Start(), cs + [c])) && Run(Start(), cs + [c]).tx == map[]
              && !InTransaction(Run(Start(), cs + [DoBegin] + [DoCommit]))
              && !InTransaction(Run(Start(), cs + [DoBegin] + [DoRollback]))
    ensures InTransaction(Run(Start(), cs)) ==> InTransaction(Run(Start(), cs + [c]))
  {
    RunNext(cs, DoBegin);
    RunNext(cs, SetAutocommit(flag, isNumber));
    RunNext(cs, c);
    RunNext(cs + [DoBegin], DoCommit);
    RunNext(cs + [DoBegin], DoRollback);
    RunNext(cs + [SetAutocommit(flag, isNumber)], DoCommit);
    RunNext(cs + [SetAutocommit(flag, isNumber)], DoRollback);
    RunKeepsInv(Start(), cs);
  }

  /** The flags that are understood: 1 and 0 as numbers, ON and OFF in any case, quoted or not. */
  lemma AutocommitFlags()
    ensures AutocommitFlag("1", true) == AutocommitFlag("ON", false) == AutocommitFlag("on", true) == Some(true)
    ensures AutocommitFlag("0", true) == AutocommitFlag("OFF", false) == AutocommitFlag("off", true) == Some(false)
    ensures AutocommitFlag("1", false) == AutocommitFlag("0", false) == AutocommitFlag("2", true) == None
  {
    assert Upper("1") == "1" && Upper("0") == "0" && Upper("2") == "2";
    assert Upper("ON") == "ON" && Upper("on") == "ON" && Upper("OFF") == "OFF" && Upper("off") == "OFF";
  }

  /** A statement is accepted, after any run, exactly if it has a node; inside a transaction exactly one, and
      that the one the transaction is on if it is on one already. */
  lemma StatementAccepted(cs: seq<Command>, c: Command)
    requires c.Statement?
    ensures var s := Run(Start(), cs);
            Accepted(s, c) <==>
              c.nodes != [] && (InTransaction(s) ==> |c.nodes| == 1 && (s.tx == map[] || c.nodes[0] in s.tx))
  {
    RunKeepsInv(Start(), cs);
    OnlyOneKept(Run(Start(), cs));
  }

  /** The connection `ops` tells of was taken for node `n`, and executed one statement more than `before`. */
  predicate ExecutedOn(before: seq<Op>, ops: seq<Op>, n: Node, master: bool) {
    ops != [] && ops[0] == Take(n, master) && Executes(ops) == Executes(before) + 1
  }

  /** Outside a transaction a statement takes a new connection to each of its nodes, executes on it once and
      gives it back, after a rollback if it failed; a slave only if it may be read from one and there is one. */
  lemma StatementOutside(cs: seq<Command>, c: Command)
    requires c.Statement? && Accepted(Run(Start(), cs), c) && !InTransaction(Run(Start(), cs))
    ensures var s, s' := Run(Start(), cs), Step(Run(Start(), cs), c);
            && |s'.trace| == |s.trace| + |c.nodes| && s'.trace[..|s.trace|] == s.trace
            && forall k :: 0 <= k < |c.nodes| ==> ExecutedOnce(s'.trace[|s.trace| + k], c, c.nodes[k])
  {
    OutsideStep(Run(Start(), cs), c);
  }

  lemma OutsideStep(s: Session, c: Command)
    requires c.Statement? && Accepted(s, c) && !InTransaction(s)
    ensures var s' := Step(s, c);
            && |s'.trace| == |s.trace| + |c.nodes| && s'.trace[..|s.trace|] == s.trace
            && forall k :: 0 <= k < |c.nodes| ==> ExecutedOnce(s'.trace[|s.trace| + k], c, c.nodes[k])
  {
    NewTraces(s, c);
    var s' := Step(s, c);
    forall k | 0 <= k < |c.nodes|
      ensures ExecutedOnce(s'.trace[|s.trace| + k], c, c.nodes[k])
    {
      OneShotReads(c, c.nodes[k]);
      assert s'.trace[|s.trace| + k] == OneShot(c.nodes[k], c);
    }
  }

  /** The whole life of a connection to node `n` for statement `c` alone. */
  predicate ExecutedOnce(ops: seq<Op>, c: Command, n: Node)
    requires c.Statement?
  {
    && ExecutedOn([], ops, n, !(c.fromSlave && n in c.slaves))
    && |ops| == (if c.rollback then 4 else 3) && ops[1] == Execute && (c.rollback ==> ops[2] == Rollback)
    && ops[|ops| - 1] == Give
  }

  lemma NewTraces(s: Session, c: Command)
    requires c.Statement? && Accepted(s, c) && !InTransaction(s)
    ensures var s' := Step(s, c);
            && |s'.trace| == |s.trace| + |c.nodes| && s'.trace[..|s.trace|] == s.trace
            && forall k :: 0 <= k < |c.nodes| ==> s'.trace[|s.trace| + k] == OneShot(c.nodes[k], c)
  {
  }

  lemma OneShotReads(c: Command, n: Node)
    requires c.Statement?
    ensures ExecutedOnce(OneShot(n, c), c, n)
  {
    OneShotSingle(n, c);
    SingleServer(OneShot(n, c));
  }

  /** Inside one it executes once, on the master of its node, and gives nothing back. A connection taken for
      it has a transaction started on it first, by begin or by switching autocommit off. */
  lemma StatementInside(cs: seq<Command>, c: Command)
    requires c.Statement? && Accepted(Run(Start(), cs), c) && InTransaction(Run(Start(), cs))
    ensures var s, s' := Run(Start(), cs), Step(Run(Start(), cs), c);
            && c.nodes[0] in s'.tx && s'.tx[c.nodes[0]] < |s'.trace|
            && var h := s'.tx[c.nodes[0]];
               && ExecutedOn(if h < |s.trace| then s.trace[h] else [], s'.trace[h], c.nodes[0], true)
               && s'.trace[h][|s'.trace[h]| - 1] == Execute
               && (h >= |s.trace| ==> s'.trace[h][1] == if s.autocommit then Begin else AutocommitOff)
               && forall k :: 0 <= k < |s.trace| && k != h ==> s'.trace[k] == s.trace[k]
  {
    var s := Run(Start(), cs);
    RunKeepsInv(Start(), cs);
    if c.nodes[0] in s.tx {
      OneMore(s.trace[s.tx[c.nodes[0]]]);
    } else {
      OneOfThree(Take(c.nodes[0], true), if s.autocommit then Begin else AutocommitOff);
    }
  }
}
