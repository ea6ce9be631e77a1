/** Statements meet connections, and goroutines fill one result slice (proxy/server/conn_query.go,
    executeInMultiNodes).

    Go walks a map in any order: an order is a list of its keys without repetition. */
module Dispatch {
  import opened Prelude
  import opened Shards
  import opened Rules
  import opened Rewriter

  ghost predicate Orders(names: seq<string>, keys: set<string>) {
    NoRepeats(names) && forall n :: n in keys <==> n in names
  }

  predicate NoRepeats(names: seq<string>) {
    forall i, j :: 0 <= i < j < |names| ==> names[i] != names[j]
  }

  /** How many statements the names have together. */
  function Total<S>(sqls: map<string, seq<S>>, names: seq<string>): nat {
    if names == [] then 0 else Total(sqls, names[..|names| - 1]) + |StatementsAt(sqls, names[|names| - 1])|
  }

  lemma {:induction false} TotalWithout<S>(sqls: map<string, seq<S>>, names: seq<string>, i: nat)
    requires i < |names|
    ensures Total(sqls, names) == Total(sqls, names[..i] + names[i + 1..]) + |StatementsAt(sqls, names[i])|
  {
    var n := |names| - 1;
    if i == n {
      assert names[..i] + names[i + 1..] == names[..n];
    } else {
      TotalWithout(sqls, names[..n], i);
      assert (names[..i] + names[i + 1..])[..n - 1] == names[..n][..i] + names[..n][i + 1..];
    }
  }

  lemma WithoutOne(names: seq<string>, i: nat)
    requires i < |names| && NoRepeats(names)
    ensures var rest := names[..i] + names[i + 1..];
            NoRepeats(rest) && forall y :: y in rest <==> y in names && y != names[i]
  {
    var rest := names[..i] + names[i + 1..];
    forall y
      ensures y in rest <==> y in names && y != names[i]
    {
      if y in names {
        var k :| 0 <= k < |names| && names[k] == y;
        assert k < i ==> rest[k] == y;
        assert k > i ==> rest[k - 1] == y;
      }
    }
  }

  /** Names picked from others have as many statements when the names left out have none. */
  lemma {:induction false} TotalOfSome<S>(sqls: map<string, seq<S>>, part: seq<string>, whole: seq<string>)
    requires NoRepeats(part) && NoRepeats(whole)
    requires forall n :: n in part ==> n in whole
    ensures Total(sqls, part) <= Total(sqls, whole)
    ensures (forall n :: n in whole && n !in part ==> StatementsAt(sqls, n) == []) ==> Total(sqls, part) == Total(sqls, whole)
    decreases |part|
  {
    if part == [] {
      if forall n :: n in whole ==> StatementsAt(sqls, n) == [] {
        TotalOfNone(sqls, whole);
      }
    } else {
      var n := |part| - 1;
      assert part == part[..n] + [part[n]];
      assert part[n] in part && part[n] in whole;
      var i :| 0 <= i < |whole| && whole[i] == part[n];
      TotalWithout(sqls, whole, i);
      WithoutOne(whole, i);
      TotalOfSome(sqls, part[..n], whole[..i] + whole[i + 1..]);
    }
  }

  lemma {:induction false} TotalOfNone<S>(sqls: map<string, seq<S>>, names: seq<string>)
    requires forall n :: n in names ==> StatementsAt(sqls, n) == []
    ensures Total(sqls, names) == 0
  {
    if names != [] {
      TotalOfNone(sqls, names[..|names| - 1]);
    }
  }

  // ---------------------------------------------------------------- the goroutines

  /** The statements of each goroutine. */
  type Jobs<S> = seq<seq<S>>

  function JobsOf<S>(sqls: map<string, seq<S>>, conns: seq<string>): Jobs<S> {
    seq(|conns|, k requires 0 <= k < |conns| => StatementsAt(sqls, conns[k]))
  }

  /** Where goroutine `k` starts to write. */
  function Offset<S>(jobs: Jobs<S>, k: nat): nat
    requires k <= |jobs|
  {
    if k == 0 then 0 else Offset(jobs, k - 1) + |jobs[k - 1]|
  }

  lemma {:induction false} OffsetIsTotal<S>(sqls: map<string, seq<S>>, conns: seq<string>, k: nat)
    requires k <= |conns|
    ensures Offset(JobsOf(sqls, conns), k) == Total(sqls, conns[..k])
  {
    if k > 0 {
      OffsetIsTotal(sqls, conns, k - 1);
      assert conns[..k][..k - 1] == conns[..k - 1];
    }
  }

  lemma {:induction false} OffsetMonotone<S>(jobs: Jobs<S>, k: nat, l: nat)
    requires k < l <= |jobs|
    ensures Offset(jobs, k) + |jobs[k]| <= Offset(jobs, l)
  {
    if k < l - 1 {
      OffsetMonotone(jobs, k, l - 1);
    }
  }

  /** Every slot below the total belongs to a goroutine and one of its statements. */
  lemma {:induction false} SlotOwner<S>(jobs: Jobs<S>, n: nat, slot: nat) returns (k: nat, j: nat)
    requires n <= |jobs| && slot < Offset(jobs, n)
    ensures k < n && j < |jobs[k]| && slot == Offset(jobs, k) + j
  {
    if slot >= Offset(jobs, n - 1) {
      k, j := n - 1, slot - Offset(jobs, n - 1);
    } else {
      k, j := SlotOwner(jobs, n - 1, slot);
    }
  }

  /** `at` is where each goroutine stands in its list, `writes` how often each slot was written. */
  datatype State<R> = State(at: seq<nat>, slots: seq<Option<R>>, writes: seq<nat>)

  function Start<R>(workers: nat, size: nat): State<R> {
    State(seq(workers, _ => 0), seq(size, _ => None), seq(size, _ => 0))
  }

  predicate Enabled<S, R>(jobs: Jobs<S>, s: State<R>, k: nat) {
    k < |jobs| && k < |s.at| && s.at[k] < |jobs[k]|
  }

  /** Goroutine `k` executes its next statement and stores the answer; None is an index out of range. */
  function Step<S, R>(jobs: Jobs<S>, answer: (nat, nat) -> R, s: State<R>, k: nat): Option<State<R>>
    requires Enabled(jobs, s, k)
  {
    var j := s.at[k];
    var slot := Offset(jobs, k) + j;
    if slot >= |s.slots| || slot >= |s.writes| then None
    else Some(State(s.at[k := j + 1], s.slots[slot := Some(answer(k, j))], s.writes[slot := s.writes[slot] + 1]))
  }

  /** The goroutines take turns as the schedule says; a turn of one that has finished passes. */
  function Run<S, R>(jobs: Jobs<S>, answer: (nat, nat) -> R, size: nat, schedule: seq<nat>): Option<State<R>> {
    if schedule == [] then Some(Start(|jobs|, size))
    else
      match Run(jobs, answer, size, schedule[..|schedule| - 1])
      case None => None
      case Some(s) =>
        var k := schedule[|schedule| - 1];
        if Enabled(jobs, s, k) then Step(jobs, answer, s, k) else Some(s)
  }

  ghost predicate Shape<S, R>(jobs: Jobs<S>, s: State<R>, size: nat) {
    && |s.at| == |jobs| && |s.slots| == size && |s.writes| == size && Offset(jobs, |jobs|) <= size
    && forall k :: 0 <= k < |jobs| ==> s.at[k] <= |jobs[k]|
  }

  /** A statement that has been executed has its answer in its slot, written once; the slots of the
      others, and those of nobody, are untouched. */
  ghost predicate Filled<S, R>(jobs: Jobs<S>, answer: (nat, nat) -> R, s: State<R>, size: nat)
    requires Shape(jobs, s, size)
  {
    && (forall k, j :: 0 <= k < |jobs| && 0 <= j < |jobs[k]| ==> HoldsAt(jobs, answer, s, k, j))
    && (forall i :: Offset(jobs, |jobs|) <= i < size ==> s.slots[i].None? && s.writes[i] == 0)
  }

  ghost predicate HoldsAt<S, R>(jobs: Jobs<S>, answer: (nat, nat) -> R, s: State<R>, k: nat, j: nat)
    requires k < |jobs| && k < |s.at|
  {
    var slot := Offset(jobs, k) + j;
    && slot < |s.slots| && slot < |s.writes|
    && s.slots[slot] == (if j < s.at[k] then Some(answer(k, j)) else None)
    && s.writes[slot] == (if j < s.at[k] then 1 else 0)
  }

  lemma StepFills<S, R>(jobs: Jobs<S>, answer: (nat, nat) -> R, s: State<R>, size: nat, k: nat)
    requires Shape(jobs, s, size) && Filled(jobs, answer, s, size) && Enabled(jobs, s, k)
    ensures var r := Step(jobs, answer, s, k);
            r.Some? && Shape(jobs, r.value, size) && Filled(jobs, answer, r.value, size)
  {
    var j := s.at[k];
    OffsetMonotone(jobs, k, |jobs|);
    assert HoldsAt(jobs, answer, s, k, j);
    var s' := Step(jobs, answer, s, k).value;
    forall l, i | 0 <= l < |jobs| && 0 <= i < |jobs[l]|
      ensures HoldsAt(jobs, answer, s', l, i)
    {
      assert HoldsAt(jobs, answer, s, l, i);
      if l < k {
        OffsetMonotone(jobs, l, k);
      } else if k < l {
        OffsetMonotone(jobs, k, l);
      }
    }
  }

  lemma StartFills<S, R>(jobs: Jobs<S>, answer: (nat, nat) -> R, size: nat)
    requires Offset(jobs, |jobs|) <= size
    ensures Shape(jobs, Start<R>(|jobs|, size), size) && Filled(jobs, answer, Start(|jobs|, size), size)
  {
    forall k, j | 0 <= k < |jobs| && 0 <= j < |jobs[k]|
      ensures HoldsAt(jobs, answer, Start(|jobs|, size), k, j)
    {
      OffsetMonotone(jobs, k, |jobs|);
    }
  }

  lemma {:induction false} RunFills<S, R>(jobs: Jobs<S>, answer: (nat, nat) -> R, size: nat, schedule: seq<nat>)
    requires Offset(jobs, |jobs|) <= size
    ensures var r := Run(jobs, answer, size, schedule);
            r.Some? && Shape(jobs, r.value, size) && Filled(jobs, answer, r.value, size)
  {
    if schedule == [] {
      StartFills(jobs, answer, size);
    } else {
      var before := schedule[..|schedule| - 1];
      RunFills(jobs, answer, size, before);
      var s, k := Run(jobs, answer, size, before).value, schedule[|schedule| - 1];
      if Enabled(jobs, s, k) {
        StepFills(jobs, answer, s, size, k);
      }
    }
  }

  /** wg.Wait has returned. */
  ghost predicate Finished<S, R>(jobs: Jobs<S>, s: State<R>) {
    |s.at| == |jobs| && forall k :: 0 <= k < |jobs| ==> s.at[k] == |jobs[k]|
  }

  /** Under every interleaving no goroutine writes outside the slice and no slot is written twice; and
      once all have finished, each slot has been written exactly once, with the answer of its own
      statement, if the slice is as long as the statements are many. */
  lemma EverySlotOnce<S, R>(jobs: Jobs<S>, answer: (nat, nat) -> R, size: nat, schedule: seq<nat>)
    requires Offset(jobs, |jobs|) <= size
    ensures var r := Run(jobs, answer, size, schedule);
            && r.Some? && |r.value.slots| == |r.value.writes| == size
            && (forall i :: 0 <= i < size ==> r.value.writes[i] <= 1)
            && (Finished(jobs, r.value) ==>
                  && (forall k, j :: 0 <= k < |jobs| && 0 <= j < |jobs[k]| ==> HoldsAt(jobs, answer, r.value, k, j))
                  && ((forall i :: 0 <= i < size ==> r.value.writes[i] == 1 && r.value.slots[i].Some?) <==>
                      Offset(jobs, |jobs|) == size))
  {
    RunFills(jobs, answer, size, schedule);
    var s := Run(jobs, answer, size, schedule).value;
    forall i | 0 <= i < Offset(jobs, |jobs|)
      ensures s.writes[i] <= 1
      ensures Finished(jobs, s) ==> s.writes[i] == 1 && s.slots[i].Some?
    {
      var k, j := SlotOwner(jobs, |jobs|, i);
      assert HoldsAt(jobs, answer, s, k, j);
    }
    assert Offset(jobs, |jobs|) < size ==> s.slots[Offset(jobs, |jobs|)].None?;
  }

  /** The statements in the order in which the schedule has them executed. */
  function Executed<S, R>(jobs: Jobs<S>, answer: (nat, nat) -> R, size: nat, schedule: seq<nat>): seq<S> {
    if schedule == [] then []
    else
      var front, k := schedule[..|schedule| - 1], schedule[|schedule| - 1];
      var before := Executed(jobs, answer, size, front);
      match Run(jobs, answer, size, front)
      case None => before
      case Some(s) => if Enabled(jobs, s, k) then before + [jobs[k][s.at[k]]] else before
  }

  function DoneOf<S>(jobs: Jobs<S>, at: seq<nat>): Jobs<S>
    requires |at| == |jobs| && forall k :: 0 <= k < |jobs| ==> at[k] <= |jobs[k]|
  {
    seq(|jobs|, k requires 0 <= k < |jobs| => jobs[k][..at[k]])
  }

  lemma {:induction false} EmptyParts<T>(parts: seq<seq<T>>)
    requires forall k :: 0 <= k < |parts| ==> parts[k] == []
    ensures Flatten(parts) == []
  {
    if parts != [] {
      EmptyParts(parts[..|parts| - 1]);
    }
  }

  lemma {:induction false} ExecutedSoFar<S, R>(jobs: Jobs<S>, answer: (nat, nat) -> R, size: nat, schedule: seq<nat>)
    requires Offset(jobs, |jobs|) <= size
    ensures var r := Run(jobs, answer, size, schedule);
            && r.Some? && Shape(jobs, r.value, size)
            && multiset(Executed(jobs, answer, size, schedule)) == multiset(Flatten(DoneOf(jobs, r.value.at)))
  {
    if schedule == [] {
      NothingExecuted(jobs, answer, size);
    } else {
      var front, k := schedule[..|schedule| - 1], schedule[|schedule| - 1];
      ExecutedSoFar(jobs, answer, size, front);
      RunNext(jobs, answer, size, schedule);
      ExecutedNext(jobs, answer, size, schedule);
      var s, s' := Run(jobs, answer, size, front).value, Run(jobs, answer, size, schedule).value;
      DoneAfter(jobs, s.at, s'.at, k, Enabled(jobs, s, k), Executed(jobs, answer, size, front), Executed(jobs, answer, size, schedule));
    }
  }

  lemma NothingExecuted<S, R>(jobs: Jobs<S>, answer: (nat, nat) -> R, size: nat)
    requires Offset(jobs, |jobs|) <= size
    ensures var r := Run(jobs, answer, size, []);
            r.Some? && Shape(jobs, r.value, size) && Executed(jobs, answer, size, []) == Flatten(DoneOf(jobs, r.value.at)) == []
  {
    StartFills(jobs, answer, size);
    EmptyParts(DoneOf(jobs, Start<R>(|jobs|, size).at));
  }

  lemma ExecutedNext<S, R>(jobs: Jobs<S>, answer: (nat, nat) -> R, size: nat, schedule: seq<nat>)
    requires schedule != [] && Run(jobs, answer, size, schedule[..|schedule| - 1]).Some?
    ensures var front, k := schedule[..|schedule| - 1], schedule[|schedule| - 1];
            var s := Run(jobs, answer, size, front).value;
            Executed(jobs, answer, size, schedule) ==
            if Enabled(jobs, s, k) then Executed(jobs, answer, size, front) + [jobs[k][s.at[k]]]
            else Executed(jobs, answer, size, front)
  {
  }

  lemma DoneAfter<S>(jobs: Jobs<S>, at: seq<nat>, at': seq<nat>, k: nat, moves: bool, before: seq<S>, after: seq<S>)
    requires |at| == |jobs| && (forall i :: 0 <= i < |jobs| ==> at[i] <= |jobs[i]|)
    requires moves ==> k < |jobs| && at[k] < |jobs[k]|
    requires at' == if moves then at[k := at[k] + 1] else at
    requires after == if moves then before + [jobs[k][at[k]]] else before
    requires multiset(before) == multiset(Flatten(DoneOf(jobs, at)))
    ensures |at'| == |jobs| && (forall i :: 0 <= i < |jobs| ==> at'[i] <= |jobs[i]|)
    ensures multiset(after) == multiset(Flatten(DoneOf(jobs, at')))
  {
    if moves {
      OneMoreDone(jobs, at, k, before);
    }
  }

  /** One turn moves one goroutine by one statement, or nobody. */
  lemma RunNext<S, R>(jobs: Jobs<S>, answer: (nat, nat) -> R, size: nat, schedule: seq<nat>)
    requires Offset(jobs, |jobs|) <= size && schedule != []
    ensures var front, k := schedule[..|schedule| - 1], schedule[|schedule| - 1];
            var before, r := Run(jobs, answer, size, front), Run(jobs, answer, size, schedule);
            && before.Some? && Shape(jobs, before.value, size) && r.Some? && Shape(jobs, r.value, size)
            && r.value.at == if Enabled(jobs, before.value, k) then before.value.at[k := before.value.at[k] + 1] else before.value.at
  {
    RunFills(jobs, answer, size, schedule[..|schedule| - 1]);
    RunFills(jobs, answer, size, schedule);
  }

  lemma OneMoreDone<S>(jobs: Jobs<S>, at: seq<nat>, k: nat, before: seq<S>)
    requires |at| == |jobs| && k < |jobs| && at[k] < |jobs[k]|
    requires forall i :: 0 <= i < |jobs| ==> at[i] <= |jobs[i]|
    requires multiset(before) == multiset(Flatten(DoneOf(jobs, at)))
    ensures multiset(before + [jobs[k][at[k]]]) == multiset(Flatten(DoneOf(jobs, at[k := at[k] + 1])))
  {
    DoneNext(jobs, at, k);
    FlattenGrows(DoneOf(jobs, at), k, jobs[k][at[k]]);
  }

  lemma DoneNext<S>(jobs: Jobs<S>, at: seq<nat>, k: nat)
    requires |at| == |jobs| && k < |jobs| && at[k] < |jobs[k]|
    requires forall i :: 0 <= i < |jobs| ==> at[i] <= |jobs[i]|
    ensures DoneOf(jobs, at[k := at[k] + 1]) == DoneOf(jobs, at)[k := DoneOf(jobs, at)[k] + [jobs[k][at[k]]]]
  {
    var next := DoneOf(jobs, at[k := at[k] + 1]);
    forall i | 0 <= i < |jobs|
      ensures next[i] == if i == k then DoneOf(jobs, at)[k] + [jobs[k][at[k]]] else DoneOf(jobs, at)[i]
    {
    }
  }

  /** Whatever the interleaving, once all goroutines have finished every statement has been executed
      exactly as often as it was handed out. */
  lemma ExecutedIsAll<S, R>(jobs: Jobs<S>, answer: (nat, nat) -> R, size: nat, schedule: seq<nat>)
    requires Offset(jobs, |jobs|) <= size
    requires var r := Run(jobs, answer, size, schedule); r.Some? ==> Finished(jobs, r.value)
    ensures multiset(Executed(jobs, answer, size, schedule)) == multiset(Flatten(jobs))
  {
    ExecutedSoFar(jobs, answer, size, schedule);
    var s := Run(jobs, answer, size, schedule).value;
    AllDone(jobs, s.at);
  }

  lemma AllDone<S>(jobs: Jobs<S>, at: seq<nat>)
    requires |at| == |jobs| && forall k :: 0 <= k < |jobs| ==> at[k] == |jobs[k]|
    ensures DoneOf(jobs, at) == jobs
  {
    forall k | 0 <= k < |jobs|
      ensures DoneOf(jobs, at)[k] == jobs[k]
    {
      assert jobs[k][..|jobs[k]|] == jobs[k];
    }
  }

  // ---------------------------------------------------------------- the sequential parts

  /** Every name with statements has a connection. */
  ghost predicate Served<S>(sqls: map<string, seq<S>>, conns: seq<string>) {
    forall n :: n in sqls && sqls[n] != [] ==> n in conns
  }

  /** The length of the result slice. */
  method CountResults<S>(sqls: map<string, seq<S>>, order: seq<string>) returns (resultCount: nat)
    requires Orders(order, sqls.Keys)
    ensures resultCount == Total(sqls, order)
  {
    resultCount := 0;
    for i := 0 to |order|
      invariant resultCount == Total(sqls, order[..i])
    {
      assert order[..i + 1][..i] == order[..i];
      assert order[i] in order;
      resultCount := resultCount + |sqls[order[i]]|;
    }
    assert order[..|order|] == order;
  }

  /** Each goroutine is given its part of the slice; the parts fit into it, and make it up exactly when
      every name with statements has a connection. */
  method Launch<S>(conns: seq<string>, sqls: map<string, seq<S>>, order: seq<string>)
    returns (resultCount: nat, offsets: seq<nat>)
    requires Orders(order, sqls.Keys) && NoRepeats(conns)
    ensures |offsets| == |conns| && forall k :: 0 <= k < |conns| ==> offsets[k] == Offset(JobsOf(sqls, conns), k)
    ensures Offset(JobsOf(sqls, conns), |conns|) <= resultCount
    ensures Offset(JobsOf(sqls, conns), |conns|) == resultCount <==> Served(sqls, conns)
  {
    resultCount := CountResults(sqls, order);
    offsets := AssignOffsets(JobsOf(sqls, conns));
    PartsFit(sqls, conns, order);
  }

  /** Each goroutine starts where the one before it ends. */
  method AssignOffsets<S>(jobs: Jobs<S>) returns (offsets: seq<nat>)
    ensures |offsets| == |jobs| && forall k :: 0 <= k < |jobs| ==> offsets[k] == Offset(jobs, k)
  {
    var offset := 0;
    offsets := [];
    for k := 0 to |jobs|
      invariant |offsets| == k && offset == Offset(jobs, k)
      invariant forall i :: 0 <= i < k ==> offsets[i] == Offset(jobs, i)
    {
      offsets := offsets + [offset];
      offset := offset + |jobs[k]|;
    }
  }

  lemma PartsFit<S>(sqls: map<string, seq<S>>, conns: seq<string>, order: seq<string>)
    requires Orders(order, sqls.Keys) && NoRepeats(conns)
    ensures Offset(JobsOf(sqls, conns), |conns|) <= Total(sqls, order)
    ensures Offset(JobsOf(sqls, conns), |conns|) == Total(sqls, order) <==> Served(sqls, conns)
  {
    OffsetIsTotal(sqls, conns, |conns|);
    assert conns[..|conns|] == conns;
    CountsAgree(sqls, conns, order);
  }

  lemma CountsAgree<S>(sqls: map<string, seq<S>>, conns: seq<string>, order: seq<string>)
    requires Orders(order, sqls.Keys)
    requires NoRepeats(conns)
    ensures Total(sqls, conns) <= Total(sqls, order)
    ensures Total(sqls, conns) == Total(sqls, order) <==> Served(sqls, conns)
  {
    var both := OnlyKeys(sqls, conns);
    TotalOfSome(sqls, both, conns);
    TotalOfSome(sqls, both, order);
    if Served(sqls, conns) {
      assert forall n :: n in order && n !in both ==> StatementsAt(sqls, n) == [];
    } else {
      var x :| x in sqls && sqls[x] != [] && x !in conns;
      assert x in order;
      var i :| 0 <= i < |order| && order[i] == x;
      TotalWithout(sqls, order, i);
      WithoutOne(order, i);
      TotalOfSome(sqls, both, order[..i] + order[i + 1..]);
    }
  }

  lemma {:induction false} OnlyKeys<S>(sqls: map<string, seq<S>>, conns: seq<string>) returns (both: seq<string>)
    requires NoRepeats(conns)
    ensures NoRepeats(both)
    ensures forall n :: n in both <==> n in conns && n in sqls
  {
    if conns == [] {
      both := [];
    } else {
      var n := |conns| - 1;
      both := OnlyKeys(sqls, conns[..n]);
      assert conns == conns[..n] + [conns[n]];
      both := both + if conns[n] in sqls then [conns[n]] else [];
    }
  }

  /** The results up to the first error, and that error. */
  method CollectResults<R>(rs: seq<Option<Result<R>>>) returns (r: seq<Option<R>>, err: Option<Failure>)
    ensures |r| == |rs|
    ensures err.None? <==> forall i :: 0 <= i < |rs| ==> rs[i].None? || rs[i].value.Ok?
    ensures err.None? ==> forall i :: 0 <= i < |rs| ==> r[i] == if rs[i].None? then None else Some(rs[i].value.value)
    ensures err.Some? ==> exists i :: 0 <= i < |rs| && rs[i] == Some(Err(err.value)) &&
                                      forall j :: 0 <= j < i ==> rs[j].None? || rs[j].value.Ok?
  {
    err := None;
    r := seq(|rs|, _ => None);
    for i := 0 to |rs|
      invariant |r| == |rs|
      invariant forall j :: 0 <= j < i ==>
                  (rs[j].None? || rs[j].value.Ok?) && r[j] == if rs[j].None? then None else Some(rs[j].value.value)
      invariant forall j :: i <= j < |rs| ==> r[j].None?
    {
      if rs[i].Some? && rs[i].value.Err? {
        err := Some(rs[i].value.error);
        return;
      }
      if rs[i].Some? {
        r := r[i := Some(rs[i].value.value)];
      }
    }
  }

  // ---------------------------------------------------------------- two lists of node names

  /** The names under which connections are kept: those of the rule's own node list. */
  ghost predicate IsConns(rule: Rule, tables: seq<int>, conns: seq<string>)
    requires forall t :: t in tables ==> 0 <= NodeOf(rule, t) < |rule.nodes|
  {
    && NoRepeats(conns)
    && (forall name :: name in conns <==> exists i :: 0 <= i < |tables| && rule.nodes[NodeOf(rule, tables[i])] == name)
  }

  /** getShardConns as to the names it keeps connections under; two equal names share an entry. */
  method ConnNames(rule: Rule, nodeIndexs: seq<int>, ghost tables: seq<int>) returns (r: Result<seq<string>>)
    requires forall n :: n in nodeIndexs <==> exists i :: 0 <= i < |tables| && NodeOf(rule, tables[i]) == n
    ensures r.Ok? <==> forall t :: t in tables ==> 0 <= NodeOf(rule, t) < |rule.nodes|
    ensures r.Ok? ==> IsConns(rule, tables, r.value)
  {
    var names: seq<string> := [];
    for i := 0 to |nodeIndexs|
      invariant NoRepeats(names)
      invariant forall k :: 0 <= k < i ==> 0 <= nodeIndexs[k] < |rule.nodes|
      invariant forall name :: name in names <==> exists k :: 0 <= k < i && rule.nodes[nodeIndexs[k]] == name
    {
      var n := nodeIndexs[i];
      assert n in nodeIndexs;
      if !(0 <= n < |rule.nodes|) {
        return Err(Panicked);
      }
      if rule.nodes[n] !in names {
        names := names + [rule.nodes[n]];
      }
    }
    NamesAreConns(rule, nodeIndexs, tables, names);
    return Ok(names);
  }

  lemma NamesAreConns(rule: Rule, nodeIndexs: seq<int>, tables: seq<int>, names: seq<string>)
    requires forall n :: n in nodeIndexs <==> exists i :: 0 <= i < |tables| && NodeOf(rule, tables[i]) == n
    requires forall k :: 0 <= k < |nodeIndexs| ==> 0 <= nodeIndexs[k] < |rule.nodes|
    requires NoRepeats(names)
    requires forall name :: name in names <==> exists k :: 0 <= k < |nodeIndexs| && rule.nodes[nodeIndexs[k]] == name
    ensures forall t :: t in tables ==> 0 <= NodeOf(rule, t) < |rule.nodes|
    ensures IsConns(rule, tables, names)
  {
    forall i | 0 <= i < |tables|
      ensures exists k :: 0 <= k < |nodeIndexs| && nodeIndexs[k] == NodeOf(rule, tables[i])
    {
      assert NodeOf(rule, tables[i]) in nodeIndexs;
    }
    forall k | 0 <= k < |nodeIndexs|
      ensures exists i :: 0 <= i < |tables| && NodeOf(rule, tables[i]) == nodeIndexs[k]
    {
      assert nodeIndexs[k] in nodeIndexs;
    }
  }

  /** Both lists have a node index routed in range. */
  ghost predicate InRange(rule: Rule, nodes: seq<string>, tables: seq<int>) {
    forall t :: t in tables ==> 0 <= NodeOf(rule, t) < |nodes| && NodeOf(rule, t) < |rule.nodes|
  }

  /** The two lists agree on every routed node. */
  ghost predicate NamesAgree(rule: Rule, nodes: seq<string>, tables: seq<int>)
    requires InRange(rule, nodes, tables)
  {
    forall i :: 0 <= i < |tables| ==> nodes[NodeOf(rule, tables[i])] == rule.nodes[NodeOf(rule, tables[i])]
  }

  /** The goroutine of the sub-table's own node has its statement. */
  ghost predicate OnItsNode<S>(rule: Rule, sqlOf: int -> S, sqls: map<string, seq<S>>, conns: seq<string>, t: int)
    requires 0 <= NodeOf(rule, t) < |rule.nodes|
  {
    rule.nodes[NodeOf(rule, t)] in conns && sqlOf(t) in StatementsAt(sqls, rule.nodes[NodeOf(rule, t)])
  }

  lemma {:induction false} CollectedMember<S>(rule: Rule, nodes: seq<string>, sqlOf: int -> S, tables: seq<int>, name: string, t: int)
    requires forall u :: u in tables ==> 0 <= NodeOf(rule, u) < |nodes|
    requires forall u :: sqlOf(u) == sqlOf(t) ==> u == t
    ensures sqlOf(t) in Collected(rule, nodes, sqlOf, tables, name) <==> t in tables && nodes[NodeOf(rule, t)] == name
  {
    if tables != [] {
      var n := |tables| - 1;
      assert tables == tables[..n] + [tables[n]];
      CollectedMember(rule, nodes, sqlOf, tables[..n], name, t);
    }
  }

  /** Every statement gets to the node of its sub-table exactly when the router's node list and the
      rule's have the same names for the routed nodes. */
  lemma DispatchIff<S>(rule: Rule, nodes: seq<string>, sqlOf: int -> S, tables: seq<int>, sqls: map<string, seq<S>>, conns: seq<string>)
    requires InRange(rule, nodes, tables) && IsDispatch(rule, nodes, sqlOf, tables, sqls) && IsConns(rule, tables, conns)
    requires forall t, u :: sqlOf(t) == sqlOf(u) ==> t == u
    ensures (forall i :: 0 <= i < |tables| ==> OnItsNode(rule, sqlOf, sqls, conns, tables[i])) <==>
            NamesAgree(rule, nodes, tables)
  {
    forall i | 0 <= i < |tables|
      ensures OnItsNode(rule, sqlOf, sqls, conns, tables[i]) <==>
              nodes[NodeOf(rule, tables[i])] == rule.nodes[NodeOf(rule, tables[i])]
    {
      var t := tables[i];
      var name := rule.nodes[NodeOf(rule, t)];
      CollectedMember(rule, nodes, sqlOf, tables, name, t);
      assert name in conns;
      assert name in sqls <==> Collected(rule, nodes, sqlOf, tables, name) != [];
    }
  }

  /** With names that agree there is a connection for every name with statements and the other way
      round: the counts match and no slot is left over. */
  lemma ConnsMatchSqls<S>(rule: Rule, nodes: seq<string>, sqlOf: int -> S, tables: seq<int>, sqls: map<string, seq<S>>, conns: seq<string>)
    requires InRange(rule, nodes, tables) && IsDispatch(rule, nodes, sqlOf, tables, sqls) && IsConns(rule, tables, conns)
    requires NamesAgree(rule, nodes, tables)
    ensures Orders(conns, sqls.Keys)
  {
    forall name
      ensures name in sqls <==> name in conns
    {
      CollectedNames(rule, nodes, sqlOf, tables, name);
      assert name in sqls <==> Collected(rule, nodes, sqlOf, tables, name) != [];
    }
  }

  lemma {:induction false} CollectedNames<S>(rule: Rule, nodes: seq<string>, sqlOf: int -> S, tables: seq<int>, name: string)
    requires forall u :: u in tables ==> 0 <= NodeOf(rule, u) < |nodes|
    ensures Collected(rule, nodes, sqlOf, tables, name) != [] <==>
            exists i :: 0 <= i < |tables| && nodes[NodeOf(rule, tables[i])] == name
  {
    if tables != [] {
      var n := |tables| - 1;
      assert forall i :: 0 <= i < n ==> tables[..n][i] == tables[i];
      assert forall u :: u in tables[..n] ==> u in tables;
      CollectedNames(rule, nodes, sqlOf, tables[..n], name);
    }
  }

  /** It is enough that the rule's list is a prefix of the router's. */
  lemma PrefixAgrees(rule: Rule, nodes: seq<string>, tables: seq<int>)
    requires rule.nodes <= nodes && forall t :: t in tables ==> 0 <= NodeOf(rule, t) < |rule.nodes|
    ensures InRange(rule, nodes, tables) && NamesAgree(rule, nodes, tables)
  {
  }

  /** A rule on the second node of the router only: the statement is kept under the first node's name,
      the connection under the second's. One of each, so the counts match, and nothing is executed. */
  lemma MisroutedStatement<S>(rule: Rule, sqlOf: int -> S, sqls: map<string, seq<S>>, conns: seq<string>)
    requires rule.nodes == ["node2"] && rule.tableToNode == map[0 := 0]
    requires InRange(rule, ["node1", "node2"], [0])
    requires IsDispatch(rule, ["node1", "node2"], sqlOf, [0], sqls) && IsConns(rule, [0], conns)
    ensures conns == ["node2"] && sqls == map["node1" := [sqlOf(0)]]
    ensures JobsOf(sqls, conns) == [[]]
  {
    forall name
      ensures name in sqls <==> name == "node1"
      ensures name in sqls ==> sqls[name] == [sqlOf(0)]
    {
      OneCollected(rule, ["node1", "node2"], sqlOf, name);
    }
    assert rule.nodes[NodeOf(rule, [0][0])] == "node2";
    OnlyName(conns, "node2");
  }

  lemma OneCollected<S>(rule: Rule, nodes: seq<string>, sqlOf: int -> S, name: string)
    requires 0 <= NodeOf(rule, 0) < |nodes|
    ensures Collected(rule, nodes, sqlOf, [0], name) == if nodes[NodeOf(rule, 0)] == name then [sqlOf(0)] else []
  {
    assert [0][..0] == [];
    assert Collected(rule, nodes, sqlOf, [0][..0], name) == [];
  }

  function Nth(names: seq<string>, i: nat): string {
    if i < |names| then names[i] else ""
  }

  lemma OnlyName(names: seq<string>, name: string)
    requires NoRepeats(names) && forall n :: n in names <==> n == name
    ensures names == [name]
  {
    assert name in names;
    var first, second := Nth(names, 0), Nth(names, 1);
    assert |names| > 1 ==> first in names && second in names;
    assert |names| > 1 ==> first != second;
  }
}
