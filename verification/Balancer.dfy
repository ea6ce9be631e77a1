/** Weighted round robin over slaves, and the slave list it runs on (backend/balancer.go,
    backend/node.go). */
module Balancer {
  import opened Prelude
  import opened Text

  // ---------------------------------------------------------------- the greatest common divisor

  predicate Positive(weights: seq<int>) {
    forall i :: 0 <= i < |weights| ==> weights[i] > 0
  }

  predicate Common(d: int, weights: seq<int>) {
    d > 0 && forall i :: 0 <= i < |weights| ==> weights[i] % d == 0
  }

  ghost predicate IsGcd(g: int, weights: seq<int>) {
    Common(g, weights) && forall d :: Common(d, weights) ==> d <= g
  }

  lemma DivisorBound(d: int, n: int)
    requires d > 0 && n > 0 && n % d == 0
    ensures d <= n
  {
  }

  function Least(ary: seq<int>): (m: int)
    requires ary != []
    ensures m in ary && forall i :: 0 <= i < |ary| ==> m <= ary[i]
  {
    if |ary| == 1 then ary[0]
    else
      var n := |ary| - 1;
      assert ary == ary[..n] + [ary[n]];
      var m := Least(ary[..n]);
      if ary[n] < m then ary[n] else m
  }

  predicate Divides(d: int, ary: seq<int>)
    requires d != 0
  {
    forall i :: 0 <= i < |ary| ==> ary[i] % d == 0
  }

  /** What Gcd returns: of positive weights their greatest common divisor. A zero among the least is a
      division by zero; a negative least one is returned if it divides all, and else the number below it. */
  ghost predicate IsGcdResult(ary: seq<int>, r: Result<int>)
    requires ary != []
  {
    var m := Least(ary);
    if m == 0 then r == Err(Panicked)
    else if m > 0 then r.Ok? && IsGcd(r.value, ary)
    else r == Ok(if Divides(m, ary) then m else m - 1)
  }

  /** Gcd: the least weight, then smaller and smaller candidates. */
  method Gcd(ary: seq<int>) returns (r: Result<int>)
    requires |ary| > 0
    ensures IsGcdResult(ary, r)
  {
    var min := LeastOf(ary);
    if min == 0 {
      return Err(Panicked);
    }
    ghost var least := min;
    if min > 0 {
      DivisorsBounded(ary, min);
    }
    while true
      invariant min <= least && min != 0
      invariant least < 0 ==> min == least
      invariant least > 0 ==> min >= 1 && forall d :: Common(d, ary) ==> d <= min
      decreases min - least + (if least < 0 then -least else least)
    {
      var isCommon := DividesAll(ary, min);
      if isCommon {
        break;
      }
      min := min - 1;
      if min < 1 {
        break;
      }
    }
    return Ok(min);
  }

  method LeastOf(ary: seq<int>) returns (min: int)
    requires |ary| > 0
    ensures min == Least(ary)
  {
    min := ary[0];
    for i := 0 to |ary|
      invariant min in ary
      invariant forall k :: 0 <= k < i ==> min <= ary[k]
    {
      if ary[i] < min {
        min := ary[i];
      }
    }
    var k :| 0 <= k < |ary| && ary[k] == min;
    ghost var j :| 0 <= j < |ary| && ary[j] == Least(ary);
  }

  method DividesAll(ary: seq<int>, d: int) returns (isCommon: bool)
    requires d != 0
    ensures isCommon <==> Divides(d, ary)
  {
    for i := 0 to |ary|
      invariant forall k :: 0 <= k < i ==> ary[k] % d == 0
    {
      if ary[i] % d != 0 {
        return false;
      }
    }
    return true;
  }

  lemma DivisorsBounded(ary: seq<int>, min: int)
    requires ary != [] && min == Least(ary) && min > 0
    ensures Common(1, ary)
    ensures forall d :: Common(d, ary) ==> d <= min
  {
    forall d | Common(d, ary)
      ensures d <= min
    {
      var k :| 0 <= k < |ary| && ary[k] == min;
      DivisorBound(d, ary[k]);
    }
  }

  lemma PositiveLeast(weights: seq<int>)
    requires weights != []
    ensures Positive(weights) <==> Least(weights) > 0
  {
  }

  // ---------------------------------------------------------------- the queue

  /** Go's division, towards zero. */
  function Quotient(w: int, g: int): int
    requires g != 0
  {
    if w >= 0 then w / g else -((-w) / g)
  }

  function Share(w: int, g: int): nat
    requires g != 0
  {
    if Quotient(w, g) > 0 then Quotient(w, g) else 0
  }

  /** Slave `i` stands in the queue as often as its share, and nothing else does. */
  ghost predicate Counts(queue: seq<int>, weights: seq<int>, g: int)
    requires g != 0
  {
    forall i :: multiset(queue)[i] == if 0 <= i < |weights| then Share(weights[i], g) else 0
  }

  /** ... which for positive weights is weight / gcd. */
  ghost predicate QueueMatches(queue: seq<int>, weights: seq<int>) {
    exists g :: IsGcd(g, weights) && forall i :: multiset(queue)[i] == if 0 <= i < |weights| then weights[i] / g else 0
  }

  function Total(weights: seq<int>, g: int): int
    requires g != 0
  {
    if weights == [] then 0 else Total(weights[..|weights| - 1], g) + Quotient(weights[|weights| - 1], g)
  }

  /** The length that the queue is made for. */
  method QueueLength(weights: seq<int>, g: int) returns (sum: int)
    requires g != 0
    ensures sum == Total(weights, g)
  {
    sum := 0;
    for index := 0 to |weights|
      invariant sum == Total(weights[..index], g)
    {
      assert weights[..index + 1][..index] == weights[..index];
      sum := sum + Quotient(weights[index], g);
    }
    assert weights[..|weights|] == weights;
  }

  /** The queue before shuffling: each slave as often as its weight says. */
  method FillQueue(weights: seq<int>, g: int) returns (queue: seq<int>)
    requires g != 0
    ensures Counts(queue, weights, g) && |queue| >= Total(weights, g)
  {
    queue := [];
    for index := 0 to |weights|
      invariant forall i :: multiset(queue)[i] == if 0 <= i < index then Share(weights[i], g) else 0
      invariant |queue| >= Total(weights[..index], g)
    {
      assert weights[..index + 1][..index] == weights[..index];
      queue := AddTimes(queue, index, Share(weights[index], g));
    }
    assert weights[..|weights|] == weights;
  }

  method AddTimes(before: seq<int>, index: int, n: nat) returns (queue: seq<int>)
    ensures |queue| == |before| + n
    ensures forall i :: multiset(queue)[i] == multiset(before)[i] + if i == index then n else 0
  {
    queue := before;
    for j := 0 to n
      invariant |queue| == |before| + j
      invariant forall i :: multiset(queue)[i] == multiset(before)[i] + if i == index then j else 0
    {
      queue := queue + [index];
    }
  }

  /** The random swaps; `x` may be any index each time. */
  method Shuffle(queue: seq<int>, sum: nat) returns (q: seq<int>)
    requires sum <= |queue|
    ensures multiset(q) == multiset(queue)
  {
    q := queue;
    for i := 0 to sum
      invariant |q| == |queue| && multiset(q) == multiset(queue)
    {
      var x: int :| 0 <= x < sum;
      var other := sum % (x + 1);
      q := q[x := q[other]][other := q[x]];
    }
  }

  /** The index the next call starts from. */
  function NextIndex(last: nat, n: nat): nat
    requires n > 0
  {
    (last % n + 1) % n
  }

  lemma NextIndexValue(last: nat, n: nat)
    requires n > 0
    ensures 0 <= last % n < n
    ensures NextIndex(last, n) == if last % n + 1 == n then 0 else last % n + 1
    ensures NextIndex(last, n) % n == NextIndex(last, n)
  {
    var l := last % n;
    if l + 1 < n {
      assert (l + 1) % n == l + 1;
    }
  }

  /** The slaves that `k` calls of GetNextSlave choose. */
  function Chosen(queue: seq<int>, last: nat, k: nat): seq<int>
    requires queue != []
    decreases k
  {
    if k == 0 then [] else [queue[last % |queue|]] + Chosen(queue, NextIndex(last, |queue|), k - 1)
  }

  lemma {:induction false} ChosenSlice(queue: seq<int>, last: nat, k: nat)
    requires queue != [] && k <= |queue|
    ensures Chosen(queue, last, k) == (queue + queue)[last % |queue|..last % |queue| + k]
    decreases k
  {
    if k > 0 {
      var n := |queue|;
      NextIndexValue(last, n);
      ChosenSlice(queue, NextIndex(last, n), k - 1);
      SliceStep(queue, last % n, NextIndex(last, n), k);
    }
  }

  lemma SliceStep(queue: seq<int>, l: nat, next: nat, k: nat)
    requires 0 < k <= |queue| && l < |queue| && next == if l + 1 == |queue| then 0 else l + 1
    ensures (queue + queue)[l..l + k] == [queue[l]] + (queue + queue)[next..next + k - 1]
  {
    var twice := queue + queue;
    assert twice[l..l + k] == [twice[l]] + twice[l + 1..l + k];
    assert forall i :: 0 <= i < |queue| ==> twice[i] == twice[|queue| + i];
    assert twice[l + 1..l + k] == twice[next..next + k - 1];
  }

  /** Weighted fairness: any window of as many consecutive calls as the queue is long, starting
      anywhere, chooses slave `i` exactly weight_i / gcd times. */
  lemma WindowIsFair(queue: seq<int>, weights: seq<int>, last: nat)
    requires queue != [] && QueueMatches(queue, weights)
    ensures QueueMatches(Chosen(queue, last, |queue|), weights)
  {
    var n, l := |queue|, last % |queue|;
    ChosenSlice(queue, last, n);
    var window := (queue + queue)[l..l + n];
    assert window == queue[l..] + queue[..l];
    assert queue == queue[..l] + queue[l..];
    assert multiset(window) == multiset(queue);
    var g :| IsGcd(g, weights) && forall i :: multiset(queue)[i] == if 0 <= i < |weights| then weights[i] / g else 0;
    assert forall i :: multiset(window)[i] == multiset(queue)[i];
  }

  // ---------------------------------------------------------------- slave membership

  /** strings.Split(s, "@") */
  function SplitAt(s: string): (parts: seq<string>)
    ensures parts != []
    ensures forall i :: 0 <= i < |parts| ==> '@' !in parts[i]
    ensures '@' !in s ==> parts == [s]
  {
    if s == "" then [""]
    else
      var rest := SplitAt(s[1..]);
      if s[0] == '@' then [""] + rest
      else
        assert s == [s[0]] + s[1..];
        [[s[0]] + rest[0]] + rest[1..]
  }

  function HostOf(addr: string): string {
    SplitAt(addr)[0]
  }

  /** The weight after the "@", 1 if there is none. */
  function WeightOf(addr: string): Result<int> {
    if |SplitAt(addr)| == 2 then
      match ParseInt64(SplitAt(addr)[1]) case Some(w) => Ok(w) case None => Err(InvalidNumber)
    else Ok(1)
  }

  /** An entry "host@weight" is a host and its weight; without the "@", and with more than one, the weight
      is 1; what is no number is an error. */
  lemma EntryReads(host: string, weight: int, a: string, b: string)
    requires '@' !in host && IsInt64(weight) && '@' !in a && '@' !in b
    ensures HostOf(host + "@" + FormatInt(weight)) == host && WeightOf(host + "@" + FormatInt(weight)) == Ok(weight)
    ensures HostOf(host) == host && WeightOf(host) == Ok(1)
    ensures HostOf(host + "@" + (a + "@" + b)) == host && WeightOf(host + "@" + (a + "@" + b)) == Ok(1)
    ensures ParseInt64(a).None? ==> WeightOf(host + "@" + a).Err?
  {
    NoAt(weight);
    SplitOnce(host, FormatInt(weight));
    SplitOnce(host, a);
    SplitOnce(a, b);
    SplitOnce(host, a + "@" + b);
    FormatParse(weight);
  }

  lemma NoAt(n: int)
    ensures '@' !in FormatInt(n)
  {
    assert n < 0 ==> FormatInt(n) == "-" + FormatNat(-n);
  }

  lemma {:induction false} SplitOnce(a: string, b: string)
    requires '@' !in a
    ensures SplitAt(a + "@" + b) == [a] + SplitAt(b)
  {
    var s := a + "@" + b;
    if a == "" {
      assert s[1..] == b;
    } else {
      SplitOnce(a[1..], b);
      assert s[1..] == a[1..] + "@" + b;
      assert s[0] == a[0] != '@';
      assert [a[0]] + a[1..] == a;
    }
  }

  predicate DistinctHosts(hosts: seq<string>) {
    forall i, j :: 0 <= i < j < |hosts| ==> hosts[i] != hosts[j]
  }

  function Without<T>(s: seq<T>, i: nat): seq<T>
    requires i < |s|
  {
    s[..i] + s[i + 1..]
  }

  lemma WithoutKeeps(slaves: seq<string>, weights: seq<int>, i: nat)
    requires |slaves| == |weights| && i < |slaves| && DistinctHosts(slaves) && Positive(weights)
    requires forall k :: 0 <= k < |slaves| ==> '@' !in slaves[k]
    ensures DistinctHosts(Without(slaves, i)) && Positive(Without(weights, i))
    ensures forall k :: 0 <= k < |slaves| - 1 ==> '@' !in Without(slaves, i)[k]
  {
  }

  /** The loop of DeleteSlave: everything but `addr`, which stands at `at`, is kept. */
  method KeepOthers(slaves: seq<string>, weights: seq<int>, addr: string, ghost at: nat) returns (s: seq<string>, sw: seq<int>)
    requires |slaves| == |weights| && DistinctHosts(slaves) && at < |slaves| && slaves[at] == addr
    ensures s == Without(slaves, at) && sw == Without(weights, at)
  {
    s, sw := [], [];
    for i := 0 to |slaves|
      invariant s == if i <= at then slaves[..i] else slaves[..at] + slaves[at + 1..i]
      invariant sw == if i <= at then weights[..i] else weights[..at] + weights[at + 1..i]
    {
      if slaves[i] != addr {
        s := s + [slaves[i]];
        sw := sw + [weights[i]];
      }
    }
  }

  /** Slaves and weights are aligned, every queue entry is a live slave, and the queue has the current
      weights. */
  ghost predicate ValidNode(slaves: seq<string>, weights: seq<int>, queue: seq<int>) {
    && |slaves| == |weights| && Positive(weights)
    && DistinctHosts(slaves) && (forall i :: 0 <= i < |slaves| ==> '@' !in slaves[i])
    && (forall k :: 0 <= k < |queue| ==> 0 <= queue[k] < |slaves|)
    && (if slaves == [] then queue == [] else QueueMatches(queue, weights))
  }

  lemma NodeAfterInit(slaves: seq<string>, weights: seq<int>, queue: seq<int>)
    requires |slaves| == |weights| > 0 && (forall i :: 0 <= i < |slaves| ==> '@' !in slaves[i])
    requires Positive(weights) ==> QueueMatches(queue, weights) && forall k :: 0 <= k < |queue| ==> 0 <= queue[k] < |weights|
    ensures ValidNode(slaves, weights, queue) <==> DistinctHosts(slaves) && Positive(weights)
  {
  }

  lemma OneMoreSlave(slaves: seq<string>, weights: seq<int>, host: string, weight: int)
    requires Positive(weights) && DistinctHosts(slaves) && host !in slaves && '@' !in host
    requires forall i :: 0 <= i < |slaves| ==> '@' !in slaves[i]
    ensures DistinctHosts(slaves + [host]) && forall i :: 0 <= i <= |slaves| ==> '@' !in (slaves + [host])[i]
    ensures Positive(weights + [weight]) <==> weight > 0
  {
    assert (weights + [weight])[|weights|] == weight;
  }

  datatype Outcome = Done | Refused | ParseError | OpenError | Panic

  class Node {
    /** the addresses of the opened slaves */
    var Slave: seq<string>
    var SlaveWeights: seq<int>
    var RoundRobinQ: seq<int>
    var LastSlaveIndex: nat

    ghost predicate Valid()
      reads this
    {
      ValidNode(Slave, SlaveWeights, RoundRobinQ)
    }

    constructor ()
      ensures Valid() && Slave == []
    {
      Slave, SlaveWeights, RoundRobinQ, LastSlaveIndex := [], [], [], 0;
    }

    /** InitBalancer: for positive weights a queue that matches them. A least weight of zero, or quotients
        that add up to less than nothing, are a panic. */
    method InitBalancer() returns (r: Result<()>)
      requires |SlaveWeights| > 0
      modifies `LastSlaveIndex, `RoundRobinQ
      ensures Positive(SlaveWeights) ==>
                r.Ok? && LastSlaveIndex == 0 && QueueMatches(RoundRobinQ, SlaveWeights)
      ensures r.Ok? ==>
                && (exists g :: IsGcdResult(SlaveWeights, Ok(g)) && g != 0 && Counts(RoundRobinQ, SlaveWeights, g))
                && forall k :: 0 <= k < |RoundRobinQ| ==> 0 <= RoundRobinQ[k] < |SlaveWeights|
      ensures r.Err? <==> Least(SlaveWeights) == 0 || (exists g :: IsGcdResult(SlaveWeights, Ok(g)) && g != 0 && Total(SlaveWeights, g) < 0)
    {
      LastSlaveIndex := 0;
      var gcd :- Gcd(SlaveWeights);
      PositiveLeast(SlaveWeights);
      var sum := QueueLength(SlaveWeights, gcd);
      OneGcd(SlaveWeights, gcd);
      if Positive(SlaveWeights) {
        PositiveTotal(SlaveWeights, gcd);
      }
      if sum < 0 {
        return Err(Panicked);
      }
      RoundRobinQ := FillQueue(SlaveWeights, gcd);
      if 1 < |SlaveWeights| {
        RoundRobinQ := Shuffle(RoundRobinQ, sum);
      }
      assert Counts(RoundRobinQ, SlaveWeights, gcd);
      if Positive(SlaveWeights) {
        PositiveCounts(RoundRobinQ, SlaveWeights, gcd);
      }
      CountedEntries(RoundRobinQ, SlaveWeights, gcd);
      return Ok(());
    }

    /** GetNextSlave: none without a queue, else the one the queue has at the current index. */
    method GetNextSlave() returns (r: Option<string>)
      requires Valid()
      modifies `LastSlaveIndex
      ensures Valid()
      ensures RoundRobinQ == [] ==> r == None && LastSlaveIndex == old(LastSlaveIndex)
      ensures RoundRobinQ != [] ==>
                && r == Some(Slave[RoundRobinQ[old(LastSlaveIndex) % |RoundRobinQ|]])
                && LastSlaveIndex % |RoundRobinQ| == NextIndex(old(LastSlaveIndex), |RoundRobinQ|)
    {
      var queueLen := |RoundRobinQ|;
      if queueLen == 0 {
        return None;
      }
      if queueLen == 1 {
        assert LastSlaveIndex % 1 == 0 == NextIndex(LastSlaveIndex, 1);
        return Some(Slave[RoundRobinQ[0]]);
      }
      NextIndexValue(LastSlaveIndex, queueLen);
      LastSlaveIndex := LastSlaveIndex % queueLen;
      var index := RoundRobinQ[LastSlaveIndex];
      if |Slave| <= index {
        return None;
      }
      LastSlaveIndex := LastSlaveIndex + 1;
      LastSlaveIndex := LastSlaveIndex % queueLen;
      return Some(Slave[index]);
    }

    /** AddSlave. A slave that cannot be opened leaves its weight behind: from then on the lists are no
        longer aligned. A weight that is not positive is taken as it is. */
    method AddSlave(addr: string, opens: bool) returns (r: Outcome)
      requires Valid()
      modifies this
      ensures r == Refused <==> addr == "" || HostOf(addr) in old(Slave)
      ensures r == Refused || r == ParseError ==>
                Slave == old(Slave) && SlaveWeights == old(SlaveWeights) && RoundRobinQ == old(RoundRobinQ)
      ensures r == ParseError <==> r != Refused && WeightOf(addr).Err?
      ensures r == OpenError <==> r != Refused && WeightOf(addr).Ok? && !opens
      ensures r == OpenError || r == Done || r == Panic ==>
                && WeightOf(addr).Ok? && SlaveWeights == old(SlaveWeights) + [WeightOf(addr).value]
                && Slave == if opens then old(Slave) + [HostOf(addr)] else old(Slave)
      ensures r == Panic ==> opens && WeightOf(addr).value <= 0
      ensures Valid() <==> r == Refused || r == ParseError || (opens && WeightOf(addr).Ok? && WeightOf(addr).value > 0)
    {
      if |addr| == 0 {
        return Refused;
      }
      for i := 0 to |Slave|
        invariant HostOf(addr) !in Slave[..i]
      {
        if SplitAt(Slave[i])[0] == SplitAt(addr)[0] {
          return Refused;
        }
      }
      assert Slave[..|Slave|] == Slave;
      var weight := WeightOf(addr);
      if weight.Err? {
        return ParseError;
      }
      OneMoreSlave(Slave, SlaveWeights, HostOf(addr), weight.value);
      SlaveWeights := SlaveWeights + [weight.value];
      if !opens {
        return OpenError;
      }
      Slave := Slave + [HostOf(addr)];
      var init := InitBalancer();
      NodeAfterInit(Slave, SlaveWeights, RoundRobinQ);
      return if init.Ok? then Done else Panic;
    }

    /** DeleteSlave: the slave and its weight go, the others keep theirs, and the queue is built anew. */
    method DeleteSlave(addr: string) returns (r: Outcome)
      requires Valid()
      modifies this
      ensures Valid()
      ensures r == Done <==> addr in old(Slave)
      ensures r == Done ==>
                exists i :: 0 <= i < |old(Slave)| && old(Slave)[i] == addr &&
                            Slave == Without(old(Slave), i) && SlaveWeights == Without(old(SlaveWeights), i)
      ensures r != Done ==> Slave == old(Slave) && SlaveWeights == old(SlaveWeights) && RoundRobinQ == old(RoundRobinQ)
    {
      var slaveCount := |Slave|;
      if slaveCount == 0 {
        return Refused;
      }
      var at := 0;
      while at < slaveCount && Slave[at] != addr
        invariant 0 <= at <= slaveCount
        invariant addr !in Slave[..at]
      {
        at := at + 1;
      }
      if at == slaveCount {
        assert Slave[..at] == Slave;
        return Refused;
      }
      if slaveCount == 1 {
        Slave, SlaveWeights, RoundRobinQ := [], [], [];
        return Done;
      }
      var s, sw := KeepOthers(Slave, SlaveWeights, addr, at);
      WithoutKeeps(Slave, SlaveWeights, at);
      Slave, SlaveWeights := s, sw;
      var _ := InitBalancer();
      return Done;
    }

    /** ParseSlave on the entries of the configured list. If every weight parses and every slave opens, the
        lists are those of the entries, and the node is valid exactly when hosts are distinct and weights
        positive. */
    method ParseSlave(entries: seq<string>, opens: string -> bool) returns (r: Outcome)
      requires entries != []
      modifies this
      ensures r == Done || r == Panic <==>
              forall i :: 0 <= i < |entries| ==> WeightOf(entries[i]).Ok? && opens(HostOf(entries[i]))
      ensures r == Done || r == Panic ==>
                && |Slave| == |SlaveWeights| == |entries|
                && forall i :: 0 <= i < |entries| ==>
                     Slave[i] == HostOf(entries[i]) && Ok(SlaveWeights[i]) == WeightOf(entries[i])
      ensures r == Panic ==> !Positive(SlaveWeights)
      ensures r == Done ==> (Valid() <==> DistinctHosts(Slave) && Positive(SlaveWeights))
    {
      Slave, SlaveWeights := [], [];
      for i := 0 to |entries|
        invariant |Slave| == |SlaveWeights| == i
        invariant forall k :: 0 <= k < i ==> WeightOf(entries[k]).Ok? && opens(HostOf(entries[k]))
        invariant forall k :: 0 <= k < i ==> Slave[k] == HostOf(entries[k]) && SlaveWeights[k] == WeightOf(entries[k]).value
      {
        var weight := WeightOf(entries[i]);
        if weight.Err? {
          return ParseError;
        }
        SlaveWeights := SlaveWeights + [weight.value];
        if !opens(HostOf(entries[i])) {
          return OpenError;
        }
        Slave := Slave + [HostOf(entries[i])];
      }
      var init := InitBalancer();
      NodeAfterInit(Slave, SlaveWeights, RoundRobinQ);
      return if init.Ok? then Done else Panic;
    }

    /** One call of GetNextSlave, as a step through the choices to come. */
    method NextPick() returns (slave: string, ghost pick: int)
      requires Valid() && RoundRobinQ != []
      modifies `LastSlaveIndex
      ensures 0 <= pick < |Slave| && slave == Slave[pick]
      ensures forall k: nat :: Chosen(RoundRobinQ, old(LastSlaveIndex), k + 1) == [pick] + Chosen(RoundRobinQ, LastSlaveIndex, k)
    {
      ghost var before := LastSlaveIndex;
      var given := GetNextSlave();
      pick := RoundRobinQ[before % |RoundRobinQ|];
      slave := given.value;
      forall k: nat
        ensures Chosen(RoundRobinQ, before, k + 1) == [pick] + Chosen(RoundRobinQ, LastSlaveIndex, k)
      {
        ChosenStep(RoundRobinQ, before, LastSlaveIndex, k);
      }
    }

    /** As many calls of GetNextSlave as the queue is long: from wherever the node stands, slave `i` is given
        weight_i / gcd times. */
    method NextWindow() returns (given: seq<string>, ghost picks: seq<int>)
      requires Valid() && RoundRobinQ != []
      modifies `LastSlaveIndex
      ensures |picks| == |given| == |RoundRobinQ| && QueueMatches(picks, SlaveWeights)
      ensures forall j :: 0 <= j < |given| ==> 0 <= picks[j] < |Slave| && given[j] == Slave[picks[j]]
    {
      given, picks := [], [];
      var n := |RoundRobinQ|;
      ghost var whole := Chosen(RoundRobinQ, LastSlaveIndex, n);
      for k := 0 to n
        invariant |picks| == |given| == k
        invariant forall j :: 0 <= j < k ==> 0 <= picks[j] < |Slave| && given[j] == Slave[picks[j]]
        invariant picks + Chosen(RoundRobinQ, LastSlaveIndex, n - k) == whole
      {
        ghost var before := picks;
        var slave, pick := NextPick();
        given := given + [slave];
        picks := picks + [pick];
        assert before + ([pick] + Chosen(RoundRobinQ, LastSlaveIndex, n - k - 1)) == picks + Chosen(RoundRobinQ, LastSlaveIndex, n - k - 1);
      }
      assert picks + [] == picks;
      WindowIsFair(RoundRobinQ, SlaveWeights, old(LastSlaveIndex));
    }
  }

  // ---------------------------------------------------------------- about the queue

  lemma OneGcd(weights: seq<int>, g: int)
    requires weights != [] && IsGcdResult(weights, Ok(g)) && g != 0
    ensures forall h :: IsGcdResult(weights, Ok(h)) ==> h == g
  {
    if Least(weights) > 0 {
      forall h | IsGcdResult(weights, Ok(h))
        ensures h == g
      {
        assert Common(h, weights) && Common(g, weights);
      }
    }
  }

  lemma QuotientNatural(w: int, g: int)
    requires w >= 0 && g > 0
    ensures w / g >= 0 && Quotient(w, g) == w / g
  {
  }

  lemma {:induction false} PositiveTotal(weights: seq<int>, g: int)
    requires Positive(weights) && g > 0
    ensures Total(weights, g) >= 0
  {
    if weights != [] {
      var n := |weights| - 1;
      PositiveTotal(weights[..n], g);
      QuotientNatural(weights[n], g);
      assert Total(weights, g) == Total(weights[..n], g) + Quotient(weights[n], g);
    }
  }

  lemma PositiveCounts(queue: seq<int>, weights: seq<int>, g: int)
    requires Positive(weights) && IsGcd(g, weights) && Counts(queue, weights, g)
    ensures QueueMatches(queue, weights)
  {
    forall i | 0 <= i < |weights|
      ensures Share(weights[i], g) == weights[i] / g
    {
      QuotientNatural(weights[i], g);
    }
  }

  lemma CountedEntries(queue: seq<int>, weights: seq<int>, g: int)
    requires g != 0 && Counts(queue, weights, g)
    ensures forall k :: 0 <= k < |queue| ==> 0 <= queue[k] < |weights|
  {
    forall k | 0 <= k < |queue|
      ensures 0 <= queue[k] < |weights|
    {
      assert queue[k] in multiset(queue);
    }
  }

  lemma SmallMod(l: nat, n: nat)
    requires l < n
    ensures l % n == l
  {
  }

  /** Only the position modulo the length matters. */
  lemma SamePosition(last: nat, n: nat)
    requires n > 0
    ensures 0 <= last % n < n && (last % n) % n == last % n
    ensures NextIndex(last % n, n) == NextIndex(last, n)
  {
    SmallMod(last % n, n);
  }

  lemma ChosenFrom(queue: seq<int>, last: nat, k: nat)
    requires queue != []
    ensures Chosen(queue, last % |queue|, k) == Chosen(queue, last, k)
  {
    var n := |queue|;
    var l := last % n;
    SamePosition(last, n);
    if k > 0 {
      assert Chosen(queue, l, k) == [queue[l % n]] + Chosen(queue, NextIndex(l, n), k - 1);
      assert Chosen(queue, last, k) == [queue[l]] + Chosen(queue, NextIndex(last, n), k - 1);
    }
  }

  lemma ChosenStep(queue: seq<int>, before: nat, after: nat, k: nat)
    requires queue != [] && after % |queue| == NextIndex(before, |queue|)
    ensures 0 <= before % |queue| < |queue|
    ensures Chosen(queue, before, k + 1) == [queue[before % |queue|]] + Chosen(queue, after, k)
  {
    ChosenFrom(queue, after, k);
  }
}
