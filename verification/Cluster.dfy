/** The forkd cluster scheduler (`cluster.rs`): circuit breaker, half-open claims and
    in-flight accounting. Every atomic operation is one step; steps of concurrent
    creates, probes and drops interleave freely. */
module Cluster {
  import opened Common

  const FAILURE_TRIP: nat := 3

  datatype Node = Node(inflight: nat, failures: nat, gate: nat)

  datatype Strategy = RoundRobin | LeastInflight

  datatype ClientError = Transport | Decode | Timeout | Remote | Http(status: nat)

  datatype Outcome = Created | Failed(error: ClientError)

  /** The node refused the request: no retry elsewhere. Everything else is the node's fault. */
  predicate Rejected(error: ClientError) {
    error.Remote? || (error.Http? && 400 <= error.status < 500)
  }

  predicate Admissible(node: Node, now: nat) {
    node.failures < FAILURE_TRIP || node.gate == 0 || now >= node.gate
  }

  // ---------------------------------------------------------------------------
  // Candidate order.
  // ---------------------------------------------------------------------------

  function Rotation(anchor: nat, len: nat): (order: seq<nat>)
    requires len > 0
    ensures |order| == len && forall k :: 0 <= k < len ==> order[k] == (anchor + k) % len
  {
    seq(len, k requires 0 <= k < len => (anchor + k) % len)
  }

  /** Insert after every element whose load is not larger. */
  function Insert(order: seq<nat>, x: nat, loads: seq<nat>): (r: seq<nat>)
    requires x < |loads| && forall k :: 0 <= k < |order| ==> order[k] < |loads|
    ensures forall k :: 0 <= k < |r| ==> r[k] < |loads|
    ensures forall y :: y in r <==> y in order || y == x
  {
    if order == [] then [x]
    else
      var last := order[|order| - 1];
      if loads[last] <= loads[x] then order + [x] else Insert(order[..|order| - 1], x, loads) + [last]
  }

  /** A stable sort by load. */
  function SortByLoad(order: seq<nat>, loads: seq<nat>): (r: seq<nat>)
    requires forall k :: 0 <= k < |order| ==> order[k] < |loads|
    ensures forall k :: 0 <= k < |r| ==> r[k] < |loads|
    ensures forall y :: y in r <==> y in order
  {
    if order == [] then []
    else Insert(SortByLoad(order[..|order| - 1], loads), order[|order| - 1], loads)
  }

  function Retain(order: seq<nat>, admits: seq<bool>): (r: seq<nat>)
    requires forall k :: 0 <= k < |order| ==> order[k] < |admits|
    ensures forall y :: y in r <==> y in order && y < |admits| && admits[y]
  {
    if order == [] then []
    else
      var last := order[|order| - 1];
      Retain(order[..|order| - 1], admits) + if admits[last] then [last] else []
  }

  /** The rotation, re-ordered by load where the strategy asks for it. */
  function Arranged(strategy: Strategy, anchor: nat, loads: seq<nat>): (r: seq<nat>)
    requires |loads| > 0
    ensures forall k :: 0 <= k < |r| ==> r[k] < |loads|
  {
    var rotation := Rotation(anchor, |loads|);
    if strategy.LeastInflight? then SortByLoad(rotation, loads) else rotation
  }

  function Ordering(strategy: Strategy, anchor: nat, loads: seq<nat>, admits: seq<bool>): seq<nat>
    requires |loads| == |admits| > 0
  {
    Retain(Arranged(strategy, anchor, loads), admits)
  }

  /** Every node once, in any order. */
  ghost predicate Arrangement(order: seq<nat>, n: nat) {
    NoDuplicates(order) && forall i: nat :: i in order <==> i < n
  }

  function LoadsOf(nodes: seq<Node>): (r: seq<nat>)
    ensures |r| == |nodes| && forall i :: 0 <= i < |nodes| ==> r[i] == nodes[i].inflight
  {
    seq(|nodes|, i requires 0 <= i < |nodes| => nodes[i].inflight)
  }

  function AdmitsOf(nodes: seq<Node>, now: nat): (r: seq<bool>)
    ensures |r| == |nodes| && forall i :: 0 <= i < |nodes| ==> r[i] == Admissible(nodes[i], now)
  {
    seq(|nodes|, i requires 0 <= i < |nodes| => Admissible(nodes[i], now))
  }

  /** How far node `i` is from the anchor. */
  function Distance(i: nat, anchor: nat, len: nat): nat
    requires len > 0
  {
    (i - anchor) % len
  }

  /** Lighter nodes first; equal loads by distance from the anchor. */
  predicate Precedes(i: nat, j: nat, anchor: nat, loads: seq<nat>)
    requires i < |loads| && j < |loads|
  {
    || loads[i] < loads[j]
    || (loads[i] == loads[j] && Distance(i, anchor, |loads|) < Distance(j, anchor, |loads|))
  }

  ghost predicate InOrder(order: seq<nat>, anchor: nat, loads: seq<nat>) {
    && (forall a :: 0 <= a < |order| ==> order[a] < |loads|)
    && forall a, b :: 0 <= a < b < |order| ==> Precedes(order[a], order[b], anchor, loads)
  }

  lemma RotationDistance(anchor: nat, len: nat, k: nat)
    requires k < len
    ensures (anchor + k) % len < len && Distance((anchor + k) % len, anchor, len) == k
  {
    var q, r := (anchor + k) / len, (anchor + k) % len;
    assert r - anchor == k - q * len;
    ModOf(k, -q, len);
    assert k - q * len == k + (-q) * len;
  }

  lemma {:induction false} ModOf(k: nat, q: int, len: nat)
    requires k < len
    ensures (k + q * len) % len == k
  {
    var m := k + q * len;
    var d, r := m / len, m % len;
    assert (d - q) * len == k - r;
    MultipleIsFar(d - q, len);
  }

  lemma MultipleIsFar(x: int, len: nat)
    ensures x >= 1 ==> x * len >= len
    ensures x <= -1 ==> x * len + len <= 0
  {
    if x >= 1 {
      assert (x - 1) * len >= 0;
    } else if x <= -1 {
      assert (-1 - x) * len >= 0;
    }
  }

  lemma RotationCovers(anchor: nat, len: nat, i: nat)
    requires i < len
    ensures i in Rotation(anchor, len)
  {
    var k := Distance(i, anchor, len);
    var q := (i - anchor) / len;
    assert anchor + k == i + (-q) * len;
    ModOf(i, -q, len);
    assert Rotation(anchor, len)[k] == i;
  }

  lemma {:induction false} InsertInOrder(order: seq<nat>, x: nat, anchor: nat, loads: seq<nat>)
    requires InOrder(order, anchor, loads) && x < |loads|
    requires forall y :: y in order ==> Distance(y, anchor, |loads|) < Distance(x, anchor, |loads|)
    ensures InOrder(Insert(order, x, loads), anchor, loads)
  {
    hide Distance, Precedes;
    if order != [] {
      var n := |order| - 1;
      var last := order[n];
      if loads[last] <= loads[x] {
        forall a | 0 <= a < |order| ensures Precedes(order[a], x, anchor, loads) {
          assert order[a] in order;
          assert a < n ==> Precedes(order[a], last, anchor, loads);
          PrecedesNext(order[a], last, x, anchor, loads);
        }
      } else {
        InsertInOrder(order[..n], x, anchor, loads);
        var r := Insert(order[..n], x, loads);
        LighterPrecedes(x, last, anchor, loads);
        forall a | 0 <= a < |r| ensures Precedes(r[a], last, anchor, loads) {
          assert r[a] in r;
        }
      }
    }
  }

  lemma PrecedesNext(y: nat, last: nat, x: nat, anchor: nat, loads: seq<nat>)
    requires y < |loads| && last < |loads| && x < |loads|
    requires y == last || Precedes(y, last, anchor, loads)
    requires loads[last] <= loads[x] && Distance(y, anchor, |loads|) < Distance(x, anchor, |loads|)
    ensures Precedes(y, x, anchor, loads)
  {
    hide Distance;
  }

  lemma LighterPrecedes(x: nat, y: nat, anchor: nat, loads: seq<nat>)
    requires x < |loads| && y < |loads| && loads[x] < loads[y]
    ensures Precedes(x, y, anchor, loads)
  {
    hide Distance;
  }

  lemma {:induction false} SortInOrder(n: nat, anchor: nat, loads: seq<nat>)
    requires n <= |loads| && |loads| > 0
    ensures InOrder(SortByLoad(Rotation(anchor, |loads|)[..n], loads), anchor, loads)
  {
    hide Distance, Insert, Precedes;
    var all := Rotation(anchor, |loads|);
    if n > 0 {
      SortInOrder(n - 1, anchor, loads);
      assert all[..n][..n - 1] == all[..n - 1];
      RotationDistance(anchor, |loads|, n - 1);
      forall y | y in all[..n - 1] ensures Distance(y, anchor, |loads|) < n - 1 {
        var k :| 0 <= k < n - 1 && all[k] == y;
        RotationDistance(anchor, |loads|, k);
      }
      InsertInOrder(SortByLoad(all[..n - 1], loads), all[n - 1], anchor, loads);
    }
  }

  lemma {:induction false} RetainInOrder(order: seq<nat>, anchor: nat, loads: seq<nat>, admits: seq<bool>)
    requires InOrder(order, anchor, loads) && |admits| == |loads|
    ensures InOrder(Retain(order, admits), anchor, loads)
  {
    hide Distance, Precedes;
    if order != [] {
      var n := |order| - 1;
      RetainInOrder(order[..n], anchor, loads, admits);
      var r := Retain(order[..n], admits);
      forall a | 0 <= a < |r| ensures Precedes(r[a], order[n], anchor, loads) {
        assert r[a] in order[..n];
      }
    }
  }

  /** What a strategy sorts by: round robin treats all loads alike. */
  function EffectiveLoads(strategy: Strategy, loads: seq<nat>): (r: seq<nat>)
    ensures |r| == |loads|
  {
    if strategy.LeastInflight? then loads else seq(|loads|, _ => 0)
  }

  /** Without interference the nodes are arranged lightest first, ties settled by the cursor. */
  lemma ArrangedExact(strategy: Strategy, anchor: nat, loads: seq<nat>)
    requires |loads| > 0
    ensures Arrangement(Arranged(strategy, anchor, loads), |loads|)
    ensures InOrder(Arranged(strategy, anchor, loads), anchor, EffectiveLoads(strategy, loads))
  {
    var all := Rotation(anchor, |loads|);
    var eff := EffectiveLoads(strategy, loads);
    forall i: nat ensures i in all <==> i < |loads| {
      if i in all {
        var k :| 0 <= k < |all| && all[k] == i;
        RotationDistance(anchor, |loads|, k);
      }
      if i < |loads| {
        RotationCovers(anchor, |loads|, i);
      }
    }
    assert all[..|all|] == all;
    if strategy.LeastInflight? {
      SortInOrder(|all|, anchor, loads);
    } else {
      forall a, b | 0 <= a < b < |all| ensures Precedes(all[a], all[b], anchor, eff) {
        RotationDistance(anchor, |loads|, a);
        RotationDistance(anchor, |loads|, b);
      }
    }
    InOrderDistinct(Arranged(strategy, anchor, loads), anchor, eff);
  }

  /** In whatever order the sort leaves the nodes, also when loads change under it, the
      candidates are exactly the admissible nodes, each once. */
  lemma {:induction false} RetainExact(order: seq<nat>, admits: seq<bool>)
    requires NoDuplicates(order) && forall k :: 0 <= k < |order| ==> order[k] < |admits|
    ensures NoDuplicates(Retain(order, admits))
    ensures forall i: nat :: i in Retain(order, admits) <==> i in order && i < |admits| && admits[i]
  {
    if order != [] {
      var n := |order| - 1;
      RetainExact(order[..n], admits);
      assert order[n] !in order[..n];
    }
  }

  /** The candidates are exactly the admissible nodes, each once, lightest first,
      ties settled by the rotating cursor. */
  lemma OrderingExact(strategy: Strategy, anchor: nat, loads: seq<nat>, admits: seq<bool>)
    requires |loads| == |admits| > 0
    ensures var order := Ordering(strategy, anchor, loads, admits);
            && NoDuplicates(order)
            && (forall i: nat :: i in order <==> i < |loads| && admits[i])
            && InOrder(order, anchor, EffectiveLoads(strategy, loads))
  {
    hide Arranged, Precedes;
    ArrangedExact(strategy, anchor, loads);
    RetainInOrder(Arranged(strategy, anchor, loads), anchor, EffectiveLoads(strategy, loads), admits);
    RetainExact(Arranged(strategy, anchor, loads), admits);
  }

  lemma InOrderDistinct(order: seq<nat>, anchor: nat, loads: seq<nat>)
    requires InOrder(order, anchor, loads)
    ensures NoDuplicates(order)
  {
    hide Distance;
    forall a, b | 0 <= a < b < |order| ensures order[a] != order[b] {
      assert Precedes(order[a], order[b], anchor, loads);
    }
  }

  // ---------------------------------------------------------------------------
  // Concurrent creates.
  // ---------------------------------------------------------------------------

  /** Where a create is: what it is about to do to node `i`. */
  datatype Pc =
    | Choosing
    | LoadGate(i: nat)
    | SwapGate(i: nat, seen: nat)
    | Arm(i: nat)
    | Calling(i: nat)
    | ClearFailures(i: nat)
    | ClearGate(i: nat)
    | Returned(i: nat)
    | DropGuard(i: nat, error: ClientError)
    | CountFailure(i: nat)
    | PushGate(i: nat)
    | Ended

  datatype Create = Create(now: nat, queue: seq<nat>, tried: seq<nat>, pc: Pc)

  datatype State = State(nodes: seq<Node>, creates: seq<Create>)

  datatype Event =
    | Start(now: nat, arranged: seq<nat>, admits: seq<bool>)
    | Advance(t: nat)
    | Answer(t: nat, outcome: Outcome)
    | Drop(t: nat)
    | ProbeClearFailures(i: nat)
    | ProbeClearGate(i: nat)
    | ProbePushGate(i: nat, now: nat)
    | Release(i: nat)

  datatype Config = Config(strategy: Strategy, interval: nat)

  /** A create starts with the nodes arranged in any order its sort may leave them in, and
      with what it saw of each node's admissibility. */
  ghost predicate Enabled(s: State, e: Event) {
    match e
    case Start(now, arranged, admits) =>
      now <= U64_MAX && |admits| == |s.nodes| && Arrangement(arranged, |s.nodes|)
    case Advance(t) =>
      t < |s.creates| && !s.creates[t].pc.Calling? && !s.creates[t].pc.Returned? && !s.creates[t].pc.Ended?
    case Answer(t, _) => t < |s.creates| && s.creates[t].pc.Calling?
    case Drop(t) => t < |s.creates| && (s.creates[t].pc.Calling? || s.creates[t].pc.Returned?)
    case ProbeClearFailures(i) => i < |s.nodes|
    case ProbeClearGate(i) => i < |s.nodes|
    case ProbePushGate(i, now) => i < |s.nodes| && now <= U64_MAX
    case Release(i) => i < |s.nodes|
  }

  /** The node a create is working on. */
  function Target(c: Create): Option<nat> {
    if c.pc.Choosing? || c.pc.Ended? then None else Some(c.pc.i)
  }

  predicate InRange(s: State) {
    forall t :: 0 <= t < |s.creates| ==>
      && (forall k :: 0 <= k < |s.creates[t].queue| ==> s.creates[t].queue[k] < |s.nodes|)
      && (Target(s.creates[t]).Some? ==> Target(s.creates[t]).value < |s.nodes|)
  }

  function SetNode(s: State, i: nat, node: Node): State
    requires i < |s.nodes|
  {
    s.(nodes := s.nodes[i := node])
  }

  function Goto(s: State, t: nat, pc: Pc): State
    requires t < |s.creates|
  {
    s.(creates := s.creates[t := s.creates[t].(pc := pc)])
  }

  /** The next atomic operation of a create, as a change to its node and to itself. */
  function NextNode(node: Node, c: Create, interval: nat): Node {
    match c.pc
    case SwapGate(_, seen) => if node.gate == seen then node.(gate := SaturatingAdd(c.now, interval)) else node
    case Arm(_) => node.(inflight := node.inflight + 1)
    case ClearFailures(_) => node.(failures := 0)
    case ClearGate(_) => node.(gate := 0)
    case DropGuard(_, _) => node.(inflight := SaturatingSub(node.inflight, 1))
    case CountFailure(_) => node.(failures := node.failures + 1)
    case PushGate(_) => node.(gate := Max(node.gate, SaturatingAdd(c.now, interval)))
    case _ => node
  }

  function NextCreate(node: Node, c: Create): Create {
    match c.pc
    case LoadGate(i) => c.(pc := if node.gate != 0 && c.now < node.gate then Choosing else SwapGate(i, node.gate))
    case SwapGate(i, seen) => c.(pc := if node.gate == seen then Arm(i) else Choosing)
    case Arm(i) => c.(pc := Calling(i), tried := c.tried + [i])
    case ClearFailures(i) => c.(pc := ClearGate(i))
    case ClearGate(i) => c.(pc := Returned(i))
    case DropGuard(i, error) => c.(pc := if Rejected(error) then Ended else CountFailure(i))
    case CountFailure(i) => c.(pc := if node.failures + 1 >= FAILURE_TRIP then PushGate(i) else Choosing)
    case PushGate(_) => c.(pc := Choosing)
    case _ => c
  }

  /** The loop head: take the next candidate and load its failure count. */
  function Choose(s: State, c: Create): Create
    requires c.queue != [] ==> c.queue[0] < |s.nodes|
  {
    if c.queue == [] then c.(pc := Ended)
    else
      var i := c.queue[0];
      c.(queue := c.queue[1..], pc := if s.nodes[i].failures < FAILURE_TRIP then Arm(i) else LoadGate(i))
  }

  function Step(s: State, e: Event, config: Config): State
    requires InRange(s) && Enabled(s, e)
  {
    match e
    case Start(now, arranged, admits) =>
      assert forall k :: 0 <= k < |arranged| ==> arranged[k] in arranged;
      s.(creates := s.creates + [Create(now, Retain(arranged, admits), [], Choosing)])
    case Advance(t) =>
      var c := s.creates[t];
      if c.pc.Choosing? then s.(creates := s.creates[t := Choose(s, c)])
      else
        var i := c.pc.i;
        State(s.nodes[i := NextNode(s.nodes[i], c, config.interval)], s.creates[t := NextCreate(s.nodes[i], c)])
    case Answer(t, outcome) =>
      var i := s.creates[t].pc.i;
      Goto(s, t, if outcome.Created? then ClearFailures(i) else DropGuard(i, outcome.error))
    case Drop(t) =>
      var i := s.creates[t].pc.i;
      Goto(SetNode(s, i, s.nodes[i].(inflight := SaturatingSub(s.nodes[i].inflight, 1))), t, Ended)
    case ProbeClearFailures(i) => SetNode(s, i, s.nodes[i].(failures := 0))
    case ProbeClearGate(i) => SetNode(s, i, s.nodes[i].(gate := 0))
    case ProbePushGate(i, now) =>
      SetNode(s, i, s.nodes[i].(gate := Max(s.nodes[i].gate, SaturatingAdd(now, config.interval))))
    case Release(i) => SetNode(s, i, s.nodes[i].(inflight := SaturatingSub(s.nodes[i].inflight, 1)))
  }

  // ---------------------------------------------------------------------------
  // What every step keeps.
  // ---------------------------------------------------------------------------

  /** A live guard on node `i`. */
  predicate Holds(c: Create, i: nat) {
    (c.pc.Calling? || c.pc.ClearFailures? || c.pc.ClearGate? || c.pc.Returned? || c.pc.DropGuard?) && c.pc.i == i
  }

  predicate BeforeArm(c: Create) {
    c.pc.LoadGate? || c.pc.SwapGate? || c.pc.Arm?
  }

  /** The nodes a create has attempted, is about to, or may still attempt. */
  function Itinerary(c: Create): seq<nat> {
    c.tried + (if BeforeArm(c) then [c.pc.i] else []) + c.queue
  }

  ghost predicate Sound(c: Create, n: nat) {
    && c.now <= U64_MAX
    && NoDuplicates(Itinerary(c))
    && (forall k :: 0 <= k < |c.queue| ==> c.queue[k] < n)
    && (Target(c).Some? ==> Target(c).value < n)
    && (c.pc.SwapGate? ==> c.pc.seen == 0 || c.now >= c.pc.seen)
  }

  function Guards(creates: seq<Create>, i: nat): nat {
    if creates == [] then 0
    else Guards(creates[..|creates| - 1], i) + if Holds(creates[|creates| - 1], i) then 1 else 0
  }

  ghost predicate AllSound(s: State) {
    forall t :: 0 <= t < |s.creates| ==> Sound(s.creates[t], |s.nodes|)
  }

  ghost predicate NeverOver(s: State) {
    forall i :: 0 <= i < |s.nodes| ==> s.nodes[i].inflight <= Guards(s.creates, i)
  }

  ghost predicate CountExact(s: State) {
    forall i :: 0 <= i < |s.nodes| ==> s.nodes[i].inflight == Guards(s.creates, i)
  }

  function Max(x: nat, y: nat): nat {
    if x < y then y else x
  }

  function Bit(b: bool): nat {
    if b then 1 else 0
  }

  lemma {:induction false} GuardsUpdate(creates: seq<Create>, t: nat, c: Create, i: nat)
    requires t < |creates|
    ensures Guards(creates[t := c], i) == Guards(creates, i) - Bit(Holds(creates[t], i)) + Bit(Holds(c, i))
    ensures Guards(creates, i) >= Bit(Holds(creates[t], i))
  {
    hide Holds;
    var n := |creates| - 1;
    assert creates[t := c][..n] == if t < n then creates[..n][t := c] else creates[..n];
    if t < n {
      GuardsUpdate(creates[..n], t, c, i);
    }
  }

  lemma GuardsSnoc(creates: seq<Create>, c: Create, i: nat)
    ensures Guards(creates + [c], i) == Guards(creates, i) + Bit(Holds(c, i))
  {
    assert (creates + [c])[..|creates|] == creates;
  }

  lemma StepSound(s: State, e: Event, config: Config)
    requires AllSound(s) && InRange(s) && Enabled(s, e)
    ensures var s' := Step(s, e, config); AllSound(s') && InRange(s') && |s'.nodes| == |s.nodes|
  {
    hide Retain, SaturatingAdd, SaturatingSub, Rejected, NoDuplicates, Itinerary, NextNode, NextCreate, Choose, Sound;
    match e
    case Start(now, arranged, admits) =>
      StartSound(now, arranged, admits);
      SoundInRange(s, Step(s, e, config));
    case Advance(t) =>
      AdvanceSound(s, t);
      SoundInRange(s, Step(s, e, config));
    case Answer(t, outcome) =>
      AwaitedSound(s, t, Step(s, e, config).creates[t].pc);
      SoundInRange(s, Step(s, e, config));
    case Drop(t) =>
      AwaitedSound(s, t, Ended);
      SoundInRange(s, Step(s, e, config));
    case _ =>
      SoundInRange(s, Step(s, e, config));
  }

  lemma SoundInRange(s: State, s': State)
    requires AllSound(s') && |s'.nodes| == |s.nodes|
    ensures InRange(s')
  {
    hide NoDuplicates, Itinerary;
  }

  lemma StartSound(now: nat, arranged: seq<nat>, admits: seq<bool>)
    requires now <= U64_MAX && Arrangement(arranged, |admits|)
    ensures (forall k :: 0 <= k < |arranged| ==> arranged[k] < |admits|)
            && Sound(Create(now, Retain(arranged, admits), [], Choosing), |admits|)
  {
    hide Retain;
    assert forall k :: 0 <= k < |arranged| ==> arranged[k] in arranged;
    RetainExact(arranged, admits);
    var order := Retain(arranged, admits);
    assert Itinerary(Create(now, order, [], Choosing)) == order;
    assert forall k :: 0 <= k < |order| ==> order[k] in order;
  }

  lemma AwaitedSound(s: State, t: nat, pc: Pc)
    requires AllSound(s) && t < |s.creates| && (s.creates[t].pc.Calling? || s.creates[t].pc.Returned?)
    requires pc.Ended? || ((pc.ClearFailures? || pc.DropGuard?) && pc.i == s.creates[t].pc.i)
    ensures Sound(s.creates[t].(pc := pc), |s.nodes|)
  {
    assert Itinerary(s.creates[t].(pc := pc)) == Itinerary(s.creates[t]);
  }

  lemma AdvanceSound(s: State, t: nat)
    requires AllSound(s) && InRange(s) && Enabled(s, Advance(t))
    ensures var c := s.creates[t];
            Sound(if c.pc.Choosing? then Choose(s, c) else NextCreate(s.nodes[c.pc.i], c), |s.nodes|)
  {
    var c := s.creates[t];
    if c.pc.Choosing? {
      var c' := Choose(s, c);
      if c.queue != [] {
        assert Itinerary(c') == Itinerary(c);
      }
    } else {
      var c' := NextCreate(s.nodes[c.pc.i], c);
      if c.pc.LoadGate? || c.pc.SwapGate? {
        SkipDistinct(c.tried, c.pc.i, c.queue);
      }
      assert Itinerary(c') == Itinerary(c) || Itinerary(c') == c.tried + c.queue;
    }
  }

  lemma SkipDistinct(tried: seq<nat>, i: nat, queue: seq<nat>)
    requires NoDuplicates(tried + [i] + queue)
    ensures NoDuplicates(tried + queue)
  {
    var all, less := tried + [i] + queue, tried + queue;
    forall a, b | 0 <= a < b < |less| ensures less[a] != less[b] {
      var a' := if a < |tried| then a else a + 1;
      var b' := if b < |tried| then b else b + 1;
      assert all[a'] == less[a] && all[b'] == less[b];
    }
  }

  lemma AdvanceCounts(s: State, t: nat, config: Config, i: nat)
    requires InRange(s) && Enabled(s, Advance(t)) && i < |s.nodes|
    requires s.nodes[i].inflight <= Guards(s.creates, i)
    ensures var s' := Step(s, Advance(t), config);
            && |s'.nodes| == |s.nodes|
            && Guards(s'.creates, i) - s'.nodes[i].inflight <= Guards(s.creates, i) - s.nodes[i].inflight
            && s'.nodes[i].inflight <= Guards(s'.creates, i)
  {
    hide Retain, SaturatingAdd, Rejected, Guards;
    var s' := Step(s, Advance(t), config);
    GuardsUpdate(s.creates, t, s'.creates[t], i);
  }

  /** How a step changes the counter and the guards of one node. */
  lemma StepCounts(s: State, e: Event, config: Config, i: nat)
    requires InRange(s) && Enabled(s, e) && i < |s.nodes|
    requires s.nodes[i].inflight <= Guards(s.creates, i)
    ensures var s' := Step(s, e, config);
            && |s'.nodes| == |s.nodes|
            && s'.nodes[i].inflight <= Guards(s'.creates, i)
            && (!e.Release? && s.nodes[i].inflight == Guards(s.creates, i) ==>
                  s'.nodes[i].inflight == Guards(s'.creates, i))
  {
    hide Retain, SaturatingAdd, Rejected, Guards, NextNode, NextCreate, Choose;
    var s' := Step(s, e, config);
    match e
    case Start(now, arranged, admits) =>
      GuardsSnoc(s.creates, s'.creates[|s.creates|], i);
    case Advance(t) =>
      AdvanceCounts(s, t, config, i);
    case Answer(t, _) =>
      GuardsUpdate(s.creates, t, s'.creates[t], i);
    case Drop(t) =>
      GuardsUpdate(s.creates, t, s'.creates[t], i);
    case _ =>
  }

  // ---------------------------------------------------------------------------
  // Whole runs.
  // ---------------------------------------------------------------------------

  ghost predicate Good(s: State) {
    AllSound(s) && InRange(s) && NeverOver(s)
  }

  function Init(n: nat): State {
    State(seq(n, _ => Node(0, 0, 0)), [])
  }

  lemma StepGood(s: State, e: Event, config: Config)
    requires Good(s) && Enabled(s, e)
    ensures Good(Step(s, e, config)) && |Step(s, e, config).nodes| == |s.nodes|
    ensures CountExact(s) && !e.Release? ==> CountExact(Step(s, e, config))
  {
    hide AllSound, InRange, Guards, Step, Enabled;
    StepSound(s, e, config);
    forall i | 0 <= i < |s.nodes|
      ensures var s' := Step(s, e, config);
              s'.nodes[i].inflight <= Guards(s'.creates, i)
              && (!e.Release? && s.nodes[i].inflight == Guards(s.creates, i) ==>
                    s'.nodes[i].inflight == Guards(s'.creates, i))
    {
      StepCounts(s, e, config, i);
    }
  }

  /** `states` is a run: each state follows from the one before by an enabled event. */
  ghost predicate Run(states: seq<State>, events: seq<Event>, config: Config) {
    && |states| == |events| + 1
    && (forall k :: 0 <= k < |states| ==> InRange(states[k]))
    && forall k :: 0 <= k < |events| ==> Enabled(states[k], events[k]) && states[k + 1] == Step(states[k], events[k], config)
  }

  /** In every run from a fresh cluster, the counter of a node never exceeds its live
      guards, and equals them as long as the legacy `release` is not used. */
  lemma {:induction false} InflightIsLiveGuards(states: seq<State>, events: seq<Event>, config: Config, n: nat, k: nat)
    requires Run(states, events, config) && states[0] == Init(n) && k < |states|
    ensures Good(states[k]) && |states[k].nodes| == n
    ensures (forall j :: 0 <= j < k ==> !events[j].Release?) ==> CountExact(states[k])
  {
    hide Good, CountExact, Step, Enabled;
    if k == 0 {
      InitGood(n);
    } else {
      InflightIsLiveGuards(states, events, config, n, k - 1);
      assert states[k - 1 + 1] == Step(states[k - 1], events[k - 1], config);
      StepGood(states[k - 1], events[k - 1], config);
    }
  }

  lemma InitGood(n: nat)
    ensures Good(Init(n)) && CountExact(Init(n))
  {
  }

  /** `release` keeps the counts exact only on a node without live guards; otherwise the
      node is counted one short while its guard is still live. */
  lemma ReleaseUndercounts(s: State, config: Config, i: nat)
    requires InRange(s) && CountExact(s) && i < |s.nodes|
    ensures CountExact(Step(s, Release(i), config)) <==> Guards(s.creates, i) == 0
  {
    hide Guards;
    var s' := Step(s, Release(i), config);
    assert s'.creates == s.creates;
    assert s'.nodes[i].inflight == SaturatingSub(Guards(s.creates, i), 1);
  }

  function Total(nodes: seq<Node>): nat {
    if nodes == [] then 0 else Total(nodes[..|nodes| - 1]) + nodes[|nodes| - 1].inflight
  }

  /** Creates that hold a slot: their request is out or they returned a live sandbox. */
  function Holding(creates: seq<Create>, n: nat): nat {
    if creates == [] then 0
    else
      var c := creates[|creates| - 1];
      Holding(creates[..|creates| - 1], n) + Bit(Target(c).Some? && Holds(c, Target(c).value) && Target(c).value < n)
  }

  function SumGuards(creates: seq<Create>, n: nat): nat {
    if n == 0 then 0 else SumGuards(creates, n - 1) + Guards(creates, n - 1)
  }

  lemma {:induction false} SumGuardsIsHolding(creates: seq<Create>, n: nat)
    ensures SumGuards(creates, n) == Holding(creates, n)
  {
    if creates == [] {
      SumNone(n);
    } else {
      SumGuardsIsHolding(creates[..|creates| - 1], n);
      SumSnoc(creates, n);
    }
  }

  lemma {:induction false} SumNone(n: nat)
    ensures SumGuards([], n) == 0
  {
    if n > 0 {
      SumNone(n - 1);
    }
  }

  lemma {:induction false} SumSnoc(creates: seq<Create>, n: nat)
    requires creates != []
    ensures var c := creates[|creates| - 1];
            SumGuards(creates, n) == SumGuards(creates[..|creates| - 1], n)
                                     + Bit(Target(c).Some? && Holds(c, Target(c).value) && Target(c).value < n)
  {
    if n > 0 {
      SumSnoc(creates, n - 1);
    }
  }

  lemma {:induction false} TotalIsSum(nodes: seq<Node>, creates: seq<Create>)
    requires forall i :: 0 <= i < |nodes| ==> nodes[i].inflight == Guards(creates, i)
    ensures Total(nodes) == SumGuards(creates, |nodes|)
  {
    if nodes != [] {
      TotalIsSum(nodes[..|nodes| - 1], creates);
    }
  }

  /** Slots are conserved: their total over the cluster is the number of creates with a
      request out or a live sandbox, so a returned create adds one and an ended one none. */
  lemma SlotsConserved(states: seq<State>, events: seq<Event>, config: Config, n: nat, k: nat)
    requires Run(states, events, config) && states[0] == Init(n) && k < |states|
    requires forall j :: 0 <= j < k ==> !events[j].Release?
    ensures Total(states[k].nodes) == Holding(states[k].creates, n)
  {
    InflightIsLiveGuards(states, events, config, n, k);
    TotalIsSum(states[k].nodes, states[k].creates);
    SumGuardsIsHolding(states[k].creates, n);
  }

  /** In every run no create attempts a node twice. */
  lemma AttemptedOnce(states: seq<State>, events: seq<Event>, config: Config, n: nat, k: nat, t: nat)
    requires Run(states, events, config) && states[0] == Init(n) && k < |states| && t < |states[k].creates|
    ensures NoDuplicates(states[k].creates[t].tried)
  {
    InflightIsLiveGuards(states, events, config, n, k);
    var c := states[k].creates[t];
    assert Sound(c, n);
    forall a, b | 0 <= a < b < |c.tried| ensures c.tried[a] != c.tried[b] {
      assert Itinerary(c)[a] == c.tried[a] && Itinerary(c)[b] == c.tried[b];
    }
  }

  // ---------------------------------------------------------------------------
  // Half-open claims.
  // ---------------------------------------------------------------------------

  /** This event wins the half-open claim on node `i`, for a create that started at `now`. */
  ghost predicate Wins(s: State, e: Event, i: nat, now: nat) {
    && InRange(s) && Enabled(s, e) && e.Advance?
    && var c := s.creates[e.t];
       c.pc.SwapGate? && c.pc.i == i && s.nodes[i].gate == c.pc.seen && c.now == now
  }

  /** This event disarms the gate of node `i`: a success or a successful probe. */
  predicate Disarms(s: State, e: Event, i: nat) {
    || e == ProbeClearGate(i)
    || (e.Advance? && e.t < |s.creates| && s.creates[e.t].pc == ClearGate(i))
  }

  lemma GateStep(s: State, e: Event, config: Config, i: nat)
    requires AllSound(s) && InRange(s) && Enabled(s, e) && i < |s.nodes| && !Disarms(s, e, i)
    ensures |Step(s, e, config).nodes| == |s.nodes| && Step(s, e, config).nodes[i].gate >= Min(s.nodes[i].gate, U64_MAX)
  {
    hide Retain, Rejected, NoDuplicates;
    if e.Advance? {
      assert Sound(s.creates[e.t], |s.nodes|);
    }
  }

  /** Without a disarm the gate only moves forward. */
  lemma {:induction false} GateMonotone(states: seq<State>, events: seq<Event>, config: Config, i: nat, a: nat, b: nat)
    requires Run(states, events, config) && a <= b < |states| && AllSound(states[a]) && i < |states[a].nodes|
    requires forall k :: a <= k < b ==> !Disarms(states[k], events[k], i)
    ensures AllSound(states[b]) && |states[b].nodes| == |states[a].nodes|
    ensures states[b].nodes[i].gate >= Min(states[a].nodes[i].gate, U64_MAX)
    decreases b - a
  {
    hide AllSound, Step, Enabled, Disarms, InRange;
    if a < b {
      GateMonotone(states, events, config, i, a, b - 1);
      assert states[b - 1 + 1] == Step(states[b - 1], events[b - 1], config);
      StepSound(states[b - 1], events[b - 1], config);
      GateStep(states[b - 1], events[b - 1], config, i);
    }
  }

  lemma WinPushesGate(s: State, e: Event, config: Config, i: nat, now: nat)
    requires Wins(s, e, i, now)
    ensures |Step(s, e, config).nodes| == |s.nodes| > i
    ensures Step(s, e, config).nodes[i].gate == SaturatingAdd(now, config.interval)
  {
    hide SaturatingAdd;
  }

  /** Two winning claims on a node with no disarm between them: the later one carries a
      time no earlier than the gate the first one set, whatever else interleaves. */
  lemma ClaimsSpaced(
    states: seq<State>, events: seq<Event>, config: Config, i: nat, a: nat, b: nat, first: nat, second: nat)
    requires Run(states, events, config) && a < b < |events| && AllSound(states[a])
    requires Wins(states[a], events[a], i, first) && Wins(states[b], events[b], i, second)
    requires forall k :: a < k < b ==> !Disarms(states[k], events[k], i)
    ensures second >= SaturatingAdd(first, config.interval)
    ensures config.interval > 0 && first < U64_MAX ==> second > first
  {
    hide Step, Disarms;
    WinPushesGate(states[a], events[a], config, i, first);
    StepSound(states[a], events[a], config);
    GateMonotone(states, events, config, i, a + 1, b);
    var c := states[b].creates[events[b].t];
    assert Sound(c, |states[b].nodes|);
  }

  /** A run of a fresh cluster in which a claim at `first` is followed, with no disarm, by one
      less than an interval later. */
  ghost predicate Bunched(
    states: seq<State>, events: seq<Event>, config: Config, i: nat, a: nat, b: nat, first: nat, second: nat)
  {
    && Run(states, events, config) && states[0] == Init(|states[0].nodes|) && a < b < |events|
    && Wins(states[a], events[a], i, first) && Wins(states[b], events[b], i, second)
    && (forall k :: a < k < b ==> !Disarms(states[k], events[k], i))
    && second < first + config.interval
  }

  /** Claims keep a full interval apart, in every run of a fresh cluster, exactly when the
      first one's gate does not saturate. */
  lemma SpacingExact(config: Config, first: nat)
    requires first <= U64_MAX
    ensures (exists states, events, i: nat, a: nat, b: nat, second: nat :: Bunched(states, events, config, i, a, b, first, second))
            <==> first + config.interval > U64_MAX
  {
    hide Run, Wins, Disarms, Good;
    if states: seq<State>, events, i: nat, a: nat, b: nat, second: nat :| Bunched(states, events, config, i, a, b, first, second) {
      RunLength(states, events, config);
      InflightIsLiveGuards(states, events, config, |states[0].nodes|, a);
      GoodIsSound(states[a]);
      ClaimsSpaced(states, events, config, i, a, b, first, second);
    }
    if first + config.interval > U64_MAX {
      SaturatedClaims(config, first);
    }
  }

  lemma RunLength(states: seq<State>, events: seq<Event>, config: Config)
    requires Run(states, events, config)
    ensures |states| == |events| + 1
  {
    hide InRange, Enabled, Step;
  }

  lemma GoodIsSound(s: State)
    requires Good(s)
    ensures AllSound(s)
  {
    hide AllSound, InRange, NeverOver;
  }

  /** Two runs, the second from where the first ends, are one run. */
  lemma RunConcat(states: seq<State>, events: seq<Event>, more: seq<State>, next: seq<Event>, config: Config)
    requires Run(states, events, config) && Run(more, next, config) && states[|events|] == more[0]
    ensures Run(states + more[1..], events + next, config)
    ensures forall k :: 0 <= k < |more| ==> (states + more[1..])[|events| + k] == more[k]
  {
    hide InRange, Enabled, Step;
    var all, es := states + more[1..], events + next;
    forall k | 0 <= k < |more| ensures all[|events| + k] == more[k] {
    }
    forall k | 0 <= k < |es| ensures Enabled(all[k], es[k]) && InRange(all[k]) && all[k + 1] == Step(all[k], es[k], config) {
      if k < |events| {
        assert all[k] == states[k] && all[k + 1] == states[k + 1];
      } else {
        assert all[k] == more[k - |events|] && all[k + 1] == more[k - |events| + 1];
      }
    }
    forall k | 0 <= k < |all| ensures InRange(all[k]) {
      if k >= |states| {
        assert all[k] == more[k - |events|];
      }
    }
  }

  /** One node, and one create after those in `cs`. */
  function With(cs: seq<Create>, c: Create, node: Node): State {
    State([node], cs + [c])
  }

  function Alone(cs: seq<Create>, node: Node): State {
    State([node], cs)
  }

  /** A create on one node: it starts, picks the node and does one thing after another. */
  lemma StartsOn(cs: seq<Create>, now: nat, node: Node, config: Config)
    requires InRange(Alone(cs, node)) && now <= U64_MAX
    ensures Enabled(Alone(cs, node), Start(now, [0], [true]))
    ensures Step(Alone(cs, node), Start(now, [0], [true]), config) == With(cs, Create(now, [0], [], Choosing), node)
  {
    hide Retain, Arrangement, InRange;
    OnlyNode();
  }

  lemma OnlyNode()
    ensures Arrangement([0], 1) && Retain([0], [true]) == [0]
  {
    assert [0][..0] == [];
  }

  lemma AdvancesOn(cs: seq<Create>, c: Create, node: Node, config: Config)
    requires InRange(With(cs, c, node)) && !c.pc.Calling? && !c.pc.Returned? && !c.pc.Ended?
    ensures Enabled(With(cs, c, node), Advance(|cs|))
    ensures Step(With(cs, c, node), Advance(|cs|), config) ==
            if c.pc.Choosing? then With(cs, Choose(With(cs, c, node), c), node)
            else With(cs, NextCreate(node, c), NextNode(node, c, config.interval))
  {
    hide NextNode, NextCreate, Choose;
    assert (cs + [c])[|cs|] == c;
  }

  lemma RangeOn(cs: seq<Create>, node: Node, node': Node, c: Create)
    requires InRange(Alone(cs, node)) && (c.queue == [] || c.queue == [0]) && (Target(c).Some? ==> Target(c).value == 0)
    ensures InRange(With(cs, c, node'))
  {
    var s := With(cs, c, node');
    forall t | 0 <= t < |s.creates|
      ensures forall k :: 0 <= k < |s.creates[t].queue| ==> s.creates[t].queue[k] < 1
      ensures Target(s.creates[t]).Some? ==> Target(s.creates[t]).value < 1
    {
      if t < |cs| {
        assert s.creates[t] == Alone(cs, node).creates[t];
      }
    }
  }

  function AfterFault(failures: nat): Create {
    Create(0, [], [0], if failures >= FAILURE_TRIP then PushGate(0) else Choosing)
  }

  /** The steps of a create that fails on the node, and the node beside them, up to its next
      step after counting the failure. */
  function FaultStates(cs: seq<Create>, f: nat): seq<State> {
    var node, busy := Node(0, f, 0), Node(1, f, 0);
    [Alone(cs, node),
     With(cs, Create(0, [0], [], Choosing), node),
     With(cs, Create(0, [], [], Arm(0)), node),
     With(cs, Create(0, [], [0], Calling(0)), busy),
     With(cs, Create(0, [], [0], DropGuard(0, Transport)), busy),
     With(cs, Create(0, [], [0], CountFailure(0)), node),
     With(cs, AfterFault(f + 1), Node(0, f + 1, 0))]
  }

  lemma FaultInRange(cs: seq<Create>, f: nat, k: nat)
    requires InRange(Alone(cs, Node(0, f, 0))) && k < 7
    ensures InRange(FaultStates(cs, f)[k])
  {
    hide InRange;
    var node, busy := Node(0, f, 0), Node(1, f, 0);
    RangeOn(cs, node, node, Create(0, [0], [], Choosing));
    RangeOn(cs, node, node, Create(0, [], [], Arm(0)));
    RangeOn(cs, node, busy, Create(0, [], [0], Calling(0)));
    RangeOn(cs, node, busy, Create(0, [], [0], DropGuard(0, Transport)));
    RangeOn(cs, node, node, Create(0, [], [0], CountFailure(0)));
    RangeOn(cs, node, Node(0, f + 1, 0), AfterFault(f + 1));
  }

  function FaultEvents(t: nat): seq<Event> {
    [Start(0, [0], [true]), Advance(t), Advance(t), Answer(t, Failed(Transport)), Advance(t), Advance(t)]
  }

  lemma FaultStep(cs: seq<Create>, f: nat, config: Config, k: nat)
    requires f < FAILURE_TRIP && InRange(Alone(cs, Node(0, f, 0))) && k < 6
    ensures var states, e := FaultStates(cs, f), FaultEvents(|cs|)[k];
            InRange(states[k]) && Enabled(states[k], e) && states[k + 1] == Step(states[k], e, config)
  {
    hide InRange, Step, Enabled, With, Alone;
    FaultInRange(cs, f, k);
    var node, busy := Node(0, f, 0), Node(1, f, 0);
    var c1, c2 := Create(0, [0], [], Choosing), Create(0, [], [], Arm(0));
    if k == 0 {
      StartsOn(cs, 0, node, config);
    } else if k == 1 {
      assert c1.queue[1..] == [];
      PicksOn(cs, c1, node, config);
    } else if k == 2 {
      assert c2.tried + [0] == [0];
      AdvancesOn(cs, c2, node, config);
    } else if k == 3 {
      FailsOn(cs, Create(0, [], [0], Calling(0)), Create(0, [], [0], DropGuard(0, Transport)), busy, config);
    } else if k == 4 {
      AdvancesOn(cs, Create(0, [], [0], DropGuard(0, Transport)), busy, config);
    } else {
      AdvancesOn(cs, Create(0, [], [0], CountFailure(0)), node, config);
    }
  }

  lemma PicksOn(cs: seq<Create>, c: Create, node: Node, config: Config)
    requires InRange(With(cs, c, node)) && c.pc.Choosing? && c.queue == [0]
    ensures Enabled(With(cs, c, node), Advance(|cs|))
    ensures Step(With(cs, c, node), Advance(|cs|), config)
            == With(cs, c.(queue := [], pc := if node.failures < FAILURE_TRIP then Arm(0) else LoadGate(0)), node)
  {
    hide Enabled, Step, InRange;
    AdvancesOn(cs, c, node, config);
    assert c.queue[1..] == [];
  }

  lemma FaultRun(cs: seq<Create>, f: nat, config: Config) returns (states: seq<State>, events: seq<Event>)
    requires f < FAILURE_TRIP && InRange(Alone(cs, Node(0, f, 0)))
    ensures Run(states, events, config) && |events| == 6 && states[0] == Alone(cs, Node(0, f, 0))
    ensures states[6] == Alone(cs + [AfterFault(f + 1)], Node(0, f + 1, 0))
  {
    hide Step, Enabled, InRange;
    states, events := FaultStates(cs, f), FaultEvents(|cs|);
    forall k | 0 <= k < 7 ensures InRange(states[k]) {
      FaultInRange(cs, f, k);
    }
    forall k | 0 <= k < 6 ensures Enabled(states[k], events[k]) && states[k + 1] == Step(states[k], events[k], config) {
      FaultStep(cs, f, config, k);
    }
  }

  lemma FailsOn(cs: seq<Create>, c: Create, c': Create, node: Node, config: Config)
    requires InRange(With(cs, c, node)) && c.pc == Calling(0) && c' == c.(pc := DropGuard(0, Transport))
    ensures Enabled(With(cs, c, node), Answer(|cs|, Failed(Transport)))
    ensures Step(With(cs, c, node), Answer(|cs|, Failed(Transport)), config) == With(cs, c', node)
  {
    assert (cs + [c])[|cs|] == c;
  }

  /** A create that claims the tripped node, whose gate has passed. */
  lemma ClaimRun(cs: seq<Create>, now: nat, gate: nat, config: Config) returns (states: seq<State>, events: seq<Event>)
    requires now <= U64_MAX && (gate == 0 || now >= gate) && InRange(Alone(cs, Node(0, 3, gate)))
    ensures Run(states, events, config) && |events| == 4 && states[0] == Alone(cs, Node(0, 3, gate))
    ensures states[4] == Alone(cs + [Create(now, [], [], Arm(0))], Node(0, 3, SaturatingAdd(now, config.interval)))
    ensures Wins(states[3], events[3], 0, now) && forall k :: 0 <= k < 3 ==> !Disarms(states[k], events[k], 0)
  {
    hide Step, Enabled, InRange, SaturatingAdd;
    var t, node := |cs|, Node(0, 3, gate);
    var node' := Node(0, 3, SaturatingAdd(now, config.interval));
    var c1, c2 := Create(now, [0], [], Choosing), Create(now, [], [], LoadGate(0));
    var c3, c4 := Create(now, [], [], SwapGate(0, gate)), Create(now, [], [], Arm(0));
    RangeOn(cs, node, node, c1);
    RangeOn(cs, node, node, c2);
    RangeOn(cs, node, node, c3);
    RangeOn(cs, node, node', c4);
    StartsOn(cs, now, node, config);
    AdvancesOn(cs, c1, node, config);
    AdvancesOn(cs, c2, node, config);
    AdvancesOn(cs, c3, node, config);
    assert [0][1..] == [];
    states := [Alone(cs, node), With(cs, c1, node), With(cs, c2, node), With(cs, c3, node), With(cs, c4, node')];
    events := [Start(now, [0], [true]), Advance(t), Advance(t), Advance(t)];
  }

  /** Three creates fail; the third has not yet pushed the gate. */
  lemma TrippedRun(config: Config) returns (states: seq<State>, events: seq<Event>, cs: seq<Create>)
    ensures Run(states, events, config) && states[0] == Init(1)
    ensures states[|events|] == Alone(cs, Node(0, 3, 0))
  {
    hide Run, Step, Enabled;
    assert Init(1) == Alone([], Node(0, 0, 0));
    var s1, e1 := FaultRun([], 0, config);
    var cs1 := [] + [AfterFault(1)];
    var s2, e2 := FaultRun(cs1, 1, config);
    var cs2 := cs1 + [AfterFault(2)];
    var s3, e3 := FaultRun(cs2, 2, config);
    RunLength(s1, e1, config);
    RunLength(s2, e2, config);
    RunLength(s3, e3, config);
    RunConcat(s1, e1, s2, e2, config);
    RunConcat(s1 + s2[1..], e1 + e2, s3, e3, config);
    states, events, cs := s1 + s2[1..] + s3[1..], e1 + e2 + e3, cs2 + [AfterFault(3)];
  }

  /** While the third failure is between its count and its push, one create claims at `first`
      and another at the last representable time. */
  lemma SaturatedClaims(config: Config, first: nat)
    requires first <= U64_MAX < first + config.interval
    ensures exists states, events, a: nat, b: nat, second: nat :: Bunched(states, events, config, 0, a, b, first, second)
  {
    hide Run, Step, Enabled, Wins, Disarms, InRange;
    var s1, e1, cs := TrippedRun(config);
    RunLength(s1, e1, config);
    RunInRange(s1, e1, config, |e1|);
    var s2, e2 := ClaimRun(cs, first, 0, config);
    RunLength(s2, e2, config);
    RunInRange(s2, e2, config, 4);
    var s3, e3 := ClaimRun(cs + [Create(first, [], [], Arm(0))], U64_MAX, U64_MAX, config);
    RunLength(s3, e3, config);
    RunConcat(s1, e1, s2, e2, config);
    var s12, e12 := s1 + s2[1..], e1 + e2;
    RunConcat(s12, e12, s3, e3, config);
    var states, events := s12 + s3[1..], e12 + e3;
    var a, b := |e1| + 3, |e1| + 7;
    assert states[a] == s12[a] == s2[3] && events[a] == e2[3];
    assert states[b] == s3[3] && events[b] == e3[3];
    forall k | a < k < b ensures !Disarms(states[k], events[k], 0) {
      assert states[k] == s3[k - a - 1] && events[k] == e3[k - a - 1];
    }
    assert Bunched(states, events, config, 0, a, b, first, U64_MAX);
  }

  lemma RunInRange(states: seq<State>, events: seq<Event>, config: Config, k: nat)
    requires Run(states, events, config) && k < |states|
    ensures InRange(states[k])
  {
    hide Step, Enabled, InRange;
  }

  // ---------------------------------------------------------------------------
  // One create with no interference.
  // ---------------------------------------------------------------------------

  lemma FirstVisit(order: seq<nat>, k: nat)
    requires NoDuplicates(order) && k < |order|
    ensures order[k] !in order[..k]
  {
  }

  /** The answers after which no other node is asked: the sandbox exists, or the node refused
      the request itself. */
  predicate Decisive(answer: Outcome) {
    match answer
    case Created => true
    case Failed(Remote) => true
    case Failed(Http(status)) => 400 <= status <= 499
    case Failed(_) => false
  }

  datatype Verdict = Sandbox(node: nat) | RejectedBy(node: nat) | Unhealthy(lastFailed: Option<nat>)

  class ClusterProvider {
    const config: Config
    var nodes: seq<Node>
    var cursor: nat

    constructor (config: Config, n: nat)
      ensures this.config == config && |nodes| == n && cursor == 0
      ensures forall i :: 0 <= i < n ==> nodes[i] == Node(0, 0, 0)
    {
      this.config := config;
      nodes, cursor := seq(n, _ => Node(0, 0, 0)), 0;
    }

    /** Exactly the admissible nodes, each once, in scheduling order. */
    method CandidateOrder(now: nat) returns (order: seq<nat>)
      requires nodes != []
      modifies this`cursor
      ensures old(cursor) < U64_MAX ==> cursor == old(cursor) + 1
      ensures old(cursor) == U64_MAX ==> cursor == 0
      ensures NoDuplicates(order)
      ensures forall i: nat :: i in order <==> i < |nodes| && Admissible(nodes[i], now)
      ensures InOrder(order, old(cursor) % |nodes|, EffectiveLoads(config.strategy, LoadsOf(nodes)))
    {
      hide Ordering, InOrder, EffectiveLoads, NoDuplicates;
      var loads, admits := LoadsOf(nodes), AdmitsOf(nodes, now);
      var anchor := cursor % |nodes|;
      cursor := (cursor + 1) % (U64_MAX + 1);
      order := Ordering(config.strategy, anchor, loads, admits);
      OrderingExact(config.strategy, anchor, loads, admits);
    }

    /** Uncontended, a claim succeeds exactly on an admissible node, and only a tripped
        node pays for it: its gate moves one interval past the claim. */
    method ClaimTrial(i: nat, now: nat) returns (won: bool)
      requires i < |nodes|
      modifies this`nodes
      ensures won == old(Admissible(nodes[i], now))
      ensures nodes == if won && old(nodes[i]).failures >= FAILURE_TRIP
                       then old(nodes)[i := old(nodes[i]).(gate := SaturatingAdd(now, config.interval))] else old(nodes)
    {
      if nodes[i].failures < FAILURE_TRIP {
        return true;
      }
      var gate := nodes[i].gate;
      if gate != 0 && now < gate {
        return false;
      }
      nodes := nodes[i := nodes[i].(gate := SaturatingAdd(now, config.interval))];
      return true;
    }

    /** The node failed this create: one failure more, and a tripped node is gated for an interval. */
    predicate Faulted(was: Node, node: Node, now: nat) {
      && node.inflight == was.inflight && node.failures == was.failures + 1
      && (if node.failures >= FAILURE_TRIP then node.gate >= SaturatingAdd(now, config.interval) else node.gate == was.gate)
    }

    /** One attempt on a claimed node: the slot is kept on success and given back otherwise. */
    method Attempt(i: nat, now: nat, answer: Outcome) returns (verdict: Option<Verdict>)
      requires i < |nodes|
      modifies this`nodes
      ensures |nodes| == old(|nodes|) && forall j :: 0 <= j < |nodes| && j != i ==> nodes[j] == old(nodes[j])
      ensures answer.Created? ==> verdict == Some(Sandbox(i)) && nodes[i] == Node(old(nodes[i].inflight) + 1, 0, 0)
      ensures answer.Failed? && Decisive(answer) ==> verdict == Some(RejectedBy(i)) && nodes[i] == old(nodes[i])
      ensures !Decisive(answer) ==>
                verdict.None? && nodes[i].inflight == old(nodes[i].inflight) && nodes[i].failures == old(nodes[i].failures) + 1
                && nodes[i].gate == if nodes[i].failures < 3 then old(nodes[i].gate)
                                    else Max(old(nodes[i].gate), SaturatingAdd(now, config.interval))
    {
      nodes := nodes[i := nodes[i].(inflight := nodes[i].inflight + 1)];
      match answer
      case Created =>
        nodes := nodes[i := nodes[i].(failures := 0)];
        nodes := nodes[i := nodes[i].(gate := 0)];
        return Some(Sandbox(i));
      case Failed(error) =>
        nodes := nodes[i := nodes[i].(inflight := SaturatingSub(nodes[i].inflight, 1))];
        if Rejected(error) {
          return Some(RejectedBy(i));
        }
        nodes := nodes[i := nodes[i].(failures := nodes[i].failures + 1)];
        if nodes[i].failures >= FAILURE_TRIP {
          nodes := nodes[i := nodes[i].(gate := Max(nodes[i].gate, SaturatingAdd(now, config.interval)))];
        }
        return None;
    }

    method ClaimAndAttempt(i: nat, now: nat, answer: Outcome) returns (won: bool, verdict: Option<Verdict>)
      requires i < |nodes|
      modifies this`nodes
      ensures won == old(Admissible(nodes[i], now)) && (!won ==> nodes == old(nodes) && verdict.None?)
      ensures |nodes| == old(|nodes|) && forall j :: 0 <= j < |nodes| && j != i ==> nodes[j] == old(nodes[j])
      ensures won && answer.Created? ==> verdict == Some(Sandbox(i)) && nodes[i] == Node(old(nodes[i].inflight) + 1, 0, 0)
      ensures won && answer.Failed? && Decisive(answer) ==>
                verdict == Some(RejectedBy(i)) && nodes[i].inflight == old(nodes[i].inflight)
                && nodes[i].failures == old(nodes[i].failures)
      ensures won && !Decisive(answer) ==> verdict.None? && Faulted(old(nodes[i]), nodes[i], now)
    {
      hide Decisive, SaturatingAdd;
      won := ClaimTrial(i, now);
      if !won {
        return false, None;
      }
      verdict := Attempt(i, now, answer);
    }

    /** The first candidate to create the sandbox or to refuse it decides; the ones before it
        failed and are counted so, the ones after it are not touched. A created sandbox
        leaves one more slot in use on its node, with the breaker closed; nothing else
        changes a slot count. `decided` is the place in `order` where it ended. */
    method CreateSandbox(now: nat, answers: seq<Outcome>)
      returns (verdict: Verdict, ghost order: seq<nat>, ghost decided: nat)
      requires nodes != [] && |answers| == |nodes|
      modifies this
      ensures |nodes| == old(|nodes|) && NoDuplicates(order)
      ensures forall i: nat :: i in order <==> i < |nodes| && old(Admissible(nodes[i], now))
      ensures InOrder(order, old(cursor) % |nodes|, EffectiveLoads(config.strategy, LoadsOf(old(nodes))))
      ensures decided <= |order|
      ensures forall k :: 0 <= k < decided ==>
                order[k] < |nodes| && !Decisive(answers[order[k]]) && Faulted(old(nodes)[order[k]], nodes[order[k]], now)
      ensures decided == |order| ==> verdict == Unhealthy(if order == [] then None else Some(order[|order| - 1]))
      ensures decided < |order| ==>
                var i := order[decided];
                && i < |nodes| && Decisive(answers[i])
                && verdict == (if answers[i].Created? then Sandbox(i) else RejectedBy(i))
                && (if answers[i].Created? then nodes[i] == Node(old(nodes)[i].inflight + 1, 0, 0)
                    else nodes[i].inflight == old(nodes)[i].inflight && nodes[i].failures == old(nodes)[i].failures)
      ensures forall i :: 0 <= i < |nodes| && i !in order[..decided] && !(decided < |order| && i == order[decided]) ==>
                nodes[i] == old(nodes[i])
      ensures forall i :: 0 <= i < |nodes| ==> nodes[i].inflight == old(nodes[i].inflight) + Bit(verdict == Sandbox(i))
    {
      hide Ordering, InOrder, Decisive, SaturatingAdd, EffectiveLoads, NoDuplicates;
      var candidates := CandidateOrder(now);
      order := candidates;
      var last: Option<nat> := None;
      for k := 0 to |candidates|
        invariant |nodes| == old(|nodes|) && (if k == 0 then last.None? else last == Some(candidates[k - 1]))
        invariant forall i :: 0 <= i < |nodes| && i !in candidates[..k] ==> nodes[i] == old(nodes[i])
        invariant forall j :: 0 <= j < k ==>
                    candidates[j] < |nodes| && !Decisive(answers[candidates[j]])
                    && Faulted(old(nodes)[candidates[j]], nodes[candidates[j]], now)
        invariant forall i :: 0 <= i < |nodes| ==> nodes[i].inflight == old(nodes[i].inflight)
      {
        var i := candidates[k];
        assert i in candidates;
        assert candidates[..k + 1] == candidates[..k] + [i];
        FirstVisit(candidates, k);
        assert nodes[i] == old(nodes[i]);
        decided := k;
        var won, result := ClaimAndAttempt(i, now, answers[i]);
        if !won {
          assert false;
        }
        if result.Some? {
          return result.value, order, decided;
        }
        last := Some(i);
      }
      decided := |candidates|;
      return Unhealthy(last), order, decided;
    }
  }

  // ---------------------------------------------------------------------------
  // The concurrent steps, taken without interference.
  // ---------------------------------------------------------------------------

  /** Taking `events` one after the other leads from `s` to `end`. */
  ghost predicate Leads(s: State, events: seq<Event>, end: State, config: Config)
    decreases |events|
  {
    if events == [] then s == end
    else InRange(s) && Enabled(s, events[0]) && Leads(Step(s, events[0], config), events[1..], end, config)
  }

  /** `s` with node `i` and create `t` replaced. */
  function Changed(s: State, i: nat, node: Node, t: nat, c: Create): State
    requires i < |s.nodes| && t < |s.creates|
  {
    State(s.nodes[i := node], s.creates[t := c])
  }

  lemma ChangedInRange(s: State, i: nat, node: Node, t: nat, c: Create)
    requires InRange(s) && i < |s.nodes| && t < |s.creates|
    requires c.queue == s.creates[t].queue || (s.creates[t].queue != [] && c.queue == s.creates[t].queue[1..])
    requires Target(c).Some? ==> Target(c).value == i
    ensures InRange(Changed(s, i, node, t, c))
  {
    var s' := Changed(s, i, node, t, c);
    forall u | 0 <= u < |s'.creates|
      ensures forall k :: 0 <= k < |s'.creates[u].queue| ==> s'.creates[u].queue[k] < |s'.nodes|
      ensures Target(s'.creates[u]).Some? ==> Target(s'.creates[u]).value < |s'.nodes|
    {
      assert s.creates[u] == s.creates[u];
    }
  }

  lemma ChangedAdvances(s: State, i: nat, node: Node, t: nat, c: Create, config: Config)
    requires i < |s.nodes| && t < |s.creates| && InRange(Changed(s, i, node, t, c))
    requires Target(c) == Some(i) && !c.pc.Calling? && !c.pc.Returned?
    ensures Enabled(Changed(s, i, node, t, c), Advance(t))
    ensures Step(Changed(s, i, node, t, c), Advance(t), config)
            == Changed(s, i, NextNode(node, c, config.interval), t, NextCreate(node, c))
  {
    hide NextNode, NextCreate, InRange;
    assert s.nodes[i := node][i := NextNode(node, c, config.interval)] == s.nodes[i := NextNode(node, c, config.interval)];
    assert s.creates[t := c][t := NextCreate(node, c)] == s.creates[t := NextCreate(node, c)];
  }

  lemma ChangedAnswers(s: State, i: nat, node: Node, t: nat, c: Create, outcome: Outcome, config: Config)
    requires i < |s.nodes| && t < |s.creates| && InRange(Changed(s, i, node, t, c)) && c.pc == Calling(i)
    ensures Enabled(Changed(s, i, node, t, c), Answer(t, outcome))
    ensures Step(Changed(s, i, node, t, c), Answer(t, outcome), config)
            == Changed(s, i, node, t, c.(pc := if outcome.Created? then ClearFailures(i) else DropGuard(i, outcome.error)))
  {
    hide InRange;
    var c' := c.(pc := if outcome.Created? then ClearFailures(i) else DropGuard(i, outcome.error));
    assert s.creates[t := c][t := c'] == s.creates[t := c'];
  }

  /** An attempt left alone: a created sandbox keeps its slot and closes the breaker; a refusal
      (Remote or 4xx) ends the create with the node as it was; any other failure is counted,
      gates a node that trips, and sends the create on to its next candidate. */
  lemma AttemptAlone(s: State, t: nat, outcome: Outcome, config: Config)
    requires InRange(s) && t < |s.creates| && s.creates[t].pc.Arm?
    ensures var c, i := s.creates[t], s.creates[t].pc.i;
            var node := s.nodes[i];
            var tried := c.(tried := c.tried + [i]);
            var start := [Advance(t), Answer(t, outcome), Advance(t)];
            if outcome.Created? then
              Leads(s, start + [Advance(t)], Changed(s, i, Node(node.inflight + 1, 0, 0), t, tried.(pc := Returned(i))), config)
            else if Decisive(outcome) then
              Leads(s, start, Changed(s, i, node, t, tried.(pc := Ended)), config)
            else if node.failures + 1 < 3 then
              Leads(s, start + [Advance(t)],
                    Changed(s, i, node.(failures := node.failures + 1), t, tried.(pc := Choosing)), config)
            else
              Leads(s, start + [Advance(t), Advance(t)],
                    Changed(s, i, Node(node.inflight, node.failures + 1, Max(node.gate, SaturatingAdd(c.now, config.interval))),
                            t, tried.(pc := Choosing)), config)
  {
    hide InRange, Enabled, Step, SaturatingAdd, Leads;
    var c, i := s.creates[t], s.creates[t].pc.i;
    assert i < |s.nodes| by { TargetInRange(s, t); }
    var node, tried := s.nodes[i], c.(tried := c.tried + [i]);
    var busy := node.(inflight := node.inflight + 1);
    var n1, c1 := busy, tried.(pc := Calling(i));
    assert s == Changed(s, i, node, t, c);
    ChangedAdvances(s, i, node, t, c, config);
    ChangedInRange(s, i, n1, t, c1);
    ChangedAnswers(s, i, n1, t, c1, outcome, config);
    var c2 := tried.(pc := if outcome.Created? then ClearFailures(i) else DropGuard(i, outcome.error));
    ChangedInRange(s, i, n1, t, c2);
    ChangedAdvances(s, i, n1, t, c2, config);
    var n3, c3 := NextNode(n1, c2, config.interval), NextCreate(n1, c2);
    if outcome.Failed? && Decisive(outcome) {
      LeadsThree(s, Changed(s, i, n1, t, c1), Changed(s, i, n1, t, c2), Advance(t), Answer(t, outcome), Advance(t), config);
    } else {
      ChangedInRange(s, i, n3, t, c3);
      ChangedAdvances(s, i, n3, t, c3, config);
      var n4, c4 := NextNode(n3, c3, config.interval), NextCreate(n3, c3);
      if outcome.Created? || node.failures + 1 < 3 {
        LeadsOne(Changed(s, i, n3, t, c3), Advance(t), config);
        LeadsOn(s, Changed(s, i, n1, t, c1), Changed(s, i, n1, t, c2), Changed(s, i, n3, t, c3), Advance(t), Answer(t, outcome),
                Advance(t), [Advance(t)], Changed(s, i, n4, t, c4), config);
      } else {
        ChangedInRange(s, i, n4, t, c4);
        ChangedAdvances(s, i, n4, t, c4, config);
        LeadsTwo(Changed(s, i, n3, t, c3), Advance(t), Advance(t), config);
        var n5, c5 := NextNode(n4, c4, config.interval), NextCreate(n4, c4);
        LeadsOn(s, Changed(s, i, n1, t, c1), Changed(s, i, n1, t, c2), Changed(s, i, n3, t, c3), Advance(t), Answer(t, outcome),
                Advance(t), [Advance(t), Advance(t)], Changed(s, i, n5, t, c5), config);
      }
    }
  }

  lemma TargetInRange(s: State, t: nat)
    requires InRange(s) && t < |s.creates| && Target(s.creates[t]).Some?
    ensures Target(s.creates[t]).value < |s.nodes|
  {
  }

  lemma LeadsOne(s: State, a: Event, config: Config)
    requires InRange(s) && Enabled(s, a)
    ensures Leads(s, [a], Step(s, a, config), config)
  {
    hide Step, Enabled, InRange;
    assert [a][1..] == [];
  }

  lemma LeadsTwo(s: State, a: Event, b: Event, config: Config)
    requires InRange(s) && Enabled(s, a)
    requires InRange(Step(s, a, config)) && Enabled(Step(s, a, config), b)
    ensures Leads(s, [a, b], Step(Step(s, a, config), b, config), config)
  {
    hide Step, Enabled, InRange;
    LeadsOne(Step(s, a, config), b, config);
    assert [a, b][1..] == [b];
  }

  lemma LeadsOn(s: State, s1: State, s2: State, s3: State, a: Event, b: Event, c: Event, rest: seq<Event>, end: State, config: Config)
    requires InRange(s) && Enabled(s, a) && Step(s, a, config) == s1
    requires InRange(s1) && Enabled(s1, b) && Step(s1, b, config) == s2
    requires InRange(s2) && Enabled(s2, c) && Step(s2, c, config) == s3 && Leads(s3, rest, end, config)
    ensures Leads(s, [a, b, c] + rest, end, config)
  {
    hide Step, Enabled, InRange;
    var e2, e1, e0 := [c] + rest, [b, c] + rest, [a, b, c] + rest;
    assert e2[1..] == rest && e1[1..] == e2 && e0[1..] == e1;
    assert Leads(s2, e2, end, config);
    assert Leads(s1, e1, end, config);
  }

  lemma LeadsThree(s: State, s1: State, s2: State, a: Event, b: Event, c: Event, config: Config)
    requires InRange(s) && Enabled(s, a) && Step(s, a, config) == s1
    requires InRange(s1) && Enabled(s1, b) && Step(s1, b, config) == s2
    requires InRange(s2) && Enabled(s2, c)
    ensures Leads(s, [a, b, c], Step(s2, c, config), config)
  {
    hide Step, Enabled, InRange;
    var s3 := Step(s2, c, config);
    assert Leads(s3, [], s3, config);
    LeadsOn(s, s1, s2, s3, a, b, c, [], s3, config);
    assert [a, b, c] + [] == [a, b, c];
  }

  /** A claim left alone succeeds exactly on an admissible node, and pushes the gate of a tripped
      one an interval past the create's time; otherwise the create goes on to its next candidate. */
  lemma ClaimAlone(s: State, t: nat, config: Config)
    requires InRange(s) && t < |s.creates| && s.creates[t].pc.Choosing? && s.creates[t].queue != []
    ensures var c, i := s.creates[t], s.creates[t].queue[0];
            && i < |s.nodes|
            && var node, left := s.nodes[i], c.(queue := c.queue[1..]);
               if node.failures < 3 then
                 Leads(s, [Advance(t)], Changed(s, i, node, t, left.(pc := Arm(i))), config)
               else if node.gate != 0 && c.now < node.gate then
                 Leads(s, [Advance(t), Advance(t)], Changed(s, i, node, t, left), config)
               else
                 Leads(s, [Advance(t), Advance(t), Advance(t)],
                       Changed(s, i, node.(gate := SaturatingAdd(c.now, config.interval)), t, left.(pc := Arm(i))), config)
  {
    hide InRange, Enabled, Step, SaturatingAdd, Leads;
    var c := s.creates[t];
    assert c.queue[0] < |s.nodes| by { QueueInRange(s, t); }
    var i := c.queue[0];
    var node, left := s.nodes[i], c.(queue := c.queue[1..]);
    PicksFirst(s, t, config);
    if node.failures < 3 {
      LeadsOne(s, Advance(t), config);
    } else {
      var c1 := left.(pc := LoadGate(i));
      ChangedInRange(s, i, node, t, c1);
      ChangedAdvances(s, i, node, t, c1, config);
      if node.gate != 0 && c.now < node.gate {
        LeadsTwo(s, Advance(t), Advance(t), config);
      } else {
        var c2 := left.(pc := SwapGate(i, node.gate));
        ChangedInRange(s, i, node, t, c2);
        ChangedAdvances(s, i, node, t, c2, config);
        LeadsThree(s, Changed(s, i, node, t, c1), Changed(s, i, node, t, c2), Advance(t), Advance(t), Advance(t), config);
      }
    }
  }

  lemma QueueInRange(s: State, t: nat)
    requires InRange(s) && t < |s.creates| && s.creates[t].queue != []
    ensures s.creates[t].queue[0] < |s.nodes|
  {
  }

  lemma PicksFirst(s: State, t: nat, config: Config)
    requires InRange(s) && t < |s.creates| && s.creates[t].pc.Choosing? && s.creates[t].queue != []
    ensures s.creates[t].queue[0] < |s.nodes| && Enabled(s, Advance(t))
    ensures var c, i := s.creates[t], s.creates[t].queue[0];
            Step(s, Advance(t), config)
            == Changed(s, i, s.nodes[i], t,
                       c.(queue := c.queue[1..], pc := if s.nodes[i].failures < 3 then Arm(i) else LoadGate(i)))
  {
    var i := s.creates[t].queue[0];
    assert s.nodes[i := s.nodes[i]] == s.nodes;
  }

  /** A failed probe of a tripped node keeps it out for an interval; a successful one lets
      it back in at once. */
  lemma ProbeGates(s: State, i: nat, now: nat, time: nat, config: Config)
    requires InRange(s) && i < |s.nodes| && now <= U64_MAX
    ensures s.nodes[i].failures >= 3 && time < SaturatingAdd(now, config.interval) ==>
              !Admissible(Step(s, ProbePushGate(i, now), config).nodes[i], time)
    ensures var cleared := Step(s, ProbeClearFailures(i), config);
            InRange(cleared) && Step(cleared, ProbeClearGate(i), config).nodes[i] == Node(s.nodes[i].inflight, 0, 0)
    ensures Admissible(Node(s.nodes[i].inflight, 0, 0), time)
  {
    hide SaturatingAdd;
  }
}
