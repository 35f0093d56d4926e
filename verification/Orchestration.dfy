/** Host-side worker orchestration (`RuntimeManager` in `orchestration.rs`).

    The manager shares a session table and per-session generations. Every
    lock-held region is one atomic step; between steps any other caller, the
    adapter or a reaper may run, so a run is an arbitrary sequence of steps. */
module Orchestration {
  import opened Common

  /** Identity of a worker the adapter returned. */
  type Worker = nat

  datatype Status = Provisioning | Running | Cancelling | Stopped | Failed

  datatype Handle = Handle(vm: nat, status: Status, error: Option<string>, worker: Option<Worker>)

  type Table = map<string, Handle>

  type Generations = map<string, nat>

  // ---------------------------------------------------------------------------
  // The lock-held regions.
  // ---------------------------------------------------------------------------

  function GenerationOf(g: Generations, id: string): nat {
    if id in g then g[id] else 1
  }

  /** `wrapping_add(1)` on the session's generation. */
  function Bump(g: Generations, id: string): Generations {
    g[id := (GenerationOf(g, id) + 1) % (U64_MAX + 1)]
  }

  function Placeholder(vm: nat): Handle {
    Handle(vm, Provisioning, None, None)
  }

  datatype CommitOutcome = CommitOutcome(table: Table, returned: Handle, destroy: Option<Worker>)

  predicate StillOwner(table: Table, g: Generations, id: string, generation: nat, vm: nat) {
    GenerationOf(g, id) == generation && id in table && table[id].vm == vm
  }

  predicate StalePlaceholder(table: Table, id: string, vm: nat) {
    id in table && table[id].vm == vm && table[id].status == Provisioning
  }

  /** The last region of a create: publish the result, or give the worker up. */
  function Commit(table: Table, g: Generations, id: string, generation: nat, h: Handle): CommitOutcome {
    if StillOwner(table, g, id, generation, h.vm) then CommitOutcome(table[id := h], h, None)
    else if h.worker.Some? then
      var table' := if StalePlaceholder(table, id, h.vm) then table - {id} else table;
      CommitOutcome(table', if id in table' then table'[id] else h.(worker := None), h.worker)
    else CommitOutcome(table, h, None)
  }

  function FinishedCancel(h: Handle, error: Option<string>): Handle {
    h.(status := if error.Some? then Failed else Stopped, error := error)
  }

  // ---------------------------------------------------------------------------
  // Interleavings.
  // ---------------------------------------------------------------------------

  /** Where a `create_for_session` call is suspended once it found no entry. The
      call is identified by the virtual machine id it drew. */
  datatype Create =
    | ReadyToInsert(id: string, generation: nat)
    | Waiting(id: string, generation: nat)
    | Provisioned(id: string, generation: nat, handle: Handle)

  /** Where the one cancel or destroy call holding the manager lock is suspended. */
  datatype Closer =
    | Idle
    | CancelBumped(id: string)
    | CancelRead(id: string, worker: Option<Worker>)
    | CancelMarked(id: string, worker: Option<Worker>)
    | DestroyBumped(id: string)
    | Destroying(id: string)

  datatype Provision = Pending | Ready(worker: Worker) | NoWorker

  /** A spawned provisioning task; its join handle sits in the create call until
      the timeout moves it into a reaper (`late`). */
  datatype Task = Task(late: bool, result: Provision)

  /** Who answers for a worker. */
  datatype Owner = PendingCreate(vm: nat) | LateReaper(vm: nat) | TableEntry(id: string) | GivenToDestroy

  /** What happened so far: the handle each finished create returned, how often each
      session's generation was bumped, and after how many of those bumps each create read it. */
  datatype Past = Past(returned: map<nat, Handle>, bumps: map<string, nat>, readAt: map<nat, nat>)

  /** `destroyed` and `cancelled` collect the workers handed to the adapter;
      `ledger` records who answers for each worker it ever returned. */
  datatype State = State(
    table: Table, generations: Generations, nextId: nat,
    creates: map<nat, Create>, tasks: map<nat, Task>, closer: Closer,
    destroyed: set<Worker>, cancelled: set<Worker>, ledger: map<Worker, Owner>, past: Past)

  const INITIAL := State(map[], map[], 1, map[], map[], Idle, {}, {}, map[], Past(map[], map[], map[]))

  function BumpsOf(past: Past, id: string): nat {
    if id in past.bumps then past.bumps[id] else 0
  }

  function Returning(past: Past, vm: nat, h: Handle): Past {
    past.(returned := past.returned[vm := h])
  }

  datatype Event =
    | Begin(id: string)
    | Insert(vm: nat)
    | Provide(vm: nat, worker: Option<Worker>)
    | Join(vm: nat)
    | TimeOut(vm: nat)
    | Publish(vm: nat)
    | Reap(vm: nat)
    | BeginCancel(id: string)
    | ReadWorker
    | Mark
    | EndCancel(error: Option<string>)
    | BeginDestroy(id: string)
    | Take
    | EndDestroy

  function Assign(ledger: map<Worker, Owner>, worker: Option<Worker>, owner: Owner): map<Worker, Owner> {
    if worker.Some? then ledger[worker.value := owner] else ledger
  }

  function Add(workers: set<Worker>, worker: Option<Worker>): set<Worker> {
    if worker.Some? then workers + {worker.value} else workers
  }

  function ResultWorker(p: Provision): Option<Worker> {
    if p.Ready? then Some(p.worker) else None
  }

  function Awaiter(vm: nat, task: Task): Owner {
    if task.late then LateReaper(vm) else PendingCreate(vm)
  }

  // Steps of a create call.

  /** The call read the generation and drew a virtual machine id. */
  function BeginStep(s: State, id: string): State {
    s.(creates := s.creates[s.nextId := ReadyToInsert(id, GenerationOf(s.generations, id))], nextId := s.nextId + 1,
       past := s.past.(readAt := s.past.readAt[s.nextId := BumpsOf(s.past, id)]))
  }

  function InsertStep(s: State, vm: nat): State {
    if vm !in s.creates || !s.creates[vm].ReadyToInsert? then s else
      var ReadyToInsert(id, generation) := s.creates[vm];
      if id in s.table then s.(creates := s.creates - {vm}, past := Returning(s.past, vm, s.table[id]))
      else s.(table := s.table[id := Placeholder(vm)],
              creates := s.creates[vm := Waiting(id, generation)],
              tasks := s.tasks[vm := Task(false, Pending)])
  }

  function JoinStep(s: State, vm: nat): State {
    if vm !in s.creates || !s.creates[vm].Waiting? || vm !in s.tasks || s.tasks[vm].result.Pending? then s else
      var Waiting(id, generation) := s.creates[vm];
      var worker := ResultWorker(s.tasks[vm].result);
      var h := if worker.Some? then Handle(vm, Running, None, worker)
               else Handle(vm, Failed, Some("runtime provisioning failed"), None);
      s.(creates := s.creates[vm := Provisioned(id, generation, h)], tasks := s.tasks - {vm})
  }

  function TimeOutStep(s: State, vm: nat): State {
    if vm !in s.creates || !s.creates[vm].Waiting? || vm !in s.tasks then s else
      var Waiting(id, generation) := s.creates[vm];
      var h := Handle(vm, Failed, Some("runtime provisioning timed out"), None);
      s.(creates := s.creates[vm := Provisioned(id, generation, h)],
         tasks := s.tasks[vm := s.tasks[vm].(late := true)],
         ledger := Assign(s.ledger, ResultWorker(s.tasks[vm].result), LateReaper(vm)))
  }

  function PublishStep(s: State, vm: nat): State {
    if vm !in s.creates || !s.creates[vm].Provisioned? then s else
      var Provisioned(id, generation, h) := s.creates[vm];
      var o := Commit(s.table, s.generations, id, generation, h);
      s.(table := o.table, creates := s.creates - {vm}, destroyed := Add(s.destroyed, o.destroy),
         ledger := Assign(s.ledger, h.worker, if o.destroy.Some? then GivenToDestroy else TableEntry(id)),
         past := Returning(s.past, vm, o.returned))
  }

  /** The adapter finishes a provisioning task, with a worker it never returned before or without one. */
  function ProvideStep(s: State, vm: nat, worker: Option<Worker>): State {
    if vm in s.tasks && s.tasks[vm].result.Pending? && (worker.Some? ==> worker.value !in s.ledger) then
      var result := if worker.Some? then Ready(worker.value) else NoWorker;
      s.(tasks := s.tasks[vm := s.tasks[vm].(result := result)],
         ledger := Assign(s.ledger, worker, Awaiter(vm, s.tasks[vm])))
    else s
  }

  /** A reaper sees its late task finish and destroys the worker, if any. */
  function ReapStep(s: State, vm: nat): State {
    if vm in s.tasks && s.tasks[vm].late && !s.tasks[vm].result.Pending? then
      var worker := ResultWorker(s.tasks[vm].result);
      s.(tasks := s.tasks - {vm}, destroyed := Add(s.destroyed, worker), ledger := Assign(s.ledger, worker, GivenToDestroy))
    else s
  }

  // Steps of the cancel or destroy call that holds the manager lock.

  function BeginCloseStep(s: State, id: string, closer: Closer): State {
    if !s.closer.Idle? then s
    else s.(generations := Bump(s.generations, id), closer := closer,
            past := s.past.(bumps := s.past.bumps[id := BumpsOf(s.past, id) + 1]))
  }

  function ReadWorkerStep(s: State): State {
    if !s.closer.CancelBumped? then s else
      var id := s.closer.id;
      s.(closer := if id in s.table then CancelRead(id, s.table[id].worker) else Idle)
  }

  function MarkStep(s: State): State {
    if !s.closer.CancelRead? then s else
      var CancelRead(id, worker) := s.closer;
      if id !in s.table then s.(closer := Idle)
      else s.(table := s.table[id := s.table[id].(status := Cancelling)],
              closer := CancelMarked(id, worker), cancelled := Add(s.cancelled, worker))
  }

  function EndCancelStep(s: State, error: Option<string>): State {
    if !s.closer.CancelMarked? then s else
      var CancelMarked(id, worker) := s.closer;
      var outcome := if worker.Some? then error else None;
      s.(table := if id in s.table then s.table[id := FinishedCancel(s.table[id], outcome)] else s.table, closer := Idle)
  }

  function TakeStep(s: State): State {
    if !s.closer.DestroyBumped? then s else
      var id := s.closer.id;
      if id !in s.table then s.(closer := Idle)
      else s.(table := s.table - {id}, closer := Destroying(id), destroyed := Add(s.destroyed, s.table[id].worker),
              ledger := Assign(s.ledger, s.table[id].worker, GivenToDestroy))
  }

  function EndDestroyStep(s: State): State {
    if s.closer.Destroying? then s.(closer := Idle) else s
  }

  /** One atomic step; an event that is not possible in `s` changes nothing. */
  function Step(s: State, e: Event): State {
    match e
    case Begin(id) => BeginStep(s, id)
    case Insert(vm) => InsertStep(s, vm)
    case Provide(vm, worker) => ProvideStep(s, vm, worker)
    case Join(vm) => JoinStep(s, vm)
    case TimeOut(vm) => TimeOutStep(s, vm)
    case Publish(vm) => PublishStep(s, vm)
    case Reap(vm) => ReapStep(s, vm)
    case BeginCancel(id) => BeginCloseStep(s, id, CancelBumped(id))
    case ReadWorker => ReadWorkerStep(s)
    case Mark => MarkStep(s)
    case EndCancel(error) => EndCancelStep(s, error)
    case BeginDestroy(id) => BeginCloseStep(s, id, DestroyBumped(id))
    case Take => TakeStep(s)
    case EndDestroy => EndDestroyStep(s)
  }

  /** The state after a run: any sequence of events, from the empty manager. */
  function Run(events: seq<Event>): State {
    if events == [] then INITIAL else Step(Run(events[..|events| - 1]), events[|events| - 1])
  }

  // ---------------------------------------------------------------------------
  // What every step keeps.
  // ---------------------------------------------------------------------------

  /** `owner` answers for `w`. */
  predicate Holds(s: State, owner: Owner, w: Worker) {
    match owner
    case PendingCreate(vm) =>
      (vm in s.tasks && s.tasks[vm] == Task(false, Ready(w)))
      || (vm in s.creates && s.creates[vm].Provisioned? && s.creates[vm].handle.worker == Some(w))
    case LateReaper(vm) => vm in s.tasks && s.tasks[vm] == Task(true, Ready(w))
    case TableEntry(id) => id in s.table && s.table[id].worker == Some(w)
    case GivenToDestroy => w in s.destroyed
  }

  /** Virtual machine ids are never shared, and an entry whose create is still
      under way is only a placeholder. */
  ghost predicate IdsUnique(s: State) {
    && (forall vm :: vm in s.creates ==> vm < s.nextId)
    && (forall vm :: vm in s.tasks ==> vm < s.nextId)
    && (forall id :: id in s.table ==> s.table[id].vm < s.nextId)
    && (forall vm :: vm in s.creates && s.creates[vm].Provisioned? ==> s.creates[vm].handle.vm == vm)
    && (forall id :: id in s.table && s.table[id].vm in s.creates ==>
          var c := s.creates[s.table[id].vm]; !c.ReadyToInsert? && c.id == id && s.table[id].worker.None?)
    && (forall id, jd :: id in s.table && jd in s.table && id != jd ==> s.table[id].vm != s.table[jd].vm)
  }

  /** A task is awaited by the create that spawned it or by its reaper. */
  ghost predicate TasksAwaited(s: State) {
    && (forall vm :: vm in s.tasks && !s.tasks[vm].late ==> vm in s.creates && s.creates[vm].Waiting?)
    && (forall vm :: vm in s.creates && s.creates[vm].Waiting? ==> vm in s.tasks && !s.tasks[vm].late)
    && (forall vm :: vm in s.creates && s.creates[vm].ReadyToInsert? ==> vm !in s.tasks)
  }

  predicate Owes(s: State, w: Worker, owner: Owner) {
    w in s.ledger && s.ledger[w] == owner
  }

  /** Each worker is held by the owner written in the ledger. */
  ghost predicate LedgerHeld(s: State) {
    forall w :: w in s.ledger ==> Holds(s, s.ledger[w], w)
  }

  /** Whoever holds a worker is written in the ledger. */
  ghost predicate LedgerCovers(s: State) {
    && (forall vm :: vm in s.tasks && s.tasks[vm].result.Ready? ==> Owes(s, s.tasks[vm].result.worker, Awaiter(vm, s.tasks[vm])))
    && (forall vm :: vm in s.creates && s.creates[vm].Provisioned? && s.creates[vm].handle.worker.Some? ==>
          Owes(s, s.creates[vm].handle.worker.value, PendingCreate(vm)))
    && (forall id :: id in s.table && s.table[id].worker.Some? ==> Owes(s, s.table[id].worker.value, TableEntry(id)))
    && (forall w :: w in s.destroyed ==> Owes(s, w, GivenToDestroy))
  }

  /** A cancel that read a worker still finds that worker in the table. */
  ghost predicate CancelFaithful(s: State) {
    && ((s.closer.CancelRead? || s.closer.CancelMarked?) && s.closer.worker.Some? ==>
          s.closer.id in s.table && s.table[s.closer.id].worker == s.closer.worker)
    && (s.closer.CancelMarked? && s.closer.worker.Some? ==> s.closer.worker.value in s.cancelled)
  }

  /** The part of the invariant about identities and suspended calls. */
  ghost predicate Shape(s: State) {
    IdsUnique(s) && TasksAwaited(s) && CancelFaithful(s)
  }

  ghost predicate Inv(s: State) {
    Shape(s) && LedgerHeld(s) && LedgerCovers(s)
  }

  lemma BeginShape(s: State, id: string)
    requires Shape(s)
    ensures Shape(BeginStep(s, id))
  {
  }

  lemma BeginHeld(s: State, id: string)
    requires Inv(s)
    ensures LedgerHeld(BeginStep(s, id))
  {
  }

  lemma BeginCovers(s: State, id: string)
    requires Inv(s)
    ensures LedgerCovers(BeginStep(s, id))
  {
  }

  lemma InsertShape(s: State, vm: nat)
    requires Shape(s)
    ensures Shape(InsertStep(s, vm))
  {
    hide IdsUnique, TasksAwaited;
    InsertIds(s, vm);
    InsertTasks(s, vm);
  }

  lemma InsertIds(s: State, vm: nat)
    requires IdsUnique(s)
    ensures IdsUnique(InsertStep(s, vm))
  {
    if vm in s.creates && s.creates[vm].ReadyToInsert? && s.creates[vm].id !in s.table {
      assert forall id :: id in s.table ==> s.table[id].vm != vm;
    }
  }

  lemma InsertTasks(s: State, vm: nat)
    requires TasksAwaited(s)
    ensures TasksAwaited(InsertStep(s, vm))
  {
  }

  lemma InsertHeld(s: State, vm: nat)
    requires Inv(s)
    ensures LedgerHeld(InsertStep(s, vm))
  {
    hide CancelFaithful, LedgerCovers;
  }

  lemma InsertCovers(s: State, vm: nat)
    requires Inv(s)
    ensures LedgerCovers(InsertStep(s, vm))
  {
  }

  lemma JoinShape(s: State, vm: nat)
    requires Shape(s)
    ensures Shape(JoinStep(s, vm))
  {
  }

  lemma JoinHeld(s: State, vm: nat)
    requires Inv(s)
    ensures LedgerHeld(JoinStep(s, vm))
  {
  }

  lemma JoinCovers(s: State, vm: nat)
    requires Inv(s)
    ensures LedgerCovers(JoinStep(s, vm))
  {
  }

  lemma TimeOutShape(s: State, vm: nat)
    requires Shape(s)
    ensures Shape(TimeOutStep(s, vm))
  {
  }

  lemma TimeOutHeld(s: State, vm: nat)
    requires Inv(s)
    ensures LedgerHeld(TimeOutStep(s, vm))
  {
  }

  lemma TimeOutCovers(s: State, vm: nat)
    requires Inv(s)
    ensures LedgerCovers(TimeOutStep(s, vm))
  {
  }

  lemma PublishShape(s: State, vm: nat)
    requires Shape(s)
    ensures Shape(PublishStep(s, vm))
  {
    hide IdsUnique, TasksAwaited;
    PublishIds(s, vm);
    PublishTasks(s, vm);
    PublishCancel(s, vm);
  }

  lemma PublishIds(s: State, vm: nat)
    requires IdsUnique(s)
    ensures IdsUnique(PublishStep(s, vm))
  {
    hide GenerationOf, Assign, Add;
  }

  lemma PublishTasks(s: State, vm: nat)
    requires TasksAwaited(s)
    ensures TasksAwaited(PublishStep(s, vm))
  {
    hide Commit, Assign, Add;
  }

  lemma PublishCancel(s: State, vm: nat)
    requires IdsUnique(s) && CancelFaithful(s)
    ensures CancelFaithful(PublishStep(s, vm))
  {
    hide GenerationOf, Assign, Add;
  }

  lemma PublishHeld(s: State, vm: nat)
    requires Inv(s)
    ensures LedgerHeld(PublishStep(s, vm))
  {
    hide GenerationOf, TasksAwaited, CancelFaithful;
  }

  lemma PublishCovers(s: State, vm: nat)
    requires Inv(s)
    ensures LedgerCovers(PublishStep(s, vm))
  {
    hide GenerationOf, CancelFaithful, LedgerHeld;
  }

  lemma ProvideShape(s: State, vm: nat, worker: Option<Worker>)
    requires Shape(s)
    ensures Shape(ProvideStep(s, vm, worker))
  {
  }

  lemma ProvideHeld(s: State, vm: nat, worker: Option<Worker>)
    requires Inv(s)
    ensures LedgerHeld(ProvideStep(s, vm, worker))
  {
  }

  lemma ProvideCovers(s: State, vm: nat, worker: Option<Worker>)
    requires Inv(s)
    ensures LedgerCovers(ProvideStep(s, vm, worker))
  {
  }

  lemma ReapShape(s: State, vm: nat)
    requires Shape(s)
    ensures Shape(ReapStep(s, vm))
  {
  }

  lemma ReapHeld(s: State, vm: nat)
    requires Inv(s)
    ensures LedgerHeld(ReapStep(s, vm))
  {
  }

  lemma ReapCovers(s: State, vm: nat)
    requires Inv(s)
    ensures LedgerCovers(ReapStep(s, vm))
  {
  }

  lemma TakeShape(s: State)
    requires Shape(s)
    ensures Shape(TakeStep(s))
  {
    hide Assign, Add, IdsUnique, TasksAwaited;
    TakeIds(s);
    TakeTasks(s);
  }

  lemma TakeIds(s: State)
    requires IdsUnique(s)
    ensures IdsUnique(TakeStep(s))
  {
    hide Assign, Add;
  }

  lemma TakeTasks(s: State)
    requires TasksAwaited(s)
    ensures TasksAwaited(TakeStep(s))
  {
    hide Assign, Add;
  }

  lemma TakeHeld(s: State)
    requires Inv(s)
    ensures LedgerHeld(TakeStep(s))
  {
    hide IdsUnique, TasksAwaited, CancelFaithful;
  }

  lemma TakeCovers(s: State)
    requires Inv(s)
    ensures LedgerCovers(TakeStep(s))
  {
    hide IdsUnique, TasksAwaited, CancelFaithful, LedgerHeld;
    if s.closer.DestroyBumped? && s.closer.id in s.table && s.table[s.closer.id].worker.Some? {
      var id, w := s.closer.id, s.table[s.closer.id].worker.value;
      assert Owes(s, w, TableEntry(id));
    }
  }

  ghost predicate SameHoldings(t: Table, t': Table) {
    t'.Keys == t.Keys && forall id :: id in t ==> t'[id].vm == t[id].vm && t'[id].worker == t[id].worker
  }

  lemma HoldingsFrame(s: State, s': State)
    requires s' == s.(table := s'.table, generations := s'.generations, closer := s'.closer, cancelled := s'.cancelled,
                      past := s'.past)
    requires SameHoldings(s.table, s'.table)
    requires Inv(s) && CancelFaithful(s')
    ensures Inv(s')
  {
  }

  /** The steps of a cancel or destroy call that leave every worker where it is. */
  lemma CloserKeeps(s: State, e: Event)
    requires Inv(s) && (e.BeginCancel? || e.BeginDestroy? || e.ReadWorker? || e.Mark? || e.EndCancel? || e.EndDestroy?)
    ensures Inv(Step(s, e))
  {
    hide Inv, BeginCloseStep, ReadWorkerStep, MarkStep, EndCancelStep, EndDestroyStep;
    match e
    case BeginCancel(id) => BeginCloseKeeps(s, id, CancelBumped(id));
    case BeginDestroy(id) => BeginCloseKeeps(s, id, DestroyBumped(id));
    case ReadWorker => ReadWorkerKeeps(s);
    case Mark => MarkKeeps(s);
    case EndCancel(error) => EndCancelKeeps(s, error);
    case EndDestroy => EndDestroyKeeps(s);
  }

  lemma BeginCloseKeeps(s: State, id: string, closer: Closer)
    requires Inv(s) && (closer.CancelBumped? || closer.DestroyBumped?)
    ensures Inv(BeginCloseStep(s, id, closer))
  {
    hide IdsUnique, TasksAwaited, LedgerHeld, LedgerCovers, Bump, Inv, Shape;
    InvParts(s);
    HoldingsFrame(s, BeginCloseStep(s, id, closer));
  }

  lemma ReadWorkerKeeps(s: State)
    requires Inv(s)
    ensures Inv(ReadWorkerStep(s))
  {
    hide IdsUnique, TasksAwaited, LedgerHeld, LedgerCovers, Bump, Inv, Shape;
    InvParts(s);
    HoldingsFrame(s, ReadWorkerStep(s));
  }

  lemma MarkKeeps(s: State)
    requires Inv(s)
    ensures Inv(MarkStep(s))
  {
    hide IdsUnique, TasksAwaited, LedgerHeld, LedgerCovers, Bump, Inv, Shape;
    InvParts(s);
    HoldingsFrame(s, MarkStep(s));
  }

  lemma EndCancelKeeps(s: State, error: Option<string>)
    requires Inv(s)
    ensures Inv(EndCancelStep(s, error))
  {
    hide IdsUnique, TasksAwaited, LedgerHeld, LedgerCovers, Bump, Inv, Shape;
    InvParts(s);
    HoldingsFrame(s, EndCancelStep(s, error));
  }

  lemma EndDestroyKeeps(s: State)
    requires Inv(s)
    ensures Inv(EndDestroyStep(s))
  {
    hide IdsUnique, TasksAwaited, LedgerHeld, LedgerCovers, Bump, Inv, Shape;
    InvParts(s);
    HoldingsFrame(s, EndDestroyStep(s));
  }

  lemma InvParts(s: State)
    requires Inv(s)
    ensures IdsUnique(s) && TasksAwaited(s) && CancelFaithful(s) && LedgerHeld(s) && LedgerCovers(s)
  {
    hide IdsUnique, TasksAwaited, LedgerHeld, LedgerCovers, CancelFaithful;
  }

  lemma StepKeeps(s: State, e: Event)
    requires Inv(s)
    ensures Inv(Step(s, e))
  {
    hide Shape, LedgerHeld, LedgerCovers, BeginStep, InsertStep, ProvideStep, JoinStep, TimeOutStep, PublishStep, ReapStep,
         TakeStep, BeginCloseStep, ReadWorkerStep, MarkStep, EndCancelStep, EndDestroyStep;
    match e
    case Begin(id) => BeginShape(s, id); BeginHeld(s, id); BeginCovers(s, id);
    case Insert(vm) => InsertShape(s, vm); InsertHeld(s, vm); InsertCovers(s, vm);
    case Provide(vm, worker) => ProvideShape(s, vm, worker); ProvideHeld(s, vm, worker); ProvideCovers(s, vm, worker);
    case Join(vm) => JoinShape(s, vm); JoinHeld(s, vm); JoinCovers(s, vm);
    case TimeOut(vm) => TimeOutShape(s, vm); TimeOutHeld(s, vm); TimeOutCovers(s, vm);
    case Publish(vm) => PublishShape(s, vm); PublishHeld(s, vm); PublishCovers(s, vm);
    case Reap(vm) => ReapShape(s, vm); ReapHeld(s, vm); ReapCovers(s, vm);
    case Take => TakeShape(s); TakeHeld(s); TakeCovers(s);
    case _ => CloserKeeps(s, e);
  }

  // ---------------------------------------------------------------------------
  // What every step keeps besides: cancellation, generations and handles.
  // ---------------------------------------------------------------------------

  /** Only workers that reached the table are handed to `adapter.cancel`. */
  ghost predicate CancelledOwned(s: State) {
    forall w :: w in s.cancelled ==> w in s.ledger && (s.ledger[w].TableEntry? || s.ledger[w].GivenToDestroy?)
  }

  /** The 2^64 values a generation takes. */
  const GENERATIONS: nat := U64_MAX + 1

  function GenerationAfter(bumps: nat): nat {
    (1 + bumps) % GENERATIONS
  }

  lemma GenerationNext(bumps: nat)
    ensures (GenerationAfter(bumps) + 1) % (U64_MAX + 1) == GenerationAfter(bumps + 1)
  {
  }

  /** Equal generations mean a multiple of 2^64 bumps between them. */
  lemma SameGeneration(a: nat, b: nat)
    requires a <= b
    ensures GenerationAfter(a) == GenerationAfter(b) <==> (b - a) % GENERATIONS == 0
  {
    var q, r := (1 + a) / GENERATIONS, (1 + b) / GENERATIONS;
    assert b - a == (r - q) * GENERATIONS + GenerationAfter(b) - GenerationAfter(a);
  }

  /** The session was not bumped since the create with id `vm` read its generation, as far
      as a 64-bit counter can tell. */
  ghost predicate ReadCurrent(s: State, id: string, vm: nat) {
    vm in s.past.readAt && s.past.readAt[vm] <= BumpsOf(s.past, id)
    && (BumpsOf(s.past, id) - s.past.readAt[vm]) % GENERATIONS == 0
  }

  /** A cancel that read no worker has not cancelled the one that came since; the create
      that brought it read the generation this cancel had already bumped. */
  ghost predicate MissedLate(s: State) {
    (s.closer.CancelRead? || s.closer.CancelMarked?) && s.closer.worker.None?
    && s.closer.id in s.table && s.table[s.closer.id].worker.Some? ==>
      s.table[s.closer.id].worker.value !in s.cancelled && ReadCurrent(s, s.closer.id, s.table[s.closer.id].vm)
  }

  /** Generations count bumps modulo 2^64, and every create knows which one it read. */
  ghost predicate Counted(s: State) {
    && (forall id :: GenerationOf(s.generations, id) == GenerationAfter(BumpsOf(s.past, id)))
    && (forall vm :: vm in s.past.readAt ==> vm < s.nextId)
    && (forall vm :: vm in s.creates ==>
          && vm in s.past.readAt && s.past.readAt[vm] <= BumpsOf(s.past, s.creates[vm].id)
          && s.creates[vm].generation == GenerationAfter(s.past.readAt[vm]))
  }

  /** A Running entry has a worker, and a provisioning result is Running exactly with one. */
  ghost predicate Truthful(s: State) {
    && (forall id :: id in s.table && s.table[id].status == Running ==> s.table[id].worker.Some?)
    && (forall vm :: vm in s.creates && s.creates[vm].Provisioned? ==>
          (s.creates[vm].handle.status == Running <==> s.creates[vm].handle.worker.Some?))
  }

  ghost predicate Inv2(s: State) {
    CancelledOwned(s) && MissedLate(s) && Counted(s) && Truthful(s)
  }

  lemma StepTruthful(s: State, e: Event)
    requires Truthful(s)
    ensures Truthful(Step(s, e))
  {
    hide Bump, GenerationOf, Assign, Add, PublishStep;
    if e.Publish? {
      PublishTruthful(s, e.vm);
    }
  }

  lemma PublishTruthful(s: State, vm: nat)
    requires Truthful(s)
    ensures Truthful(PublishStep(s, vm))
  {
    hide Assign, Add, StillOwner, StalePlaceholder;
  }

  lemma StepCancelledOwned(s: State, e: Event)
    requires Inv(s) && CancelledOwned(s)
    ensures CancelledOwned(Step(s, e))
  {
    hide IdsUnique, TasksAwaited, LedgerHeld, Bump, GenerationOf;
  }

  lemma StepCounted(s: State, e: Event)
    requires Counted(s)
    ensures Counted(Step(s, e))
  {
    hide Counted, BeginStep, InsertStep, ProvideStep, JoinStep, TimeOutStep, PublishStep, ReapStep, TakeStep, BeginCloseStep,
         ReadWorkerStep, MarkStep, EndCancelStep, EndDestroyStep;
    match e
    case Begin(id) => BeginCounted(s, id);
    case BeginCancel(id) => CloseCounted(s, id, CancelBumped(id));
    case BeginDestroy(id) => CloseCounted(s, id, DestroyBumped(id));
    case Insert(vm) => CreateCounted(s, e);
    case Join(vm) => CreateCounted(s, e);
    case TimeOut(vm) => CreateCounted(s, e);
    case Publish(vm) => CreateCounted(s, e);
    case _ => OtherCounted(s, e);
  }

  lemma CreateCounted(s: State, e: Event)
    requires Counted(s) && (e.Insert? || e.Join? || e.TimeOut? || e.Publish?)
    ensures Counted(Step(s, e))
  {
    hide Commit, Assign, Add, Counted, ResultWorker;
    QuietCounted(s, Step(s, e));
  }

  lemma OtherCounted(s: State, e: Event)
    requires Counted(s) && (e.Provide? || e.Reap? || e.ReadWorker? || e.Mark? || e.EndCancel? || e.Take? || e.EndDestroy?)
    ensures Counted(Step(s, e))
  {
    hide Counted, ReadWorkerStep, MarkStep, EndCancelStep, TakeStep, EndDestroyStep, Assign, Add, ResultWorker, Awaiter;
    match e
    case Provide(vm, worker) => SameCreatesCounted(s, ProvideStep(s, vm, worker));
    case Reap(vm) => SameCreatesCounted(s, ReapStep(s, vm));
    case _ => CloserQuiet(s, e); SameCreatesCounted(s, Step(s, e));
  }

  predicate SameCalls(s: State, s': State, samePast: bool) {
    && s'.creates == s.creates && s'.tasks == s.tasks && s'.nextId == s.nextId
    && (samePast ==> s'.generations == s.generations && s'.past == s.past)
  }

  lemma BeginCloseQuiet(s: State, id: string, closer: Closer)
    ensures SameCalls(s, BeginCloseStep(s, id, closer), false)
  {
    hide Bump, Add, Assign, BumpsOf, FinishedCancel;
  }

  lemma ReadWorkerQuiet(s: State)
    ensures SameCalls(s, ReadWorkerStep(s), true)
  {
    hide Bump, Add, Assign, BumpsOf, FinishedCancel;
  }

  lemma MarkQuiet(s: State)
    ensures SameCalls(s, MarkStep(s), true)
  {
    hide Bump, Add, Assign, BumpsOf, FinishedCancel;
  }

  lemma EndCancelQuiet(s: State, error: Option<string>)
    ensures SameCalls(s, EndCancelStep(s, error), true)
  {
    hide Bump, Add, Assign, BumpsOf, FinishedCancel;
  }

  lemma TakeQuiet(s: State)
    ensures SameCalls(s, TakeStep(s), true)
  {
    hide Bump, Add, Assign, BumpsOf, FinishedCancel;
  }

  lemma EndDestroyQuiet(s: State)
    ensures SameCalls(s, EndDestroyStep(s), true)
  {
    hide Bump, Add, Assign, BumpsOf, FinishedCancel;
  }

  /** The steps of a cancel or destroy leave the creates and their tasks alone. */
  lemma CloserQuiet(s: State, e: Event)
    requires e.BeginCancel? || e.BeginDestroy? || e.ReadWorker? || e.Mark? || e.EndCancel? || e.Take? || e.EndDestroy?
    ensures SameCalls(s, Step(s, e), !e.BeginCancel? && !e.BeginDestroy?)
  {
    hide BeginCloseStep, ReadWorkerStep, MarkStep, EndCancelStep, TakeStep, EndDestroyStep, SameCalls;
    match e
    case BeginCancel(id) => BeginCloseQuiet(s, id, CancelBumped(id));
    case BeginDestroy(id) => BeginCloseQuiet(s, id, DestroyBumped(id));
    case ReadWorker => ReadWorkerQuiet(s);
    case Mark => MarkQuiet(s);
    case EndCancel(error) => EndCancelQuiet(s, error);
    case Take => TakeQuiet(s);
    case EndDestroy => EndDestroyQuiet(s);
  }

  lemma SameCreatesCounted(s: State, s': State)
    requires Counted(s) && s'.generations == s.generations && s'.nextId == s.nextId && s'.past == s.past
    requires s'.creates == s.creates
    ensures Counted(s')
  {
    hide Counted;
    QuietCounted(s, s');
  }

  /** A step that bumps nothing and reads nothing. */
  lemma QuietCounted(s: State, s': State)
    requires Counted(s) && s'.generations == s.generations && s'.nextId == s.nextId
    requires s'.past.bumps == s.past.bumps && s'.past.readAt == s.past.readAt
    requires forall vm :: vm in s'.creates ==>
               vm in s.creates && s'.creates[vm].id == s.creates[vm].id && s'.creates[vm].generation == s.creates[vm].generation
    ensures Counted(s')
  {
    hide GenerationAfter, GenerationOf;
    assert forall id :: BumpsOf(s'.past, id) == BumpsOf(s.past, id);
  }

  lemma BeginCounted(s: State, id: string)
    requires Counted(s)
    ensures Counted(BeginStep(s, id))
  {
    hide GenerationAfter, GenerationOf;
  }

  lemma CloseCounted(s: State, id: string, closer: Closer)
    requires Counted(s)
    ensures Counted(BeginCloseStep(s, id, closer))
  {
    hide GenerationAfter;
    GenerationNext(BumpsOf(s.past, id));
    var s' := BeginCloseStep(s, id, closer);
    assert forall jd :: BumpsOf(s'.past, jd) >= BumpsOf(s.past, jd);
    forall jd ensures GenerationOf(s'.generations, jd) == GenerationAfter(BumpsOf(s'.past, jd)) {
      assert GenerationOf(s.generations, jd) == GenerationAfter(BumpsOf(s.past, jd));
    }
  }

  lemma StepMissedLate(s: State, e: Event)
    requires Inv(s) && CancelledOwned(s) && Counted(s) && MissedLate(s)
    ensures MissedLate(Step(s, e))
  {
    hide Inv, GenerationAfter, CancelledOwned, Counted, MissedLate, BeginStep, InsertStep, ProvideStep, JoinStep, TimeOutStep,
         PublishStep, ReapStep, TakeStep, BeginCloseStep, ReadWorkerStep, MarkStep, EndCancelStep, EndDestroyStep;
    match e
    case Begin(id) => BeginMissedLate(s, id);
    case Publish(vm) => PublishMissedLate(s, vm);
    case BeginCancel(id) => CloseMissedLate(s, id, CancelBumped(id));
    case BeginDestroy(id) => CloseMissedLate(s, id, DestroyBumped(id));
    case Insert(vm) => InsertMissedLate(s, vm);
    case Join(vm) => TableMissedLate(s, e);
    case TimeOut(vm) => TableMissedLate(s, e);
    case Provide(vm, worker) => TableMissedLate(s, e);
    case Reap(vm) => TableMissedLate(s, e);
    case _ => CloserMissedLate(s, e);
  }

  lemma InsertMissedLate(s: State, vm: nat)
    requires MissedLate(s)
    ensures MissedLate(InsertStep(s, vm))
  {
    hide ReadCurrent;
    SameReadCurrent(s, InsertStep(s, vm));
  }

  /** Steps that touch neither the table nor the closer. */
  lemma TableMissedLate(s: State, e: Event)
    requires MissedLate(s) && (e.Join? || e.TimeOut? || e.Provide? || e.Reap?)
    ensures MissedLate(Step(s, e))
  {
    hide ReadCurrent, Assign, Add, Awaiter, ResultWorker;
    var s' := Step(s, e);
    assert s'.table == s.table && s'.closer == s.closer && s'.cancelled == s.cancelled && s'.past == s.past;
    SameReadCurrent(s, s');
  }

  lemma SameReadCurrent(s: State, s': State)
    requires s'.past.bumps == s.past.bumps && s'.past.readAt == s.past.readAt
    ensures forall id, vm :: ReadCurrent(s', id, vm) == ReadCurrent(s, id, vm)
  {
  }

  lemma BeginMissedLate(s: State, id: string)
    requires Inv(s) && MissedLate(s)
    ensures MissedLate(BeginStep(s, id))
  {
    hide GenerationOf, TasksAwaited, LedgerHeld, LedgerCovers;
  }

  lemma CloseMissedLate(s: State, id: string, closer: Closer)
    requires MissedLate(s) && (closer.CancelBumped? || closer.DestroyBumped?)
    ensures MissedLate(BeginCloseStep(s, id, closer))
  {
    hide Bump, ReadCurrent;
    if !s.closer.Idle? {
      SameReadCurrent(s, BeginCloseStep(s, id, closer));
    }
  }

  lemma CloserMissedLate(s: State, e: Event)
    requires MissedLate(s) && (e.ReadWorker? || e.Mark? || e.EndCancel? || e.Take? || e.EndDestroy?)
    ensures MissedLate(Step(s, e))
  {
    hide ReadCurrent, Assign;
    SameReadCurrent(s, Step(s, e));
  }

  lemma PublishMissedLate(s: State, vm: nat)
    requires Inv(s) && CancelledOwned(s) && Counted(s) && MissedLate(s)
    ensures MissedLate(PublishStep(s, vm))
  {
    hide LedgerHeld, TasksAwaited, CancelFaithful, GenerationAfter, Assign, Add, BumpsOf, GenerationOf, ReadCurrent;
    SameReadCurrent(s, PublishStep(s, vm));
    if vm in s.creates && s.creates[vm].Provisioned? {
      var Provisioned(id, generation, h) := s.creates[vm];
      if StillOwner(s.table, s.generations, id, generation, h.vm) {
        SameGeneration(s.past.readAt[vm], BumpsOf(s.past, id));
        CurrentRead(s, id, vm);
        if h.worker.Some? {
          assert Owes(s, h.worker.value, PendingCreate(vm));
        }
      }
    }
  }

  lemma CurrentRead(s: State, id: string, vm: nat)
    requires vm in s.past.readAt && s.past.readAt[vm] <= BumpsOf(s.past, id)
    ensures ReadCurrent(s, id, vm) <==> (BumpsOf(s.past, id) - s.past.readAt[vm]) % GENERATIONS == 0
  {
  }

  lemma StepKeeps2(s: State, e: Event)
    requires Inv(s) && Inv2(s)
    ensures Inv2(Step(s, e))
  {
    hide CancelledOwned, MissedLate, Counted, Truthful, Inv, Step;
    StepTruthful(s, e);
    StepCancelledOwned(s, e);
    StepCounted(s, e);
    StepMissedLate(s, e);
  }

  lemma InitialInv()
    ensures Inv(INITIAL)
  {
  }

  lemma InitialInv2()
    ensures Inv2(INITIAL)
  {
  }

  lemma {:induction false} RunKeeps(events: seq<Event>)
    ensures Inv(Run(events)) && Inv2(Run(events))
  {
    hide Inv, Inv2, Step;
    if events == [] {
      InitialInv();
      InitialInv2();
    } else {
      RunKeeps(events[..|events| - 1]);
      StepKeeps(Run(events[..|events| - 1]), events[|events| - 1]);
      StepKeeps2(Run(events[..|events| - 1]), events[|events| - 1]);
    }
  }

  // ---------------------------------------------------------------------------
  // Ownership in every interleaving.
  // ---------------------------------------------------------------------------

  /** Every worker the adapter returned has exactly one owner, in every run. */
  lemma OneOwner(events: seq<Event>, w: Worker)
    requires w in Run(events).ledger
    ensures exists owner :: Holds(Run(events), owner, w)
    ensures forall p, q :: Holds(Run(events), p, w) && Holds(Run(events), q, w) ==> p == q
  {
    var s := Run(events);
    RunKeeps(events);
    assert Holds(s, s.ledger[w], w);
    forall p | Holds(s, p, w) ensures p == s.ledger[w] {
      match p
      case PendingCreate(vm) => assert Owes(s, w, p);
      case LateReaper(vm) => assert Owes(s, w, p);
      case TableEntry(id) => assert Owes(s, w, p);
      case GivenToDestroy => assert Owes(s, w, p);
    }
  }

  /** No table entry, Running or not, holds a worker already given to destroy,
      and no two entries hold the same worker. */
  lemma TableWorkersAlive(events: seq<Event>, id: string, jd: string)
    requires var t := Run(events).table; id in t && jd in t && t[id].worker.Some?
    ensures Run(events).table[id].worker.value !in Run(events).destroyed
    ensures id != jd ==> Run(events).table[id].worker != Run(events).table[jd].worker
  {
    RunKeeps(events);
    var s := Run(events);
    assert Owes(s, s.table[id].worker.value, TableEntry(id));
  }

  /** Once no call and no late task is left, every worker is in the table or was given to destroy. */
  lemma NothingLeaks(events: seq<Event>, w: Worker)
    requires var s := Run(events); s.creates == map[] && s.tasks == map[] && w in s.ledger
    ensures var s := Run(events); w in s.destroyed || exists id :: id in s.table && s.table[id].worker == Some(w)
  {
    RunKeeps(events);
    assert Holds(Run(events), Run(events).ledger[w], w);
  }

  // ---------------------------------------------------------------------------
  // What the callers are told.
  // ---------------------------------------------------------------------------

  /** A cancel settles a session whose entry has a worker: that worker was handed to
      `adapter.cancel` exactly when the cancel had read one. The worker it had not read was
      brought by a create that read the generation after this cancel had bumped it (or a
      multiple of 2^64 bumps before that). */
  lemma CancelReachesWorker(events: seq<Event>, error: Option<string>)
    requires var s := Run(events); s.closer.CancelMarked? && s.closer.id in s.table && s.table[s.closer.id].worker.Some?
    ensures var s, s' := Run(events), Run(events + [EndCancel(error)]);
            var id := s.closer.id;
            && id in s'.table && s'.table[id].worker == s.table[id].worker
            && s'.table[id].status == (if s.closer.worker.Some? && error.Some? then Failed else Stopped)
            && s'.table[id].error == (if s.closer.worker.Some? then error else None)
            && (s'.table[id].worker.value in s'.cancelled <==> s.closer.worker.Some?)
            && (s.closer.worker.None? ==> ReadCurrent(s, id, s.table[id].vm))
  {
    hide IdsUnique, TasksAwaited, LedgerHeld, LedgerCovers, CancelledOwned, Counted, Truthful, ReadCurrent;
    RunKeeps(events);
    RunSnoc(events, EndCancel(error));
  }

  /** How often the session was bumped since the create with id `vm` read its generation. */
  function BumpsSince(s: State, vm: nat): int
    requires vm in s.creates
  {
    BumpsOf(s.past, s.creates[vm].id) - if vm in s.past.readAt then s.past.readAt[vm] else 0
  }

  /** A create that read the generation of its session before a later cancel or destroy
      bumped it never publishes its worker, unless a multiple of 2^64 bumps lie between. It
      publishes exactly when no bump shows and its own entry is still in the table. */
  lemma GenerationGuards(events: seq<Event>, vm: nat)
    requires var s := Run(events); vm in s.creates && s.creates[vm].Provisioned? && s.creates[vm].handle.worker.Some?
    ensures var s, s' := Run(events), Run(events + [Publish(vm)]);
            var id, w := s.creates[vm].id, s.creates[vm].handle.worker.value;
            && vm in s.past.readAt && BumpsSince(s, vm) >= 0
            && (Holds(s', TableEntry(id), w) <==> BumpsSince(s, vm) % GENERATIONS == 0 && id in s.table && s.table[id].vm == vm)
            && (w in s'.destroyed <==> !Holds(s', TableEntry(id), w))
            && (0 < BumpsSince(s, vm) < GENERATIONS ==> w in s'.destroyed)
  {
    hide Inv, CancelledOwned, MissedLate, Truthful, Run, Holds, Step;
    RunKeeps(events);
    RunSnoc(events, Publish(vm));
    PublishGuarded(Run(events), vm);
  }

  lemma PublishGuarded(s: State, vm: nat)
    requires Inv(s) && Counted(s)
    requires vm in s.creates && s.creates[vm].Provisioned? && s.creates[vm].handle.worker.Some?
    ensures var s' := Step(s, Publish(vm));
            var id, w := s.creates[vm].id, s.creates[vm].handle.worker.value;
            && vm in s.past.readAt && BumpsSince(s, vm) >= 0
            && (Holds(s', TableEntry(id), w) <==> BumpsSince(s, vm) % GENERATIONS == 0 && id in s.table && s.table[id].vm == vm)
            && (w in s'.destroyed <==> !Holds(s', TableEntry(id), w))
  {
    hide TasksAwaited, LedgerHeld, CancelFaithful, GenerationAfter, BumpsOf;
    var Provisioned(id, generation, h) := s.creates[vm];
    var owner := StillOwner(s.table, s.generations, id, generation, vm);
    SameGeneration(s.past.readAt[vm], BumpsOf(s.past, id));
    assert owner <==> BumpsSince(s, vm) % GENERATIONS == 0 && id in s.table && s.table[id].vm == vm;
    assert Owes(s, h.worker.value, PendingCreate(vm));
    PublishPlaces(s, vm);
  }

  /** A published worker goes to the table or to destroy, by ownership of the session. */
  lemma PublishPlaces(s: State, vm: nat)
    requires IdsUnique(s) && LedgerCovers(s)
    requires vm in s.creates && s.creates[vm].Provisioned? && s.creates[vm].handle.worker.Some?
    requires Owes(s, s.creates[vm].handle.worker.value, PendingCreate(vm))
    ensures var s' := PublishStep(s, vm);
            var Provisioned(id, generation, h) := s.creates[vm];
            && (Holds(s', TableEntry(id), h.worker.value) <==> StillOwner(s.table, s.generations, id, generation, vm))
            && (h.worker.value in s'.destroyed <==> !StillOwner(s.table, s.generations, id, generation, vm))
  {
    hide GenerationOf;
    var Provisioned(id, generation, h) := s.creates[vm];
    assert id in s.table && s.table[id].worker.Some? ==> Owes(s, s.table[id].worker.value, TableEntry(id));
  }

  /** What a create returns when it publishes. A worker it reports is in the session's table
      entry. It reports a Running session without a worker exactly when its worker was given
      up and nothing else owns the session: the entry is gone, or was still this call's own
      placeholder. */
  lemma ReturnedHandleTruth(events: seq<Event>, vm: nat)
    requires var s := Run(events); vm in s.creates && s.creates[vm].Provisioned?
    ensures var s, s' := Run(events), Run(events + [Publish(vm)]);
            var Provisioned(id, generation, h) := s.creates[vm];
            && vm in s'.past.returned
            && var r := s'.past.returned[vm];
               && (r.worker.Some? ==> id in s'.table && s'.table[id] == r && r.worker.value !in s'.destroyed)
               && (r.status == Running && r.worker.None? <==>
                     h.worker.Some? && !StillOwner(s.table, s.generations, id, generation, vm)
                     && (id !in s.table || StalePlaceholder(s.table, id, vm)))
  {
    hide TasksAwaited, LedgerHeld, LedgerCovers, CancelledOwned, MissedLate, Counted, CancelFaithful, GenerationOf, Run;
    RunKeeps(events);
    RunSnoc(events, Publish(vm));
    var s, s' := Run(events), Run(events + [Publish(vm)]);
    var r := s'.past.returned[vm];
    if r.worker.Some? {
      TableWorkersAlive(events + [Publish(vm)], s.creates[vm].id, s.creates[vm].id);
    }
  }

  // ---------------------------------------------------------------------------
  // How provisioning ended, told from the events alone.
  // ---------------------------------------------------------------------------

  /** What the adapter answered the provisioning task `vm` with: a worker, or none. */
  function Provided(events: seq<Event>, vm: nat): Option<Option<Worker>> {
    if events == [] then None
    else
      var before, e := events[..|events| - 1], events[|events| - 1];
      var s := Run(before);
      if e.Provide? && e.vm == vm && vm in s.tasks && s.tasks[vm].result.Pending?
         && (e.worker.Some? ==> e.worker.value !in s.ledger) then Some(e.worker)
      else Provided(before, vm)
  }

  /** Whether the create `vm` gave up waiting. */
  predicate TimedOut(events: seq<Event>, vm: nat) {
    events != []
    && var before, e := events[..|events| - 1], events[|events| - 1];
       var s := Run(before);
       (e == TimeOut(vm) && vm in s.creates && s.creates[vm].Waiting?) || TimedOut(before, vm)
  }

  /** A failure the caller can see. */
  predicate Failure(h: Handle) {
    h.status == Failed && h.error.Some? && h.worker.None?
  }

  /** The call `vm` and its task are as those events say. */
  ghost predicate Tells(s: State, vm: nat, provided: Option<Option<Worker>>, timedOut: bool) {
    && (vm >= s.nextId || (vm in s.creates && s.creates[vm].ReadyToInsert?) ==> provided.None? && !timedOut)
    && (vm in s.tasks && s.tasks[vm].late ==> timedOut)
    && (vm in s.tasks && !s.tasks[vm].late ==>
          && !timedOut
          && match s.tasks[vm].result
             case Pending => provided.None?
             case Ready(w) => provided == Some(Some(w))
             case NoWorker => provided == Some(None))
    && (vm in s.creates && s.creates[vm].Provisioned? ==>
          var h := s.creates[vm].handle;
          if timedOut then Failure(h)
          else provided.Some? && if provided.value.None? then Failure(h) else h == Handle(vm, Running, None, provided.value))
  }

  lemma {:induction false} RunTells(events: seq<Event>, vm: nat)
    ensures Tells(Run(events), vm, Provided(events, vm), TimedOut(events, vm))
  {
    hide Tells, Inv, Step;
    if events == [] {
      InitialTells(vm);
    } else {
      var before, e := events[..|events| - 1], events[|events| - 1];
      RunTells(before, vm);
      RunKeeps(before);
      StepTells(before, e, vm);
    }
  }

  lemma InitialTells(vm: nat)
    ensures Tells(INITIAL, vm, None, false)
  {
  }

  lemma StepTells(before: seq<Event>, e: Event, vm: nat)
    requires Inv(Run(before)) && Tells(Run(before), vm, Provided(before, vm), TimedOut(before, vm))
    ensures Tells(Step(Run(before), e), vm, Provided(before + [e], vm), TimedOut(before + [e], vm))
  {
    hide Inv, Tells, Run, Step, Provided, TimedOut;
    EndingSnoc(before, e, vm);
    StateTells(Run(before), e, vm, Provided(before, vm), TimedOut(before, vm));
  }

  lemma EndingSnoc(before: seq<Event>, e: Event, vm: nat)
    ensures Provided(before + [e], vm) ==
            (if e.Provide? && e.vm == vm && ProvideCounts(Run(before), vm, e.worker) then Some(e.worker) else Provided(before, vm))
    ensures TimedOut(before + [e], vm) <==> (e == TimeOut(vm) && TimeOutCounts(Run(before), vm)) || TimedOut(before, vm)
  {
    hide Run;
    assert (before + [e])[..|before|] == before;
  }

  predicate ProvideCounts(s: State, vm: nat, worker: Option<Worker>) {
    vm in s.tasks && s.tasks[vm].result.Pending? && (worker.Some? ==> worker.value !in s.ledger)
  }

  predicate TimeOutCounts(s: State, vm: nat) {
    vm in s.creates && s.creates[vm].Waiting?
  }

  lemma StateTells(s: State, e: Event, vm: nat, provided: Option<Option<Worker>>, timedOut: bool)
    requires Inv(s) && Tells(s, vm, provided, timedOut)
    ensures Tells(Step(s, e), vm,
                  if e.Provide? && e.vm == vm && ProvideCounts(s, vm, e.worker) then Some(e.worker) else provided,
                  (e == TimeOut(vm) && TimeOutCounts(s, vm)) || timedOut)
  {
    hide Inv, Tells, BeginStep, InsertStep, ProvideStep, JoinStep, TimeOutStep, PublishStep, ReapStep, TakeStep, BeginCloseStep,
         ReadWorkerStep, MarkStep, EndCancelStep, EndDestroyStep, ProvideCounts, TimeOutCounts;
    match e
    case Begin(id) => BeginTells(s, id, vm, provided, timedOut);
    case Insert(u) => InsertTells(s, u, vm, provided, timedOut);
    case Provide(u, worker) => ProvideTells(s, u, worker, vm, provided, timedOut);
    case Join(u) => JoinTells(s, u, vm, provided, timedOut);
    case TimeOut(u) => TimeOutTells(s, u, vm, provided, timedOut);
    case Publish(u) => PublishTells(s, u, vm, provided, timedOut);
    case Reap(u) => ReapTells(s, u, vm, provided, timedOut);
    case _ => CloserQuiet(s, e); QuietTells(s, Step(s, e), vm, provided, timedOut);
  }

  lemma BeginTells(s: State, id: string, vm: nat, provided: Option<Option<Worker>>, timedOut: bool)
    requires Inv(s) && Tells(s, vm, provided, timedOut)
    ensures Tells(BeginStep(s, id), vm, provided, timedOut)
  {
    hide LedgerHeld, LedgerCovers, CancelFaithful, Commit, Add, Assign, BumpsOf, GenerationOf;
  }

  lemma InsertTells(s: State, u: nat, vm: nat, provided: Option<Option<Worker>>, timedOut: bool)
    requires Inv(s) && Tells(s, vm, provided, timedOut)
    ensures Tells(InsertStep(s, u), vm, provided, timedOut)
  {
    hide LedgerHeld, LedgerCovers, CancelFaithful, Commit, Add, Assign, BumpsOf, GenerationOf;
  }

  lemma ProvideTells(s: State, u: nat, worker: Option<Worker>, vm: nat, provided: Option<Option<Worker>>, timedOut: bool)
    requires Inv(s) && Tells(s, vm, provided, timedOut)
    ensures Tells(ProvideStep(s, u, worker), vm, if u == vm && ProvideCounts(s, vm, worker) then Some(worker) else provided, timedOut)
  {
    hide LedgerHeld, LedgerCovers, CancelFaithful, Commit, Add, Assign, BumpsOf, GenerationOf;
  }

  lemma JoinTells(s: State, u: nat, vm: nat, provided: Option<Option<Worker>>, timedOut: bool)
    requires Inv(s) && Tells(s, vm, provided, timedOut)
    ensures Tells(JoinStep(s, u), vm, provided, timedOut)
  {
    hide LedgerHeld, LedgerCovers, CancelFaithful, Commit, Add, Assign, BumpsOf, GenerationOf;
  }

  lemma TimeOutTells(s: State, u: nat, vm: nat, provided: Option<Option<Worker>>, timedOut: bool)
    requires Inv(s) && Tells(s, vm, provided, timedOut)
    ensures Tells(TimeOutStep(s, u), vm, provided, (u == vm && TimeOutCounts(s, vm)) || timedOut)
  {
    hide LedgerHeld, LedgerCovers, CancelFaithful, Commit, Add, Assign, BumpsOf, GenerationOf;
  }

  lemma PublishTells(s: State, u: nat, vm: nat, provided: Option<Option<Worker>>, timedOut: bool)
    requires Inv(s) && Tells(s, vm, provided, timedOut)
    ensures Tells(PublishStep(s, u), vm, provided, timedOut)
  {
    hide LedgerHeld, LedgerCovers, CancelFaithful, Commit, Add, Assign, BumpsOf, GenerationOf;
  }

  lemma ReapTells(s: State, u: nat, vm: nat, provided: Option<Option<Worker>>, timedOut: bool)
    requires Inv(s) && Tells(s, vm, provided, timedOut)
    ensures Tells(ReapStep(s, u), vm, provided, timedOut)
  {
    hide LedgerHeld, LedgerCovers, CancelFaithful, Commit, Add, Assign, BumpsOf, GenerationOf;
  }

  lemma QuietTells(s: State, s': State, vm: nat, provided: Option<Option<Worker>>, timedOut: bool)
    requires Tells(s, vm, provided, timedOut) && s'.creates == s.creates && s'.tasks == s.tasks && s'.nextId == s.nextId
    ensures Tells(s', vm, provided, timedOut)
  {
  }

  /** A create whose provisioning failed or timed out returns, when it publishes, a failed
      handle with an error and no worker, and leaves that handle in the table while the
      session is still its own. One that got a worker in time returns it Running and without
      an error while the session is its own; otherwise it returns the entry that stands for
      the session, or a Running handle without the worker if none does. */
  lemma CreateReports(events: seq<Event>, vm: nat)
    requires vm in Run(events).creates && Run(events).creates[vm].Provisioned?
    ensures var s, s' := Run(events), Run(events + [Publish(vm)]);
            var Provisioned(id, generation, _) := s.creates[vm];
            var own := StillOwner(s.table, s.generations, id, generation, vm);
            var provided := Provided(events, vm);
            && vm in s'.past.returned
            && var r := s'.past.returned[vm];
               && (own ==> id in s'.table && s'.table[id] == r)
               && (TimedOut(events, vm) || provided == Some(None) ==> r.status == Failed && r.error.Some? && r.worker.None?)
               && (!TimedOut(events, vm) ==> provided.Some?)
               && (!TimedOut(events, vm) && provided.value.Some? ==>
                     r == if own then Handle(vm, Running, None, provided.value)
                          else if id in s'.table then s'.table[id] else Handle(vm, Running, None, None))
  {
    hide Inv, CancelledOwned, MissedLate, Counted, Truthful, GenerationOf, Run, Provided, TimedOut;
    RunTells(events, vm);
    RunKeeps(events);
    assert Run(events).creates[vm].handle.vm == vm by { HandleIsOwn(Run(events), vm); }
    RunSnoc(events, Publish(vm));
  }

  lemma HandleIsOwn(s: State, vm: nat)
    requires Inv(s) && vm in s.creates && s.creates[vm].Provisioned?
    ensures s.creates[vm].handle.vm == vm
  {
    hide TasksAwaited, LedgerHeld, LedgerCovers, CancelFaithful;
  }

  // ---------------------------------------------------------------------------
  // Two interleavings.
  // ---------------------------------------------------------------------------

  /** A create that reads the generation between the cancel's bump and its look at
      the table is not stopped by that cancel: the entry ends Stopped with a live
      worker that was never cancelled. */
  lemma CancelCanMissWorker()
    ensures exists events :: var s := Run(events);
              "s" in s.table && s.table["s"].status == Stopped && s.table["s"].worker == Some(7)
              && 7 !in s.cancelled && 7 !in s.destroyed
  {
    hide Run;
    var b := ProvisionedAfterCancel();
    var c := b + [Publish(1)];
    var d := c + [EndCancel(None)];
    RunSnoc(b, Publish(1));
    RunSnoc(c, EndCancel(None));
    var s := Run(d);
    assert "s" in s.table && s.table["s"].status == Stopped && s.table["s"].worker == Some(7)
        && 7 !in s.cancelled && 7 !in s.destroyed;
  }

  /** A state of one session `s`, one create and no handle returned yet. */
  function OneSession(
    table: Table, generation: nat, creates: map<nat, Create>, tasks: map<nat, Task>, closer: Closer,
    destroyed: set<Worker>, ledger: map<Worker, Owner>, bumps: map<string, nat>, readAt: nat): State
  {
    State(table, if bumps == map[] then map[] else map["s" := generation], 2, creates, tasks, closer,
          destroyed, {}, ledger, Past(map[], bumps, map[1 := readAt]))
  }

  lemma ProvisionedAfterCancel() returns (events: seq<Event>)
    ensures Run(events)
         == OneSession(map["s" := Handle(1, Cancelling, None, None)], 2,
                       map[1 := Provisioned("s", 2, Handle(1, Running, None, Some(7)))], map[],
                       CancelMarked("s", None), {}, map[7 := PendingCreate(1)], map["s" := 1], 1)
  {
    hide Run;
    var early := PlaceholderSeenByCancel();
    var a := early + [Provide(1, Some(7))];
    RunSnoc(early, Provide(1, Some(7)));
    RunSnoc(a, Join(1));
    events := a + [Join(1)];
  }

  lemma CreateAfterBump() returns (events: seq<Event>)
    ensures Run(events)
         == OneSession(map[], 2, map[1 := ReadyToInsert("s", 2)], map[], CancelBumped("s"), {}, map[], map["s" := 1], 1)
  {
    assert Run([]) == INITIAL;
    hide Run;
    var a := [] + [BeginCancel("s")];
    RunSnoc([], BeginCancel("s"));
    RunSnoc(a, Begin("s"));
    events := a + [Begin("s")];
  }

  lemma PlaceholderSeenByCancel() returns (events: seq<Event>)
    ensures Run(events)
         == OneSession(map["s" := Handle(1, Cancelling, None, None)], 2, map[1 := Waiting("s", 2)],
                       map[1 := Task(false, Pending)], CancelMarked("s", None), {}, map[], map["s" := 1], 1)
  {
    hide Run;
    var b := CreateAfterBump();
    var c := b + [Insert(1)];
    var d := c + [ReadWorker];
    RunSnoc(b, Insert(1));
    RunSnoc(c, ReadWorker);
    RunSnoc(d, Mark);
    events := d + [Mark];
  }

  /** A destroy that removes the placeholder while its worker is being provisioned: the
      create gives the worker up, yet tells its caller the session is Running. */
  lemma RunningWithoutWorker()
    ensures exists events :: var s := Run(events);
              1 in s.past.returned && s.past.returned[1] == Handle(1, Running, None, None)
              && "s" !in s.table && 7 in s.destroyed
  {
    hide Run;
    var a := ProvisionedOnce();
    var b := a + [BeginDestroy("s")];
    var c := b + [Take];
    var d := c + [Publish(1)];
    RunSnoc(a, BeginDestroy("s"));
    RunSnoc(b, Take);
    RunSnoc(c, Publish(1));
    var s := Run(d);
    assert 1 in s.past.returned && s.past.returned[1] == Handle(1, Running, None, None)
        && "s" !in s.table && 7 in s.destroyed;
  }

  lemma ProvisionedOnce() returns (events: seq<Event>)
    ensures Run(events)
         == OneSession(map["s" := Handle(1, Provisioning, None, None)], 0,
                       map[1 := Provisioned("s", 1, Handle(1, Running, None, Some(7)))], map[],
                       Idle, {}, map[7 := PendingCreate(1)], map[], 0)
  {
    assert Run([]) == INITIAL;
    hide Run;
    var a := [] + [Begin("s")];
    var b := a + [Insert(1)];
    var c := b + [Provide(1, Some(7))];
    RunSnoc([], Begin("s"));
    RunSnoc(a, Insert(1));
    RunSnoc(b, Provide(1, Some(7)));
    RunSnoc(c, Join(1));
    events := c + [Join(1)];
  }

  lemma RunSnoc(events: seq<Event>, e: Event)
    ensures Run(events + [e]) == Step(Run(events), e)
  {
    assert (events + [e])[..|events|] == events;
  }

  // ---------------------------------------------------------------------------
  // The manager, updated in place by the lock-held regions.
  // ---------------------------------------------------------------------------

  /** The shared state. Each method is one region; it moves the manager as the machine's step
      moves its table, generations and ids, and gives its caller what that step records. */
  class RuntimeManager {
    var sessions: Table
    var generations: Generations
    var nextId: nat

    ghost predicate Shows(s: State)
      reads this
    {
      sessions == s.table && generations == s.generations && nextId == s.nextId
    }

    constructor ()
      ensures Shows(INITIAL)
    {
      sessions, generations, nextId := map[], map[], 1;
    }

    method ReadGeneration(id: string, ghost s: State) returns (generation: nat, vm: nat)
      requires Shows(s)
      modifies this`nextId
      ensures var s' := Step(s, Begin(id));
              Shows(s') && vm in s'.creates && s'.creates[vm] == ReadyToInsert(id, generation)
      ensures Inv(s) ==> vm !in s.creates && vm !in s.tasks
    {
      generation := if id in generations then generations[id] else 1;
      vm := nextId;
      nextId := nextId + 1;
    }

    method InsertPlaceholder(id: string, vm: nat, ghost s: State) returns (existing: Option<Handle>)
      requires Shows(s) && vm in s.creates && s.creates[vm].ReadyToInsert? && s.creates[vm].id == id
      modifies this`sessions
      ensures var s' := Step(s, Insert(vm));
              && Shows(s')
              && (existing.None? <==> vm in s'.creates && vm in s'.tasks && s'.tasks[vm] == Task(false, Pending))
              && (existing.Some? ==> vm in s'.past.returned && s'.past.returned[vm] == existing.value)
    {
      if id in sessions {
        return Some(sessions[id]);
      }
      sessions := sessions[id := Handle(vm, Provisioning, None, None)];
      return None;
    }

    method FinishCreate(id: string, generation: nat, result: Handle, ghost s: State, ghost vm: nat)
      returns (returned: Handle, destroy: Option<Worker>)
      requires Shows(s) && vm in s.creates && s.creates[vm] == Provisioned(id, generation, result)
      modifies this`sessions
      ensures var s' := Step(s, Publish(vm));
              && Shows(s')
              && vm in s'.past.returned && s'.past.returned[vm] == returned
              && s'.destroyed == Add(s.destroyed, destroy)
    {
      var h := result;
      destroy := None;
      var current := if id in generations then generations[id] else 1;
      if current == generation && id in sessions && sessions[id].vm == h.vm {
        sessions := sessions[id := h];
      } else if h.worker.Some? {
        destroy := h.worker;
        h := h.(worker := None);
        if id in sessions && sessions[id].vm == h.vm && sessions[id].status == Provisioning {
          sessions := sessions - {id};
        }
        if id in sessions {
          h := sessions[id];
        }
      }
      returned := h;
    }

    /** The first region of a cancel and of a destroy. */
    method BumpGeneration(id: string, ghost s: State)
      requires Shows(s) && s.closer.Idle?
      modifies this`generations
      ensures Shows(Step(s, BeginCancel(id))) && Shows(Step(s, BeginDestroy(id)))
    {
      if id !in generations {
        generations := generations[id := 1];
      }
      generations := generations[id := (generations[id] + 1) % (U64_MAX + 1)];
    }

    /** The cancel looks up the worker; without an entry it is over. */
    method LookUpWorker(id: string, ghost s: State) returns (found: Option<Option<Worker>>)
      requires Shows(s) && s.closer == CancelBumped(id)
      ensures var s' := Step(s, ReadWorker);
              Shows(s') && s'.closer == if found.Some? then CancelRead(id, found.value) else Idle
    {
      found := if id in sessions then Some(sessions[id].worker) else None;
    }

    method MarkCancelling(id: string, ghost s: State) returns (present: bool)
      requires Shows(s) && s.closer.CancelRead? && s.closer.id == id
      modifies this`sessions
      ensures var s' := Step(s, Mark);
              && Shows(s')
              && s'.closer == (if present then CancelMarked(id, s.closer.worker) else Idle)
              && s'.cancelled == (if present then Add(s.cancelled, s.closer.worker) else s.cancelled)
    {
      present := id in sessions;
      if present {
        sessions := sessions[id := sessions[id].(status := Cancelling)];
      }
    }

    /** `outcome` is the error of the adapter's cancel, if there was a worker to cancel. */
    method FinishCancel(id: string, outcome: Option<string>, ghost s: State) returns (h: Option<Handle>)
      requires Shows(s) && s.closer.CancelMarked? && s.closer.id == id && (s.closer.worker.None? ==> outcome.None?)
      modifies this`sessions
      ensures var s' := Step(s, EndCancel(outcome));
              && Shows(s') && s'.closer.Idle?
              && (h.Some? ==> id in s'.table && s'.table[id] == h.value && h.value.status == if outcome.Some? then Failed else Stopped)
              && (h.None? ==> id !in s'.table)
    {
      if id !in sessions {
        return None;
      }
      sessions := sessions[id := sessions[id].(status := if outcome.Some? then Failed else Stopped, error := outcome)];
      return Some(sessions[id]);
    }

    method TakeSession(id: string, ghost s: State) returns (h: Option<Handle>)
      requires Shows(s) && s.closer == DestroyBumped(id)
      modifies this`sessions
      ensures var s' := Step(s, Take);
              && Shows(s') && id !in s'.table
              && s'.closer == (if h.Some? then Destroying(id) else Idle)
              && (h.Some? ==> s'.destroyed == Add(s.destroyed, h.value.worker))
    {
      h := if id in sessions then Some(sessions[id]) else None;
      sessions := sessions - {id};
    }
  }

  /** One event, with the manager's part done by its methods. `s` holds what the suspended
      calls, the adapter and the reapers know. */
  method Perform(m: RuntimeManager, s: State, e: Event) returns (s': State)
    requires m.Shows(s)
    modifies m
    ensures s' == Step(s, e) && m.Shows(s')
  {
    s' := Step(s, e);
    match e
    case Begin(id) =>
      var _, _ := m.ReadGeneration(id, s);
    case Insert(vm) =>
      if vm in s.creates && s.creates[vm].ReadyToInsert? {
        var _ := m.InsertPlaceholder(s.creates[vm].id, vm, s);
      }
    case Publish(vm) =>
      if vm in s.creates && s.creates[vm].Provisioned? {
        var Provisioned(id, generation, h) := s.creates[vm];
        var _, _ := m.FinishCreate(id, generation, h, s, vm);
      }
    case BeginCancel(id) =>
      if s.closer.Idle? {
        m.BumpGeneration(id, s);
      }
    case BeginDestroy(id) =>
      if s.closer.Idle? {
        m.BumpGeneration(id, s);
      }
    case ReadWorker =>
      if s.closer.CancelBumped? {
        var _ := m.LookUpWorker(s.closer.id, s);
      }
    case Mark =>
      if s.closer.CancelRead? {
        var _ := m.MarkCancelling(s.closer.id, s);
      }
    case EndCancel(error) =>
      if s.closer.CancelMarked? {
        var outcome := if s.closer.worker.Some? then error else None;
        var _ := m.FinishCancel(s.closer.id, outcome, s);
      }
    case Take =>
      if s.closer.DestroyBumped? {
        var _ := m.TakeSession(s.closer.id, s);
      }
    case _ =>
  }

  /** Every interleaving, run through the manager, ends in the machine's state; so its table
      never holds a destroyed worker, and none twice. */
  method Interleave(events: seq<Event>) returns (m: RuntimeManager)
    ensures fresh(m) && m.Shows(Run(events))
    ensures forall id, jd :: id in m.sessions && jd in m.sessions && m.sessions[id].worker.Some? ==>
              && m.sessions[id].worker.value !in Run(events).destroyed
              && (id != jd ==> m.sessions[id].worker != m.sessions[jd].worker)
  {
    hide Step;
    m := new RuntimeManager();
    var s := INITIAL;
    assert Run(events[..0]) == INITIAL;
    for i := 0 to |events|
      invariant fresh(m) && m.Shows(s) && s == Run(events[..i])
    {
      assert events[..i + 1] == events[..i] + [events[i]];
      RunSnoc(events[..i], events[i]);
      s := Perform(m, s, events[i]);
    }
    assert events[..|events|] == events;
    forall id, jd | id in m.sessions && jd in m.sessions && m.sessions[id].worker.Some?
      ensures m.sessions[id].worker.value !in Run(events).destroyed
      ensures id != jd ==> m.sessions[id].worker != m.sessions[jd].worker
    {
      TableWorkersAlive(events, id, jd);
    }
  }
}
