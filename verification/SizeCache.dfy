/** The shared workspace-size cache (`workspace_executor/filesystem.rs`): a total patched by
    each write's delta against a recursive walk of the tree, with processes that change
    the tree behind its back (`workspace_executor/process.rs`). */
module SizeCache {
  import opened Common

  const FILE_RPC_MAX_BYTES: nat := 51200

  datatype Node = File(content: Bytes) | Dir(entries: seq<Entry>)

  datatype Entry = Entry(name: string, node: Node)

  type Tree = seq<Entry>

  datatype Request = Request(path: seq<string>, content: Bytes, append: bool)

  // ---------------------------------------------------------------------------
  // The tree.
  // ---------------------------------------------------------------------------

  /** The bytes of all files below a directory. */
  function Size(tree: Tree): nat
    decreases tree
  {
    if tree == [] then 0 else NodeSize(tree[0].node) + Size(tree[1..])
  }

  function NodeSize(node: Node): nat
    decreases node
  {
    match node
    case File(content) => |content|
    case Dir(entries) => Size(entries)
  }

  lemma {:induction false} SizeAppend(a: Tree, b: Tree)
    ensures Size(a + b) == Size(a) + Size(b)
  {
    if a == [] {
      assert a + b == b;
    } else {
      assert (a + b)[1..] == a[1..] + b;
      SizeAppend(a[1..], b);
    }
  }

  lemma SizeOne(e: Entry)
    ensures Size([e]) == NodeSize(e.node)
  {
    assert [e][1..] == [];
  }

  lemma SizeUpdate(tree: Tree, i: nat, e: Entry)
    requires i < |tree|
    ensures Size(tree[i := e]) == Size(tree) - NodeSize(tree[i].node) + NodeSize(e.node)
  {
    var before, after := tree[..i], tree[i + 1..];
    assert tree == before + ([tree[i]] + after);
    assert tree[i := e] == before + ([e] + after);
    SizeAppend(before, [tree[i]] + after);
    SizeAppend(before, [e] + after);
    SizeAppend([tree[i]], after);
    SizeAppend([e], after);
    SizeOne(tree[i]);
    SizeOne(e);
  }

  /** The recursive walk, in saturating 64-bit arithmetic. */
  method WorkspaceSize(tree: Tree) returns (total: nat)
    ensures total == Min(Size(tree), U64_MAX)
    decreases tree
  {
    total := 0;
    for i := 0 to |tree|
      invariant total == Min(Size(tree[..i]), U64_MAX)
    {
      assert tree[..i + 1] == tree[..i] + [tree[i]];
      SizeAppend(tree[..i], [tree[i]]);
      SizeOne(tree[i]);
      match tree[i].node
      case Dir(entries) =>
        var inner := WorkspaceSize(entries);
        total := SaturatingAdd(total, inner);
      case File(content) =>
        total := SaturatingAdd(total, |content|);
    }
    assert tree[..|tree|] == tree;
  }

  /** The entry called `name`, or the number of entries. */
  function Find(tree: Tree, name: string): (i: nat)
    ensures i <= |tree| && (i < |tree| ==> tree[i].name == name)
    ensures forall k :: 0 <= k < i ==> tree[k].name != name
  {
    if tree == [] then 0
    else if tree[0].name == name then 0
    else 1 + Find(tree[1..], name)
  }

  /** What a path names, if anything. */
  function Lookup(tree: Tree, path: seq<string>): Option<Node>
    decreases |path|
  {
    if path == [] then Some(Dir(tree))
    else
      var i := Find(tree, path[0]);
      if i == |tree| then None
      else if |path| == 1 then Some(tree[i].node)
      else if tree[i].node.Dir? then Lookup(tree[i].node.entries, path[1..])
      else None
  }

  /** Write a file, creating its missing parents. Fails on a directory, or below a file. */
  function Put(tree: Tree, path: seq<string>, content: Bytes, append: bool): Option<Tree>
    decreases |path|
  {
    if path == [] then None
    else
      var i := Find(tree, path[0]);
      if |path| == 1 then
        if i == |tree| then Some(tree + [Entry(path[0], File(content))])
        else if tree[i].node.Dir? then None
        else Some(tree[i := Entry(path[0], File(if append then tree[i].node.content + content else content))])
      else if i == |tree| then
        var made := Put([], path[1..], content, append);
        if made.None? then None else Some(tree + [Entry(path[0], Dir(made.value))])
      else if tree[i].node.File? then None
      else
        var changed := Put(tree[i].node.entries, path[1..], content, append);
        if changed.None? then None else Some(tree[i := Entry(path[0], Dir(changed.value))])
  }

  /** The length `metadata` reports: the file's, nothing for a missing path, and whatever the
      filesystem says (`dirLen`) for a directory. */
  function Existing(tree: Tree, path: seq<string>, dirLen: nat): nat {
    match Lookup(tree, path)
    case None => 0
    case Some(File(content)) => |content|
    case Some(Dir(_)) => dirLen
  }

  /** A write that succeeds changes the size of the tree by exactly its delta. */
  lemma {:induction false} PutDelta(tree: Tree, path: seq<string>, content: Bytes, append: bool, dirLen: nat)
    requires Put(tree, path, content, append).Some?
    ensures Existing(tree, path, dirLen) <= Size(tree)
    ensures Size(Put(tree, path, content, append).value)
            == Size(tree) - (if append then 0 else Existing(tree, path, dirLen)) + |content|
    decreases |path|
  {
    var i := Find(tree, path[0]);
    if i == |tree| {
      var e := Put(tree, path, content, append).value[|tree|];
      SizeAppend(tree, [e]);
      SizeOne(e);
      if |path| > 1 {
        PutDelta([], path[1..], content, append, dirLen);
      }
    } else {
      SizeUpdate(tree, i, Put(tree, path, content, append).value[i]);
      SizeUpdate(tree, i, Entry("", File([])));
      if |path| > 1 {
        PutDelta(tree[i].node.entries, path[1..], content, append, dirLen);
      }
    }
  }

  /** The written file holds the content, after what it held when appending. */
  lemma {:induction false} PutStores(tree: Tree, path: seq<string>, content: Bytes, append: bool)
    requires Put(tree, path, content, append).Some?
    ensures var after := Lookup(Put(tree, path, content, append).value, path);
            var before := Lookup(tree, path);
            after == Some(File(if append && before.Some? && before.value.File? then before.value.content + content else content))
    decreases |path|
  {
    var tree' := Put(tree, path, content, append).value;
    var i := Find(tree, path[0]);
    assert Find(tree', path[0]) == i by {
      FindSame(tree, tree', path[0]);
    }
    if |path| > 1 {
      PutStores(if i == |tree| then [] else tree[i].node.entries, path[1..], content, append);
    }
  }

  lemma FindSame(tree: Tree, tree': Tree, name: string)
    requires |tree| <= |tree'| && forall k :: 0 <= k < |tree| ==> tree'[k].name == tree[k].name
    requires Find(tree, name) < |tree'| && tree'[Find(tree, name)].name == name
    ensures Find(tree', name) == Find(tree, name)
  {
    FindFirst(tree', name, Find(tree, name));
  }

  lemma {:induction false} FindFirst(tree: Tree, name: string, i: nat)
    requires i < |tree| && tree[i].name == name && forall k :: 0 <= k < i ==> tree[k].name != name
    ensures Find(tree, name) == i
  {
    if i > 0 {
      FindFirst(tree[1..], name, i - 1);
    }
  }

  lemma {:induction false} FindNone(tree: Tree, name: string)
    requires forall k :: 0 <= k < |tree| ==> tree[k].name != name
    ensures Find(tree, name) == |tree|
  {
    if tree != [] {
      FindNone(tree[1..], name);
    }
  }

  /** A name other than the one written is found where it was. */
  lemma FindOther(tree: Tree, tree': Tree, at: nat, name: string)
    requires |tree| <= |tree'| && at < |tree'| && forall k :: 0 <= k < |tree| ==> tree'[k].name == tree[k].name
    requires tree'[at].name != name && (|tree'| == |tree| || (|tree'| == |tree| + 1 && at == |tree|))
    ensures Find(tree', name) == if Find(tree, name) < |tree| then Find(tree, name) else |tree'|
  {
    var i := Find(tree, name);
    if i < |tree| {
      FindFirst(tree', name, i);
    } else {
      FindNone(tree', name);
    }
  }

  /** A path apart from the written one, neither a prefix of the other, is as it was. */
  lemma {:induction false} PutKeeps(tree: Tree, path: seq<string>, content: Bytes, append: bool, other: seq<string>)
    requires Put(tree, path, content, append).Some? && !(other <= path) && !(path <= other)
    ensures Lookup(Put(tree, path, content, append).value, other) == Lookup(tree, other)
    decreases |path|
  {
    hide Find;
    var tree' := Put(tree, path, content, append).value;
    var i := Find(tree, path[0]);
    if other[0] != path[0] {
      FindOther(tree, tree', i, other[0]);
    } else {
      FindSame(tree, tree', path[0]);
      assert |path| > 1 && |other| > 1;
      assert path == [path[0]] + path[1..] && other == [other[0]] + other[1..];
      PutKeeps(if i == |tree| then [] else tree[i].node.entries, path[1..], content, append, other[1..]);
    }
  }

  // ---------------------------------------------------------------------------
  // One executor, with no process running.
  // ---------------------------------------------------------------------------

  function Projected(used: nat, existing: nat, request: Request): nat {
    if request.append then SaturatingAdd(used, |request.content|)
    else SaturatingAdd(SaturatingSub(used, existing), |request.content|)
  }

  class WorkspaceExecutor {
    var tree: Tree
    var cache: Option<nat>
    const maxBytes: nat

    /** Totals and limits are 64-bit. */
    ghost predicate Valid()
      reads this
    {
      maxBytes <= U64_MAX && (cache.Some? ==> cache.value <= U64_MAX)
    }

    /** The tree's size is a 64-bit number, and a cached total is that number. */
    ghost predicate Exact()
      reads this
    {
      Size(tree) <= U64_MAX && (cache.Some? ==> cache.value == Size(tree))
    }

    constructor (tree: Tree, maxBytes: nat)
      requires maxBytes <= U64_MAX
      ensures Valid() && this.tree == tree && cache.None? && this.maxBytes == maxBytes
    {
      this.tree, this.maxBytes, cache := tree, maxBytes, None;
    }

    /** Accepted exactly when the content fits the RPC, the path can be written and the tree
        after the write fits the workspace, as far as a 64-bit total can tell; the cache is
        then exact again, and a refused write leaves the tree as it was. */
    method FilesystemWrite(request: Request, dirLen: nat) returns (r: Result<(), string>)
      requires Valid()
      modifies this
      ensures Valid()
      ensures r.Err? ==> tree == old(tree)
      ensures r.Ok? ==>
                && |request.content| <= 51200
                && Put(old(tree), request.path, request.content, request.append) == Some(tree)
      ensures old(Exact()) ==>
                var put := Put(old(tree), request.path, request.content, request.append);
                r.Ok? <==> |request.content| <= 51200 && put.Some? && Min(Size(put.value), U64_MAX) <= maxBytes
      ensures old(Exact()) && Size(tree) <= U64_MAX ==>
                Exact() && (r.Ok? ==> Size(tree) <= maxBytes && cache == Some(Size(tree)))
    {
      hide Put, Lookup, Size;
      if |request.content| > FILE_RPC_MAX_BYTES {
        return Err("file exceeds the file rpc limit");
      }
      var existing := Existing(tree, request.path, dirLen);
      var used;
      if cache.Some? {
        used := cache.value;
      } else {
        used := WorkspaceSize(tree);
        cache := Some(used);
      }
      var put := Put(tree, request.path, request.content, request.append);
      if put.Some? {
        PutDelta(tree, request.path, request.content, request.append, dirLen);
      }
      var projected := Projected(used, existing, request);
      if projected > maxBytes {
        return Err("workspace exceeds max_workspace_bytes");
      }
      if put.None? {
        return Err("write failed");
      }
      tree := put.value;
      cache := Some(projected);
      return Ok(());
    }

    method InvalidateWorkspaceSize()
      requires Valid()
      modifies this`cache
      ensures Valid() && cache.None? && (Size(tree) <= U64_MAX ==> Exact())
    {
      cache := None;
    }
  }

  // ---------------------------------------------------------------------------
  // Executors that share the cache, with processes running.
  // ---------------------------------------------------------------------------

  /** A write between its check and its commit. It holds the lock of the cache. */
  datatype Writing = Writing(request: Request, projected: nat, maxBytes: nat)

  /** `execs` counts the processes between their first and their final invalidation. */
  datatype State = State(tree: Tree, cache: Option<nat>, execs: nat, writing: Option<Writing>)

  datatype Event =
    | BeginWrite(request: Request, dirLen: nat, maxBytes: nat)
    | CommitWrite
    | ExecStart
    | ProcessChanges(tree: Tree)
    | ExecEnd

  ghost predicate Enabled(s: State, e: Event) {
    match e
    case BeginWrite(request, _, maxBytes) =>
      s.writing.None? && maxBytes <= U64_MAX && Size(s.tree) + |request.content| <= U64_MAX
    case CommitWrite => s.writing.Some? && Size(s.tree) + |s.writing.value.request.content| <= U64_MAX
    case ExecStart => s.writing.None?
    case ProcessChanges(tree) => s.execs > 0 && Size(tree) <= U64_MAX
    case ExecEnd => s.writing.None? && s.execs > 0
  }

  function Begin(s: State, request: Request, dirLen: nat, maxBytes: nat): State {
    if |request.content| > FILE_RPC_MAX_BYTES then s
    else
      var used := if s.cache.Some? then s.cache.value else Min(Size(s.tree), U64_MAX);
      var projected := Projected(used, Existing(s.tree, request.path, dirLen), request);
      s.(cache := Some(used), writing := if projected > maxBytes then None else Some(Writing(request, projected, maxBytes)))
  }

  function Commit(s: State): State
    requires s.writing.Some?
  {
    var Writing(request, projected, _) := s.writing.value;
    var put := Put(s.tree, request.path, request.content, request.append);
    if put.None? then s.(writing := None) else State(put.value, Some(projected), s.execs, None)
  }

  predicate CommitSucceeds(s: State) {
    && s.writing.Some?
    && var request := s.writing.value.request; Put(s.tree, request.path, request.content, request.append).Some?
  }

  function Step(s: State, e: Event): State
    requires e.CommitWrite? ==> s.writing.Some?
    requires e.ExecEnd? ==> s.execs > 0
  {
    match e
    case BeginWrite(request, dirLen, maxBytes) => Begin(s, request, dirLen, maxBytes)
    case CommitWrite => Commit(s)
    case ExecStart => s.(cache := None, execs := s.execs + 1)
    case ProcessChanges(tree) => s.(tree := tree)
    case ExecEnd => s.(cache := None, execs := s.execs - 1)
  }

  /** While no process runs, a cached total is what a walk would find, and a write about
      to commit has projected exactly the size it will leave. */
  ghost predicate Exact(s: State) {
    && Size(s.tree) <= U64_MAX
    && (s.execs == 0 && s.cache.Some? ==> s.cache.value == Size(s.tree))
    && (s.writing.Some? ==>
          var w := s.writing.value;
          && w.projected <= w.maxBytes
          && (s.execs == 0 ==>
                var put := Put(s.tree, w.request.path, w.request.content, w.request.append);
                put.Some? ==> Size(put.value) == w.projected))
  }

  lemma BeginExact(s: State, request: Request, dirLen: nat, maxBytes: nat)
    requires Exact(s) && Enabled(s, BeginWrite(request, dirLen, maxBytes))
    ensures Exact(Begin(s, request, dirLen, maxBytes))
  {
    hide Put, Size, Lookup;
    if Put(s.tree, request.path, request.content, request.append).Some? {
      PutDelta(s.tree, request.path, request.content, request.append, dirLen);
    }
  }

  lemma CommitExact(s: State)
    requires Exact(s) && Enabled(s, CommitWrite)
    ensures Exact(Commit(s))
    ensures s.execs == 0 && CommitSucceeds(s) ==>
              Size(Commit(s).tree) <= s.writing.value.maxBytes && Commit(s).cache == Some(Size(Commit(s).tree))
  {
    hide Put, Size, Lookup;
    var request := s.writing.value.request;
    if Put(s.tree, request.path, request.content, request.append).Some? {
      PutDelta(s.tree, request.path, request.content, request.append, 0);
    }
  }

  lemma StepExact(s: State, e: Event)
    requires Exact(s) && Enabled(s, e)
    ensures Exact(Step(s, e))
  {
    hide Put, Size, Lookup, Begin, Commit;
    match e
    case BeginWrite(request, dirLen, maxBytes) => BeginExact(s, request, dirLen, maxBytes);
    case CommitWrite => CommitExact(s);
    case _ =>
  }

  /** A process starts and ends without a cached total, so the next write measures the tree. */
  lemma ExecBracket(s: State, request: Request, dirLen: nat, maxBytes: nat)
    requires |request.content| <= 51200
    ensures var started := Step(s, ExecStart);
            started.cache.None? && started.execs == s.execs + 1
            && Begin(started, request, dirLen, maxBytes).cache == Some(Min(Size(s.tree), U64_MAX))
    ensures s.execs > 0 ==>
              var ended := Step(s, ExecEnd);
              ended.cache.None? && ended.execs == s.execs - 1
              && Begin(ended, request, dirLen, maxBytes).cache == Some(Min(Size(s.tree), U64_MAX))
  {
    hide Size, Put, Lookup;
  }

  ghost predicate Run(states: seq<State>, events: seq<Event>) {
    && |states| == |events| + 1
    && forall k :: 0 <= k < |events| ==> Enabled(states[k], events[k]) && states[k + 1] == Step(states[k], events[k])
  }

  /** In every interleaving of writes, processes and invalidations, from an empty cache. */
  lemma {:induction false} CacheIsExact(states: seq<State>, events: seq<Event>, k: nat)
    requires Run(states, events) && k < |states|
    requires Size(states[0].tree) <= U64_MAX && states[0].cache.None? && states[0].writing.None?
    ensures Exact(states[k])
    ensures states[k].execs == 0 && states[k].cache.Some? ==> states[k].cache.value == Size(states[k].tree)
  {
    hide Size, Put, Step;
    if k > 0 {
      CacheIsExact(states, events, k - 1);
      assert states[k - 1 + 1] == Step(states[k - 1], events[k - 1]);
      StepExact(states[k - 1], events[k - 1]);
    }
  }

  /** A write that commits while no process runs leaves the tree within its limit. */
  lemma AcceptedWriteFits(states: seq<State>, events: seq<Event>, k: nat)
    requires Run(states, events) && k < |events| && events[k].CommitWrite?
    requires Size(states[0].tree) <= U64_MAX && states[0].cache.None? && states[0].writing.None?
    requires states[k].execs == 0 && CommitSucceeds(states[k])
    ensures Size(states[k + 1].tree) <= states[k].writing.value.maxBytes
    ensures states[k + 1].cache == Some(Size(states[k + 1].tree))
  {
    hide Size, Put;
    CacheIsExact(states, events, k);
    CommitExact(states[k]);
  }

  /** A run from an empty workspace whose last step commits a write, while `n` processes
      run, and leaves the tree past that write's limit. */
  ghost predicate Overshoots(states: seq<State>, events: seq<Event>, n: nat, maxBytes: nat) {
    && Run(states, events) && events != []
    && states[0] == State([], None, 0, None)
    && var k := |events| - 1;
       && events[k].CommitWrite? && CommitSucceeds(states[k])
       && states[k].execs == n && states[k].writing.value.maxBytes == maxBytes
       && Size(states[k + 1].tree) > maxBytes
  }

  /** A committed write can leave the tree past its limit exactly when a process runs (and
      the limit is not the largest 64-bit number): the process grows the tree between the
      check and the commit. */
  lemma OvershootExact(n: nat, maxBytes: nat)
    requires maxBytes <= U64_MAX
    ensures (exists states, events :: Overshoots(states, events, n, maxBytes)) <==> n > 0 && maxBytes < U64_MAX
  {
    hide Run;
    assert Size([]) == 0;
    if states, events :| Overshoots(states, events, n, maxBytes) {
      RunLength(states, events);
      CacheIsExact(states, events, |events|);
      if n == 0 {
        AcceptedWriteFits(states, events, |events| - 1);
      }
    }
    if n > 0 && maxBytes < U64_MAX {
      ProcessCanOvershoot(n, maxBytes);
    }
  }

  lemma RunSnoc(states: seq<State>, events: seq<Event>, e: Event)
    requires Run(states, events) && Enabled(states[|events|], e)
    ensures Run(states + [Step(states[|events|], e)], events + [e])
  {
    hide Step, Size;
    var states', events' := states + [Step(states[|events|], e)], events + [e];
    forall k | 0 <= k < |events'| ensures Enabled(states'[k], events'[k]) && states'[k + 1] == Step(states'[k], events'[k]) {
      if k < |events| {
        assert states'[k + 1] == states[k + 1];
      }
    }
  }

  /** `n` processes start in an empty workspace. */
  lemma {:induction false} ProcessesStart(n: nat) returns (states: seq<State>, events: seq<Event>)
    ensures Run(states, events) && states[0] == State([], None, 0, None)
    ensures states[|events|] == State([], None, n, None)
  {
    if n == 0 {
      states, events := [State([], None, 0, None)], [];
    } else {
      var before, started := ProcessesStart(n - 1);
      RunSnoc(before, started, ExecStart);
      states, events := before + [State([], None, n, None)], started + [ExecStart];
    }
  }

  lemma ProcessCanOvershoot(n: nat, maxBytes: nat)
    requires 0 < n && maxBytes < U64_MAX
    ensures exists states, events :: Overshoots(states, events, n, maxBytes)
  {
    hide Put, Find, Run, Lookup;
    var request := Request(["a"], [], false);
    var big := [Entry("b", File(seq(maxBytes + 1, _ => 0)))];
    var after := big + [Entry("a", File([]))];
    SizeOne(big[0]);
    SizeOne(after[1]);
    SizeAppend(big, [after[1]]);
    PutAside(maxBytes);
    var writing := Some(Writing(request, 0, maxBytes));
    var s1 := State([], None, n, None);
    var s2 := State([], Some(0), n, writing);
    var s3 := State(big, Some(0), n, writing);
    var s4 := State(after, Some(0), n, None);
    assert Step(s1, BeginWrite(request, 0, maxBytes)) == s2;
    var t1, e1 := ProcessesStart(n);
    RunSnoc(t1, e1, BeginWrite(request, 0, maxBytes));
    RunLength(t1, e1);
    var t2, e2 := t1 + [s2], e1 + [BeginWrite(request, 0, maxBytes)];
    RunSnoc(t2, e2, ProcessChanges(big));
    var t3, e3 := t2 + [s3], e2 + [ProcessChanges(big)];
    RunSnoc(t3, e3, CommitWrite);
    assert Overshoots(t3 + [s4], e3 + [CommitWrite], n, maxBytes);
  }

  lemma RunLength(states: seq<State>, events: seq<Event>)
    requires Run(states, events)
    ensures |states| == |events| + 1
  {
  }

  /** A file beside another one, in an empty tree and in that one. */
  lemma PutAside(maxBytes: nat)
    ensures var big := [Entry("b", File(seq(maxBytes + 1, _ => 0)))];
            Put(big, ["a"], [], false) == Some(big + [Entry("a", File([]))])
    ensures Existing([], ["a"], 0) == 0
  {
    var big := [Entry("b", File(seq(maxBytes + 1, _ => 0)))];
    FindNone(big, "a");
    FindNone([], "a");
  }
}
