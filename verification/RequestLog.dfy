/** The bounded result logs of the runtime service: the newest results, in
    insertion order, and behind them a bounded queue of tombstones
    (`record_completed` and `record_cancelled`). */
module RequestLog {
  import opened Common

  /** `COMPLETED_LIMIT` and `CANCELLED_LIMIT` of the source. */
  const LIMIT: nat := 256

  /** A request: session id and request id. */
  type Key = (string, string)

  datatype Log<M> = Log(results: map<Key, seq<M>>, order: seq<Key>, evicted: seq<Key>)

  function Empty<M>(): Log<M> {
    Log(map[], [], [])
  }

  /** The last `n` elements, or all of them. */
  function LastN<T>(s: seq<T>, n: nat): (r: seq<T>)
    ensures |r| == Min(n, |s|)
  {
    if |s| <= n then s else s[|s| - n..]
  }

  /** The keys a log still refuses: recorded results and tombstones together
      cover the last 512 recordings. */
  function Remembered(history: seq<Key>): seq<Key> {
    LastN(history, 2 * LIMIT)
  }

  /** Pops from the front until at most `n` are left. */
  function Bounded<T>(s: seq<T>, n: nat): seq<T> {
    LastN(s, n)
  }

  function Record<M>(log: Log<M>, key: Key, responses: seq<M>): Log<M> {
    var order := if key in log.results then log.order else log.order + [key];
    var results := log.results[key := responses];
    if |order| <= LIMIT then Log(results, order, log.evicted)
    else
      var out := order[..|order| - LIMIT];
      Log(results - (set k | k in out), order[|order| - LIMIT..], Bounded(log.evicted + out, LIMIT))
  }

  /** The two nested eviction loops of the source. */
  method RecordInto<M>(log: Log<M>, key: Key, responses: seq<M>) returns (r: Log<M>)
    requires |log.order| <= LIMIT && |log.evicted| <= LIMIT
    ensures r == Record(log, key, responses)
  {
    var results, order, evicted := log.results, log.order, log.evicted;
    if key !in results {
      order := order + [key];
    }
    results := results[key := responses];
    ghost var full := order;
    while |order| > LIMIT
      invariant (order == full && results == log.results[key := responses] && evicted == log.evicted)
             || (|order| <= LIMIT && Log(results, order, evicted) == Record(log, key, responses))
      decreases |order|
    {
      var oldest := order[0];
      order := order[1..];
      results := results - {oldest};
      evicted := evicted + [oldest];
      while |evicted| > LIMIT
        invariant |evicted| <= LIMIT + 1
        invariant Bounded(evicted, LIMIT) == Bounded(log.evicted + [oldest], LIMIT)
      {
        evicted := evicted[1..];
      }
      assert full[..|full| - LIMIT] == [oldest] && full[|full| - LIMIT..] == order;
      assert (set k | k in [oldest]) == {oldest};
    }
    r := Log(results, order, evicted);
  }

  /** The log is the exact image of an unbounded history of recordings. */
  ghost predicate Reflects<M>(log: Log<M>, history: seq<Key>) {
    && log.evicted + log.order == Remembered(history)
    && |log.order| == Min(LIMIT, |history|)
    && NoDuplicates(Remembered(history))
    && (forall k :: k in log.results <==> k in log.order)
  }

  /** Recording a key the log does not remember appends it to the history. */
  lemma RecordNew<M>(log: Log<M>, history: seq<Key>, key: Key, responses: seq<M>)
    requires Reflects(log, history) && key !in Remembered(history)
    ensures Reflects(Record(log, key, responses), history + [key])
    ensures key in Record(log, key, responses).results
  {
    var old', new' := Remembered(history), Remembered(history + [key]);
    assert log.evicted + log.order == old';
    assert key !in log.results by { assert forall k :: k in log.order ==> k in old'; }
    var order := log.order + [key];
    var r := Record(log, key, responses);
    if |order| <= LIMIT {
      assert log.evicted == [];
      assert r.evicted + r.order == old' + [key] == new';
    } else {
      var out := order[..|order| - LIMIT];
      assert out == [log.order[0]];
      assert r.evicted + r.order == new' by {
        assert log.evicted + out + r.order == old' + [key];
      }
      assert forall i :: 0 <= i < |log.order| ==> log.order[i] == old'[|log.evicted| + i];
      RecordedKeys(log, key, responses);
    }
    NewIsUnique(history, key);
  }

  lemma RecordedKeys<M>(log: Log<M>, key: Key, responses: seq<M>)
    requires |log.order| == LIMIT && key !in log.results && NoDuplicates(log.order)
    requires forall k :: k in log.results <==> k in log.order
    ensures var r := Record(log, key, responses);
            key in r.results && forall k :: k in r.results <==> k in r.order
  {
    var order := log.order + [key];
    var out := order[..|order| - LIMIT];
    var r := Record(log, key, responses);
    assert out == [log.order[0]] && r.order == log.order[1..] + [key];
    assert (set k | k in out) == {log.order[0]};
    assert key != log.order[0];
    assert forall k :: k in log.order <==> k == log.order[0] || k in log.order[1..];
    assert log.order[0] !in log.order[1..];
  }

  lemma NewIsUnique(history: seq<Key>, key: Key)
    requires NoDuplicates(Remembered(history)) && key !in Remembered(history)
    ensures NoDuplicates(Remembered(history + [key]))
  {
    var old', new' := Remembered(history), Remembered(history + [key]);
    var all := old' + [key];
    assert NoDuplicates(all);
    assert new' == all[|all| - |new'|..];
  }

  /** Recording a key whose result is still there only replaces the result. */
  lemma RecordAgain<M>(log: Log<M>, history: seq<Key>, key: Key, responses: seq<M>)
    requires Reflects(log, history) && key in log.results
    ensures Reflects(Record(log, key, responses), history)
    ensures key in Record(log, key, responses).results
    ensures Record(log, key, responses).results == log.results[key := responses]
  {
  }

  /** A recording stores the responses under the key; every other result still there is as it was. */
  ghost predicate Stored<M(!new)>(before: map<Key, seq<M>>, after: map<Key, seq<M>>, key: Key, responses: seq<M>) {
    && key in after && after[key] == responses
    && forall k :: k in after && k != key ==> k in before && after[k] == before[k]
  }

  lemma RecordStores<M(!new)>(log: Log<M>, key: Key, responses: seq<M>)
    requires key in Record(log, key, responses).results
    ensures Stored(log.results, Record(log, key, responses).results, key, responses)
  {
  }

  /** Membership tests of the service, in terms of the history. */
  lemma RefusedIffRemembered<M>(log: Log<M>, history: seq<Key>, key: Key)
    requires Reflects(log, history)
    ensures key in log.results || key in log.evicted <==> key in Remembered(history)
    ensures Remembered(history) == LastN(history, 512)
  {
    assert forall k :: k in log.evicted + log.order <==> k in log.evicted || k in log.order;
  }

  lemma RecentIsRemembered(history: seq<Key>, i: nat, n: nat)
    requires i < n <= |history| && n - i <= 2 * LIMIT
    ensures history[i] in Remembered(history[..n])
  {
    var h := history[..n];
    assert h[i] == history[i];
    assert Remembered(h)[i - (|h| - |Remembered(h)|)] == history[i];
  }

  /** A key recorded at position `i` is forgotten only after 512 further recordings. */
  lemma ForgottenOnlyAfterMany(history: seq<Key>, i: nat, n: nat)
    requires i < n <= |history| && history[i] !in Remembered(history[..n])
    ensures n - i > 2 * LIMIT
  {
    if n - i <= 2 * LIMIT {
      RecentIsRemembered(history, i, n);
    }
  }
}
