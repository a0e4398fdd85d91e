/**
 The upsert-and-count store of `create_or_update_cpe` and the run statistics
 it shares with `reset_stats`, `get_stats` and the `record_stats` wrapper.
 The document store is a map from `cpe_id` to the record last written under
 it; the outcome of each store write and of each Kafka send is a parameter,
 since both are calls into services outside the model.
 */
module Crud {
  import opened Wrappers
  import opened Records

  /** The unit `record_stats` reports a duration in, with the whole number of
      that unit it shows. */
  datatype Duration = Hours(hours: nat) | Minutes(minutes: nat) | Seconds(seconds: nat)

  /** The process-wide `stats` dictionary. `lastCalled` is the start time of
      the last wrapped call, in whole seconds. */
  datatype Stats = Stats(
    inserted: nat,
    updated: nat,
    errors: nat,
    lastCalled: Option<nat>,
    durations: Option<Duration>)

  /** The value `stats` starts with and `reset_stats` restores. */
  const InitialStats: Stats := Stats(0, 0, 0, None, None)

  /** The collection, keyed by `cpe_id`. */
  type Store = map<string, CpeRecord>

  datatype State = State(store: Store, stats: Stats)

  /** The exception classes `create_or_update_cpe` tells apart in its log;
      each is counted the same way. */
  datatype WriteError = ValidationError | BulkWriteError | OtherException

  /** What the awaited `update_one(..., upsert=True)` does. */
  datatype WriteOutcome = Written | WriteRaised(error: WriteError)

  /** What `producer.send` does: it returns, or raises (a full local queue,
      for instance). Delivery failures reported later by the delivery
      callback are only logged and never reach this code. */
  datatype SendOutcome = Sent | SendRaised

  /** The result of `update_one`: `upserted_id` is set exactly when the write
      inserted a new document. */
  datatype UpdateResult = UpdateResult(upserted: bool)

  /** What a call of `create_or_update_cpe` ends with: the write's result, or
      the `UnboundLocalError` that `return result` raises when the write
      itself raised and `result` was never bound. */
  datatype Returned = Returned(result: UpdateResult) | UnboundResult

  datatype Upsert = Upsert(state: State, returned: Returned)

  /** `create_or_update_cpe(cpe)`. A successful write maps the key to the
      record, leaves every other key alone, counts an insert when the key was
      new and an update otherwise; a failed send after it adds one error and
      keeps that count. A failed write changes neither the store nor the
      insert/update counts, adds one error, and ends in `UnboundResult`. */
  function CreateOrUpdateCpe(s: State, cpe: CpeRecord, write: WriteOutcome, send: SendOutcome): (u: Upsert)
    ensures write.Written? ==> cpe.cpeId in u.state.store && u.state.store[cpe.cpeId] == cpe
    ensures write.Written? ==> u.state.store.Keys == s.store.Keys + {cpe.cpeId}
    ensures forall k :: k in s.store && k != cpe.cpeId ==> k in u.state.store && u.state.store[k] == s.store[k]
    ensures write.WriteRaised? ==> u.state.store == s.store
    ensures u.state.stats.inserted == s.stats.inserted + (if write.Written? && cpe.cpeId !in s.store then 1 else 0)
    ensures u.state.stats.updated == s.stats.updated + (if write.Written? && cpe.cpeId in s.store then 1 else 0)
    ensures u.state.stats.errors == s.stats.errors + (if write.WriteRaised? || send.SendRaised? then 1 else 0)
    ensures u.state.stats.lastCalled == s.stats.lastCalled && u.state.stats.durations == s.stats.durations
    ensures u.returned.UnboundResult? <==> write.WriteRaised?
    ensures u.returned.Returned? ==> u.returned.result.upserted == (cpe.cpeId !in s.store)
  {
    match write
    case WriteRaised(_) =>
      Upsert(s.(stats := s.stats.(errors := s.stats.errors + 1)), UnboundResult)
    case Written =>
      var isNew := cpe.cpeId !in s.store;
      var counted :=
        if isNew then s.stats.(inserted := s.stats.inserted + 1)
        else s.stats.(updated := s.stats.updated + 1);
      var stats := if send.SendRaised? then counted.(errors := counted.errors + 1) else counted;
      Upsert(State(s.store[cpe.cpeId := cpe], stats), Returned(UpdateResult(isNew)))
  }

  /** Upserting the same record twice: the second call leaves the store as
      the first left it and counts as an update. */
  lemma UpsertTwice(s: State, cpe: CpeRecord, send1: SendOutcome, send2: SendOutcome)
    ensures var first := CreateOrUpdateCpe(s, cpe, Written, send1);
            var second := CreateOrUpdateCpe(first.state, cpe, Written, send2);
            && second.state.store == first.state.store
            && second.returned == Returned(UpdateResult(false))
            && second.state.stats.inserted == first.state.stats.inserted
            && second.state.stats.updated == first.state.stats.updated + 1
  {
  }

  /** `reset_stats()`: the counters return to zero and the timing fields to
      `None`; the store is untouched. */
  function ResetStats(s: State): (r: State)
    ensures r.store == s.store
    ensures r.stats.inserted == 0 && r.stats.updated == 0 && r.stats.errors == 0
    ensures r.stats.lastCalled.None? && r.stats.durations.None?
  {
    s.(stats := InitialStats)
  }

  /** `get_stats()`. */
  function GetStats(s: State): Stats
  {
    s.stats
  }

  /** `get_stats()` right after `reset_stats()` reports exactly the initial
      record, whatever the counters held before, and resetting twice is the
      same as resetting once. */
  lemma ResetForgetsCounts(s: State)
    ensures GetStats(ResetStats(s)) == InitialStats
    ensures ResetStats(ResetStats(s)) == ResetStats(s)
  {
  }

  // ---------------------------------------------------------------------------
  // record_stats

  const SecondsPerMinute: nat := 60
  const SecondsPerHour: nat := 3600

  /** The human-readable duration of `record_stats`, from the elapsed time in
      whole seconds: two `divmod` steps, then hours if at least one whole
      hour, else minutes if at least one whole minute, else seconds. The
      number shown is the whole count of the chosen unit. */
  function HumanDuration(elapsed: nat): (d: Duration)
    ensures d.Hours? <==> elapsed >= SecondsPerHour
    ensures d.Minutes? <==> SecondsPerMinute <= elapsed < SecondsPerHour
    ensures d.Seconds? <==> elapsed < SecondsPerMinute
    ensures d.Hours? ==> d.hours * SecondsPerHour <= elapsed < (d.hours + 1) * SecondsPerHour
    ensures d.Minutes? ==> d.minutes * SecondsPerMinute <= elapsed < (d.minutes + 1) * SecondsPerMinute
    ensures d.Seconds? ==> d.seconds == elapsed
  {
    var minutes, seconds := elapsed / SecondsPerMinute, elapsed % SecondsPerMinute;
    var hours, minutesLeft := minutes / SecondsPerMinute, minutes % SecondsPerMinute;
    if hours >= 1 then Hours(hours)
    else if minutesLeft >= 1 then Minutes(minutesLeft)
    else Seconds(seconds)
  }

  /** How the wrapped coroutine ended. */
  datatype Call<T> = Returns(value: T) | Raises

  /** What the wrapper returns, with the state it leaves. */
  datatype Wrapped<T> = Wrapped(state: State, result: Option<T>)

  /** The `record_stats()` wrapper, applied after the wrapped call has run and
      left the state `after`, with the call's start time and elapsed time
      supplied by the clock. Any exception becomes a `None` result; either
      way the start time and the duration are recorded, and nothing else in
      the state changes. */
  function RecordStats<T>(after: State, call: Call<T>, start: nat, elapsed: nat): (w: Wrapped<T>)
    ensures w.result.Some? <==> call.Returns?
    ensures call.Returns? ==> w.result.value == call.value
    ensures w.state.store == after.store
    ensures w.state.stats.inserted == after.stats.inserted
    ensures w.state.stats.updated == after.stats.updated
    ensures w.state.stats.errors == after.stats.errors
    ensures w.state.stats.lastCalled == Some(start)
    ensures w.state.stats.durations == Some(HumanDuration(elapsed))
  {
    var result := match call case Returns(v) => Some(v) case Raises => None;
    var stats := after.stats.(lastCalled := Some(start), durations := Some(HumanDuration(elapsed)));
    Wrapped(after.(stats := stats), result)
  }

  // ---------------------------------------------------------------------------
  // A sequence of upserts, one per record, in order

  /** The outcomes of the store write and the Kafka send of the i-th upsert. */
  datatype StoreEnv = StoreEnv(write: nat -> WriteOutcome, send: nat -> SendOutcome)

  /** The state after a sequence of upserts, and whether any of them raised. */
  datatype Fold = Fold(state: State, raised: bool)

  /** How many of the first `n` writes succeed. */
  function WriteCount(env: StoreEnv, n: nat): nat
  {
    if n == 0 then 0 else WriteCount(env, n - 1) + (if env.write(n - 1).Written? then 1 else 0)
  }

  /** How many of the first `n` upserts count an error. */
  function ErrorCount(env: StoreEnv, n: nat): nat
  {
    if n == 0 then 0
    else ErrorCount(env, n - 1) + (if env.write(n - 1).WriteRaised? || env.send(n - 1).SendRaised? then 1 else 0)
  }

  /** The keys of the records whose write succeeds. */
  function WrittenKeys(cpes: seq<CpeRecord>, env: StoreEnv): set<string>
  {
    if cpes == [] then {}
    else
      var n := |cpes| - 1;
      WrittenKeys(cpes[..n], env) + (if env.write(n).Written? then {cpes[n].cpeId} else {})
  }

  /** The last record written successfully under key `k`, if any. */
  function LastWritten(cpes: seq<CpeRecord>, env: StoreEnv, k: string): Option<CpeRecord>
  {
    if cpes == [] then None
    else
      var n := |cpes| - 1;
      if cpes[n].cpeId == k && env.write(n).Written? then Some(cpes[n])
      else LastWritten(cpes[..n], env, k)
  }

  /** One upsert per record, in order, each with its own write and send
      outcome; every upsert runs even after an earlier one raised. Inserts
      plus updates grow by the number of successful writes, errors by the
      number of failed writes or sends, and the run raises exactly when some
      write failed. */
  function UpsertAll(s: State, cpes: seq<CpeRecord>, env: StoreEnv): (f: Fold)
    ensures f.raised <==> exists i :: 0 <= i < |cpes| && env.write(i).WriteRaised?
    ensures f.state.stats.inserted + f.state.stats.updated
            == s.stats.inserted + s.stats.updated + WriteCount(env, |cpes|)
    ensures f.state.stats.errors == s.stats.errors + ErrorCount(env, |cpes|)
    ensures f.state.stats.lastCalled == s.stats.lastCalled && f.state.stats.durations == s.stats.durations
    decreases |cpes|
  {
    if cpes == [] then Fold(s, false)
    else
      var n := |cpes| - 1;
      var prev := UpsertAll(s, cpes[..n], env);
      var u := CreateOrUpdateCpe(prev.state, cpes[n], env.write(n), env.send(n));
      Fold(u.state, prev.raised || u.returned.UnboundResult?)
  }

  /** The store after a sequence of upserts: its keys are the old keys plus
      the keys written, each key written holds the last record written under
      it, and every other key keeps its old record. */
  lemma {:induction false} StoreAfterUpserts(s: State, cpes: seq<CpeRecord>, env: StoreEnv)
    ensures var f := UpsertAll(s, cpes, env);
            && f.state.store.Keys == s.store.Keys + WrittenKeys(cpes, env)
            && (forall k :: LastWritten(cpes, env, k).Some? ==>
                  k in f.state.store && f.state.store[k] == LastWritten(cpes, env, k).value)
            && (forall k :: k in s.store && LastWritten(cpes, env, k).None? ==>
                  k in f.state.store && f.state.store[k] == s.store[k])
    decreases |cpes|
  {
    if cpes != [] {
      var n := |cpes| - 1;
      var pre := cpes[..n];
      StoreAfterUpserts(s, pre, env);
      var prev := UpsertAll(s, pre, env);
      var u := CreateOrUpdateCpe(prev.state, cpes[n], env.write(n), env.send(n));
      assert UpsertAll(s, cpes, env).state == u.state;
      forall k | LastWritten(cpes, env, k).Some?
        ensures k in u.state.store && u.state.store[k] == LastWritten(cpes, env, k).value
      {
        if !(cpes[n].cpeId == k && env.write(n).Written?) {
          assert LastWritten(cpes, env, k) == LastWritten(pre, env, k);
        }
      }
      forall k | k in s.store && LastWritten(cpes, env, k).None?
        ensures k in u.state.store && u.state.store[k] == s.store[k]
      {
        assert LastWritten(cpes, env, k) == LastWritten(pre, env, k);
      }
    }
  }

  /** With every write succeeding, the keys written are all the records'
      keys, and the last record written under a key is its last occurrence. */
  lemma {:induction false} AllWritten(cpes: seq<CpeRecord>, env: StoreEnv)
    requires forall i :: 0 <= i < |cpes| ==> env.write(i).Written?
    ensures WriteCount(env, |cpes|) == |cpes|
    ensures WrittenKeys(cpes, env) == set i | 0 <= i < |cpes| :: cpes[i].cpeId
    ensures forall k :: LastWritten(cpes, env, k).Some? <==> k in WrittenKeys(cpes, env)
    decreases |cpes|
  {
    if cpes != [] {
      var n := |cpes| - 1;
      AllWritten(cpes[..n], env);
      assert forall i :: 0 <= i < n ==> cpes[..n][i] == cpes[i];
      assert (set i | 0 <= i < |cpes| :: cpes[i].cpeId)
             == (set i | 0 <= i < n :: cpes[..n][i].cpeId) + {cpes[n].cpeId};
    }
  }

  /** The last record written under a key does not depend on which
      environment performed the writes, as long as all of them succeed. */
  lemma {:induction false} LastWrittenAllOk(cpes: seq<CpeRecord>, env1: StoreEnv, env2: StoreEnv, k: string)
    requires forall i :: 0 <= i < |cpes| ==> env1.write(i).Written? && env2.write(i).Written?
    ensures LastWritten(cpes, env1, k) == LastWritten(cpes, env2, k)
    decreases |cpes|
  {
    if cpes != [] {
      LastWrittenAllOk(cpes[..|cpes| - 1], env1, env2, k);
    }
  }

  /** The keys a sequence of upserts inserts: written keys that were not in
      the store before. */
  function NewKeys(store: Store, cpes: seq<CpeRecord>, env: StoreEnv): set<string>
  {
    WrittenKeys(cpes, env) - store.Keys
  }

  /** Inserts are counted once per distinct new key, however often the key
      occurs: a repeated key is inserted once and updated afterwards. */
  lemma {:induction false} InsertedCountsNewKeys(s: State, cpes: seq<CpeRecord>, env: StoreEnv)
    ensures UpsertAll(s, cpes, env).state.stats.inserted == s.stats.inserted + |NewKeys(s.store, cpes, env)|
    decreases |cpes|
  {
    if cpes != [] {
      var n := |cpes| - 1;
      var pre := cpes[..n];
      InsertedCountsNewKeys(s, pre, env);
      StoreAfterUpserts(s, pre, env);
      var prev := UpsertAll(s, pre, env);
      var r := cpes[n];
      var written := env.write(n).Written?;
      NewKeyStep(s.store.Keys, WrittenKeys(pre, env), prev.state.store.Keys, r.cpeId, written);
      assert UpsertAll(s, cpes, env).state.stats.inserted
             == prev.state.stats.inserted + (if written && r.cpeId !in prev.state.store then 1 else 0);
    }
  }

  /** One more written key adds a new key exactly when it is in neither the
      old store nor the keys written so far. */
  lemma NewKeyStep(before: set<string>, written: set<string>, current: set<string>, k: string, ok: bool)
    requires current == before + written
    ensures |(written + (if ok then {k} else {})) - before|
            == |written - before| + (if ok && k !in current then 1 else 0)
  {
    if ok && k !in current {
      assert (written + {k}) - before == (written - before) + {k};
    } else if ok {
      assert (written + {k}) - before == written - before;
    } else {
      assert written + {} == written;
    }
  }

  /** Starting from reset statistics with every write and send succeeding,
      inserts plus updates equal the number of records and no error is
      counted. */
  lemma CountsFromReset(s: State, cpes: seq<CpeRecord>, env: StoreEnv)
    requires forall i :: 0 <= i < |cpes| ==> env.write(i).Written? && env.send(i).Sent?
    ensures var f := UpsertAll(ResetStats(s), cpes, env);
            && f.state.stats.inserted + f.state.stats.updated == |cpes|
            && f.state.stats.errors == 0
            && !f.raised
  {
    AllWritten(cpes, env);
    NoErrors(env, |cpes|);
  }

  /** No error is counted over the first `n` upserts iff every one of their
      writes and sends succeeded. */
  lemma {:induction false} NoErrors(env: StoreEnv, n: nat)
    ensures ErrorCount(env, n) == 0 <==> forall i :: 0 <= i < n ==> env.write(i).Written? && env.send(i).Sent?
  {
    if n > 0 {
      NoErrors(env, n - 1);
    }
  }

  /** Applying the same records twice with every write succeeding: the second
      pass leaves the store as the first left it, inserts nothing, and counts
      every record as an update. */
  lemma ApplyTwiceIdempotent(s: State, cpes: seq<CpeRecord>, env1: StoreEnv, env2: StoreEnv)
    requires forall i :: 0 <= i < |cpes| ==> env1.write(i).Written? && env2.write(i).Written?
    ensures var first := UpsertAll(s, cpes, env1);
            var second := UpsertAll(first.state, cpes, env2);
            && second.state.store == first.state.store
            && second.state.stats.inserted == first.state.stats.inserted
            && second.state.stats.updated == first.state.stats.updated + |cpes|
  {
    var first := UpsertAll(s, cpes, env1);
    var second := UpsertAll(first.state, cpes, env2);
    assert WrittenKeys(cpes, env1) == WrittenKeys(cpes, env2) && WriteCount(env2, |cpes|) == |cpes| by {
      AllWritten(cpes, env1);
      AllWritten(cpes, env2);
    }
    assert WrittenKeys(cpes, env2) <= first.state.store.Keys by {
      StoreAfterUpserts(s, cpes, env1);
    }
    assert second.state.stats.inserted == first.state.stats.inserted by {
      InsertedCountsNewKeys(first.state, cpes, env2);
      assert NewKeys(first.state.store, cpes, env2) == {};
    }
    SecondPassKeepsStore(s, cpes, env1, env2);
  }

  /** The store part of `ApplyTwiceIdempotent`: every key the second pass
      writes already holds the record that pass writes again. */
  lemma SecondPassKeepsStore(s: State, cpes: seq<CpeRecord>, env1: StoreEnv, env2: StoreEnv)
    requires forall i :: 0 <= i < |cpes| ==> env1.write(i).Written? && env2.write(i).Written?
    ensures var first := UpsertAll(s, cpes, env1);
            UpsertAll(first.state, cpes, env2).state.store == first.state.store
  {
    var first := UpsertAll(s, cpes, env1);
    var second := UpsertAll(first.state, cpes, env2);
    assert second.state.store.Keys == first.state.store.Keys by {
      assert WrittenKeys(cpes, env1) == WrittenKeys(cpes, env2) by {
        AllWritten(cpes, env1);
        AllWritten(cpes, env2);
      }
      StoreAfterUpserts(s, cpes, env1);
      StoreAfterUpserts(first.state, cpes, env2);
    }
    forall k | k in first.state.store
      ensures second.state.store[k] == first.state.store[k]
    {
      LastWrittenAllOk(cpes, env1, env2, k);
      StoreAfterUpserts(s, cpes, env1);
      StoreAfterUpserts(first.state, cpes, env2);
    }
  }

  /** The worked example of three records, two sharing a key, upserted into
      an empty store: two inserts and one update, and the shared key holds the
      later of its two records. */
  lemma DuplicateKeyExample(r1: CpeRecord, r2: CpeRecord, r3: CpeRecord, env: StoreEnv)
    requires r1.cpeId == r3.cpeId && r1.cpeId != r2.cpeId
    requires forall i :: 0 <= i < 3 ==> env.write(i).Written? && env.send(i).Sent?
    ensures var f := UpsertAll(State(map[], InitialStats), [r1, r2, r3], env);
            && f.state.stats.inserted == 2
            && f.state.stats.updated == 1
            && f.state.store == map[r1.cpeId := r3, r2.cpeId := r2]
  {
    var s := State(map[], InitialStats);
    var f1 := UpsertAll(s, [r1], env).state;
    var f2 := UpsertAll(s, [r1, r2], env).state;
    var f3 := UpsertAll(s, [r1, r2, r3], env).state;
    assert f1.store == map[r1.cpeId := r1] && f1.stats.inserted == 1 && f1.stats.updated == 0 by {
      assert [r1] == [] + [r1];
      UpsertSnoc(s, [], r1, env);
      assert UpsertAll(s, [], env).state == s;
    }
    assert f2.store == map[r1.cpeId := r1, r2.cpeId := r2] && f2.stats.inserted == 2 && f2.stats.updated == 0 by {
      assert [r1, r2] == [r1] + [r2];
      UpsertSnoc(s, [r1], r2, env);
    }
    assert f3.store == map[r1.cpeId := r3, r2.cpeId := r2] && f3.stats.inserted == 2 && f3.stats.updated == 1 by {
      assert [r1, r2, r3] == [r1, r2] + [r3];
      UpsertSnoc(s, [r1, r2], r3, env);
    }
  }

  /** Upserting one more record after a sequence is one more upsert with that
      record's write and send outcome. */
  lemma UpsertSnoc(s: State, cpes: seq<CpeRecord>, r: CpeRecord, env: StoreEnv)
    ensures UpsertAll(s, cpes + [r], env).state
            == CreateOrUpdateCpe(UpsertAll(s, cpes, env).state, r, env.write(|cpes|), env.send(|cpes|)).state
  {
    assert (cpes + [r])[..|cpes|] == cpes;
  }

}
