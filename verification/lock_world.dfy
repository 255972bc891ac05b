/**
 * Several processes sharing one `system_app_lock` table. Each process has
 * its own `lockedKeys`; their calls reach the table one after another, in
 * the order given by a trace.
 */
module LockWorld {
  import opened LeaseLock

  type Pid = nat

  /** The shared table and every process's held set (missing = empty). */
  datatype World = World(store: Store, held: map<Pid, set<string>>)

  function HeldBy(w: World, p: Pid): set<string> {
    if p in w.held then w.held[p] else {}
  }

  /** The state process `p` acts on. */
  function View(w: World, p: Pid): LockState {
    LockState(w.store, HeldBy(w, p))
  }

  /** The world after process `p` moved to `st`. */
  function Commit(w: World, p: Pid, st: LockState): World {
    World(st.store, w.held[p := st.held])
  }

  /** One call of the lock API by one process. */
  datatype Call =
    | TryLockCall(pid: Pid, id: string, timeout: int, now: int)
    | ReleaseCall(pid: Pid, id: string)
    | ReleaseLocksCall(pid: Pid)

  /** `ok` is what `appTryLock` returned; the release calls return nothing and report true. */
  datatype StepResult = StepResult(world: World, ok: bool)

  function Step(w: World, c: Call): (r: StepResult)
    ensures forall q :: q != c.pid ==> HeldBy(r.world, q) == HeldBy(w, q)
    ensures c.TryLockCall? ==> (r.ok <==> c.id in HeldBy(w, c.pid) || !Live(w.store, c.id, c.now))
  {
    match c
    case TryLockCall(p, id, timeout, now) =>
      var t := TryLock(View(w, p), id, timeout, now);
      StepResult(Commit(w, p, t.state), t.acquired)
    case ReleaseCall(p, id) =>
      StepResult(Commit(w, p, Release(View(w, p), id)), true)
    case ReleaseLocksCall(p) =>
      StepResult(Commit(w, p, ReleaseLocks(View(w, p))), true)
  }

  datatype Trace = Trace(final: World, results: seq<bool>)

  /** The calls of `calls`, one after another, from `w`. */
  function Run(w: World, calls: seq<Call>): (r: Trace)
    ensures |r.results| == |calls|
    decreases |calls|
  {
    if |calls| == 0 then Trace(w, [])
    else
      var s := Step(w, calls[0]);
      var rest := Run(s.world, calls[1..]);
      Trace(rest.final, [s.ok] + rest.results)
  }

  /**
   * A call that cannot disturb a row for `id` expiring at `expiry`: a
   * try-lock whose clock reads before the expiry, a release of another id,
   * or a `releaseLocks` of a process that does not hold `id`.
   */
  predicate Harmless(w: World, c: Call, id: string, expiry: int) {
    match c
    case TryLockCall(_, _, _, now) => now < expiry
    case ReleaseCall(_, k) => k != id
    case ReleaseLocksCall(p) => id !in HeldBy(w, p)
  }

  /**
   * Mutual exclusion while a lease is live: as long as every call is
   * harmless to the row for `id`, that row keeps its expiry, no process
   * gains or loses `id`, and every try-lock of `id` by a process that did
   * not already hold it fails.
   */
  lemma {:induction false} LiveLeaseExcludes(w: World, calls: seq<Call>, id: string)
    requires id in w.store
    requires forall i :: 0 <= i < |calls| ==> Harmless(w, calls[i], id, w.store[id])
    ensures id in Run(w, calls).final.store && Run(w, calls).final.store[id] == w.store[id]
    ensures forall p :: id in HeldBy(Run(w, calls).final, p) <==> id in HeldBy(w, p)
    ensures forall i :: (0 <= i < |calls| && calls[i].TryLockCall? && calls[i].id == id
                         && id !in HeldBy(w, calls[i].pid)) ==> !Run(w, calls).results[i]
    decreases |calls|
  {
    if |calls| > 0 {
      var c := calls[0];
      var w1 := Step(w, c).world;
      StepKeepsLiveRow(w, c, id);
      assert forall i :: 0 <= i < |calls[1..]| ==> Harmless(w1, calls[1..][i], id, w1.store[id]) by {
        forall i | 0 <= i < |calls[1..]| ensures Harmless(w1, calls[1..][i], id, w1.store[id]) {
          assert Harmless(w, calls[i + 1], id, w.store[id]);
        }
      }
      LiveLeaseExcludes(w1, calls[1..], id);
      var r := Run(w, calls);
      forall i | 0 <= i < |calls| && calls[i].TryLockCall? && calls[i].id == id && id !in HeldBy(w, calls[i].pid)
        ensures !r.results[i]
      {
        if i > 0 {
          assert calls[1..][i - 1] == calls[i];
          assert r.results[i] == Run(w1, calls[1..]).results[i - 1];
        }
      }
    }
  }

  /** One harmless call keeps the row for `id` and who holds `id`. */
  lemma StepKeepsLiveRow(w: World, c: Call, id: string)
    requires id in w.store && Harmless(w, c, id, w.store[id])
    ensures var w1 := Step(w, c).world;
            id in w1.store && w1.store[id] == w.store[id]
            && forall p :: id in HeldBy(w1, p) <==> id in HeldBy(w, p)
    ensures c.TryLockCall? && c.id == id && id !in HeldBy(w, c.pid) ==> !Step(w, c).ok
  {
    var w1 := Step(w, c).world;
    assert HeldBy(w1, c.pid) == Commit(w, c.pid, LockState(w1.store, HeldBy(w1, c.pid))).held[c.pid];
  }

  /**
   * Of several processes that each try `id` once, with every clock reading
   * earlier than the expiry any of them would set, at most one gets the lock.
   */
  lemma {:induction false} AtMostOneWinner(w: World, calls: seq<Call>, id: string)
    requires forall i :: 0 <= i < |calls| ==> calls[i].TryLockCall? && calls[i].id == id
    requires forall i, j :: 0 <= i < j < |calls| ==> calls[i].pid != calls[j].pid
    requires forall i :: 0 <= i < |calls| ==> id !in HeldBy(w, calls[i].pid)
    requires forall i, j :: 0 <= i < |calls| && 0 <= j < |calls| ==>
               calls[j].now < calls[i].now + calls[i].timeout
    ensures forall i, j :: 0 <= i < j < |calls| && Run(w, calls).results[i] ==> !Run(w, calls).results[j]
    decreases |calls|
  {
    if |calls| > 0 {
      var c := calls[0];
      var s := Step(w, c);
      var rest := calls[1..];
      var r := Run(w, calls);
      assert forall j :: 0 < j < |calls| ==> r.results[j] == Run(s.world, rest).results[j - 1];
      assert forall j :: 0 <= j < |rest| ==> rest[j] == calls[j + 1];
      if s.ok {
        // the winner's row outlives every other reading
        assert id in s.world.store && s.world.store[id] == c.now + c.timeout;
        forall j | 0 <= j < |rest| ensures Harmless(s.world, rest[j], id, s.world.store[id]) {
          assert rest[j] == calls[j + 1];
        }
        LiveLeaseExcludes(s.world, rest, id);
        forall j | 0 <= j < |rest| ensures !Run(s.world, rest).results[j] {
          assert rest[j] == calls[j + 1];
          assert HeldBy(s.world, rest[j].pid) == HeldBy(w, rest[j].pid);
        }
      } else {
        assert HeldBy(s.world, c.pid) == HeldBy(w, c.pid);
        AtMostOneWinner(s.world, rest, id);
      }
    }
  }

  /** A three-call trace is its three steps in order. */
  lemma RunThree(w: World, a: Call, b: Call, c: Call)
    ensures var s1 := Step(w, a);
            var s2 := Step(s1.world, b);
            var s3 := Step(s2.world, c);
            Run(w, [a, b, c]) == Trace(s3.world, [s1.ok, s2.ok, s3.ok])
  {
    var s1 := Step(w, a);
    var s2 := Step(s1.world, b);
    var s3 := Step(s2.world, c);
    assert [a, b, c][1..] == [b, c];
    assert [b, c][1..] == [c];
    assert Run(s2.world, [c]) == Trace(s3.world, [s3.ok]);
    assert Run(s1.world, [b, c]) == Trace(s3.world, [s2.ok, s3.ok]);
  }

  /**
   * Expiry liveness, as a timeline: P acquires `id` at `t0` for `lease` ms,
   * Q is refused while the lease runs, and Q gets the lock once it has
   * elapsed although P never released it.
   */
  lemma ExpiredLeaseIsTakenOver(w: World, p: Pid, q: Pid, id: string, lease: int, t0: int, t1: int, t2: int)
    requires p != q
    requires id !in HeldBy(w, p) && id !in HeldBy(w, q)
    requires !Live(w.store, id, t0)
    requires t1 < t0 + lease <= t2
    ensures var r := Run(w, [TryLockCall(p, id, lease, t0), TryLockCall(q, id, lease, t1), TryLockCall(q, id, lease, t2)]);
            r.results == [true, false, true]
            && id in r.final.store && r.final.store[id] == t2 + lease
            && id in HeldBy(r.final, p) && id in HeldBy(r.final, q)
  {
    var s1 := Step(w, TryLockCall(p, id, lease, t0));
    var s2 := Step(s1.world, TryLockCall(q, id, lease, t1));
    var s3 := Step(s2.world, TryLockCall(q, id, lease, t2));
    RunThree(w, TryLockCall(p, id, lease, t0), TryLockCall(q, id, lease, t1), TryLockCall(q, id, lease, t2));
    assert HeldBy(s1.world, q) == HeldBy(w, q);
    assert HeldBy(s2.world, p) == HeldBy(s1.world, p);
    assert HeldBy(s3.world, p) == HeldBy(s2.world, p);
  }

  /**
   * The hazard of re-entry without a lease check: once P's lease has
   * elapsed and Q has taken `id` over, P's next try-lock still answers true
   * from its held set, while Q's row is live. Both processes then hold `id`.
   */
  lemma StaleHolderReenters(w: World, p: Pid, q: Pid, id: string, lease: int, t0: int)
    requires p != q && lease > 0
    requires id !in HeldBy(w, p) && id !in HeldBy(w, q)
    requires !Live(w.store, id, t0)
    ensures var r := Run(w, [TryLockCall(p, id, lease, t0), TryLockCall(q, id, lease, t0 + lease),
                             TryLockCall(p, id, lease, t0 + lease)]);
            r.results == [true, true, true]
            && Live(r.final.store, id, t0 + lease)
            && id in HeldBy(r.final, p) && id in HeldBy(r.final, q)
  {
    var s1 := Step(w, TryLockCall(p, id, lease, t0));
    var s2 := Step(s1.world, TryLockCall(q, id, lease, t0 + lease));
    RunThree(w, TryLockCall(p, id, lease, t0), TryLockCall(q, id, lease, t0 + lease), TryLockCall(p, id, lease, t0 + lease));
    assert HeldBy(s1.world, q) == HeldBy(w, q);
    assert HeldBy(s2.world, p) == HeldBy(s1.world, p);
  }

  /**
   * Release carries no ownership check: a process that never held `id`
   * deletes P's live row, and a third process acquires at the same instant.
   */
  lemma ForeignReleaseFreesLock(w: World, p: Pid, q: Pid, x: Pid, id: string, lease: int, t: int)
    requires p != x && q != x
    requires id !in HeldBy(w, p) && id !in HeldBy(w, x)
    requires !Live(w.store, id, t) && lease > 0
    ensures var r := Run(w, [TryLockCall(p, id, lease, t), ReleaseCall(q, id), TryLockCall(x, id, lease, t)]);
            r.results == [true, true, true] && id in HeldBy(r.final, x)
  {
    var s1 := Step(w, TryLockCall(p, id, lease, t));
    var s2 := Step(s1.world, ReleaseCall(q, id));
    RunThree(w, TryLockCall(p, id, lease, t), ReleaseCall(q, id), TryLockCall(x, id, lease, t));
    assert HeldBy(s1.world, x) == HeldBy(w, x);
    assert HeldBy(s2.world, x) == HeldBy(s1.world, x);
  }

  /**
   * Bulk cleanup: after `releaseLocks` the process holds nothing and no
   * row of an id it held is left; other processes' held sets are untouched.
   */
  lemma ReleaseLocksClears(w: World, p: Pid)
    ensures var w1 := Step(w, ReleaseLocksCall(p)).world;
            HeldBy(w1, p) == {}
            && (forall k :: k in HeldBy(w, p) ==> k !in w1.store)
            && (forall k :: k in w1.store <==> k in w.store && k !in HeldBy(w, p))
  {
  }
}
