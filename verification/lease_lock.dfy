/**
 * The application lock of Utils.php (`appTryLock`, `appLock`, `appRelease`,
 * `releaseLocks`) as a transition function of one process.
 *
 * The table `system_app_lock` is a map from lock id to absolute expiry in
 * milliseconds; the process keeps the ids it acquired in `lockedKeys`. The
 * clock (`ceil(microtime(true) * 1000)`) is a parameter `now`.
 */
module LeaseLock {

  /** Shared table: lock id -> expiry timestamp in ms (column `timeout`). */
  type Store = map<string, int>

  /** What one process sees: the shared table and its own `lockedKeys`. */
  datatype LockState = LockState(store: Store, held: set<string>)

  datatype TryResult = TryResult(acquired: bool, state: LockState)

  /** Result of `appLock`, with the number of `appTryLock` calls it made. */
  datatype LockOutcome = LockOutcome(acquired: bool, state: LockState, attempts: nat)

  /** Default lease of `appTryLock`: added to a ms timestamp, so 30 ms. */
  const TryLockDefaultLease: int := 30
  /** Default lease of `appLock`: 15 ms. */
  const AppLockDefaultLease: int := 15
  /** `appLock` retries at most this many times after its first attempt. */
  const MaxRetries: nat := 1000
  const MaxAttempts: nat := MaxRetries + 1

  /** A row is still live at `now` when its expiry lies strictly after it. */
  predicate Live(store: Store, id: string, now: int) {
    id in store && store[id] > now
  }

  /** `dbDelete('system_app_lock', 'timeout <= ' . $now)`. */
  function Purge(store: Store, now: int): (r: Store)
    ensures forall k :: k in r <==> Live(store, k, now)
    ensures forall k :: k in r ==> k in store && r[k] == store[k]
  {
    map k | k in store && store[k] > now :: store[k]
  }

  /**
   * `appTryLock($id, $timeout)` at clock `now`: re-entrant when the process
   * already holds `id`; otherwise purge every expired row, then insert
   * `{id, now + timeout}`, which the unique key rejects when a row for `id`
   * survived the purge.
   */
  function TryLock(st: LockState, id: string, timeout: int, now: int): (r: TryResult)
    // re-entry: no purge, no insert
    ensures id in st.held ==> r == TryResult(true, st)
    // otherwise every expired row is gone, whatever the outcome, and no other row changes
    ensures id !in st.held ==>
      forall k :: k != id ==> (k in r.state.store <==> Live(st.store, k, now))
    ensures id !in st.held ==>
      forall k :: k != id && k in r.state.store ==> k in st.store && r.state.store[k] == st.store[k]
    // the insert succeeds exactly when no live row for id is left
    ensures id !in st.held ==> (r.acquired <==> !Live(st.store, id, now))
    ensures id !in st.held && r.acquired ==>
      id in r.state.store && r.state.store[id] == now + timeout && r.state.held == st.held + {id}
    ensures !r.acquired ==>
      r.state.held == st.held && id in r.state.store && r.state.store[id] == st.store[id]
  {
    if id in st.held then TryResult(true, st)
    else
      var purged := Purge(st.store, now);
      if id in purged then TryResult(false, LockState(purged, st.held))
      else TryResult(true, LockState(purged[id := now + timeout], st.held + {id}))
  }

  /**
   * `appRelease($id)`: forget `id` locally and delete its row, whether or
   * not this process owns it.
   */
  function Release(st: LockState, id: string): (r: LockState)
    ensures id !in r.store && id !in r.held
    ensures forall k :: k != id ==> (k in r.store <==> k in st.store) && (k in r.held <==> k in st.held)
    ensures forall k :: k != id && k in r.store ==> r.store[k] == st.store[k]
  {
    LockState(st.store - {id}, st.held - {id})
  }

  /** The `foreach` of `releaseLocks`: `appRelease` on each key of a snapshot, in order. */
  function ReleaseEach(st: LockState, keys: seq<string>): (r: LockState)
    ensures r.held <= st.held
    ensures forall k :: k in r.store ==> k in st.store && r.store[k] == st.store[k]
    decreases |keys|
  {
    if |keys| == 0 then st else ReleaseEach(Release(st, keys[0]), keys[1..])
  }

  /**
   * `releaseLocks`: the held set ends empty and the row of every id the
   * process held is deleted; rows of other ids stay as they were.
   */
  function ReleaseLocks(st: LockState): (r: LockState)
    ensures r.held == {}
    ensures forall k :: k in r.store <==> k in st.store && k !in st.held
    ensures forall k :: k in r.store ==> r.store[k] == st.store[k]
  {
    LockState(st.store - st.held, {})
  }

  /** Releasing keys one at a time removes exactly those keys from the table and the held set. */
  lemma {:induction false} ReleaseEachRemoves(st: LockState, keys: seq<string>)
    ensures ReleaseEach(st, keys).store == st.store - set k | k in keys
    ensures ReleaseEach(st, keys).held == st.held - set k | k in keys
    decreases |keys|
  {
    if |keys| > 0 {
      ReleaseEachRemoves(Release(st, keys[0]), keys[1..]);
      assert (set k | k in keys) == {keys[0]} + set k | k in keys[1..];
    }
  }

  /**
   * However `foreach` orders the held ids, releasing them one by one ends
   * in the state `ReleaseLocks` describes.
   */
  lemma ReleaseLocksInAnyOrder(st: LockState, order: seq<string>)
    requires forall k :: k in order <==> k in st.held
    ensures ReleaseEach(st, order) == ReleaseLocks(st)
  {
    ReleaseEachRemoves(st, order);
    assert (set k | k in order) == st.held;
  }

  /** Releasing twice is releasing once; releasing an unknown id changes nothing. */
  lemma ReleaseIdempotent(st: LockState, id: string)
    ensures Release(Release(st, id), id) == Release(st, id)
    ensures id !in st.store && id !in st.held ==> Release(st, id) == st
  {
  }

  /**
   * Attempts `i`, `i+1`, ... of `appLock`, attempt `j` reading the clock as
   * `nows[j]`; stops at the first success or after the last reading.
   */
  function Attempt(st: LockState, id: string, timeout: int, nows: seq<int>, i: nat): (r: LockOutcome)
    requires i < |nows|
    ensures i + 1 <= r.attempts <= |nows|
    ensures id in st.held ==> r == LockOutcome(true, st, i + 1)
    ensures id !in st.held ==>
      (r.acquired <==> !(id in st.store && forall j :: i <= j < |nows| ==> st.store[id] > nows[j]))
    ensures !r.acquired ==> r.attempts == |nows| && r.state.held == st.held
    ensures !r.acquired ==> id in r.state.store && r.state.store[id] == st.store[id]
    ensures r.acquired ==> id in r.state.held
    ensures id !in st.held && r.acquired ==>
      id in r.state.store && r.state.store[id] == nows[r.attempts - 1] + timeout && r.state.held == st.held + {id}
    ensures id !in st.held && r.acquired ==>
      forall j :: i <= j < r.attempts - 1 ==> Live(st.store, id, nows[j])
    // the successful attempt is the first one that met no live row
    ensures id !in st.held && r.acquired ==> !Live(st.store, id, nows[r.attempts - 1])
    // another id's row survives exactly when it is live at every reading used, and keeps its expiry
    ensures id !in st.held ==> forall k :: k != id ==>
      (k in r.state.store <==> k in st.store && forall j :: i <= j < r.attempts ==> st.store[k] > nows[j])
    ensures forall k :: k != id && k in r.state.store ==> k in st.store && r.state.store[k] == st.store[k]
    decreases |nows| - i
  {
    var t := TryLock(st, id, timeout, nows[i]);
    if t.acquired then LockOutcome(true, t.state, i + 1)
    else if i + 1 == |nows| then LockOutcome(false, t.state, i + 1)
    else Attempt(t.state, id, timeout, nows, i + 1)
  }

  /**
   * `appLock($id, $timeout)`: one attempt, then up to 1000 more (the 15 ms
   * sleeps between them are the gaps between the readings in `nows`).
   * `timeout` is only the lease length; the number of attempts never depends
   * on it. Fails, without raising, only when the row for `id` outlives every
   * clock reading.
   */
  function AppLock(st: LockState, id: string, timeout: int, nows: seq<int>): (r: LockOutcome)
    requires |nows| == MaxAttempts
    ensures 1 <= r.attempts <= MaxAttempts
    ensures id in st.held ==> r == LockOutcome(true, st, 1)
    ensures id !in st.held ==>
      (r.acquired <==> !(id in st.store && forall j :: 0 <= j < MaxAttempts ==> st.store[id] > nows[j]))
    ensures !r.acquired ==> r.attempts == MaxAttempts && r.state.held == st.held
    ensures !r.acquired ==> id in r.state.store && r.state.store[id] == st.store[id]
    ensures r.acquired ==> id in r.state.held
    ensures id !in st.held && r.acquired ==> r.state.held == st.held + {id}
    ensures id !in st.held && r.acquired ==> !Live(st.store, id, nows[r.attempts - 1])
    ensures id !in st.held && r.acquired ==>
      id in r.state.store && r.state.store[id] == nows[r.attempts - 1] + timeout
      && forall j :: 0 <= j < r.attempts - 1 ==> Live(st.store, id, nows[j])
    ensures id !in st.held ==> forall k :: k != id ==>
      (k in r.state.store <==> k in st.store && forall j :: 0 <= j < r.attempts ==> st.store[k] > nows[j])
    ensures forall k :: k != id && k in r.state.store ==> k in st.store && r.state.store[k] == st.store[k]
  {
    Attempt(st, id, timeout, nows, 0)
  }

  /**
   * The default lease is 30 ms, not 30 s: a lock taken at `now` with the
   * default is free for anyone from `now + 30` on.
   */
  lemma DefaultLeaseIsMilliseconds(st: LockState, other: set<string>, id: string, now: int)
    requires id !in st.held && !Live(st.store, id, now)
    requires id !in other
    ensures var a := TryLock(st, id, TryLockDefaultLease, now);
            a.acquired
            && !TryLock(LockState(a.state.store, other), id, TryLockDefaultLease, now + 29).acquired
            && TryLock(LockState(a.state.store, other), id, TryLockDefaultLease, now + 30).acquired
  {
  }

  /**
   * The default lease of `appLock` is 15 ms: a lock it takes on the first
   * attempt at `nows[0]` is refused to another process at `nows[0] + 14`
   * and free for it at `nows[0] + 15`.
   */
  lemma AppLockDefaultLeaseIsMilliseconds(st: LockState, other: set<string>, id: string, nows: seq<int>)
    requires |nows| == MaxAttempts
    requires id !in st.held && !Live(st.store, id, nows[0])
    requires id !in other
    ensures var a := AppLock(st, id, AppLockDefaultLease, nows);
            a.acquired && a.attempts == 1
            && !TryLock(LockState(a.state.store, other), id, TryLockDefaultLease, nows[0] + 14).acquired
            && TryLock(LockState(a.state.store, other), id, TryLockDefaultLease, nows[0] + 15).acquired
  {
  }
}
