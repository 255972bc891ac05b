# Kryn CMS `Utils` helpers — a Dafny model

This project models three pieces of sequential logic from the `Utils` helper
class of the Kryn CMS bundle (`Utils.php`), with the ORM, the distributed
cache and the database replaced by plain values:

1. **The application lock** (`appTryLock`, `appLock`, `appRelease`,
   `releaseLocks`). The table `system_app_lock` is a map from lock id to an
   absolute expiry in milliseconds; each process keeps the ids it acquired
   in `lockedKeys`; the clock is a parameter `now`. `LeaseLock` is the
   transition function of one process. `LockWorld` runs several processes,
   each with its own held set, over one shared table, their calls
   interleaved one after another. Mutual exclusion and expiry liveness are
   proved there.
2. **The URL table** (the cache-miss path of `getCachedUrlToPage`, and
   `getCachedPageToUrl`). This is a single pass over a domain's nodes in
   branch order that keeps the last path seen on each tree level. `UrlTable`
   proves that this pass agrees with a declarative definition of a node's
   path: the path of the last unskipped node one level up, plus `/urn`. It
   also proves that the page-to-URL map is the `array_flip` of the URL map
   and sends each id back to a URL that maps to it.
3. **The page-to-domain index** (`updatePage2DomainCache`,
   `getDomainOfPage`). The index groups node ids per domain into
   comma-terminated strings, and the lookup searches `,<list>,` for
   `,<id>,`. `PageDomain` proves the round trip: the search finds the id
   exactly when some row carries it, and it answers a domain that holds
   such a row.

Supporting modules:
- `PhpArray` models PHP's ordered array. Assigning to an existing key keeps
  its position, and `foreach`/`array_flip` visit entries in order.
- `Decimal` renders a non-negative integer in decimal. Different numbers get
  different renderings, and a rendering contains no comma.
- `Wrappers` holds `Option`, which stands for PHP `null`.

Units follow the code. `appTryLock` adds `$timeout` directly to a
millisecond timestamp (Utils.php:396-397). So the default of `appTryLock`,
30 (Utils.php:389), is a 30 ms lease, and the default of `appLock`, 15
(Utils.php:357), is a 15 ms lease, although the doc comment of `appTryLock`
says "Default is 30sec". The `$timeout` of `appLock` is only the lease length: the
number of attempts is always at most 1001, whatever its value.

Behaviour the proofs make explicit:
- **Stale re-entry.** Re-entry checks only the process's own held set
  (Utils.php:392). Suppose a holder's lease expires and another process
  takes the lock over. The first holder's next `appTryLock` still returns
  true, and both processes now hold the id while the second one's row is
  live (`LockWorld.StaleHolderReenters`). Mutual exclusion
  (`LockWorld.LiveLeaseExcludes`, `LockWorld.AtMostOneWinner`) is therefore
  stated for contenders that do not already hold the id.
- **Deposit children.** A child of a deposit node (type 3) takes its prefix
  from the `$level` entry of the deposit's level. That entry belongs to the
  last non-root, non-deposit node on that level; a folder or a node with an
  empty urn stores its own parent prefix there. The deposit never enters the
  `$level` table (`UrlTable.DepositChildExample`).
- **Memo never hits.** The per-instance memo of `getCachedPageToUrl` reads
  a local variable rather than `$this->cachedPageToUrl` (Utils.php:196-202).
  So the function always recomputes, which is how it is modelled.

## Model

| member | source | states |
|---|---|---|
| LeaseLock.TryLock | Utils.php:389-409 | If the process already holds `id`: true, and the state is unchanged (no purge, no insert). Otherwise: every row whose expiry is `<= now` is removed and all other rows are kept, whatever the outcome. The result is true exactly when no live row for `id` was present. On success the row is `now + timeout` and `id` joins the held set. On failure the held set is unchanged and the blocking row is untouched. |
| LeaseLock.Release | Utils.php:417-426 | `id` leaves both the held set and the table, whether or not this process held it. No other id's row or held flag changes. |
| LeaseLock.ReleaseLocks | Utils.php:339-344 | Afterwards the held set is empty. The row of every id the process held is deleted. Every other row is kept with its expiry. |
| LeaseLock.ReleaseEachRemoves | Utils.php:341-343 | Calling `appRelease` on a sequence of keys, one after another, removes exactly those keys from the table and from the held set. |
| LeaseLock.ReleaseLocksInAnyOrder | Utils.php:339-344 | Whatever order the `foreach` visits the held ids in, releasing them one by one ends in the state that `ReleaseLocks` describes. |
| LeaseLock.ReleaseIdempotent | Utils.php:417-426 | Releasing twice is the same as releasing once. Releasing an id that is neither held nor stored changes nothing. |
| LeaseLock.Attempt | Utils.php:364-375 | For an id the process already holds, attempt `i` returns true at once and changes nothing. Otherwise: from attempt `i` on, the retry loop succeeds exactly when the row for `id` is absent or has expired at one of the remaining clock readings. It stops at the first success, or after the last reading with the held set unchanged and the blocking row kept. The successful attempt met no live row, and every earlier one met a live row. The row of every other id survives exactly when it is live at each clock reading used, and keeps its expiry. |
| LeaseLock.AppLock | Utils.php:357-376 | Makes between 1 and 1001 attempts. Returns true at once for an id the process already holds. Otherwise it returns true exactly when some attempt finds no live row. It then succeeds at the first such attempt: the row's expiry is that attempt's clock reading plus `timeout`, and the held set gains `id` and nothing else. It returns false, without raising, only after all 1001 attempts, and only when the row outlives every clock reading, and then the blocking row keeps its expiry. The lease length never bounds the number of attempts. Another id's row is deleted only when one of the attempts' purges finds it expired; otherwise it keeps its expiry. |
| LeaseLock.DefaultLeaseIsMilliseconds | Utils.php:389-397 | A lock taken at `now` with the default lease is still refused to another process at `now + 29`, and is granted at `now + 30`. |
| LeaseLock.AppLockDefaultLeaseIsMilliseconds | Utils.php:357-364 | A lock that `appLock` takes on its first attempt with its default lease is refused to another process 14 ms later and granted 15 ms later. |
| LeaseLock.Purge | Utils.php:399 | Deleting the rows with `timeout <= now` keeps exactly the rows whose expiry lies after `now`, each with its expiry unchanged. |
| LeaseLock.ReleaseEach | Utils.php:341-343 | Releasing keys one after another only deletes rows and held ids: every remaining row has its old expiry, and nothing is added to the held set. |
| LockWorld.Step | Utils.php:389-426 | A call by one process never changes another process's held set. A try-lock succeeds exactly when the caller already holds the id or no live row for it exists. |
| LockWorld.StepKeepsLiveRow | Utils.php:396-408 | A call that cannot touch a live row for `id` keeps its expiry and keeps the set of processes that hold `id`. A fresh try-lock of `id` made during that call fails. |
| LockWorld.LiveLeaseExcludes | Utils.php:396-408 | Mutual exclusion. Consider any interleaving of calls that read the clock before the row's expiry, release other ids, or bulk-release processes that do not hold `id`. Through all of it the row keeps its expiry, no process gains or loses `id`, and every try-lock of `id` by a process not already holding it returns false. |
| LockWorld.AtMostOneWinner | Utils.php:396-408 | Several distinct processes each try the same id once, none holding it, and every clock reading falls before the expiry any winner would set. Then at most one of them gets true. |
| LockWorld.ExpiredLeaseIsTakenOver | Utils.php:391-408 | Expiry liveness. P acquires at `t0` for `lease` ms. Q is refused at any `t1 < t0 + lease`, and is granted at any `t2 >= t0 + lease` although P never released. Q's row then expires at `t2 + lease`. |
| LockWorld.StaleHolderReenters | Utils.php:391-394 | Once Q has taken over P's expired lock, P's next try-lock still returns true while Q's row is live. Both processes then hold the id. |
| LockWorld.ForeignReleaseFreesLock | Utils.php:411-426 | A process that never held `id` can release it. That deletes the holder's live row, and a third process then acquires `id` at the same instant. |
| LockWorld.ReleaseLocksClears | Utils.php:339-344 | After `releaseLocks`, the process holds nothing. No row of an id it held remains, and every other row is kept. |
| PhpArray.Put | Utils.php:241 | After `$a[$k] = $v`, `$a[$k]` is `$v` and every other key reads as before. The key set grows by `$k` only. Existing entries keep their positions, and keys stay distinct. |
| PhpArray.Flip | Utils.php:200 | `array_flip`: its keys are exactly the values of the array. Each one maps to the key of the LAST entry that holds it. |
| PhpArray.FlipRoundTrip | Utils.php:200 | Take a value's key in the flipped array. Looking that key up in the original array gives the value back. |
| UrlTable.Visit | Utils.php:222-242 | One node. Roots (level 0) and deposits (type 3) change nothing. Folders (type 2) and nodes with an empty urn add no URL, but set `level[lvl]` to the parent prefix (or `''`). Every other node maps `prefix + "/" + urn` to its id, overwriting an earlier entry for that path. It records the same string as `level[lvl]` and leaves every other URL as it was. No other level's string changes. |
| UrlTable.FlattenInvariant | Utils.php:219-242 | After every prefix of the node list, the level table holds, for each level, the path of the last unskipped node on it. Each URL maps to the id of the last node whose path it is. |
| UrlTable.UrlToPageSpec | Utils.php:210-247 | A URL is a key of the result exactly when some node that gets a URL has it as its path. Its value is the id of the last such node, so a later node with the same path overwrites an earlier one. |
| UrlTable.PathShape | Utils.php:232-239 | Every path is empty or begins with `/`. A node that gets a URL has a non-empty path beginning with `/`. |
| UrlTable.UrlKeysShape | Utils.php:236-241 | Every key of the URL map starts with `/`. It ends with `/` followed by the urn of a node whose id is the key's value. |
| UrlTable.FlattenUpTo | Utils.php:219-242 | The `foreach` over the nodes, which `UrlTable.UrlToPage` runs over the whole list: after any number of nodes, `$urls` has distinct keys. Its contents are stated by `UrlTable.FlattenInvariant` and `UrlTable.UrlToPageSpec`. |
| UrlTable.PageToUrl | Utils.php:194-203 | `array_flip` of the URL map: distinct ids, and they are exactly the URL map's values. |
| UrlTable.PageToUrlRoundTrip | Utils.php:194-203 | The page ids of `getCachedPageToUrl` are exactly the values of the URL map. Each id maps to a URL that the URL map sends back to that id. |
| UrlTable.DepositChildExample | Utils.php:226-236 | A level-2 page under a deposit gets `/about/box`, where `/about` comes from the page before the deposit on level 1. |
| Decimal.Dec | Utils.php:162 | An id renders as at least one character, all of them decimal digits. So a rendered id never contains a comma. |
| Decimal.DecInjective | Utils.php:162 | Two ids with the same rendering are equal. |
| PageDomain.BuildIndex | Utils.php:173-187 | Assigning `$r2d[$domain]` never creates a second entry for a domain: the index's keys are distinct. |
| PageDomain.BuildIndexKeys | Utils.php:173-187 | The index has an entry for a domain exactly when some row belongs to that domain. |
| PageDomain.BuildIndexLists | Utils.php:180-182 | A domain's entry is its rows' ids in row order, each followed by a comma. A domain without rows has no entry. |
| PageDomain.FindDomain | Utils.php:162-170 | The lookup loop returns the key of the last entry whose `,list,` contains `,id,`. It returns null exactly when no entry's list contains it. |
| PageDomain.ListContainsExactly | Utils.php:162-165 | `,<id>,` occurs in `,<list>,` exactly when the id is one of the list's ids. |
| PageDomain.SingleDomainIsFound | Utils.php:162-182 | If every row with the id lies in domain `d`, and there is at least one, the lookup returns `d`. |
| PageDomain.GetDomainOfPage | Utils.php:152-171 | With no cached array, the index is rebuilt from the rows. The result is then null exactly when no row has the id, and otherwise a domain of a row with that id. |

## Left out

- Real concurrency is not modelled. Processes act one call at a time on a shared map, in the order of a trace.
- `usleep` and the wall clock are replaced: `microtime` is the `now` parameter, and `appLock`'s 15 ms sleeps are the gaps between its clock readings.
- `register_shutdown_function` is not modelled. `releaseLocks` is modelled as an operation a process may call; how many times the hook is registered is not modelled.
- LeaseLock.TryLock: the clock `ceil(microtime(true) * 1000)` and the sum `$now + $timeout` are PHP floats (Utils.php:396-397); the model uses exact integers, which agree with them only while the values stay below 2^53 ms, and relies on that.
- LeaseLock.TryLock: the insert fails only on a duplicate key. Other database errors, which the source also turns into false, are not modelled.
- LeaseLock.Release: it never fails. The two deletes of `appRelease` (a query delete and a raw delete, both by id) are one removal, and the swallowed exception is not modelled.
- LeaseLock.AppLock: other processes do not act between its attempts here; only its own purges change the table. An interleaved retry is written in `LockWorld` as one `TryLockCall` per attempt.
- PHP key coercion is not modelled. The ids are strings and the node and domain ids are naturals, so numeric-string keys turning into integers does not arise.
- PageDomain.NodeRow: a null `DomainId` (PHP would use the key `''`) is not modelled.
- PageDomain.GetDomainOfPage: the cache read and write (`getDistributedCache`/`setDistributedCache`) are reduced to an optional cached index, plus the rows to rebuild from.
- UrlTable.UrlToPage: only the cache-miss computation is modelled. The cache hit, the falsy-array check and the cache write are left out. The node query's ordering (`orderByBranch`) is taken as given in the input list.
- `compressCss` is not modelled: it is file reading plus PCRE rewriting.
- `createTempFolder`, `getComposerArray` and `showFullDebug` are not modelled: they use the filesystem, `time()`/`mt_rand`, JSON decoding and the exception handler.
- `getDomain` and `getPage` are not modelled: they are thin wrappers over the distributed cache, Propel queries and (un)serialize.
- `getPropelCacheObject`, `setPropelCacheObject` and `removePropelCacheObject` are not modelled, for the same reason. In `getPropelCacheObject` the array-key branch builds `$npk` but never assigns `$pk` (Utils.php:439-448), so an array key produces a cache key from an undefined variable. In `setPropelCacheObject` and `removePropelCacheObject`, `$pk` is the array itself (Utils.php:467, 507), so it becomes the string "Array" in the cache key (Utils.php:481, 521).
