# EvaluateIPC benchmark core in Dafny

EvaluateIPC compares ways of serialising work on one shared cache: a mutex, an
actor fed through a bounded condition-variable queue, and other schedulers. Every
benchmark uses the same workload. `calc` bumps ten decimal counters stored as
strings under the keys `hello0`..`hello9` of an `unordered_map<string, string>`.
`checkWork` then compares every counter with `to_string(check_val)`.

This project models the sequential content of that workload:

- `decimal.dfy` (module `Decimal`): `std::to_string` and `std::stoi` on the strings
  the counters hold. The model proves the round trip `stoi(to_string(n)) == n` for
  every 32-bit `int`, and that `to_string` is injective. It also proves that on
  canonical text, meaning no leading zero and no `-0`, `stoi` reads n exactly when the
  text is `to_string(n)`.
- `benchcommon.dfy` (module `BenchCommon`):
  - the constants `max_iter` and `num_calc`, and `get_key`;
  - the cache, as a class whose `entries` map `calc` updates in place;
  - `calc`, as a loop over the ten keys, proved equal to `CalcSpec`. `CalcSpec` is
    a step-by-step function, and the closed form `CalcTimes` describes any number
    of calcs;
  - `checkWork`, as a loop that returns the keys it would log an error for, or the
    missing key on which `cache.at` would throw.
- `boostbench.dfy` (module `BoostBench`):
  - `cond_queue`, as a class over a 100-slot array with `pos` and `closed`;
  - the actor loop that drains the queue;
  - the units of `cache_calc_queue1` and the driver itself, run one unit at a time;
  - `BM_cachecalc_queue1`.
- `mutexbench.dfy` (module `MutexBench`): `cache_calc` and `BM_cachecalc`.

Blocking waits become preconditions. `add` proceeds once `pos < qsize`, and `get`
once `pos > 0 || closed`. A completed future means the task has run.

Three behaviours of the code shape the model of the queue and the actor:

- The queue is last in, first out. `add` stores at `buff[pos++]` and `get` takes
  `buff[--pos]` (tests/boostbench.cc:47 and 70).
- `get` returns the closed flag as it stands, even when it also pops an item
  (tests/boostbench.cc:68-71).
- The actor loop stops on the closed flag before running the task popped with it
  (tests/boostbench.cc:164-167), so that task is dropped. Items still buffered when the queue
  is closed are never run: the first `get` after `close` pops one together with the
  flag, and the loop ends.

## Model

| member | source | states |
|---|---|---|
| Decimal.StoiCanonical | tests/benchcommon.hpp:25 | on canonical text (digits without a leading zero, or '-' and such digits), whenever stoi accepts it, to_string of the value gives the text back, negatives included |
| Decimal.StoiIffToString | tests/benchcommon.hpp:25 | for every int n and every string s: stoi reads n from canonical s exactly when s is to_string(n) |
| Decimal.ParseIntToString | tests/benchcommon.hpp:25 | reading back any number written by to_string gives that number |
| Decimal.StoiToString | tests/benchcommon.hpp:25 | stoi(to_string(n)) == n for every int n |
| Decimal.IntToStringInjective | tests/benchcommon.hpp:17 | distinct numbers are written as distinct strings |
| Decimal.NatToStringDigits | tests/benchcommon.hpp:37 | to_string of an unsigned number is non-empty, all digits, with no leading zero except for 0 itself |
| Decimal.NatToStringParse | tests/benchcommon.hpp:25 | on digit strings without a leading zero, to_string undoes the parse: such counters are canonical |
| BenchCommon.KeyInjective | tests/benchcommon.hpp:17 | get_key(i) == get_key(j) only when i == j, so the ten keys calc touches are distinct |
| BenchCommon.KeyIsCalcKey | tests/benchcommon.hpp:17 | get_key(i) for 0 <= i < num_calc is "hello" followed by one digit |
| BenchCommon.CalcKeyIff | tests/benchcommon.hpp:21-22 | a key is "hello" plus one digit exactly when it is get_key(i) for some i in 0..num_calc |
| BenchCommon.CountOfToString | tests/benchcommon.hpp:25 | a counter written by to_string is valid and stands for the number written |
| BenchCommon.BumpCount | tests/benchcommon.hpp:24-25 | the new value of a counter is to_string of its count plus one ("1" for an empty one), and reads back as that count |
| BenchCommon.InsertThenWrite | tests/benchcommon.hpp:23-25 | the empty value `cache[key]` inserts for an absent key is overwritten at once and leaves no trace |
| BenchCommon.CalcFromAt | tests/benchcommon.hpp:21-26 | the iterations of calc's loop from the i-th on leave each counter already visited alone and bump each later one exactly once |
| BenchCommon.CalcFromStep | tests/benchcommon.hpp:21-26 | one iteration of the loop in calc leaves the later counters as they were, and followed by the rest of the loop it is the loop from that iteration |
| BenchCommon.CalcFromFrame | tests/benchcommon.hpp:21-26 | the loop adds no key besides the ten and changes no value outside them |
| BenchCommon.CalcSpecEffect | tests/benchcommon.hpp:19-27 | after calc all ten keys are present and bumped, the key set grows by exactly the ten, and every other entry is unchanged |
| BenchCommon.CalcSpecAt | tests/benchcommon.hpp:23-25 | after calc, get_key(i) holds the bump of its old value ("1" when absent or empty) |
| BenchCommon.Cache.Calc | tests/benchcommon.hpp:19-27 | the in-place loop of calc leaves the cache equal to one step of the specification, given counters with room for one more |
| BenchCommon.CalcTimesAt | tests/benchcommon.hpp:19-27 | after k >= 1 calcs, get_key(i) holds to_string of its old count plus k |
| BenchCommon.CalcTimesEffect | tests/benchcommon.hpp:19-27 | after k calcs every counter is present, valid and up by k; no other key appears and no other entry changes |
| BenchCommon.CalcTimesHeadroom | tests/benchcommon.hpp:25 | counters with room for k bumps without int overflow have room for j <= k of them, and for the remaining k - j afterwards |
| BenchCommon.CalcTimesSucc | tests/benchcommon.hpp:19-27 | one more calc after k calcs gives the state after k + 1 calcs: the loop and the closed form agree |
| BenchCommon.CalcTimesAdd | tests/benchcommon.hpp:19-27 | a calcs followed by b more calcs are c == a + b calcs, given room for all c |
| BenchCommon.CalcTimesNext | tests/benchcommon.hpp:19-27 | with room for `total` calcs, the state after d calcs has room for n more when d + n <= total, and those n lead to the state after e == d + n calcs |
| BenchCommon.CalcTimesReadyMore | tests/benchcommon.hpp:25 | room for `total` bumps leaves room for n more after d calcs when d + n <= total |
| BenchCommon.CalcTimesFromEmpty | tests/benchcommon.hpp:19-27 | from an empty cache, k >= 1 calcs leave exactly the ten keys, each holding to_string(k) |
| BenchCommon.Cache.constructor | tests/benchcommon.hpp:11 | a default-constructed cache is empty |
| BenchCommon.MismatchedKeys | tests/benchcommon.hpp:38-43 | the keys logged are exactly those among the first n whose value differs from the expected text, all of them calc keys |
| BenchCommon.CheckWork | tests/benchcommon.hpp:35-43 | with check_val (default max_iter*2) it returns the mismatched keys when all ten are present; otherwise it stops at the first missing key (where `at` throws) with the keys logged before it |
| BenchCommon.MismatchedKeysEmpty | tests/benchcommon.hpp:38-43 | checkWork logs nothing exactly when all ten values equal to_string(check_val) |
| BenchCommon.MismatchedKeysAll | tests/benchcommon.hpp:38-43 | when every value differs, all keys are logged, in order |
| BenchCommon.CheckAfterCalcs | tests/benchcommon.hpp:35-43 | after k calcs on an empty cache, checkWork with check_val == k logs nothing, and with any other check_val logs all ten keys in order |
| BoostBench.CondQueue.constructor | tests/boostbench.cc:38 | a new queue has qsize default-valued slots, pos 0 and is not closed |
| BoostBench.CondQueue.Add | tests/boostbench.cc:39-50 | once pos < qsize, the value goes to buff[pos] and pos grows by one; no other slot and not the closed flag change, so 0 <= pos <= qsize is kept |
| BoostBench.CondQueue.Close | tests/boostbench.cc:52-56 | closed becomes true; the buffer and pos are untouched |
| BoostBench.CondQueue.Get | tests/boostbench.cc:58-75 | once pos > 0 or closed: returns the closed flag as it is; pops buff[pos - 1] when there is an item, else returns the default value and leaves pos at 0 |
| BoostBench.AddThenGet | tests/boostbench.cc:47-70 | add(x) followed by get() returns x, restores pos and contents (last in, first out) and leaves the closed flag as it was |
| BoostBench.CloseThenGet | tests/boostbench.cc:52-71 | after close with items still buffered, get returns the last item together with true, the queue stays closed and the remaining items are the older ones |
| BoostBench.Reversed | tests/boostbench.cc:70 | the pop order of a stack is the push order reversed |
| BoostBench.RunTask | tests/boostbench.cc:168 | running a calc task takes the cache from its done-th calc state to its (done + 1)-th: exactly one more calc |
| BoostBench.Worker | tests/boostbench.cc:162-170 | on an open queue the actor runs every buffered task exactly once, in pop order, each one a calc; on a closed queue it stops at its first get, running nothing and dropping the item popped with the flag |
| BoostBench.SubmitAndWait | tests/boostbench.cc:176-181 | submitting a calc task to the idle actor and waiting on its future performs exactly one more calc on the cache, and leaves the queue empty and open |
| BoostBench.Unit | tests/boostbench.cc:175-189 | one unit submits and waits for two calc tasks in turn, so the cache goes through exactly two more calcs and the queue is left empty and open |
| BoostBench.CacheCalcQueue1 | tests/boostbench.cc:157-196 | max_iter units followed by close and join leave the cache at exactly 2*max_iter calcs past its start, and the actor exits |
| BoostBench.BenchCacheCalcQueue1 | tests/boostbench.cc:199-205 | from an empty cache the queued schedule makes every counter "2000", and checkWork with its default logs nothing |
| MutexBench.CacheCalc | tests/mutexbench.cc:23-28 | max_iter calcs in sequence: each counter goes up by max_iter and nothing outside the ten keys changes |
| MutexBench.BenchCacheCalc | tests/mutexbench.cc:30-36 | as written: after cache_calc on an empty cache, checkWork with its default 2*max_iter logs all ten keys |
| MutexBench.BenchCacheCalcFixed | tests/mutexbench.cc:30-36 | with check_val = max_iter, checkWork logs nothing after cache_calc |

## Left out

- Threads, mutexes, condition variables, `volatile`, `std::async`, futures and
  `packaged_task`. The model runs one schedule: each unit of `cache_calc_queue1`
  submits a task and the actor runs it before the unit goes on. Other interleavings
  give the same final cache because all tasks are the same `calc`, but this is not
  proved.
- BoostBench.Worker: where the source's actor would block inside `get` on an empty,
  open queue, the modelled loop returns with `exited` false. The caller resumes it
  by calling it again after the next `add`.
- `fake_io`, the benchmark timing, `BENCHMARK` registration and `main`. `log_error`
  and `SkipWithError` become the list of logged keys that checkWork returns.
- The Boost.Asio thread pool and strand benchmark (`BM_cachecalc_threadpool`), and the
  folly and seastar benchmarks: they are foreign runtimes whose point is concurrency.
- `cache_calc_queue` (tests/boostbench.cc:110-145), which re-submits its second calc
  from a detached thread.
- `CacheActor` (tests/boostbench.cc:78-108) is not modelled as a working actor. `start`
  declares a local `actor_thread` (line 86) that shadows the member, and the thread
  object is destroyed while still joinable. `close` then joins the member (line 99),
  which was never started. The code is flagged here, not repaired.
- `cache_calc_async` and `BM_cachecalc_async` (tests/mutexbench.cc:41-74): the batching
  and the mutex exist only for concurrency. They also perform max_iter calcs against
  the default check of 2*max_iter, the same mismatch as the finding below.
- Decimal.Stoi: models only an optional '-' followed by digits. Leading whitespace,
  a '+' sign and trailing text after the number, which `std::stoi` accepts, are not
  modelled. `calc` is only ever handed empty or `to_string` values.
- BenchCommon.Cache.Calc: requires counters that are empty or valid and have room for
  one more without overflow (`ReadyFor`). The source's `stoi` throws on other text
  and the `+ 1` overflows at INT_MAX; neither path is modelled.
- BoostBench.CondQueue.Get: the source moves the value out of its slot, leaving a
  moved-from `T` behind. The model leaves the slot as it was, and `Contents` ignores
  slots at and above `pos`.

## Findings

| source | as written | input that shows it | evidently intended | confidence | as-written member | corrected member |
|---|---|---|---|---|---|---|
| tests/mutexbench.cc:30-35 | `BM_cachecalc` runs `cache_calc`, which calls `calc` max_iter = 1000 times, then `checkWork` with its default check_val = max_iter*2 = 2000 | the empty cache every iteration of `BM_cachecalc` starts from: all ten counters end at "1000" and all ten are reported against "2000" | check the cache against max_iter, i.e. `checkWork(state, cache, max_iter)`, under which nothing is reported | not executed | MutexBench.BenchCacheCalc | MutexBench.BenchCacheCalcFixed |
