/** The condition-variable queue of the Boost benchmarks, without its mutex and condition
    variable, and the actor loop that drains it. A wait in the source becomes a
    precondition: the caller only proceeds once the wait would have returned. */
module BoostBench {
  import opened BenchCommon

  /** Capacity of every `cond_queue`. */
  const QSize: nat := 100

  /** A bounded buffer used as a stack: `add` pushes at `pos`, `get` pops from `pos - 1`. */
  class CondQueue<T> {
    var buff: array<T>
    var pos: int
    var closed: bool
    /** The value-initialised `T{}` that fills new slots and that `get` hands out when it
        finds the queue empty and closed. */
    const blank: T

    ghost predicate Valid()
      reads this
    {
      buff.Length == QSize && 0 <= pos <= QSize
    }

    /** The buffered items, oldest first; the next `get` takes the last one. */
    ghost function Contents(): seq<T>
      reads this, buff
      requires Valid()
    {
      buff[..pos]
    }

    /** `cond_queue()`: `qsize` default-valued slots, nothing buffered, not closed. */
    constructor (blank: T)
      ensures Valid() && fresh(buff)
      ensures pos == 0 && !closed && this.blank == blank
      ensures buff[..] == seq(QSize, _ => blank)
      ensures Contents() == []
    {
      this.blank := blank;
      buff := new T[QSize](_ => blank);
      pos := 0;
      closed := false;
    }

    /** `add`: once there is room, store the value in slot `pos` and advance `pos`.
        No other slot and not the closed flag change. */
    method Add(val: T)
      requires Valid() && pos < QSize
      modifies this`pos, buff
      ensures Valid()
      ensures pos == old(pos) + 1
      ensures buff[old(pos)] == val
      ensures forall j :: 0 <= j < QSize && j != old(pos) ==> buff[j] == old(buff[j])
      ensures Contents() == old(Contents()) + [val]
    {
      buff[pos] := val;
      pos := pos + 1;
    }

    /** `close`: raise the closed flag; the buffer and the cursor stay as they are. */
    method Close()
      requires Valid()
      modifies this`closed
      ensures Valid() && closed
      ensures pos == old(pos) && Contents() == old(Contents())
    {
      closed := true;
    }

    /** `get`: once an item is buffered or the queue is closed, report the closed flag as
        it is now and pop the most recently added item if there is one; an empty queue
        yields the default value and keeps `pos` at zero. */
    method Get() returns (val: T, isClosed: bool)
      requires Valid() && (pos > 0 || closed)
      modifies this`pos
      ensures Valid() && isClosed == closed
      ensures old(pos) > 0 ==> pos == old(pos) - 1 && val == old(Contents())[pos]
      ensures old(pos) > 0 ==> Contents() == old(Contents())[..pos]
      ensures old(pos) == 0 ==> pos == 0 && val == blank
    {
      isClosed := closed;
      val := blank;
      if pos > 0 {
        pos := pos - 1;
        val := buff[pos];
      }
    }
  }

  /** An item pushed and popped straight away comes back, and the cursor is restored:
      the order is last in, first out. */
  method AddThenGet<T>(q: CondQueue<T>, x: T) returns (y: T, isClosed: bool)
    requires q.Valid() && q.pos < QSize
    modifies q`pos, q.buff
    ensures q.Valid() && y == x && isClosed == q.closed
    ensures q.closed == old(q.closed)
    ensures q.pos == old(q.pos) && q.Contents() == old(q.Contents())
  {
    q.Add(x);
    y, isClosed := q.Get();
  }

  /** After `close`, a queue that still holds items hands out the last one together with
      `true`, which is the signal on which the worker stops. */
  method CloseThenGet<T>(q: CondQueue<T>) returns (y: T, isClosed: bool)
    requires q.Valid() && q.pos > 0
    modifies q`pos, q`closed
    ensures q.Valid() && isClosed && q.closed
    ensures y == old(q.Contents())[old(q.pos) - 1] && q.pos == old(q.pos) - 1
    ensures q.Contents() == old(q.Contents())[..q.pos]
  {
    q.Close();
    y, isClosed := q.Get();
  }

  /** A `packaged_task<void(cachetype&)>`: the default-constructed empty task, or one
      wrapping `calc`, tagged with the unit that submitted it and whether it is that
      unit's first or second calc. */
  datatype Task = NoTask | CalcTask(unit: nat, phase: nat)

  /** s from last to first: the order in which a stack hands out what was pushed. */
  function Reversed<T>(s: seq<T>): (r: seq<T>)
    ensures |r| == |s| && forall i :: 0 <= i < |s| ==> r[i] == s[|s| - 1 - i]
  {
    if s == [] then [] else [s[|s| - 1]] + Reversed(s[..|s| - 1])
  }

  /** Running a popped `packaged_task` on the cache: a calc task performs one more `calc`. */
  method RunTask(task: Task, cache: Cache, ghost start: map<string, string>, ghost done: nat,
                 ghost next: nat)
    requires task.CalcTask? && next == done + 1
    requires ReadyFor(start, next) && cache.entries == CalcTimes(start, done)
    modifies cache
    ensures cache.entries == CalcTimes(start, next)
  {
    CalcTimesSucc(start, done);
    cache.Calc();
    CalcTimesSameCount(start, done + 1, next);
  }

  /** The actor loop: pop a task, stop if the queue reported closed (dropping the item
      popped with it), otherwise run the task on the cache. The loop returns with
      `exited` false where the source would wait inside `get` for more work. */
  method Worker(q: CondQueue<Task>, cache: Cache) returns (exited: bool, ran: seq<Task>)
    requires q.Valid()
    requires forall t :: t in q.Contents() ==> t.CalcTask?
    requires ReadyFor(cache.entries, q.pos)
    modifies q`pos, cache
    ensures q.Valid()
    ensures old(q.closed) ==> exited && ran == [] && cache.entries == old(cache.entries)
    ensures old(q.closed) ==> q.pos == if old(q.pos) > 0 then old(q.pos) - 1 else 0
    ensures !old(q.closed) ==> !exited && q.pos == 0
    ensures !old(q.closed) ==> ran == Reversed(old(q.Contents()))
    ensures !old(q.closed) ==> cache.entries == CalcTimes(old(cache.entries), old(q.pos))
  {
    ghost var start := cache.entries;
    ghost var items := q.Contents();
    ran := [];
    while q.pos > 0 || q.closed
      invariant q.Valid() && q.closed == old(q.closed)
      invariant q.closed ==> q.pos == old(q.pos) && ran == [] && cache.entries == start
      invariant !q.closed ==> 0 <= q.pos <= |items| && q.Contents() == items[..q.pos]
      invariant !q.closed ==> ReadyFor(start, |items|)
      invariant !q.closed ==> |ran| == |items| - q.pos
      invariant !q.closed ==> forall i :: 0 <= i < |ran| ==> ran[i] == items[|items| - 1 - i]
      invariant !q.closed ==> ReadyFor(start, |items| - q.pos)
      invariant !q.closed ==> cache.entries == CalcTimes(start, |items| - q.pos)
      decreases q.pos
    {
      ghost var done := |items| - q.pos;
      var task, isClosed := q.Get();
      if isClosed {
        return true, ran;
      }
      assert task == items[q.pos];
      ghost var next := |items| - q.pos;
      ReadyForFewer(start, next, |items|);
      RunTask(task, cache, start, done, next);
      ran := ran + [task];
    }
    exited := false;
  }

  /** One half of a unit of `cache_calc_queue1`: push a calc task into the idle actor's
      queue and wait on its future, which is ready once the actor has run the task. The
      cache has gone through exactly one more calc. */
  method SubmitAndWait(q: CondQueue<Task>, cache: Cache, task: Task)
    requires q.Valid() && q.pos == 0 && !q.closed && task.CalcTask?
    requires ReadyFor(cache.entries, 1)
    modifies q`pos, q.buff, cache
    ensures q.Valid() && q.pos == 0 && !q.closed
    ensures cache.entries == CalcTimes(old(cache.entries), 1)
  {
    ghost var before := cache.entries;
    q.Add(task);
    CalcTimesSameCount(before, q.pos, 1);
    var exited, ran := Worker(q, cache);
  }

  /** One unit of `cache_calc_queue1` (the body of its `std::async` lambda): two calc
      tasks, each submitted and waited for in turn, so two more calcs. */
  method Unit(q: CondQueue<Task>, cache: Cache, i: nat)
    requires q.Valid() && q.pos == 0 && !q.closed
    requires ReadyFor(cache.entries, 2)
    modifies q`pos, q.buff, cache
    ensures q.Valid() && q.pos == 0 && !q.closed
    ensures cache.entries == CalcTimes(old(cache.entries), 2)
  {
    ghost var before := cache.entries;
    CalcTimesHeadroom(before, 1, 2);
    CalcTimesAdd(before, 1, 1, 2);
    SubmitAndWait(q, cache, CalcTask(i, 1));
    SubmitAndWait(q, cache, CalcTask(i, 2));
  }

  /** `cache_calc_queue1` run one unit at a time: the `max_iter` units run in turn, and
      once all of them are done the queue is closed and the worker leaves its loop, which
      is what `actor_thread.join()` waits for; `exited` reports that it did. */
  method CacheCalcQueue1(cache: Cache) returns (exited: bool)
    requires ReadyFor(cache.entries, 2 * MaxIter)
    modifies cache
    ensures exited
    ensures cache.entries == CalcTimes(old(cache.entries), 2 * MaxIter)
  {
    ghost var start := cache.entries;
    var q := new CondQueue<Task>(NoTask);
    ghost var done := 0;
    for i := 0 to MaxIter
      invariant q.Valid() && fresh(q) && fresh(q.buff)
      invariant q.pos == 0 && !q.closed
      invariant done == 2 * i && cache.entries == CalcTimes(start, done)
    {
      ghost var next := done + 2;
      CalcTimesNext(start, done, 2, next, 2 * MaxIter);
      Unit(q, cache, i);
      done := next;
    }
    CalcTimesHeadroom(start, 2 * MaxIter, 2 * MaxIter);
    q.Close();
    var ran;
    exited, ran := Worker(q, cache);
  }

  /** `BM_cachecalc_queue1`: a fresh cache, the queued schedule, then `checkWork` with its
      default expectation of 2 * max_iter, which every counter meets. */
  method BenchCacheCalcQueue1() returns (outcome: CheckOutcome)
    ensures outcome == Checked([])
  {
    var cache := new Cache();
    CalcTimesFromEmpty(2 * MaxIter);
    var exited := CacheCalcQueue1(cache);
    CheckAfterCalcs(2 * MaxIter, 2 * MaxIter);
    outcome := CheckWork(cache.entries);
  }
}
