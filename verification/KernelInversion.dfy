/** A run in which a thread ends up blocked on a lock held by a less urgent one, although nobody changes
    its priority while it holds a lock.

    Thread 0 (own priority 10) holds locks 0 and 1.  Threads 1 (40) and 2 (50) block on lock 0 and thread
    3 (60) on lock 1, so thread 0 runs at 60.  It releases lock 0, which wakes thread 2, stays on the CPU,
    lowers the lock to 40 because only thread 1 is still on its wait list, and takes the lock again.  Then
    it releases lock 1 and falls back to lock 0's 40.  Thread 3 takes its lock and goes to sleep; thread 2
    retries, finds lock 0 taken and goes back to sleep without donating. */
module KernelInversion {
  import opened Common
  import opened KernelState
  import opened KernelDonation
  import opened KernelSteps
  import opened KernelShape
  import opened KernelOps
  import opened KernelSync
  import opened KernelRuns
  import opened KernelUrgency

  function Lock(value: nat, waiters: seq<Tid>, holder: Option<Tid>, max: int, downs: nat, ups: nat): Sema {
    Sema(value, waiters, true, holder, max, 1, downs, ups)
  }

  const STEPS: seq<Step> := [
    Act(Priority(10)), Act(Resume), Act(Acquire(0)), Act(Acquire(1)),
    Act(Create(40)), Act(Resume), Act(Acquire(0)), Act(Create(50)),
    Act(Resume), Act(Acquire(0)), Act(Create(60)), Act(Resume),
    Act(Acquire(1)), Act(Release(0)), Act(Resume), Act(Resume),
    Act(TryAcquire(0)), Act(Release(1)), Act(Resume), Act(Sleep(1)),
    Act(Resume)]

  // ---------------------------------------------------------------- the states after each step

  function S0(): State {
    State([Thread(Running, Free, 31, 31, None, [], 0)],
         [Lock(1, [], None, 0, 0, 0), Lock(1, [], None, 0, 0, 0)],
         [], [], Some(0), 0)
  }

  function S1(): State {
    State([Thread(Running, Yielding, 10, 10, None, [], 0)],
         [Lock(1, [], None, 0, 0, 0), Lock(1, [], None, 0, 0, 0)],
         [], [], Some(0), 0)
  }

  function S2(): State {
    State([Thread(Running, Free, 10, 10, None, [], 0)],
         [Lock(1, [], None, 0, 0, 0), Lock(1, [], None, 0, 0, 0)],
         [], [], Some(0), 0)
  }

  function S3(): State {
    State([Thread(Running, Free, 10, 10, None, [0], 0)],
         [Lock(0, [], Some(0), 10, 1, 0), Lock(1, [], None, 0, 0, 0)],
         [], [], Some(0), 0)
  }

  function S4(): State {
    State([Thread(Running, Free, 10, 10, None, [0, 1], 0)],
         [Lock(0, [], Some(0), 10, 1, 0), Lock(0, [], Some(0), 10, 1, 0)],
         [], [], Some(0), 0)
  }

  function S5(): State {
    State([Thread(Running, Yielding, 10, 10, None, [0, 1], 0),
          Thread(Ready, Free, 40, 40, None, [], 0)],
         [Lock(0, [], Some(0), 10, 1, 0), Lock(0, [], Some(0), 10, 1, 0)],
         [1], [], Some(0), 0)
  }

  function S6(): State {
    State([Thread(Ready, Free, 10, 10, None, [0, 1], 0),
          Thread(Running, Free, 40, 40, None, [], 0)],
         [Lock(0, [], Some(0), 10, 1, 0), Lock(0, [], Some(0), 10, 1, 0)],
         [0], [], Some(1), 0)
  }

  function S7(): State {
    State([Thread(Running, Free, 10, 40, None, [0, 1], 0),
          Thread(Blocked, InDown(0), 40, 40, Some(0), [], 0)],
         [Lock(0, [1], Some(0), 40, 1, 0), Lock(0, [], Some(0), 10, 1, 0)],
         [], [], Some(0), 0)
  }

  function S8(): State {
    State([Thread(Running, Yielding, 10, 40, None, [0, 1], 0),
          Thread(Blocked, InDown(0), 40, 40, Some(0), [], 0),
          Thread(Ready, Free, 50, 50, None, [], 0)],
         [Lock(0, [1], Some(0), 40, 1, 0), Lock(0, [], Some(0), 10, 1, 0)],
         [2], [], Some(0), 0)
  }

  function S9(): State {
    State([Thread(Ready, Free, 10, 40, None, [0, 1], 0),
          Thread(Blocked, InDown(0), 40, 40, Some(0), [], 0),
          Thread(Running, Free, 50, 50, None, [], 0)],
         [Lock(0, [1], Some(0), 40, 1, 0), Lock(0, [], Some(0), 10, 1, 0)],
         [0], [], Some(2), 0)
  }

  function S10(): State {
    State([Thread(Running, Free, 10, 50, None, [0, 1], 0),
          Thread(Blocked, InDown(0), 40, 40, Some(0), [], 0),
          Thread(Blocked, InDown(0), 50, 50, Some(0), [], 0)],
         [Lock(0, [1, 2], Some(0), 50, 1, 0), Lock(0, [], Some(0), 10, 1, 0)],
         [], [], Some(0), 0)
  }

  function S11(): State {
    State([Thread(Running, Yielding, 10, 50, None, [0, 1], 0),
          Thread(Blocked, InDown(0), 40, 40, Some(0), [], 0),
          Thread(Blocked, InDown(0), 50, 50, Some(0), [], 0),
          Thread(Ready, Free, 60, 60, None, [], 0)],
         [Lock(0, [1, 2], Some(0), 50, 1, 0), Lock(0, [], Some(0), 10, 1, 0)],
         [3], [], Some(0), 0)
  }

  function S12(): State {
    State([Thread(Ready, Free, 10, 50, None, [0, 1], 0),
          Thread(Blocked, InDown(0), 40, 40, Some(0), [], 0),
          Thread(Blocked, InDown(0), 50, 50, Some(0), [], 0),
          Thread(Running, Free, 60, 60, None, [], 0)],
         [Lock(0, [1, 2], Some(0), 50, 1, 0), Lock(0, [], Some(0), 10, 1, 0)],
         [0], [], Some(3), 0)
  }

  function S13(): State {
    State([Thread(Running, Free, 10, 60, None, [0, 1], 0),
          Thread(Blocked, InDown(0), 40, 40, Some(0), [], 0),
          Thread(Blocked, InDown(0), 50, 50, Some(0), [], 0),
          Thread(Blocked, InDown(1), 60, 60, Some(1), [], 0)],
         [Lock(0, [1, 2], Some(0), 50, 1, 0), Lock(0, [3], Some(0), 60, 1, 0)],
         [], [], Some(0), 0)
  }

  function S14(): State {
    State([Thread(Running, InRelease(0), 10, 60, None, [1], 0),
          Thread(Blocked, InDown(0), 40, 40, Some(0), [], 0),
          Thread(Ready, InDown(0), 50, 50, Some(0), [], 0),
          Thread(Blocked, InDown(1), 60, 60, Some(1), [], 0)],
         [Lock(1, [1], None, 50, 1, 1), Lock(0, [3], Some(0), 60, 1, 0)],
         [2], [], Some(0), 0)
  }

  function S15(): State {
    State([Thread(Running, Yielding, 10, 60, None, [1], 0),
          Thread(Blocked, InDown(0), 40, 40, Some(0), [], 0),
          Thread(Ready, InDown(0), 50, 50, Some(0), [], 0),
          Thread(Blocked, InDown(1), 60, 60, Some(1), [], 0)],
         [Lock(1, [1], None, 40, 1, 1), Lock(0, [3], Some(0), 60, 1, 0)],
         [2], [], Some(0), 0)
  }

  function S16(): State {
    State([Thread(Running, Free, 10, 60, None, [1], 0),
          Thread(Blocked, InDown(0), 40, 40, Some(0), [], 0),
          Thread(Ready, InDown(0), 50, 50, Some(0), [], 0),
          Thread(Blocked, InDown(1), 60, 60, Some(1), [], 0)],
         [Lock(1, [1], None, 40, 1, 1), Lock(0, [3], Some(0), 60, 1, 0)],
         [2], [], Some(0), 0)
  }

  function S17(): State {
    State([Thread(Running, Free, 10, 60, None, [1, 0], 0),
          Thread(Blocked, InDown(0), 40, 40, Some(0), [], 0),
          Thread(Ready, InDown(0), 50, 50, Some(0), [], 0),
          Thread(Blocked, InDown(1), 60, 60, Some(1), [], 0)],
         [Lock(0, [1], Some(0), 40, 2, 1), Lock(0, [3], Some(0), 60, 1, 0)],
         [2], [], Some(0), 0)
  }

  function S18(): State {
    State([Thread(Ready, InRelease(1), 10, 40, None, [0], 0),
          Thread(Blocked, InDown(0), 40, 40, Some(0), [], 0),
          Thread(Ready, InDown(0), 50, 50, Some(0), [], 0),
          Thread(Running, InDown(1), 60, 60, Some(1), [], 0)],
         [Lock(0, [1], Some(0), 40, 2, 1), Lock(1, [], None, 60, 1, 1)],
         [2, 0], [], Some(3), 0)
  }

  function S19(): State {
    State([Thread(Ready, InRelease(1), 10, 40, None, [0], 0),
          Thread(Blocked, InDown(0), 40, 40, Some(0), [], 0),
          Thread(Ready, InDown(0), 50, 50, Some(0), [], 0),
          Thread(Running, Free, 60, 60, None, [1], 0)],
         [Lock(0, [1], Some(0), 40, 2, 1), Lock(0, [], Some(3), 60, 2, 1)],
         [2, 0], [], Some(3), 0)
  }

  function S20(): State {
    State([Thread(Ready, InRelease(1), 10, 40, None, [0], 0),
          Thread(Blocked, InDown(0), 40, 40, Some(0), [], 0),
          Thread(Running, InDown(0), 50, 50, Some(0), [], 0),
          Thread(Blocked, Asleep, 60, 60, None, [1], 1)],
         [Lock(0, [1], Some(0), 40, 2, 1), Lock(0, [], Some(3), 60, 2, 1)],
         [0], [3], Some(2), 0)
  }

  function S21(): State {
    State([Thread(Running, InRelease(1), 10, 40, None, [0], 0),
          Thread(Blocked, InDown(0), 40, 40, Some(0), [], 0),
          Thread(Blocked, InDown(0), 50, 50, Some(0), [], 0),
          Thread(Blocked, Asleep, 60, 60, None, [1], 1)],
         [Lock(0, [1, 2], Some(0), 40, 2, 1), Lock(0, [], Some(3), 60, 2, 1)],
         [], [3], Some(0), 0)
  }

  // ---------------------------------------------------------------- states inside a step

  function N1(): State {
    State([Thread(Running, Free, 10, 10, None, [], 0)],
         [Lock(1, [], None, 0, 0, 0), Lock(1, [], None, 0, 0, 0)],
         [], [], Some(0), 0)
  }

  function Q1(): State {
    State([Thread(Ready, Free, 10, 10, None, [], 0)],
         [Lock(1, [], None, 0, 0, 0), Lock(1, [], None, 0, 0, 0)],
         [0], [], None, 0)
  }

  function M2(): State {
    State([Thread(Running, Free, 10, 10, Some(0), [], 0)],
         [Lock(1, [], None, 10, 0, 0), Lock(1, [], None, 0, 0, 0)],
         [], [], Some(0), 0)
  }

  function T2(): State {
    State([Thread(Running, Free, 10, 10, Some(0), [], 0)],
         [Lock(0, [], None, 10, 1, 0), Lock(1, [], None, 0, 0, 0)],
         [], [], Some(0), 0)
  }

  function M3(): State {
    State([Thread(Running, Free, 10, 10, Some(1), [0], 0)],
         [Lock(0, [], Some(0), 10, 1, 0), Lock(1, [], None, 10, 0, 0)],
         [], [], Some(0), 0)
  }

  function T3(): State {
    State([Thread(Running, Free, 10, 10, Some(1), [0], 0)],
         [Lock(0, [], Some(0), 10, 1, 0), Lock(0, [], None, 10, 1, 0)],
         [], [], Some(0), 0)
  }

  function M4(): State {
    State([Thread(Running, Free, 10, 10, None, [0, 1], 0),
          Thread(Ready, Free, 40, 40, None, [], 0)],
         [Lock(0, [], Some(0), 10, 1, 0), Lock(0, [], Some(0), 10, 1, 0)],
         [1], [], Some(0), 0)
  }

  function N5(): State {
    State([Thread(Running, Free, 10, 10, None, [0, 1], 0),
          Thread(Ready, Free, 40, 40, None, [], 0)],
         [Lock(0, [], Some(0), 10, 1, 0), Lock(0, [], Some(0), 10, 1, 0)],
         [1], [], Some(0), 0)
  }

  function Q5(): State {
    State([Thread(Ready, Free, 10, 10, None, [0, 1], 0),
          Thread(Ready, Free, 40, 40, None, [], 0)],
         [Lock(0, [], Some(0), 10, 1, 0), Lock(0, [], Some(0), 10, 1, 0)],
         [1, 0], [], None, 0)
  }

  function M6(): State {
    State([Thread(Ready, Free, 10, 40, None, [0, 1], 0),
          Thread(Running, Free, 40, 40, Some(0), [], 0)],
         [Lock(0, [], Some(0), 40, 1, 0), Lock(0, [], Some(0), 10, 1, 0)],
         [0], [], Some(1), 0)
  }

  function N6(): State {
    State([Thread(Ready, Free, 10, 10, None, [0, 1], 0),
          Thread(Running, Free, 40, 40, Some(0), [], 0)],
         [Lock(0, [], Some(0), 10, 1, 0), Lock(0, [], Some(0), 10, 1, 0)],
         [0], [], Some(1), 0)
  }

  function P6(): State {
    State([Thread(Ready, Free, 10, 40, None, [0, 1], 0),
          Thread(Blocked, InDown(0), 40, 40, Some(0), [], 0)],
         [Lock(0, [1], Some(0), 40, 1, 0), Lock(0, [], Some(0), 10, 1, 0)],
         [0], [], None, 0)
  }

  function M7(): State {
    State([Thread(Running, Free, 10, 40, None, [0, 1], 0),
          Thread(Blocked, InDown(0), 40, 40, Some(0), [], 0),
          Thread(Ready, Free, 50, 50, None, [], 0)],
         [Lock(0, [1], Some(0), 40, 1, 0), Lock(0, [], Some(0), 10, 1, 0)],
         [2], [], Some(0), 0)
  }

  function N8(): State {
    State([Thread(Running, Free, 10, 40, None, [0, 1], 0),
          Thread(Blocked, InDown(0), 40, 40, Some(0), [], 0),
          Thread(Ready, Free, 50, 50, None, [], 0)],
         [Lock(0, [1], Some(0), 40, 1, 0), Lock(0, [], Some(0), 10, 1, 0)],
         [2], [], Some(0), 0)
  }

  function Q8(): State {
    State([Thread(Ready, Free, 10, 40, None, [0, 1], 0),
          Thread(Blocked, InDown(0), 40, 40, Some(0), [], 0),
          Thread(Ready, Free, 50, 50, None, [], 0)],
         [Lock(0, [1], Some(0), 40, 1, 0), Lock(0, [], Some(0), 10, 1, 0)],
         [2, 0], [], None, 0)
  }

  function M9(): State {
    State([Thread(Ready, Free, 10, 50, None, [0, 1], 0),
          Thread(Blocked, InDown(0), 40, 40, Some(0), [], 0),
          Thread(Running, Free, 50, 50, Some(0), [], 0)],
         [Lock(0, [1], Some(0), 50, 1, 0), Lock(0, [], Some(0), 10, 1, 0)],
         [0], [], Some(2), 0)
  }

  function N9(): State {
    State([Thread(Ready, Free, 10, 40, None, [0, 1], 0),
          Thread(Blocked, InDown(0), 40, 40, Some(0), [], 0),
          Thread(Running, Free, 50, 50, Some(0), [], 0)],
         [Lock(0, [1], Some(0), 40, 1, 0), Lock(0, [], Some(0), 10, 1, 0)],
         [0], [], Some(2), 0)
  }

  function P9(): State {
    State([Thread(Ready, Free, 10, 50, None, [0, 1], 0),
          Thread(Blocked, InDown(0), 40, 40, Some(0), [], 0),
          Thread(Blocked, InDown(0), 50, 50, Some(0), [], 0)],
         [Lock(0, [1, 2], Some(0), 50, 1, 0), Lock(0, [], Some(0), 10, 1, 0)],
         [0], [], None, 0)
  }

  function M10(): State {
    State([Thread(Running, Free, 10, 50, None, [0, 1], 0),
          Thread(Blocked, InDown(0), 40, 40, Some(0), [], 0),
          Thread(Blocked, InDown(0), 50, 50, Some(0), [], 0),
          Thread(Ready, Free, 60, 60, None, [], 0)],
         [Lock(0, [1, 2], Some(0), 50, 1, 0), Lock(0, [], Some(0), 10, 1, 0)],
         [3], [], Some(0), 0)
  }

  function N11(): State {
    State([Thread(Running, Free, 10, 50, None, [0, 1], 0),
          Thread(Blocked, InDown(0), 40, 40, Some(0), [], 0),
          Thread(Blocked, InDown(0), 50, 50, Some(0), [], 0),
          Thread(Ready, Free, 60, 60, None, [], 0)],
         [Lock(0, [1, 2], Some(0), 50, 1, 0), Lock(0, [], Some(0), 10, 1, 0)],
         [3], [], Some(0), 0)
  }

  function Q11(): State {
    State([Thread(Ready, Free, 10, 50, None, [0, 1], 0),
          Thread(Blocked, InDown(0), 40, 40, Some(0), [], 0),
          Thread(Blocked, InDown(0), 50, 50, Some(0), [], 0),
          Thread(Ready, Free, 60, 60, None, [], 0)],
         [Lock(0, [1, 2], Some(0), 50, 1, 0), Lock(0, [], Some(0), 10, 1, 0)],
         [3, 0], [], None, 0)
  }

  function M12(): State {
    State([Thread(Ready, Free, 10, 60, None, [0, 1], 0),
          Thread(Blocked, InDown(0), 40, 40, Some(0), [], 0),
          Thread(Blocked, InDown(0), 50, 50, Some(0), [], 0),
          Thread(Running, Free, 60, 60, Some(1), [], 0)],
         [Lock(0, [1, 2], Some(0), 50, 1, 0), Lock(0, [], Some(0), 60, 1, 0)],
         [0], [], Some(3), 0)
  }

  function N12(): State {
    State([Thread(Ready, Free, 10, 50, None, [0, 1], 0),
          Thread(Blocked, InDown(0), 40, 40, Some(0), [], 0),
          Thread(Blocked, InDown(0), 50, 50, Some(0), [], 0),
          Thread(Running, Free, 60, 60, Some(1), [], 0)],
         [Lock(0, [1, 2], Some(0), 50, 1, 0), Lock(0, [], Some(0), 10, 1, 0)],
         [0], [], Some(3), 0)
  }

  function P12(): State {
    State([Thread(Ready, Free, 10, 60, None, [0, 1], 0),
          Thread(Blocked, InDown(0), 40, 40, Some(0), [], 0),
          Thread(Blocked, InDown(0), 50, 50, Some(0), [], 0),
          Thread(Blocked, InDown(1), 60, 60, Some(1), [], 0)],
         [Lock(0, [1, 2], Some(0), 50, 1, 0), Lock(0, [3], Some(0), 60, 1, 0)],
         [0], [], None, 0)
  }

  function D13(): State {
    State([Thread(Running, Free, 10, 60, None, [1], 0),
          Thread(Blocked, InDown(0), 40, 40, Some(0), [], 0),
          Thread(Blocked, InDown(0), 50, 50, Some(0), [], 0),
          Thread(Blocked, InDown(1), 60, 60, Some(1), [], 0)],
         [Lock(0, [1, 2], None, 50, 1, 0), Lock(0, [3], Some(0), 60, 1, 0)],
         [], [], Some(0), 0)
  }

  function M13(): State {
    State([Thread(Running, Free, 10, 60, None, [1], 0),
          Thread(Blocked, InDown(0), 40, 40, Some(0), [], 0),
          Thread(Ready, InDown(0), 50, 50, Some(0), [], 0),
          Thread(Blocked, InDown(1), 60, 60, Some(1), [], 0)],
         [Lock(1, [1], None, 50, 1, 1), Lock(0, [3], Some(0), 60, 1, 0)],
         [2], [], Some(0), 0)
  }

  function N13(): State {
    State([Thread(Running, InRelease(0), 10, 60, None, [1], 0),
          Thread(Blocked, InDown(0), 40, 40, Some(0), [], 0),
          Thread(Ready, InDown(0), 50, 50, Some(0), [], 0),
          Thread(Blocked, InDown(1), 60, 60, Some(1), [], 0)],
         [Lock(1, [1], None, 50, 1, 1), Lock(0, [3], Some(0), 60, 1, 0)],
         [2], [], Some(0), 0)
  }

  function Q13(): State {
    State([Thread(Ready, InRelease(0), 10, 60, None, [1], 0),
          Thread(Blocked, InDown(0), 40, 40, Some(0), [], 0),
          Thread(Ready, InDown(0), 50, 50, Some(0), [], 0),
          Thread(Blocked, InDown(1), 60, 60, Some(1), [], 0)],
         [Lock(1, [1], None, 50, 1, 1), Lock(0, [3], Some(0), 60, 1, 0)],
         [2, 0], [], None, 0)
  }

  function M14(): State {
    State([Thread(Running, InRelease(0), 10, 60, None, [1], 0),
          Thread(Blocked, InDown(0), 40, 40, Some(0), [], 0),
          Thread(Ready, InDown(0), 50, 50, Some(0), [], 0),
          Thread(Blocked, InDown(1), 60, 60, Some(1), [], 0)],
         [Lock(1, [1], None, 40, 1, 1), Lock(0, [3], Some(0), 60, 1, 0)],
         [2], [], Some(0), 0)
  }

  function N15(): State {
    State([Thread(Running, Free, 10, 60, None, [1], 0),
          Thread(Blocked, InDown(0), 40, 40, Some(0), [], 0),
          Thread(Ready, InDown(0), 50, 50, Some(0), [], 0),
          Thread(Blocked, InDown(1), 60, 60, Some(1), [], 0)],
         [Lock(1, [1], None, 40, 1, 1), Lock(0, [3], Some(0), 60, 1, 0)],
         [2], [], Some(0), 0)
  }

  function Q15(): State {
    State([Thread(Ready, Free, 10, 60, None, [1], 0),
          Thread(Blocked, InDown(0), 40, 40, Some(0), [], 0),
          Thread(Ready, InDown(0), 50, 50, Some(0), [], 0),
          Thread(Blocked, InDown(1), 60, 60, Some(1), [], 0)],
         [Lock(1, [1], None, 40, 1, 1), Lock(0, [3], Some(0), 60, 1, 0)],
         [2, 0], [], None, 0)
  }

  function T16(): State {
    State([Thread(Running, Free, 10, 60, None, [1], 0),
          Thread(Blocked, InDown(0), 40, 40, Some(0), [], 0),
          Thread(Ready, InDown(0), 50, 50, Some(0), [], 0),
          Thread(Blocked, InDown(1), 60, 60, Some(1), [], 0)],
         [Lock(0, [1], None, 40, 2, 1), Lock(0, [3], Some(0), 60, 1, 0)],
         [2], [], Some(0), 0)
  }

  function D17(): State {
    State([Thread(Running, Free, 10, 40, None, [0], 0),
          Thread(Blocked, InDown(0), 40, 40, Some(0), [], 0),
          Thread(Ready, InDown(0), 50, 50, Some(0), [], 0),
          Thread(Blocked, InDown(1), 60, 60, Some(1), [], 0)],
         [Lock(0, [1], Some(0), 40, 2, 1), Lock(0, [3], None, 60, 1, 0)],
         [2], [], Some(0), 0)
  }

  function M17(): State {
    State([Thread(Running, Free, 10, 40, None, [0], 0),
          Thread(Blocked, InDown(0), 40, 40, Some(0), [], 0),
          Thread(Ready, InDown(0), 50, 50, Some(0), [], 0),
          Thread(Ready, InDown(1), 60, 60, Some(1), [], 0)],
         [Lock(0, [1], Some(0), 40, 2, 1), Lock(1, [], None, 60, 1, 1)],
         [2, 3], [], Some(0), 0)
  }

  function N17(): State {
    State([Thread(Running, InRelease(1), 10, 40, None, [0], 0),
          Thread(Blocked, InDown(0), 40, 40, Some(0), [], 0),
          Thread(Ready, InDown(0), 50, 50, Some(0), [], 0),
          Thread(Ready, InDown(1), 60, 60, Some(1), [], 0)],
         [Lock(0, [1], Some(0), 40, 2, 1), Lock(1, [], None, 60, 1, 1)],
         [2, 3], [], Some(0), 0)
  }

  function Q17(): State {
    State([Thread(Ready, InRelease(1), 10, 40, None, [0], 0),
          Thread(Blocked, InDown(0), 40, 40, Some(0), [], 0),
          Thread(Ready, InDown(0), 50, 50, Some(0), [], 0),
          Thread(Ready, InDown(1), 60, 60, Some(1), [], 0)],
         [Lock(0, [1], Some(0), 40, 2, 1), Lock(1, [], None, 60, 1, 1)],
         [2, 3, 0], [], None, 0)
  }

  function T18(): State {
    State([Thread(Ready, InRelease(1), 10, 40, None, [0], 0),
          Thread(Blocked, InDown(0), 40, 40, Some(0), [], 0),
          Thread(Ready, InDown(0), 50, 50, Some(0), [], 0),
          Thread(Running, Free, 60, 60, Some(1), [], 0)],
         [Lock(0, [1], Some(0), 40, 2, 1), Lock(0, [], None, 60, 2, 1)],
         [2, 0], [], Some(3), 0)
  }

  function P19(): State {
    State([Thread(Ready, InRelease(1), 10, 40, None, [0], 0),
          Thread(Blocked, InDown(0), 40, 40, Some(0), [], 0),
          Thread(Ready, InDown(0), 50, 50, Some(0), [], 0),
          Thread(Blocked, Asleep, 60, 60, None, [1], 1)],
         [Lock(0, [1], Some(0), 40, 2, 1), Lock(0, [], Some(3), 60, 2, 1)],
         [2, 0], [3], None, 0)
  }

  function P20(): State {
    State([Thread(Ready, InRelease(1), 10, 40, None, [0], 0),
          Thread(Blocked, InDown(0), 40, 40, Some(0), [], 0),
          Thread(Blocked, InDown(0), 50, 50, Some(0), [], 0),
          Thread(Blocked, Asleep, 60, 60, None, [1], 1)],
         [Lock(0, [1, 2], Some(0), 40, 2, 1), Lock(0, [], Some(3), 60, 2, 1)],
         [0], [3], None, 0)
  }

  // ---------------------------------------------------------------- the steps

  lemma Donation(ls: seq<Sema>, held: seq<SemaId>, j: nat)
    requires j < |held| && Ids(held, |ls|)
    requires forall k | 0 <= k < |held| :: ls[held[k]].maxPriority <= ls[held[j]].maxPriority
    ensures MaxDonation(ls, held) == ls[held[j]].maxPriority
  {
  }

  /** A donation that stops at a holder who waits for nothing. */
  lemma FlushOnce(ts: seq<Thread>, ls: seq<Sema>, t: Tid, cap: int, l: SemaId, h: Tid)
    requires t < |ts| && Links(ts, ls) && Capped(ts, ls, cap) && l < |ls| && h < |ts|
    requires ts[t].waiting == Some(l) && ts[t].priority > ls[l].maxPriority && ls[l].holder == Some(h)
    requires ts[h].waiting == None && Ids(ts[h].held, |ls|)
    ensures var ls' := Raise(ls, l, ts[t].priority); Flush(ts, ls, t, cap) == (ts[h := Adjusted(ts[h], ls')], ls')
  {
    SlackRaise(ls, l, ts[t].priority, cap);
    TurnKeepsTypes(ts, ls, t, cap);
  }

  lemma Step0()
    requires Shape(S0())
    ensures Follows([S0(), S1()], [Act(Priority(10))]) && Shape(S1())
  {
    SingleStep(S0(), Act(Priority(10)), S1());
  }

  lemma Yield1()
    requires Shape(N1())
    ensures Yield(N1(), 0) == S2()
  {
    DescheduleShape(N1(), 0);
    assert [] + [0] == [0];
    assert Deschedule(N1(), 0) == Q1();
    assert Top(Q1().threads, [0]) == 0 && [0][..0] + [0][1..] == [];
    assert Dispatch(Q1()) == S2();
  }

  lemma Step1()
    requires Shape(S1())
    ensures Follows([S1(), S2()], [Act(Resume)]) && Shape(S2())
  {
    assert ThreadTyped(S1().threads[0], |S1().semas|);
    UpdateShape(S1(), 0, S1().threads[0].(pc := Free));
    assert SetThread(S1(), 0, S1().threads[0].(pc := Free)) == N1();
    Yield1();
    assert FinalYield(S1(), 0) == S2();
    SingleStep(S1(), Act(Resume), S2());
  }

  lemma Middle2()
    requires Shape(S2())
    ensures Await(S2(), 0, 0) == M2()
  {
  }

  lemma Own2()
    requires Shape(M2())
    ensures Take(M2(), 0, 0) == T2() && OnCpu(T2(), 0) && Own(T2(), 0, 0) == S3()
  {
    TakeShape(M2(), 0, 0);
    assert Take(M2(), 0, 0) == T2();
    assert [] + [0] == [0];
    Donation(T2().semas, [0], 0);
  }

  lemma Step2()
    requires Shape(S2())
    ensures Follows([S2(), S3()], [Act(Acquire(0))]) && Shape(S3())
  {
    Middle2();
    Own2();
    assert LockAcquire(S2(), 0, 0) == S3();
    SingleStep(S2(), Act(Acquire(0)), S3());
  }

  lemma Middle3()
    requires Shape(S3())
    ensures Await(S3(), 0, 1) == M3()
  {
  }

  lemma Own3()
    requires Shape(M3())
    ensures Take(M3(), 0, 1) == T3() && OnCpu(T3(), 0) && Own(T3(), 0, 1) == S4()
  {
    TakeShape(M3(), 0, 1);
    assert Take(M3(), 0, 1) == T3();
    assert [0] + [1] == [0, 1];
    Donation(T3().semas, [0, 1], 0);
  }

  lemma Step3()
    requires Shape(S3())
    ensures Follows([S3(), S4()], [Act(Acquire(1))]) && Shape(S4())
  {
    Middle3();
    Own3();
    assert LockAcquire(S3(), 0, 1) == S4();
    SingleStep(S3(), Act(Acquire(1)), S4());
  }

  lemma Step4()
    requires Shape(S4())
    ensures Follows([S4(), S5()], [Act(Create(40))]) && Shape(S5())
  {
    SpawnShape(S4(), 0, 40);
    assert Spawned(S4(), 40) == M4();
    SingleStep(S4(), Act(Create(40)), S5());
  }

  lemma Yield5()
    requires Shape(N5())
    ensures Yield(N5(), 0) == S6()
  {
    DescheduleShape(N5(), 0);
    assert [1] + [0] == [1, 0];
    assert Deschedule(N5(), 0) == Q5();
    assert Top(Q5().threads, [1, 0]) == 0 && [1, 0][..0] + [1, 0][1..] == [0];
    assert Dispatch(Q5()) == S6();
  }

  lemma Step5()
    requires Shape(S5())
    ensures Follows([S5(), S6()], [Act(Resume)]) && Shape(S6())
  {
    assert ThreadTyped(S5().threads[0], |S5().semas|);
    UpdateShape(S5(), 0, S5().threads[0].(pc := Free));
    assert SetThread(S5(), 0, S5().threads[0].(pc := Free)) == N5();
    Yield5();
    assert FinalYield(S5(), 0) == S6();
    SingleStep(S5(), Act(Resume), S6());
  }

  lemma Middle6()
    requires Shape(S6())
    ensures Await(S6(), 1, 0) == M6()
  {
    assert SetThread(S6(), 1, S6().threads[1].(waiting := Some(0))) == N6();
    UpdateShape(S6(), 1, N6().threads[1]);
    TypedLinks(N6());
    FlushOnce(N6().threads, N6().semas, 1, Ceiling(N6().threads, N6().semas), 0, 0);
    Donation(M6().semas, [0, 1], 0);
    assert Raise(N6().semas, 0, 40) == M6().semas;
    assert Adjusted(N6().threads[0], M6().semas) == M6().threads[0];
    assert N6().threads[0 := M6().threads[0]] == M6().threads;
  }

  lemma Wait6()
    requires Shape(M6())
    ensures Wait(M6(), 1, 0) == S7()
  {
    assert [] + [1] == [1];
    ParkShape(M6(), 1, 0);
    assert Park(M6(), 1, 0) == P6();
    assert Top(P6().threads, [0]) == 0 && [0][..0] + [0][1..] == [];
  }

  lemma Step6()
    requires Shape(S6())
    ensures Follows([S6(), S7()], [Act(Acquire(0))]) && Shape(S7())
  {
    Middle6();
    Wait6();
    assert LockAcquire(S6(), 1, 0) == S7();
    SingleStep(S6(), Act(Acquire(0)), S7());
  }

  lemma Step7()
    requires Shape(S7())
    ensures Follows([S7(), S8()], [Act(Create(50))]) && Shape(S8())
  {
    SpawnShape(S7(), 0, 50);
    assert Spawned(S7(), 50) == M7();
    SingleStep(S7(), Act(Create(50)), S8());
  }

  lemma Yield8()
    requires Shape(N8())
    ensures Yield(N8(), 0) == S9()
  {
    DescheduleShape(N8(), 0);
    assert [2] + [0] == [2, 0];
    assert Deschedule(N8(), 0) == Q8();
    assert Top(Q8().threads, [2, 0]) == 0 && [2, 0][..0] + [2, 0][1..] == [0];
    assert Dispatch(Q8()) == S9();
  }

  lemma Step8()
    requires Shape(S8())
    ensures Follows([S8(), S9()], [Act(Resume)]) && Shape(S9())
  {
    assert ThreadTyped(S8().threads[0], |S8().semas|);
    UpdateShape(S8(), 0, S8().threads[0].(pc := Free));
    assert SetThread(S8(), 0, S8().threads[0].(pc := Free)) == N8();
    Yield8();
    assert FinalYield(S8(), 0) == S9();
    SingleStep(S8(), Act(Resume), S9());
  }

  lemma Middle9()
    requires Shape(S9())
    ensures Await(S9(), 2, 0) == M9()
  {
    assert SetThread(S9(), 2, S9().threads[2].(waiting := Some(0))) == N9();
    UpdateShape(S9(), 2, N9().threads[2]);
    TypedLinks(N9());
    FlushOnce(N9().threads, N9().semas, 2, Ceiling(N9().threads, N9().semas), 0, 0);
    Donation(M9().semas, [0, 1], 0);
    assert Raise(N9().semas, 0, 50) == M9().semas;
    assert Adjusted(N9().threads[0], M9().semas) == M9().threads[0];
    assert N9().threads[0 := M9().threads[0]] == M9().threads;
  }

  lemma Wait9()
    requires Shape(M9())
    ensures Wait(M9(), 2, 0) == S10()
  {
    assert [1] + [2] == [1, 2];
    ParkShape(M9(), 2, 0);
    assert Park(M9(), 2, 0) == P9();
    assert Top(P9().threads, [0]) == 0 && [0][..0] + [0][1..] == [];
  }

  lemma Step9()
    requires Shape(S9())
    ensures Follows([S9(), S10()], [Act(Acquire(0))]) && Shape(S10())
  {
    Middle9();
    Wait9();
    assert LockAcquire(S9(), 2, 0) == S10();
    SingleStep(S9(), Act(Acquire(0)), S10());
  }

  lemma Step10()
    requires Shape(S10())
    ensures Follows([S10(), S11()], [Act(Create(60))]) && Shape(S11())
  {
    SpawnShape(S10(), 0, 60);
    assert Spawned(S10(), 60) == M10();
    SingleStep(S10(), Act(Create(60)), S11());
  }

  lemma Yield11()
    requires Shape(N11())
    ensures Yield(N11(), 0) == S12()
  {
    DescheduleShape(N11(), 0);
    assert [3] + [0] == [3, 0];
    assert Deschedule(N11(), 0) == Q11();
    assert Top(Q11().threads, [3, 0]) == 0 && [3, 0][..0] + [3, 0][1..] == [0];
    assert Dispatch(Q11()) == S12();
  }

  lemma Step11()
    requires Shape(S11())
    ensures Follows([S11(), S12()], [Act(Resume)]) && Shape(S12())
  {
    assert ThreadTyped(S11().threads[0], |S11().semas|);
    UpdateShape(S11(), 0, S11().threads[0].(pc := Free));
    assert SetThread(S11(), 0, S11().threads[0].(pc := Free)) == N11();
    Yield11();
    assert FinalYield(S11(), 0) == S12();
    SingleStep(S11(), Act(Resume), S12());
  }

  lemma Middle12()
    requires Shape(S12())
    ensures Await(S12(), 3, 1) == M12()
  {
    assert SetThread(S12(), 3, S12().threads[3].(waiting := Some(1))) == N12();
    UpdateShape(S12(), 3, N12().threads[3]);
    TypedLinks(N12());
    FlushOnce(N12().threads, N12().semas, 3, Ceiling(N12().threads, N12().semas), 1, 0);
    Donation(M12().semas, [0, 1], 1);
    assert Raise(N12().semas, 1, 60) == M12().semas;
    assert Adjusted(N12().threads[0], M12().semas) == M12().threads[0];
    assert N12().threads[0 := M12().threads[0]] == M12().threads;
  }

  lemma Wait12()
    requires Shape(M12())
    ensures Wait(M12(), 3, 1) == S13()
  {
    assert [] + [3] == [3];
    ParkShape(M12(), 3, 1);
    assert Park(M12(), 3, 1) == P12();
    assert Top(P12().threads, [0]) == 0 && [0][..0] + [0][1..] == [];
  }

  lemma Step12()
    requires Shape(S12())
    ensures Follows([S12(), S13()], [Act(Acquire(1))]) && Shape(S13())
  {
    Middle12();
    Wait12();
    assert LockAcquire(S12(), 3, 1) == S13();
    SingleStep(S12(), Act(Acquire(1)), S13());
  }

  lemma Disown13()
    requires Shape(S13())
    ensures Disown(S13(), 0, 0) == D13()
  {
    assert Without([0, 1], 0) == [1];
    Donation(S13().semas, [1], 0);
  }

  lemma Middle13()
    requires Shape(S13())
    ensures GiveUp(S13(), 0, 0) == M13()
  {
    Disown13();
    assert Top(D13().threads, [1, 2]) == 1 && [1, 2][..1] + [1, 2][2..] == [1];
    assert [] + [2] == [2];
    DisownShape(S13(), 0, 0);
    assert Wake(D13(), 0) == M13();
  }

  lemma Yield13()
    requires Shape(N13())
    ensures Yield(N13(), 0) == S14()
  {
    DescheduleShape(N13(), 0);
    assert [2] + [0] == [2, 0];
    assert Deschedule(N13(), 0) == Q13();
    assert Top(Q13().threads, [2, 0]) == 1 && [2, 0][..1] + [2, 0][2..] == [2];
    assert Dispatch(Q13()) == S14();
  }

  lemma Step13()
    requires Shape(S13())
    ensures Follows([S13(), S14()], [Act(Release(0))]) && Shape(S14())
  {
    Middle13();
    assert ThreadTyped(M13().threads[0], |M13().semas|);
    UpdateShape(M13(), 0, M13().threads[0].(pc := InRelease(0)));
    assert SetThread(M13(), 0, M13().threads[0].(pc := InRelease(0))) == N13();
    Yield13();
    assert LockRelease(S13(), 0, 0) == S14();
    SingleStep(S13(), Act(Release(0)), S14());
  }

  lemma Step14()
    requires Shape(S14())
    ensures Follows([S14(), S15()], [Act(Resume)]) && Shape(S15())
  {
    assert Top(S14().threads, [1]) == 0;
    RecomputeShape(S14(), 0);
    assert Recompute(S14(), 0) == M14();
    assert FinishRelease(S14(), 0, 0) == S15();
    SingleStep(S14(), Act(Resume), S15());
  }

  lemma Yield15()
    requires Shape(N15())
    ensures Yield(N15(), 0) == S16()
  {
    DescheduleShape(N15(), 0);
    assert [2] + [0] == [2, 0];
    assert Deschedule(N15(), 0) == Q15();
    assert Top(Q15().threads, [2, 0]) == 1 && [2, 0][..1] + [2, 0][2..] == [2];
    assert Dispatch(Q15()) == S16();
  }

  lemma Step15()
    requires Shape(S15())
    ensures Follows([S15(), S16()], [Act(Resume)]) && Shape(S16())
  {
    assert ThreadTyped(S15().threads[0], |S15().semas|);
    UpdateShape(S15(), 0, S15().threads[0].(pc := Free));
    assert SetThread(S15(), 0, S15().threads[0].(pc := Free)) == N15();
    Yield15();
    assert FinalYield(S15(), 0) == S16();
    SingleStep(S15(), Act(Resume), S16());
  }

  lemma Own16()
    requires Shape(S16())
    ensures Take(S16(), 0, 0) == T16() && OnCpu(T16(), 0) && Own(T16(), 0, 0) == S17()
  {
    TakeShape(S16(), 0, 0);
    assert Take(S16(), 0, 0) == T16();
    assert [1] + [0] == [1, 0];
    Donation(T16().semas, [1, 0], 0);
  }

  lemma Step16()
    requires Shape(S16())
    ensures Follows([S16(), S17()], [Act(TryAcquire(0))]) && Shape(S17())
  {
    Own16();
    assert LockTryAcquire(S16(), 0, 0) == S17();
    SingleStep(S16(), Act(TryAcquire(0)), S17());
  }

  lemma Disown17()
    requires Shape(S17())
    ensures Disown(S17(), 0, 1) == D17()
  {
    assert Without([1, 0], 1) == [0];
    Donation(S17().semas, [0], 0);
  }

  lemma Middle17()
    requires Shape(S17())
    ensures GiveUp(S17(), 0, 1) == M17()
  {
    Disown17();
    assert Top(D17().threads, [3]) == 0 && [3][..0] + [3][1..] == [];
    assert [2] + [3] == [2, 3];
    DisownShape(S17(), 0, 1);
    assert Wake(D17(), 1) == M17();
  }

  lemma Yield17()
    requires Shape(N17())
    ensures Yield(N17(), 0) == S18()
  {
    DescheduleShape(N17(), 0);
    assert [2, 3] + [0] == [2, 3, 0];
    assert Deschedule(N17(), 0) == Q17();
    assert Top(Q17().threads, [2, 3, 0]) == 1 && [2, 3, 0][..1] + [2, 3, 0][2..] == [2, 0];
    assert Dispatch(Q17()) == S18();
  }

  lemma Step17()
    requires Shape(S17())
    ensures Follows([S17(), S18()], [Act(Release(1))]) && Shape(S18())
  {
    Middle17();
    assert ThreadTyped(M17().threads[0], |M17().semas|);
    UpdateShape(M17(), 0, M17().threads[0].(pc := InRelease(1)));
    assert SetThread(M17(), 0, M17().threads[0].(pc := InRelease(1))) == N17();
    Yield17();
    assert LockRelease(S17(), 0, 1) == S18();
    SingleStep(S17(), Act(Release(1)), S18());
  }

  lemma Own18()
    requires Shape(S18())
    ensures Take(S18(), 3, 1) == T18() && OnCpu(T18(), 3) && Own(T18(), 3, 1) == S19()
  {
    TakeShape(S18(), 3, 1);
    assert Take(S18(), 3, 1) == T18();
    assert [] + [1] == [1];
    Donation(T18().semas, [1], 0);
  }

  lemma Step18()
    requires Shape(S18())
    ensures Follows([S18(), S19()], [Act(Resume)]) && Shape(S19())
  {
    Own18();
    assert Retry(S18(), 3, 1) == S19();
    SingleStep(S18(), Act(Resume), S19());
  }

  lemma Step19()
    requires Shape(S19())
    ensures Follows([S19(), S20()], [Act(Sleep(1))]) && Shape(S20())
  {
    FallAsleepShape(S19(), 3, 1);
    assert FallAsleep(S19(), 3, 1) == P19();
    assert Top(P19().threads, [2, 0]) == 0 && [2, 0][..0] + [2, 0][1..] == [0];
    assert ThreadSleep(S19(), 3, 1) == S20();
    SingleStep(S19(), Act(Sleep(1)), S20());
  }

  lemma Wait20()
    requires Shape(S20())
    ensures Wait(S20(), 2, 0) == S21()
  {
    assert [1] + [2] == [1, 2];
    ParkShape(S20(), 2, 0);
    assert Park(S20(), 2, 0) == P20();
    assert Top(P20().threads, [0]) == 0 && [0][..0] + [0][1..] == [];
  }

  lemma Step20()
    requires Shape(S20())
    ensures Follows([S20(), S21()], [Act(Resume)]) && Shape(S21())
  {
    Wait20();
    assert Retry(S20(), 2, 0) == S21();
    SingleStep(S20(), Act(Resume), S21());
  }

  lemma After1() returns (states: seq<State>)
    ensures Follows(states, STEPS[..1]) && states[0] == S0() && states[1] == S1() && Shape(S1())
  {
    InitialInv(S0());
    states := [S0()];
    Step0();
    states := Join(states, STEPS[..0], [S0(), S1()], [Act(Priority(10))]);
    assert STEPS[..1] == STEPS[..0] + [Act(Priority(10))];
  }

  lemma After2() returns (states: seq<State>)
    ensures Follows(states, STEPS[..2]) && states[0] == S0() && states[2] == S2() && Shape(S2())
  {
    states := After1();
    Step1();
    states := Join(states, STEPS[..1], [S1(), S2()], [Act(Resume)]);
    assert STEPS[..2] == STEPS[..1] + [Act(Resume)];
  }

  lemma After3() returns (states: seq<State>)
    ensures Follows(states, STEPS[..3]) && states[0] == S0() && states[3] == S3() && Shape(S3())
  {
    states := After2();
    Step2();
    states := Join(states, STEPS[..2], [S2(), S3()], [Act(Acquire(0))]);
    assert STEPS[..3] == STEPS[..2] + [Act(Acquire(0))];
  }

  lemma After4() returns (states: seq<State>)
    ensures Follows(states, STEPS[..4]) && states[0] == S0() && states[4] == S4() && Shape(S4())
  {
    states := After3();
    Step3();
    states := Join(states, STEPS[..3], [S3(), S4()], [Act(Acquire(1))]);
    assert STEPS[..4] == STEPS[..3] + [Act(Acquire(1))];
  }

  lemma After5() returns (states: seq<State>)
    ensures Follows(states, STEPS[..5]) && states[0] == S0() && states[5] == S5() && Shape(S5())
  {
    states := After4();
    Step4();
    states := Join(states, STEPS[..4], [S4(), S5()], [Act(Create(40))]);
    assert STEPS[..5] == STEPS[..4] + [Act(Create(40))];
  }

  lemma After6() returns (states: seq<State>)
    ensures Follows(states, STEPS[..6]) && states[0] == S0() && states[6] == S6() && Shape(S6())
  {
    states := After5();
    Step5();
    states := Join(states, STEPS[..5], [S5(), S6()], [Act(Resume)]);
    assert STEPS[..6] == STEPS[..5] + [Act(Resume)];
  }

  lemma After7() returns (states: seq<State>)
    ensures Follows(states, STEPS[..7]) && states[0] == S0() && states[7] == S7() && Shape(S7())
  {
    states := After6();
    Step6();
    states := Join(states, STEPS[..6], [S6(), S7()], [Act(Acquire(0))]);
    assert STEPS[..7] == STEPS[..6] + [Act(Acquire(0))];
  }

  lemma After8() returns (states: seq<State>)
    ensures Follows(states, STEPS[..8]) && states[0] == S0() && states[8] == S8() && Shape(S8())
  {
    states := After7();
    Step7();
    states := Join(states, STEPS[..7], [S7(), S8()], [Act(Create(50))]);
    assert STEPS[..8] == STEPS[..7] + [Act(Create(50))];
  }

  lemma After9() returns (states: seq<State>)
    ensures Follows(states, STEPS[..9]) && states[0] == S0() && states[9] == S9() && Shape(S9())
  {
    states := After8();
    Step8();
    states := Join(states, STEPS[..8], [S8(), S9()], [Act(Resume)]);
    assert STEPS[..9] == STEPS[..8] + [Act(Resume)];
  }

  lemma After10() returns (states: seq<State>)
    ensures Follows(states, STEPS[..10]) && states[0] == S0() && states[10] == S10() && Shape(S10())
  {
    states := After9();
    Step9();
    states := Join(states, STEPS[..9], [S9(), S10()], [Act(Acquire(0))]);
    assert STEPS[..10] == STEPS[..9] + [Act(Acquire(0))];
  }

  lemma After11() returns (states: seq<State>)
    ensures Follows(states, STEPS[..11]) && states[0] == S0() && states[11] == S11() && Shape(S11())
  {
    states := After10();
    Step10();
    states := Join(states, STEPS[..10], [S10(), S11()], [Act(Create(60))]);
    assert STEPS[..11] == STEPS[..10] + [Act(Create(60))];
  }

  lemma After12() returns (states: seq<State>)
    ensures Follows(states, STEPS[..12]) && states[0] == S0() && states[12] == S12() && Shape(S12())
  {
    states := After11();
    Step11();
    states := Join(states, STEPS[..11], [S11(), S12()], [Act(Resume)]);
    assert STEPS[..12] == STEPS[..11] + [Act(Resume)];
  }

  lemma After13() returns (states: seq<State>)
    ensures Follows(states, STEPS[..13]) && states[0] == S0() && states[13] == S13() && Shape(S13())
  {
    states := After12();
    Step12();
    states := Join(states, STEPS[..12], [S12(), S13()], [Act(Acquire(1))]);
    assert STEPS[..13] == STEPS[..12] + [Act(Acquire(1))];
  }

  lemma After14() returns (states: seq<State>)
    ensures Follows(states, STEPS[..14]) && states[0] == S0() && states[14] == S14() && Shape(S14())
  {
    states := After13();
    Step13();
    states := Join(states, STEPS[..13], [S13(), S14()], [Act(Release(0))]);
    assert STEPS[..14] == STEPS[..13] + [Act(Release(0))];
  }

  lemma After15() returns (states: seq<State>)
    ensures Follows(states, STEPS[..15]) && states[0] == S0() && states[15] == S15() && Shape(S15())
  {
    states := After14();
    Step14();
    states := Join(states, STEPS[..14], [S14(), S15()], [Act(Resume)]);
    assert STEPS[..15] == STEPS[..14] + [Act(Resume)];
  }

  lemma After16() returns (states: seq<State>)
    ensures Follows(states, STEPS[..16]) && states[0] == S0() && states[16] == S16() && Shape(S16())
  {
    states := After15();
    Step15();
    states := Join(states, STEPS[..15], [S15(), S16()], [Act(Resume)]);
    assert STEPS[..16] == STEPS[..15] + [Act(Resume)];
  }

  lemma After17() returns (states: seq<State>)
    ensures Follows(states, STEPS[..17]) && states[0] == S0() && states[17] == S17() && Shape(S17())
  {
    states := After16();
    Step16();
    states := Join(states, STEPS[..16], [S16(), S17()], [Act(TryAcquire(0))]);
    assert STEPS[..17] == STEPS[..16] + [Act(TryAcquire(0))];
  }

  lemma After18() returns (states: seq<State>)
    ensures Follows(states, STEPS[..18]) && states[0] == S0() && states[18] == S18() && Shape(S18())
  {
    states := After17();
    Step17();
    states := Join(states, STEPS[..17], [S17(), S18()], [Act(Release(1))]);
    assert STEPS[..18] == STEPS[..17] + [Act(Release(1))];
  }

  lemma After19() returns (states: seq<State>)
    ensures Follows(states, STEPS[..19]) && states[0] == S0() && states[19] == S19() && Shape(S19())
  {
    states := After18();
    Step18();
    states := Join(states, STEPS[..18], [S18(), S19()], [Act(Resume)]);
    assert STEPS[..19] == STEPS[..18] + [Act(Resume)];
  }

  lemma After20() returns (states: seq<State>)
    ensures Follows(states, STEPS[..20]) && states[0] == S0() && states[20] == S20() && Shape(S20())
  {
    states := After19();
    Step19();
    states := Join(states, STEPS[..19], [S19(), S20()], [Act(Sleep(1))]);
    assert STEPS[..20] == STEPS[..19] + [Act(Sleep(1))];
  }

  lemma After21() returns (states: seq<State>)
    ensures Follows(states, STEPS[..21]) && states[0] == S0() && states[21] == S21() && Shape(S21())
  {
    states := After20();
    Step20();
    states := Join(states, STEPS[..20], [S20(), S21()], [Act(Resume)]);
    assert STEPS[..21] == STEPS[..20] + [Act(Resume)];
  }

  /** There is a run from boot that ends with a thread blocked on a lock whose holder is less urgent. */
  lemma InversionHappens() returns (states: seq<State>)
    ensures IsKernelRun(states, STEPS)
    ensures var st := states[|STEPS|];
            BlockedBy(st, 2, 0) && st.threads[2].priority > st.threads[0].priority
  {
    states := After21();
    assert STEPS[..21] == STEPS;
    LastState();
  }

  lemma LastState()
    ensures var st := S21(); BlockedBy(st, 2, 0) && st.threads[2].priority > st.threads[0].priority
    ensures Initial(S0())
  {
  }
}
