/** Round-robin scheduling: the scan order of sched_yield and how long a runnable
    environment can wait. */
module Sched {
  import opened Wrappers

  const NENV: nat := 1024

  datatype Status = Free | Runnable | NotRunnable

  type Table = t: seq<Status> | |t| == NENV witness seq(NENV, _ => Free)

  /** How many slots after `cur` the scan comes to slot j: cur+1 .. NENV-1, then
      1 .. cur. Without a current environment it starts at slot 1. */
  function Distance(cur: Option<nat>, j: nat): int {
    match cur
    case None => j
    case Some(c) => if j > c then j - c else j + NENV - 1 - c
  }

  predicate ValidCur(cur: Option<nat>) {
    cur.Some? ==> cur.value < NENV
  }

  /** k is the slot that runs next: the runnable slot other than 0 that the scan
      meets first, or slot 0, runnable or not, if there is none. */
  ghost predicate Picks(t: Table, cur: Option<nat>, k: nat) {
    if k == 0 then forall j | 1 <= j < NENV :: t[j] != Runnable
    else k < NENV && t[k] == Runnable &&
         forall j | 1 <= j < NENV && t[j] == Runnable :: Distance(cur, k) <= Distance(cur, j)
  }

  class Scheduler {
    var status: Table
    var cur: Option<nat>
    var runs: seq<nat>

    ghost predicate Valid()
      reads this
    {
      ValidCur(cur) && |runs| == NENV
    }

    method EnvRun(k: nat)
      requires k < NENV && |runs| == NENV
      modifies this`cur, this`runs
      ensures cur == Some(k) && runs == old(runs)[k := old(runs)[k] + 1]
    {
      cur := Some(k);
      runs := runs[k := runs[k] + 1];
    }

    /** sched_yield; env_run does not return, so each call of it ends the scan. */
    method SchedYield()
      requires Valid()
      modifies this`cur, this`runs
      ensures Valid() && cur.Some? && Picks(status, old(cur), cur.value)
      ensures runs == old(runs)[cur.value := old(runs)[cur.value] + 1]
    {
      var i: nat := 1;
      if cur.None? {
        while i < NENV
          invariant 1 <= i <= NENV
          invariant forall j | 1 <= j < i :: status[j] != Runnable
        {
          if status[i] == Runnable {
            EnvRun(i);
            return;
          }
          i := i + 1;
        }
      } else {
        var c := cur.value;
        while i < NENV - c
          invariant 1 <= i <= NENV - c
          invariant forall j | c < j < c + i :: status[j] != Runnable
        {
          if status[c + i] == Runnable {
            EnvRun(c + i);
            return;
          }
          i := i + 1;
        }
        i := 1;
        while i <= c
          invariant 1 <= i <= c + 1
          invariant forall j | c < j < NENV :: status[j] != Runnable
          invariant forall j | 1 <= j < i :: status[j] != Runnable
        {
          if status[i] == Runnable {
            EnvRun(i);
            return;
          }
          i := i + 1;
        }
      }
      EnvRun(0);
    }
  }

  /** A scan has only one outcome. */
  lemma PicksOne(t: Table, cur: Option<nat>, k: nat, l: nat)
    requires ValidCur(cur) && Picks(t, cur, k) && Picks(t, cur, l)
    ensures k == l
  {
    if k != 0 && l != 0 {
      assert Distance(cur, k) == Distance(cur, l);
    }
  }

  /** Each scan that passes over a runnable slot brings it strictly nearer. */
  lemma Nearer(t: Table, cur: Option<nat>, k: nat, j: nat)
    requires ValidCur(cur) && Picks(t, cur, k) && 1 <= j < NENV && t[j] == Runnable
    ensures k != 0 && (k == j || 0 < Distance(Some(k), j) < Distance(cur, j))
  {
  }

  /** Calls of sched_yield in a row: before call i the table is ts[i], and the
      slot it runs is ks[i]. Anything may happen to the table in between. */
  ghost predicate Run(ts: seq<Table>, cur: Option<nat>, ks: seq<nat>) {
    |ks| == |ts| && forall i | 0 <= i < |ts| :: RunAt(ts, cur, ks, i)
  }

  ghost predicate RunAt(ts: seq<Table>, cur: Option<nat>, ks: seq<nat>, i: nat)
    requires i < |ts| == |ks|
  {
    Picks(ts[i], if i == 0 then cur else Some(ks[i - 1]), ks[i])
  }

  /** A slot other than 0 that stays runnable runs within as many calls as it is
      slots away, so within NENV - 1, as long as the current environment is never
      destroyed. */
  lemma {:induction false} RoundRobinIsFair(ts: seq<Table>, cur: Option<nat>, ks: seq<nat>, j: nat)
    requires ValidCur(cur) && Run(ts, cur, ks) && 1 <= j < NENV
    requires forall i | 0 <= i < |ts| :: ts[i][j] == Runnable
    requires |ts| >= Distance(cur, j)
    ensures Distance(cur, j) <= NENV - 1
    ensures exists i | 0 <= i < Distance(cur, j) :: i < |ks| && ks[i] == j
    decreases |ts|
  {
    assert RunAt(ts, cur, ks, 0);
    Nearer(ts[0], cur, ks[0], j);
    if ks[0] != j {
      forall i | 0 <= i < |ts| - 1 ensures RunAt(ts[1..], Some(ks[0]), ks[1..], i) {
        assert RunAt(ts, cur, ks, i + 1);
      }
      RoundRobinIsFair(ts[1..], Some(ks[0]), ks[1..], j);
      var i :| 0 <= i < Distance(Some(ks[0]), j) && ks[1..][i] == j;
      assert ks[i + 1] == j;
    }
  }

  /** Destroying the current environment forgets the position, and the scan starts
      at slot 1 again: if that happens before every call, a runnable slot 1 runs
      every time and any other slot waits for ever. */
  lemma RestartStarves(ts: seq<Table>, ks: seq<nat>)
    requires |ks| == |ts| && forall i | 0 <= i < |ts| :: Picks(ts[i], None, ks[i])
    requires forall i | 0 <= i < |ts| :: ts[i][1] == Runnable
    ensures forall i | 0 <= i < |ts| :: ks[i] == 1
  {
    forall i | 0 <= i < |ts| ensures ks[i] == 1 {
      Nearer(ts[i], None, ks[i], 1);
    }
  }
}
