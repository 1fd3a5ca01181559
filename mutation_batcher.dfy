// The MutationBatcher of the GKE indexing workers
// (getting-started-gke/index_gcs_prefix.cc and getting-started/gke/index_gcs.cc,
// which hold the same class; only the first exposes Flush): pushed rows
// wait in a live buffer, a flush hands the whole buffer to one background
// commit, and the list of background tasks is kept under 128 by reaping
// the finished ones.
module MutationBatching {
  import opened Wrappers
  import opened GcsIndexing

  /** google::cloud::Status: code 0 is OK. */
  datatype Status = Status(code: int, message: string)
  {
    predicate IsOk() { code == 0 }
  }

  const OkStatus := Status(0, "")

  /** Spanner's limit on mutations (modified columns) per commit. */
  const SpannerMutationLimit := 20000
  /** The recommended number of rows per commit. */
  const EfficientRowLimit := 256
  const MaxRunningBackgroundTasks := 128

  /** A buffered row and the ticket of the future Push returned for it. */
  datatype Item = Item(ticket: nat, mutation: Mutation)

  /** FlushIfNeeded's test on a buffer of n rows. */
  predicate NeedsFlush(n: nat)
  {
    n >= EfficientRowLimit || n * ColumnCount() >= SpannerMutationLimit
  }

  /** With 27 columns the row limit always fires first: the mutation limit
      would need 741 rows. */
  lemma RowLimitFiresFirst(n: nat)
    ensures NeedsFlush(n) <==> n >= EfficientRowLimit
  {
    TwentySevenColumns();
  }

  predicate Increasing(s: seq<nat>)
  {
    forall i, j :: 0 <= i < j < |s| ==> s[i] < s[j]
  }

  /** One reaping pass at pass number r: remove_if drops the tasks that are
      ready, keeping the others in order. Task k is ready from pass finish(k) on. */
  function Running(tasks: seq<nat>, finish: nat -> nat, r: nat): (rest: seq<nat>)
    ensures |rest| <= |tasks|
  {
    if tasks == [] then []
    else (if finish(tasks[0]) > r then [tasks[0]] else []) + Running(tasks[1..], finish, r)
  }

  /** A pass keeps exactly the tasks not yet ready. */
  lemma {:induction false} RunningMembers(tasks: seq<nat>, finish: nat -> nat, r: nat)
    ensures forall k :: k in Running(tasks, finish, r) <==> k in tasks && finish(k) > r
  {
    if tasks != [] {
      RunningMembers(tasks[1..], finish, r);
      assert tasks == [tasks[0]] + tasks[1..];
    }
  }

  /** remove_if is stable: the running tasks stay in their order. */
  lemma {:induction false} RunningIncreasing(tasks: seq<nat>, finish: nat -> nat, r: nat)
    requires Increasing(tasks)
    ensures Increasing(Running(tasks, finish, r))
  {
    if tasks != [] {
      RunningIncreasing(tasks[1..], finish, r);
      RunningMembers(tasks[1..], finish, r);
      var rest := Running(tasks[1..], finish, r);
      forall k | k in rest
        ensures tasks[0] < k
      {
        var j :| 0 <= j < |tasks[1..]| && tasks[1..][j] == k;
        assert tasks[j + 1] == k;
      }
      var res := Running(tasks, finish, r);
      if finish(tasks[0]) > r {
        assert res == [tasks[0]] + rest;
        forall i, j | 0 <= i < j < |res|
          ensures res[i] < res[j]
        {
          assert res[j] == rest[j - 1] && rest[j - 1] in rest;
          if i > 0 {
            assert res[i] == rest[i - 1];
          }
        }
      } else {
        assert res == rest;
      }
    }
  }

  /** Tasks that survive a later pass survive every earlier one, so passes
      at r and then r' >= r keep what a single pass at r' keeps. */
  lemma {:induction false} RunningTwice(tasks: seq<nat>, finish: nat -> nat, r: nat, r': nat)
    requires r <= r'
    ensures Running(Running(tasks, finish, r), finish, r') == Running(tasks, finish, r')
  {
    if tasks != [] {
      RunningTwice(tasks[1..], finish, r, r');
      var head := if finish(tasks[0]) > r then [tasks[0]] else [];
      RunningAppend(head, Running(tasks[1..], finish, r), finish, r');
    }
  }

  lemma {:induction false} RunningAppend(a: seq<nat>, b: seq<nat>, finish: nat -> nat, r: nat)
    ensures Running(a + b, finish, r) == Running(a, finish, r) + Running(b, finish, r)
  {
    if a != [] {
      assert (a + b)[1..] == a[1..] + b;
      RunningAppend(a[1..], b, finish, r);
    } else {
      assert a + b == b;
    }
  }

  /** The last pass from which some task is ready. */
  function MaxFinish(tasks: seq<nat>, finish: nat -> nat): nat
  {
    if tasks == [] then 0
    else var m := MaxFinish(tasks[1..], finish);
      if finish(tasks[0]) > m then finish(tasks[0]) else m
  }

  lemma {:induction false} MaxFinishBounds(tasks: seq<nat>, finish: nat -> nat)
    ensures forall k :: k in tasks ==> finish(k) <= MaxFinish(tasks, finish)
  {
    if tasks != [] {
      MaxFinishBounds(tasks[1..], finish);
      assert tasks == [tasks[0]] + tasks[1..];
    }
  }

  lemma {:induction false} MaxFinishAttained(tasks: seq<nat>, finish: nat -> nat)
    requires tasks != []
    ensures exists k :: k in tasks && finish(k) == MaxFinish(tasks, finish)
  {
    if |tasks| > 1 && finish(tasks[0]) <= MaxFinish(tasks[1..], finish) {
      MaxFinishAttained(tasks[1..], finish);
      var k :| k in tasks[1..] && finish(k) == MaxFinish(tasks[1..], finish);
      assert k in tasks;
    } else {
      assert tasks[0] in tasks;
      if |tasks| == 1 {
        assert tasks[1..] == [];
      }
      assert finish(tasks[0]) == MaxFinish(tasks, finish);
    }
  }

  /** A pass leaves only tasks that finish after it, and no later finish. */
  lemma PassShrinksMaxFinish(tasks: seq<nat>, finish: nat -> nat, r: nat)
    ensures var rest := Running(tasks, finish, r);
      rest != [] ==> r < MaxFinish(rest, finish) <= MaxFinish(tasks, finish)
  {
    var rest := Running(tasks, finish, r);
    if rest != [] {
      MaxFinishAttained(rest, finish);
      RunningMembers(tasks, finish, r);
      MaxFinishBounds(tasks, finish);
    }
  }

  /** What bounds the remaining reaping passes: the tasks left, and the
      passes until the last of them is ready. */
  function Potential(tasks: seq<nat>, finish: nat -> nat, r: nat): nat
  {
    |tasks| + (if r <= MaxFinish(tasks, finish) then MaxFinish(tasks, finish) - r else 0)
  }

  lemma PassLowersPotential(tasks: seq<nat>, finish: nat -> nat, r: nat)
    requires tasks != []
    ensures Potential(Running(tasks, finish, r), finish, r + 1) < Potential(tasks, finish, r)
  {
    PassShrinksMaxFinish(tasks, finish, r);
  }

  /** One more pass keeps the reaping loop's invariant: the list is what the
      latest pass over `before` left, and still increasing. */
  lemma ReapStep(before: seq<nat>, r0: nat, tasks: seq<nat>, r: nat, finish: nat -> nat)
    requires r >= r0 && tasks != []
    requires r == r0 ==> tasks == before
    requires r > r0 ==> tasks == Running(before, finish, r - 1)
    ensures Running(tasks, finish, r) == Running(before, finish, r)
    ensures Potential(Running(tasks, finish, r), finish, r + 1) < Potential(tasks, finish, r)
  {
    PassLowersPotential(tasks, finish, r);
    if r > r0 {
      RunningTwice(before, finish, r - 1, r);
    }
  }

  /** The task list after ReapBackgroundTasks on `before`, with passes
      numbered from `r0`: untouched below the cap, otherwise what the last
      pass left. */
  predicate ReapedFrom(before: seq<nat>, r0: nat, after: seq<nat>, r1: nat, finish: nat -> nat)
  {
    if |before| < MaxRunningBackgroundTasks then after == before && r1 == r0
    else r1 > r0 && after == Running(before, finish, r1 - 1)
  }

  /** A new flush number k is above every running task; after reaping, the
      list is still increasing and below k + 1. */
  lemma LaunchThenReap(tasks: seq<nat>, k: nat, r0: nat, finish: nat -> nat)
    requires Increasing(tasks) && forall i :: 0 <= i < |tasks| ==> tasks[i] < k
    ensures forall after: seq<nat>, r1: nat :: ReapedFrom(tasks + [k], r0, after, r1, finish) ==>
      Increasing(after) && forall i :: 0 <= i < |after| ==> after[i] < k + 1
  {
    var launched := tasks + [k];
    assert Increasing(launched) by {
      forall i, j | 0 <= i < j < |launched|
        ensures launched[i] < launched[j]
      {
        assert launched[i] == tasks[i];
      }
    }
    forall after: seq<nat>, r1: nat | ReapedFrom(launched, r0, after, r1, finish)
      ensures Increasing(after) && forall i :: 0 <= i < |after| ==> after[i] < k + 1
    {
      if |launched| >= MaxRunningBackgroundTasks {
        RunningIncreasing(launched, finish, r1 - 1);
        RunningMembers(launched, finish, r1 - 1);
      }
      forall i | 0 <= i < |after|
        ensures after[i] < k + 1
      {
        assert after[i] in after && after[i] in launched;
      }
    }
  }

  class MutationBatcher {
    /** items_: the live buffer. */
    var items: seq<Item>
    /** background_tasks_: the running commits, by flush number. */
    var backgroundTasks: seq<nat>
    /** The statuses set on the promises of flushed items, by ticket. */
    var promised: map<nat, Status>
    /** How many rows have been pushed, and so the next ticket. */
    var pushed: nat
    /** How many batches have been flushed. */
    var flushes: nat
    /** How many reaping passes have run. */
    var rounds: nat
    /** The status of the commit of batch k. */
    const commit: nat -> Status
    /** The reaping pass from which the commit of batch k is ready. */
    const finish: nat -> nat

    /** The buffer holds the latest tickets in order, every earlier ticket
        has its status, and fewer than 128 tasks run. */
    ghost predicate Valid()
      reads this
    {
      |items| <= pushed && |items| <= EfficientRowLimit
      && (forall i :: 0 <= i < |items| ==> items[i].ticket == pushed - |items| + i)
      && (forall t: nat :: t in promised <==> t < pushed - |items|)
      && (forall i :: 0 <= i < |backgroundTasks| ==> backgroundTasks[i] < flushes)
      && Increasing(backgroundTasks)
      && |backgroundTasks| < MaxRunningBackgroundTasks
    }

    /** The value the future of a ticket holds, None while it is buffered. */
    function StatusOf(ticket: nat): (s: Option<Status>)
      reads this
      requires Valid()
      ensures s.Some? <==> ticket < pushed - |items|
    {
      if ticket in promised then Some(promised[ticket]) else None
    }

    constructor(commit: nat -> Status, finish: nat -> nat)
      ensures Valid()
      ensures items == [] && backgroundTasks == [] && promised == map[]
      ensures pushed == 0 && flushes == 0 && rounds == 0
      ensures this.commit == commit && this.finish == finish
    {
      items := [];
      backgroundTasks := [];
      promised := map[];
      pushed := 0;
      flushes := 0;
      rounds := 0;
      this.commit := commit;
      this.finish := finish;
    }

    /** ReapBackgroundTasks: while 128 or more tasks run, drop the finished ones. */
    method ReapBackgroundTasks()
      modifies this`backgroundTasks, this`rounds
      ensures |backgroundTasks| < MaxRunningBackgroundTasks
      ensures ReapedFrom(old(backgroundTasks), old(rounds), backgroundTasks, rounds, finish)
    {
      ghost var before, r0 := backgroundTasks, rounds;
      var tasks, r := backgroundTasks, rounds;
      while |tasks| >= MaxRunningBackgroundTasks
        invariant r >= r0
        invariant r == r0 ==> tasks == before
        invariant |before| < MaxRunningBackgroundTasks ==> r == r0
        invariant r > r0 ==> tasks == Running(before, finish, r - 1)
        decreases Potential(tasks, finish, r)
      {
        ReapStep(before, r0, tasks, r, finish);
        tasks := Running(tasks, finish, r);
        r := r + 1;
      }
      backgroundTasks, rounds := tasks, r;
    }

    /** The background commit's last step: every item's promise is set to
        the commit status. The tickets run on from `first`. */
    method SetPromises(batch: seq<Item>, first: nat, status: Status)
      requires forall j :: 0 <= j < |batch| ==> batch[j].ticket == first + j
      requires forall t :: t in promised ==> t < first
      modifies this`promised
      ensures forall t :: t in promised <==> t in old(promised) || first <= t < first + |batch|
      ensures forall t :: t in old(promised) ==> promised[t] == old(promised)[t]
      ensures forall j :: 0 <= j < |batch| ==> promised[batch[j].ticket] == status
    {
      var i := 0;
      while i < |batch|
        invariant 0 <= i <= |batch|
        invariant forall t :: t in promised <==> t in old(promised) || first <= t < first + i
        invariant forall t :: t in old(promised) ==> promised[t] == old(promised)[t]
        invariant forall j :: 0 <= j < i ==> promised[batch[j].ticket] == status
      {
        promised := promised[batch[i].ticket := status];
        i := i + 1;
      }
    }

    /** Flush: hand the whole buffer to one background commit whose status
        every item's promise receives, then reap. An empty buffer is left alone. */
    method Flush()
      requires Valid()
      modifies this
      ensures Valid()
      ensures pushed == old(pushed) && items == []
      ensures old(items) == [] ==>
        flushes == old(flushes) && promised == old(promised)
        && backgroundTasks == old(backgroundTasks) && rounds == old(rounds)
      ensures old(items) != [] ==>
        flushes == old(flushes) + 1
        && ReapedFrom(old(backgroundTasks) + [old(flushes)], old(rounds), backgroundTasks, rounds, finish)
        && (forall t :: t in old(promised) ==> promised[t] == old(promised)[t])
        && (forall i :: 0 <= i < |old(items)| ==> promised[old(items)[i].ticket] == commit(old(flushes)))
    {
      if items == [] {
        return;
      }
      var batch := items;
      var first := pushed - |batch|;
      assert forall j :: 0 <= j < |batch| ==> batch[j].ticket == first + j;
      items := [];
      var k := flushes;
      flushes := flushes + 1;
      SetPromises(batch, first, commit(k));
      LaunchThenReap(backgroundTasks, k, rounds, finish);
      backgroundTasks := backgroundTasks + [k];
      ReapBackgroundTasks();
    }

    /** FlushIfNeeded: flush before the buffer reaches the row or mutation limit. */
    method FlushIfNeeded()
      requires Valid()
      modifies this
      ensures Valid() && pushed == old(pushed)
      ensures NeedsFlush(|old(items)|) <==> |old(items)| == EfficientRowLimit
      ensures !NeedsFlush(|old(items)|) ==>
        items == old(items) && flushes == old(flushes) && promised == old(promised)
        && backgroundTasks == old(backgroundTasks) && rounds == old(rounds)
      ensures NeedsFlush(|old(items)|) ==>
        items == [] && flushes == old(flushes) + 1
        && ReapedFrom(old(backgroundTasks) + [old(flushes)], old(rounds), backgroundTasks, rounds, finish)
        && (forall t :: t in old(promised) ==> promised[t] == old(promised)[t])
        && (forall i :: 0 <= i < |old(items)| ==> promised[old(items)[i].ticket] == commit(old(flushes)))
    {
      ghost var n := |items|;
      if |items| >= EfficientRowLimit {
        Flush();
      } else if |items| * ColumnCount() >= SpannerMutationLimit {
        Flush();
      }
      RowLimitFiresFirst(n);
    }

    /** Push: make room, then buffer the object's row; the ticket names the
        future returned for it. */
    method Push(o: ObjectMetadata) returns (ticket: nat)
      requires Valid()
      modifies this
      ensures Valid()
      ensures ticket == old(pushed) && pushed == old(pushed) + 1
      ensures 1 <= |items| <= EfficientRowLimit
      ensures items == (if NeedsFlush(|old(items)|) then [] else old(items)) + [Item(ticket, UpdateObjectMetadata(o))]
      ensures StatusOf(ticket).None?
      ensures forall t :: t in old(promised) ==> t in promised && promised[t] == old(promised)[t]
      ensures !NeedsFlush(|old(items)|) ==>
        flushes == old(flushes) && promised == old(promised)
        && backgroundTasks == old(backgroundTasks) && rounds == old(rounds)
      ensures NeedsFlush(|old(items)|) ==>
        flushes == old(flushes) + 1
        && ReapedFrom(old(backgroundTasks) + [old(flushes)], old(rounds), backgroundTasks, rounds, finish)
        && (forall i :: 0 <= i < |old(items)| ==> promised[old(items)[i].ticket] == commit(old(flushes)))
    {
      FlushIfNeeded();
      ticket := pushed;
      items := items + [Item(ticket, UpdateObjectMetadata(o))];
      pushed := pushed + 1;
    }
  }
}
