/** How UnpackBigfile splits the flat file list among its workers: four
    contiguous ranges of N / 4 entries, the remainder N % 4 added to the
    last one. */
module Partitioning {

  const NUM_THREADED_TASKS: nat := 4
  /** The index the source patches with the remainder (`unpackThreads[3]`). */
  const LAST_TASK: nat := 3

  function PartitionStart(i: nat, n: nat): nat {
    i * (n / NUM_THREADED_TASKS)
  }

  function PartitionCount(i: nat, n: nat): nat {
    n / NUM_THREADED_TASKS + if i == LAST_TASK then n % NUM_THREADED_TASKS else 0
  }

  function PartitionEnd(i: nat, n: nat): nat {
    PartitionStart(i, n) + PartitionCount(i, n)
  }

  predicate InPartition(i: nat, n: nat, j: int) {
    PartitionStart(i, n) <= j < PartitionEnd(i, n)
  }

  /** The partitions tile [0, n): the first starts at 0, each starts where
      the previous one ends, the last ends at n, and the counts sum to n. */
  lemma PartitionsTile(n: nat)
    ensures PartitionStart(0, n) == 0
    ensures forall i :: 0 <= i < LAST_TASK ==> PartitionEnd(i, n) == PartitionStart(i + 1, n)
    ensures PartitionEnd(LAST_TASK, n) == n
    ensures forall i :: 0 <= i < NUM_THREADED_TASKS ==> PartitionEnd(i, n) <= n
    ensures PartitionCount(0, n) + PartitionCount(1, n) + PartitionCount(2, n) + PartitionCount(3, n) == n
  {
    var q := n / NUM_THREADED_TASKS;
    assert n == 4 * q + n % 4;
    forall i | 0 <= i < LAST_TASK
      ensures PartitionEnd(i, n) == PartitionStart(i + 1, n)
    {
      assert (i + 1) * q == i * q + q;
    }
    forall i | 0 <= i < NUM_THREADED_TASKS
      ensures PartitionEnd(i, n) <= n
    {
      assert i * q + q <= 4 * q;
    }
  }

  /** The worker whose range holds index j of a list of n files. */
  function Owner(n: nat, j: nat): nat {
    var q := n / NUM_THREADED_TASKS;
    if j < q then 0 else if j < 2 * q then 1 else if j < 3 * q then 2 else LAST_TASK
  }

  /** Every index of the list falls in exactly one partition, so each file
      is handed to exactly one worker. */
  lemma EachIndexInOnePartition(n: nat, j: nat)
    requires j < n
    ensures Owner(n, j) < NUM_THREADED_TASKS
    ensures forall i :: 0 <= i < NUM_THREADED_TASKS ==> (InPartition(i, n, j) <==> i == Owner(n, j))
  {
    var q := n / NUM_THREADED_TASKS;
    assert n == 4 * q + n % 4;
    assert PartitionStart(0, n) == 0 && PartitionStart(1, n) == q;
    assert PartitionStart(2, n) == 2 * q && PartitionStart(3, n) == 3 * q;
  }
}
