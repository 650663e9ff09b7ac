/** How the files of a reprocessing job are shared: the admin counts how many each worker
    will get, and each worker selects its own from the same list. */
module WorkerFiles {

  /** The positions below `n` that are `w` modulo `k`, as a worker visits them. */
  function Share<T>(files: seq<T>, w: nat, k: nat): seq<T>
    requires k > 0
  {
    if files == [] then []
    else
      var last := |files| - 1;
      Share(files[..last], w, k) + if last % k == w then [files[last]] else []
  }

  method SelectWorkerFiles<T>(files: seq<T>, workerIndex: nat, totalWorkers: nat) returns (mine: seq<T>)
    requires totalWorkers > 0
    ensures mine == Share(files, workerIndex, totalWorkers)
  {
    mine := [];
    for i := 0 to |files|
      invariant mine == Share(files[..i], workerIndex, totalWorkers)
    {
      assert files[..i + 1][..i] == files[..i];
      if i % totalWorkers == workerIndex { mine := mine + [files[i]]; }
    }
    assert files[..|files|] == files;
  }

  /** One worker for each file, but at least one and at most a hundred. */
  function WorkerCount(files: nat): (n: nat)
    ensures 1 <= n <= 100 && (1 <= files <= 100 ==> n == files)
  {
    if files > 100 then 100 else if files < 1 then 1 else files
  }

  /** The admin's tally, which is also what each worker finds. */
  method FilesPerWorker<T>(files: seq<T>) returns (tally: array<nat>)
    ensures fresh(tally) && tally.Length == WorkerCount(|files|)
    ensures forall w | 0 <= w < tally.Length :: tally[w] == |Share(files, w, tally.Length)|
  {
    var k := WorkerCount(|files|);
    tally := new nat[k](i => 0);
    for i := 0 to |files|
      invariant forall w | 0 <= w < k :: tally[w] == |Share(files[..i], w, k)|
    {
      assert files[..i + 1][..i] == files[..i];
      tally[i % k] := tally[i % k] + 1;
    }
    assert files[..|files|] == files;
  }

  lemma DivStep(n: nat, k: nat)
    requires k > 0
    ensures (n + 1) % k == 0 ==> (n + 1) / k == n / k + 1 && n % k == k - 1
    ensures (n + 1) % k != 0 ==> (n + 1) / k == n / k && (n + 1) % k == n % k + 1
  {
    var q, r := n / k, n % k;
    assert n + 1 == q * k + (r + 1);
    if r + 1 == k {
      assert q * k + k == (q + 1) * k;
      DivMod(n + 1, k, q + 1, 0);
    } else {
      DivMod(n + 1, k, q, r + 1);
    }
  }

  lemma DivMod(n: nat, k: nat, q: nat, r: nat)
    requires r < k && n == q * k + r
    ensures n / k == q && n % k == r
  {
    var d := n / k - q;
    assert n == (n / k) * k + n % k;
    assert d * k == r - n % k;
    MulBound(d, k);
  }

  lemma MulBound(d: int, k: nat)
    ensures d >= 1 ==> d * k >= k
    ensures d <= -1 ==> d * k <= -1 * k
  {
    if d >= 1 {
      assert (d - 1) * k >= 0;
    } else if d <= -1 {
      assert (-1 - d) * k >= 0;
    }
  }

  /** How many positions below `n` fall to worker `w`. */
  function ShareSize(n: nat, w: nat, k: nat): nat
    requires k > 0
  {
    n / k + if w < n % k then 1 else 0
  }

  lemma {:induction false} ShareIsBalanced<T>(files: seq<T>, w: nat, k: nat)
    requires w < k
    ensures |Share(files, w, k)| == ShareSize(|files|, w, k)
  {
    if files != [] {
      ShareIsBalanced(files[..|files| - 1], w, k);
      DivStep(|files| - 1, k);
    } else {
      DivMod(0, k, 0, 0);
    }
  }

  /** File `i` goes to worker `i % k`, at place `i / k` of its share. */
  lemma {:induction false} FileHasOnePlace<T>(files: seq<T>, i: nat, k: nat)
    requires k > 0 && i < |files|
    ensures i / k < |Share(files, i % k, k)| && Share(files, i % k, k)[i / k] == files[i]
  {
    var last := |files| - 1;
    if i < last {
      FileHasOnePlace(files[..last], i, k);
    } else {
      ShareIsBalanced(files[..last], i % k, k);
    }
  }

  lemma PlaceInRange(n: nat, w: nat, k: nat, p: nat)
    requires w < k && p < ShareSize(n, w, k)
    ensures 0 <= w + p * k < n
  {
    var q, r := n / k, n % k;
    assert n == q * k + r && 0 <= p * k;
    if p < q {
      MulBound(q - p, k);
      assert (q - p) * k == q * k - p * k;
    }
  }

  /** Together the workers take every file exactly once: place `p` of worker `w` is file
      `w + p * k`, and the shares differ in length by at most one. */
  lemma SharesPartition<T>(files: seq<T>, w: nat, k: nat, p: nat)
    requires w < k && p < |Share(files, w, k)|
    ensures 0 <= w + p * k < |files| && Share(files, w, k)[p] == files[w + p * k]
    ensures (w + p * k) % k == w && (w + p * k) / k == p
    ensures |files| / k <= |Share(files, w, k)| <= |files| / k + 1
  {
    ShareIsBalanced(files, w, k);
    PlaceInRange(|files|, w, k, p);
    DivMod(w + p * k, k, p, w);
    FileHasOnePlace(files, w + p * k, k);
  }
}
