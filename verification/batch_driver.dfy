/**
 * The batch driver: the main block of the program. It normalises the prefix, clamps the
 * concurrency to at least 1, lists the keys, and downloads them in contiguous batches of
 * that size, one batch after another, stopping after the first batch in which a download
 * failed.
 *
 * A download (`downloadObjectToFile`, fetching the object and writing the local file) is
 * an opaque outcome: a function telling, for a key and its local path, whether it succeeds.
 */
module BatchDriver {
  import opened Wrappers
  import PathMapper
  import KeyLister

  /**
   * Whether downloading a key to its local path succeeds (the promise resolves) or fails
   * (it rejects). Within one run the local path is a function of the key, so the outcome
   * is given per key.
   */
  type Downloader = string -> bool

  /**
   * What the per-key closure of the batch loop does: map the key to its local path
   * (`keyToLocalPath(key, PREFIX, DEST)` in a run) and download it there.
   */
  datatype Job = Job(localPath: string -> PathMapper.LocalPath, download: Downloader)

  /** One download attempt: the key, the local path it is written to, and whether it succeeded. */
  datatype Attempt = Attempt(key: string, path: PathMapper.LocalPath, ok: bool)

  /** The final status of a run. */
  datatype Status =
    | NoFiles                                            // the listing was empty
    | Completed(found: nat)                              // every download succeeded
    | ListingFailed(error: KeyLister.ListError)          // the listing failed
    | DownloadFailed(found: nat, failed: seq<string>)    // some download of a batch failed

  function Min(a: int, b: int): int
  {
    if a <= b then a else b
  }

  /** `Math.max(1, n)`: the concurrency actually used. */
  function ClampConcurrency(requested: int): (c: nat)
    ensures c >= 1
    ensures requested >= 1 ==> c == requested
    ensures requested < 1 ==> c == 1
  {
    if requested < 1 then 1 else requested
  }

  /** The process exit status: 0 when the run returns normally, 1 from the error handler. */
  function ExitCode(status: Status): (code: int)
    ensures code == 0 || code == 1
    ensures code == 0 <==> status.NoFiles? || status.Completed?
  {
    match status
    case NoFiles => 0
    case Completed(_) => 0
    case ListingFailed(_) => 1
    case DownloadFailed(_, _) => 1
  }

  /** The attempt the driver makes for one key: map it to its local path and download it there. */
  function AttemptOf(job: Job, key: string): Attempt
  {
    Attempt(key, job.localPath(key), Succeeds(job, key))
  }

  /** Whether the download of `key` resolves; every use of the downloader goes through here. */
  predicate Succeeds(job: Job, key: string)
  {
    job.download(key)
  }

  /** Every download of the batch succeeds, so `Promise.all` resolves. */
  predicate BatchOk(job: Job, batch: seq<string>)
  {
    forall j :: 0 <= j < |batch| ==> Succeeds(job, batch[j])
  }

  /** The keys of a batch whose download failed, in batch order. */
  function FailedKeys(job: Job, batch: seq<string>): (failed: seq<string>)
    ensures |failed| <= |batch|
    ensures failed == [] <==> BatchOk(job, batch)
    ensures forall i :: 0 <= i < |failed| ==> !Succeeds(job, failed[i])
  {
    if batch == [] then []
    else
      var init := batch[..|batch| - 1];
      var last := batch[|batch| - 1];
      assert batch == init + [last];
      FailedKeys(job, init) + (if Succeeds(job, last) then [] else [last])
  }

  /** The failed keys are keys of the batch, and every key of the batch that failed is listed. */
  lemma {:induction false} FailedKeysExact(job: Job, batch: seq<string>)
    ensures forall i :: 0 <= i < |FailedKeys(job, batch)| ==> FailedKeys(job, batch)[i] in batch
    ensures forall j :: 0 <= j < |batch| && !Succeeds(job, batch[j]) ==> batch[j] in FailedKeys(job, batch)
  {
    if batch != [] {
      var init, last := batch[..|batch| - 1], batch[|batch| - 1];
      assert batch == init + [last];
      FailedKeysExact(job, init);
      FailedKeysSnoc(job, init, last);
      var f, fi := FailedKeys(job, batch), FailedKeys(job, init);
      forall i | 0 <= i < |f|
        ensures f[i] in batch
      {
        if i < |fi| {
          assert f[i] == fi[i];
        }
      }
      forall j | 0 <= j < |batch| && !Succeeds(job, batch[j])
        ensures batch[j] in f
      {
        if j < |init| {
          assert batch[j] == init[j];
          assert batch[j] in fi;
        } else {
          assert f == fi + [last];
        }
      }
    }
  }

  lemma FailedKeysSnoc(job: Job, batch: seq<string>, key: string)
    ensures FailedKeys(job, batch + [key]) == FailedKeys(job, batch) + (if Succeeds(job, key) then [] else [key])
  {
    assert (batch + [key])[..|batch|] == batch;
  }

  // ---------------------------------------------------------------------------------
  // Partitioning into batches

  /**
   * `keys.slice(i, i + C)` for `i = 0, C, 2C, ...`: the contiguous batches the loop
   * takes, the last one possibly shorter.
   */
  function Batches(keys: seq<string>, c: nat): (bs: seq<seq<string>>)
    requires c >= 1
    ensures keys != [] ==> 0 < |bs|
    ensures |bs| <= |keys|
    decreases |keys|
  {
    if keys == [] then []
    else
      var end := Min(c, |keys|);
      [keys[..end]] + Batches(keys[end..], c)
  }

  function Flatten(bs: seq<seq<string>>): seq<string>
  {
    if bs == [] then [] else bs[0] + Flatten(bs[1..])
  }

  /** The batches partition the key list: concatenated in order they give it back. */
  lemma {:induction false} BatchesPartition(keys: seq<string>, c: nat)
    requires c >= 1
    ensures Flatten(Batches(keys, c)) == keys
    decreases |keys|
  {
    if keys != [] {
      var end := Min(c, |keys|);
      var bs, rs := Batches(keys, c), Batches(keys[end..], c);
      assert bs == [keys[..end]] + rs;
      assert bs[0] == keys[..end] && bs[1..] == rs;
      BatchesPartition(keys[end..], c);
      assert Flatten(bs) == keys[..end] + Flatten(rs);
      assert keys == keys[..end] + keys[end..];
    }
  }

  /** Every batch is non-empty, no batch exceeds the concurrency, and all but the last are full. */
  lemma {:induction false} BatchesSizes(keys: seq<string>, c: nat)
    requires c >= 1
    ensures forall j :: 0 <= j < |Batches(keys, c)| ==> 1 <= |Batches(keys, c)[j]| <= c
    ensures forall j :: 0 <= j < |Batches(keys, c)| - 1 ==> |Batches(keys, c)[j]| == c
    decreases |keys|
  {
    if keys != [] {
      var end := Min(c, |keys|);
      var bs := Batches(keys, c);
      var rs := Batches(keys[end..], c);
      BatchesSizes(keys[end..], c);
      assert bs == [keys[..end]] + rs;
      forall j | 0 <= j < |bs|
        ensures 1 <= |bs[j]| <= c && (j < |bs| - 1 ==> |bs[j]| == c)
      {
        if j == 0 {
          assert |bs[0]| == end;
          if end == |keys| {
            assert keys[end..] == [];
            assert |bs| == 1;
          }
        } else {
          assert bs[j] == rs[j - 1];
        }
      }
    }
  }

  /** Batch `j` is exactly `keys[j*C .. min(j*C + C, n)]`. */
  lemma BatchAt(keys: seq<string>, c: nat, j: nat)
    requires c >= 1
    requires j < |Batches(keys, c)|
    ensures j * c < |keys|
    ensures Batches(keys, c)[j] == keys[j * c .. Min(j * c + c, |keys|)]
  {
    BatchAtOffset(keys, c, j);
    OffsetIsProduct(c, j);
  }

  /** `j * c`, counted up one batch at a time. */
  function Offset(c: nat, j: nat): nat
  {
    if j == 0 then 0 else Offset(c, j - 1) + c
  }

  lemma {:induction false} OffsetIsProduct(c: nat, j: nat)
    ensures Offset(c, j) == j * c
  {
    if j > 0 {
      OffsetIsProduct(c, j - 1);
      assert (j - 1) * c + c == j * c;
    }
  }

  lemma {:induction false} BatchAtOffset(keys: seq<string>, c: nat, j: nat)
    requires c >= 1
    requires j < |Batches(keys, c)|
    ensures Offset(c, j) < |keys|
    ensures Batches(keys, c)[j] == keys[Offset(c, j) .. Min(Offset(c, j) + c, |keys|)]
    decreases j
  {
    assert keys != [];
    var end := Min(c, |keys|);
    var rest := keys[end..];
    var bs, rs := Batches(keys, c), Batches(rest, c);
    assert bs == [keys[..end]] + rs;
    if j > 0 {
      assert bs[j] == rs[j - 1];
      BatchAtOffset(rest, c, j - 1);
      assert rest != [] && end == c;
      var lo := Offset(c, j - 1);
      var hi := Min(lo + c, |rest|);
      assert Offset(c, j) == lo + c;
      assert Min(Offset(c, j) + c, |keys|) == hi + c;
      SliceOfSuffix(keys, c, lo, hi);
    }
  }

  lemma SliceOfSuffix(keys: seq<string>, c: nat, lo: nat, hi: nat)
    requires c <= |keys| && lo <= hi <= |keys| - c
    ensures keys[c..][lo..hi] == keys[lo + c..hi + c]
  {
  }

  /** A concurrency of 0 or less behaves as 1: every batch is a single key. */
  lemma ClampedToSingleKeys(keys: seq<string>, requested: int, j: nat)
    requires requested <= 1
    requires j < |Batches(keys, ClampConcurrency(requested))|
    ensures j < |keys|
    ensures Batches(keys, ClampConcurrency(requested))[j] == [keys[j]]
  {
    BatchAt(keys, 1, j);
  }

  lemma {:induction false} FlattenAppend(bs: seq<seq<string>>, b: seq<string>)
    ensures Flatten(bs + [b]) == Flatten(bs) + b
  {
    if bs == [] {
      assert [] + [b] == [b];
    } else {
      assert (bs + [b])[1..] == bs[1..] + [b];
      FlattenAppend(bs[1..], b);
    }
  }

  // ---------------------------------------------------------------------------------
  // Which batches are started

  /**
   * The number of batches the driver starts: every batch up to and including the first
   * one with a failed download, or all of them.
   */
  function BatchesStarted(job: Job, bs: seq<seq<string>>): (m: nat)
    ensures m <= |bs|
    ensures forall j :: 0 <= j < m - 1 ==> BatchOk(job, bs[j])
    ensures m < |bs| ==> 0 < m && !BatchOk(job, bs[m - 1])
  {
    if bs == [] then 0
    else if BatchOk(job, bs[0]) then
      var m := 1 + BatchesStarted(job, bs[1..]);
      assert forall j :: 1 <= j < m - 1 ==> bs[j] == bs[1..][j - 1];
      m
    else 1
  }

  /** After batches that all succeed, a failing batch is the last one started. */
  lemma {:induction false} StartedThroughFailure(job: Job, bs: seq<seq<string>>, d: nat)
    requires d < |bs|
    requires forall j :: 0 <= j < d ==> BatchOk(job, bs[j])
    requires !BatchOk(job, bs[d])
    ensures BatchesStarted(job, bs) == d + 1
  {
    if d > 0 {
      assert forall j :: 0 <= j < d - 1 ==> bs[1..][j] == bs[j + 1];
      StartedThroughFailure(job, bs[1..], d - 1);
    }
  }

  /** When every batch succeeds, every batch is started. */
  lemma {:induction false} StartedAll(job: Job, bs: seq<seq<string>>)
    requires forall j :: 0 <= j < |bs| ==> BatchOk(job, bs[j])
    ensures BatchesStarted(job, bs) == |bs|
  {
    if bs != [] {
      assert forall j :: 0 <= j < |bs| - 1 ==> bs[1..][j] == bs[j + 1];
      StartedAll(job, bs[1..]);
    }
  }

  /**
   * Three keys with concurrency 2, the second failing: the first batch `{k1, k2}` is
   * started and fails, the batch `{k3}` is never started.
   */
  lemma ExampleSecondKeyFails(job: Job, k1: string, k2: string, k3: string)
    requires Succeeds(job, k1) && !Succeeds(job, k2)
    ensures Batches([k1, k2, k3], 2) == [[k1, k2], [k3]]
    ensures BatchesStarted(job, [[k1, k2], [k3]]) == 1
    ensures FailedKeys(job, [k1, k2]) == [k2]
  {
    var keys := [k1, k2, k3];
    assert keys[..2] == [k1, k2];
    assert keys[2..] == [k3];
    assert [k3][..1] == [k3];
    assert [k3][1..] == [];
    assert Batches([k3], 2) == [[k3]] + Batches([], 2);
    assert Batches(keys, 2) == [[k1, k2]] + Batches([k3], 2);
    assert [k1, k2][..1] == [k1];
    assert [k1][..0] == [];
    assert !BatchOk(job, [k1, k2]) by {
      assert [k1, k2][1] == k2;
    }
  }

  // ---------------------------------------------------------------------------------
  // The loops

  /**
   * One batch: `Promise.all(batch.map(...))` starts every download of the batch and waits
   * for all of them; the batch fails when any of them fails.
   */
  method DownloadBatch(job: Job, batch: seq<string>) returns (attempts: seq<Attempt>, failed: seq<string>)
    ensures |attempts| == |batch|
    ensures forall j :: 0 <= j < |batch| ==> attempts[j] == AttemptOf(job, batch[j])
    ensures failed == FailedKeys(job, batch)
  {
    attempts, failed := [], [];
    var j := 0;
    while j < |batch|
      invariant j <= |batch|
      invariant |attempts| == j
      invariant forall i :: 0 <= i < j ==> attempts[i] == AttemptOf(job, batch[i])
      invariant failed == FailedKeys(job, batch[..j])
    {
      assert batch[..j + 1] == batch[..j] + [batch[j]];
      FailedKeysSnoc(job, batch[..j], batch[j]);
      var key := batch[j];
      var path := job.localPath(key);
      var ok := Succeeds(job, key);
      attempts := attempts + [Attempt(key, path, ok)];
      if !ok {
        failed := failed + [key];
      }
      j := j + 1;
    }
    assert batch[..j] == batch;
  }

  /**
   * `for (let i = 0; i < keys.length; i += CONCURRENCY)`: downloads the batches in order
   * and stops after the first one that fails. The attempts are the keys of every started
   * batch, in key order; `failed` lists the failed keys of the last batch started and is
   * empty exactly when every key was downloaded successfully.
   */
  method DownloadInBatches(job: Job, keys: seq<string>, c: nat) returns (failed: seq<string>, attempts: seq<Attempt>)
    requires c >= 1
    ensures failed == [] <==> forall j :: 0 <= j < |keys| ==> Succeeds(job, keys[j])
    ensures |attempts| <= |keys|
    ensures forall j :: 0 <= j < |attempts| ==> attempts[j] == AttemptOf(job, keys[j])
    ensures failed == [] ==> |attempts| == |keys|
    ensures var bs := Batches(keys, c); var m := BatchesStarted(job, bs);
      |attempts| == |Flatten(bs[..m])| && failed == (if m == 0 then [] else FailedKeys(job, bs[m - 1]))
  {
    ghost var bs := Batches(keys, c);
    ghost var done: nat := 0;
    var i := 0;
    attempts, failed := [], [];
    while i < |keys|
      invariant i <= |keys| && done <= |bs|
      invariant bs[done..] == Batches(keys[i..], c)
      invariant Flatten(bs[..done]) == keys[..i]
      invariant forall j :: 0 <= j < done ==> BatchOk(job, bs[j])
      invariant |attempts| == i
      invariant forall j :: 0 <= j < i ==> attempts[j] == AttemptOf(job, keys[j])
      invariant forall j :: 0 <= j < i ==> Succeeds(job, keys[j])
      decreases |keys| - i
    {
      var end := if i + c < |keys| then i + c else |keys|;
      var batch := keys[i..end];
      NextBatch(keys, c, bs, done, i, end);
      var batchAttempts, batchFailed := DownloadBatch(job, batch);
      AppendBatchAttempts(job, keys, i, end, attempts, batchAttempts);
      attempts := attempts + batchAttempts;
      if batchFailed != [] {
        failed := batchFailed;
        StoppedAtFailure(job, keys, c, done, i, end, attempts, failed);
        return;
      }
      BatchSucceeded(job, keys, i, end);
      i := end;
      done := done + 1;
    }
    AllBatchesDone(job, keys, c, bs, done);
  }

  /** One step of the batch loop: batch number `done` is `keys[i..end]`, and it extends the keys covered. */
  lemma NextBatch(keys: seq<string>, c: nat, bs: seq<seq<string>>, done: nat, i: nat, end: nat)
    requires c >= 1 && i < |keys| && end == Min(i + c, |keys|)
    requires done <= |bs|
    requires bs[done..] == Batches(keys[i..], c)
    requires Flatten(bs[..done]) == keys[..i]
    ensures done < |bs| && bs[done] == keys[i..end]
    ensures bs[done + 1..] == Batches(keys[end..], c)
    ensures Flatten(bs[..done + 1]) == keys[..end]
  {
    BatchStep(keys, c, i, end);
    assert bs[done..][0] == bs[done];
    assert bs[done..][1..] == bs[done + 1..];
    assert bs[..done + 1] == bs[..done] + [bs[done]];
    FlattenAppend(bs[..done], bs[done]);
    assert keys[..end] == keys[..i] + keys[i..end];
  }

  /** When the loop runs out of keys, every batch was started and succeeded. */
  lemma AllBatchesDone(job: Job, keys: seq<string>, c: nat, bs: seq<seq<string>>, done: nat)
    requires c >= 1 && bs == Batches(keys, c)
    requires done <= |bs| && bs[done..] == Batches(keys[|keys|..], c)
    requires forall j :: 0 <= j < done ==> BatchOk(job, bs[j])
    ensures BatchesStarted(job, bs) == |bs| && |Flatten(bs[..|bs|])| == |keys|
    ensures |bs| == 0 || FailedKeys(job, bs[|bs| - 1]) == []
  {
    assert keys[|keys|..] == [];
    assert |bs[done..]| == 0;
    StartedAll(job, bs);
    BatchesPartition(keys, c);
    assert bs[..|bs|] == bs;
  }

  /** The attempts of a batch extend those of the keys before it. */
  /** A batch `keys[i..end]` with no failed download: each of its keys succeeds. */
  lemma BatchSucceeded(job: Job, keys: seq<string>, i: nat, end: nat)
    requires i <= end <= |keys|
    requires FailedKeys(job, keys[i..end]) == []
    ensures forall j :: i <= j < end ==> Succeeds(job, keys[j])
  {
    forall j | i <= j < end
      ensures Succeeds(job, keys[j])
    {
      assert keys[j] == keys[i..end][j - i];
    }
  }

  lemma AppendBatchAttempts(job: Job, keys: seq<string>, i: nat, end: nat, before: seq<Attempt>, batchAttempts: seq<Attempt>)
    requires i <= end <= |keys|
    requires |before| == i && forall j :: 0 <= j < i ==> before[j] == AttemptOf(job, keys[j])
    requires |batchAttempts| == end - i
    requires forall j :: 0 <= j < end - i ==> batchAttempts[j] == AttemptOf(job, keys[i..end][j])
    ensures forall j :: 0 <= j < end ==> (before + batchAttempts)[j] == AttemptOf(job, keys[j])
  {
    forall j | 0 <= j < end
      ensures (before + batchAttempts)[j] == AttemptOf(job, keys[j])
    {
      if j >= i {
        assert keys[i..end][j - i] == keys[j];
      }
    }
  }

  /** The loop stops at batch `done`, the first with a failed download: it is the last batch started. */
  lemma StoppedAtFailure(job: Job, keys: seq<string>, c: nat, done: nat, i: nat, end: nat,
                         attempts: seq<Attempt>, failed: seq<string>)
    requires c >= 1 && i < end <= |keys|
    requires done < |Batches(keys, c)| && Batches(keys, c)[done] == keys[i..end]
    requires Flatten(Batches(keys, c)[..done + 1]) == keys[..end]
    requires forall j :: 0 <= j < done ==> BatchOk(job, Batches(keys, c)[j])
    requires |attempts| == end
    requires failed == FailedKeys(job, keys[i..end]) && failed != []
    ensures failed == [] <==> forall j :: 0 <= j < |keys| ==> Succeeds(job, keys[j])
    ensures |attempts| <= |keys|
    ensures var bs := Batches(keys, c); var m := BatchesStarted(job, bs);
      |attempts| == |Flatten(bs[..m])| && failed == (if m == 0 then [] else FailedKeys(job, bs[m - 1]))
  {
    StartedThroughFailure(job, Batches(keys, c), done);
    FailureInBatch(job, keys, i, end);
  }

  /** A batch with a failed download holds a key of the list whose download failed. */
  lemma FailureInBatch(job: Job, keys: seq<string>, i: nat, end: nat)
    requires i <= end <= |keys|
    requires !BatchOk(job, keys[i..end])
    ensures exists j :: 0 <= j < |keys| && !Succeeds(job, keys[j])
  {
    var w :| 0 <= w < end - i && !Succeeds(job, keys[i..end][w]);
    assert keys[i..end][w] == keys[i + w];
  }

  /** The next batch is `keys[i..end]` and the rest follow it. */
  lemma BatchStep(keys: seq<string>, c: nat, i: nat, end: nat)
    requires c >= 1 && i < |keys|
    requires end == Min(i + c, |keys|)
    ensures Batches(keys[i..], c) == [keys[i..end]] + Batches(keys[end..], c)
  {
    assert keys[i..][..end - i] == keys[i..end];
    assert keys[i..][end - i..] == keys[end..];
  }

  /** The closure of one run: `keyToLocalPath(key, PREFIX, DEST)`, then the download. */
  function RunJob(prefix: string, dest: string, download: Downloader): Job
  {
    Job(key => PathMapper.KeyToLocalPath(key, prefix, dest), download)
  }

  /** In a run, each key is written to the path the path mapper gives it under the normalised prefix. */
  lemma RunJobAttempt(prefix: string, dest: string, download: Downloader, key: string)
    ensures AttemptOf(RunJob(prefix, dest, download), key)
         == Attempt(key, PathMapper.KeyToLocalPath(key, prefix, dest), download(key))
  {
  }

  /**
   * What the main block guarantees once the keys are listed: an empty listing makes no
   * attempt and ends normally; otherwise the attempts are the keys of the batches started,
   * in key order, each mapped and downloaded by the job; the run completes, and exits with
   * status 0, exactly when every download succeeds.
   */
  predicate DownloadOutcome(keys: seq<string>, job: Job, c: nat, status: Status, attempts: seq<Attempt>)
    requires c >= 1
  {
    var bs := Batches(keys, c);
    && (keys == [] ==> status == NoFiles && attempts == [])
    && |attempts| == |Flatten(bs[..BatchesStarted(job, bs)])| <= |keys|
    && (forall j :: 0 <= j < |attempts| ==> attempts[j] == AttemptOf(job, keys[j]))
    && (status.Completed? <==> keys != [] && forall j :: 0 <= j < |keys| ==> Succeeds(job, keys[j]))
    && (status.Completed? ==> status.found == |keys|)
    && (status.DownloadFailed? ==> var m := BatchesStarted(job, bs);
          status.found == |keys| && 0 < m && status.failed == FailedKeys(job, bs[m - 1]) && status.failed != [])
    && !status.ListingFailed?
    && (ExitCode(status) == 0 <==> forall j :: 0 <= j < |keys| ==> Succeeds(job, keys[j]))
  }

  /**
   * The main block once the keys are listed: an empty listing ends the run normally;
   * otherwise the keys are downloaded in batches and the outcome decides the status.
   */
  method DownloadListed(keys: seq<string>, job: Job, c: nat) returns (status: Status, attempts: seq<Attempt>)
    requires c >= 1
    ensures DownloadOutcome(keys, job, c, status, attempts)
  {
    if |keys| == 0 {
      status, attempts := NoFiles, [];
      EmptyOutcome(job, c);
      return;
    }
    var failed;
    failed, attempts := DownloadInBatches(job, keys, c);
    status := if failed == [] then Completed(|keys|) else DownloadFailed(|keys|, failed);
    ListedOutcome(keys, job, c, failed, attempts, status);
  }

  /** An empty listing attempts nothing and ends normally. */
  lemma EmptyOutcome(job: Job, c: nat)
    requires c >= 1
    ensures DownloadOutcome([], job, c, NoFiles, [])
  {
    assert Batches([], c) == [];
  }

  /** The status a non-empty listing ends with, from the outcome of the batch loop. */
  lemma ListedOutcome(keys: seq<string>, job: Job, c: nat, failed: seq<string>, attempts: seq<Attempt>, status: Status)
    requires c >= 1 && keys != []
    requires failed == [] <==> forall j :: 0 <= j < |keys| ==> Succeeds(job, keys[j])
    requires |attempts| <= |keys|
    requires forall j :: 0 <= j < |attempts| ==> attempts[j] == AttemptOf(job, keys[j])
    requires var bs := Batches(keys, c); var m := BatchesStarted(job, bs);
      |attempts| == |Flatten(bs[..m])| && failed == (if m == 0 then [] else FailedKeys(job, bs[m - 1]))
    requires status == if failed == [] then Completed(|keys|) else DownloadFailed(|keys|, failed)
    ensures DownloadOutcome(keys, job, c, status, attempts)
  {
    var bs := Batches(keys, c);
    var m := BatchesStarted(job, bs);
    if failed != [] {
      assert m != 0 && failed == FailedKeys(job, bs[m - 1]);
    }
  }

  /**
   * The main block after argument parsing: normalise the prefix, clamp the concurrency,
   * list the keys, then download them in batches. `sent` are the list requests made,
   * `attempts` the downloads attempted, in key order.
   */
  method Run(bucket: string, prefixArg: string, dest: string, requestedConcurrency: int,
             responses: seq<KeyLister.Response>, download: Downloader)
    returns (status: Status, sent: seq<KeyLister.ListRequest>, attempts: seq<Attempt>)
    requires KeyLister.Ends(responses)
    ensures sent == KeyLister.RequestsSent(bucket, PathMapper.StripLeadingSlashes(prefixArg), responses,
                                           KeyLister.FirstStop(responses) + 1)
    ensures KeyLister.Listing(responses).Failure? ==>
      status == ListingFailed(KeyLister.Listing(responses).error) && attempts == []
    ensures KeyLister.Listing(responses).Success? ==>
      DownloadOutcome(KeyLister.Listing(responses).value,
                      RunJob(PathMapper.StripLeadingSlashes(prefixArg), dest, download),
                      ClampConcurrency(requestedConcurrency), status, attempts)
  {
    var prefix := PathMapper.StripLeadingSlashes(prefixArg);
    var listing;
    listing, sent := KeyLister.ListAllKeys(bucket, prefix, responses);
    if listing.Failure? {
      status, attempts := ListingFailed(listing.error), [];
      return;
    }
    status, attempts := DownloadListed(listing.value, RunJob(prefix, dest, download), ClampConcurrency(requestedConcurrency));
  }
}
