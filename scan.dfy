/**
 * `ScanUseCase`: lists the files under a path, then for each file extracts
 * its text and runs the detection service on it, collecting the results of
 * the files where both steps succeeded. The source runs the files as
 * concurrent tasks; here they run one after another in an order given by a
 * scheduler, any permutation of the listing.
 */
module ScanApp {
  import opened Wrappers
  import opened Errors
  import opened Models
  import opened FileSystem
  import opened Scanning
  import opened Detection
  import opened Progress

  const DefaultMaxConcurrency: nat := 4

  /** `0, 1, ..., n - 1` */
  function Indices(n: nat): (r: seq<nat>)
    ensures |r| == n && forall k :: 0 <= k < n ==> r[k] == k
  {
    seq(n, k requires 0 <= k => k)
  }

  /** An order in which `n` tasks can finish: each index exactly once. */
  predicate IsSchedule(order: seq<nat>, n: nat)
  {
    multiset(order) == multiset(Indices(n))
  }

  /** Every index in `order` is below `n`. */
  predicate InRange(order: seq<nat>, n: nat)
  {
    forall k :: 0 <= k < |order| ==> order[k] < n
  }

  lemma ScheduleBounds(order: seq<nat>, n: nat)
    requires IsSchedule(order, n)
    ensures |order| == n && InRange(order, n)
  {
    assert |multiset(order)| == |multiset(Indices(n))|;
    forall k | 0 <= k < |order|
      ensures order[k] < n
    {
      assert order[k] in multiset(order);
      assert order[k] in multiset(Indices(n));
    }
  }

  /** What one task adds to the results: its result if it succeeded, else nothing. */
  function Contribution(outcome: Result<ScanResult, Error>): (c: seq<ScanResult>)
    ensures |c| <= 1
    ensures c != [] <==> outcome.Ok?
    ensures c != [] ==> c == [outcome.value]
  {
    if outcome.Ok? then [outcome.value] else []
  }

  /** The results of the successful tasks, in listing order. */
  function Succeeded(outs: seq<Result<ScanResult, Error>>): seq<ScanResult>
  {
    if outs == [] then []
    else Succeeded(outs[..|outs| - 1]) + Contribution(outs[|outs| - 1])
  }

  /** What task `i` (by listing index) adds, when there is one. */
  function ContributionAt(outs: seq<Result<ScanResult, Error>>, i: nat): seq<ScanResult>
  {
    if i < |outs| then Contribution(outs[i]) else []
  }

  /** The results of tasks taken in the order `order`. */
  function SucceededIn(outs: seq<Result<ScanResult, Error>>, order: seq<nat>): seq<ScanResult>
  {
    if order == [] then []
    else SucceededIn(outs, order[..|order| - 1]) + ContributionAt(outs, order[|order| - 1])
  }

  lemma SucceededInStep(outs: seq<Result<ScanResult, Error>>, order: seq<nat>, t: nat)
    requires t < |order|
    ensures SucceededIn(outs, order[..t + 1]) == SucceededIn(outs, order[..t]) + ContributionAt(outs, order[t])
  {
    assert order[..t + 1][..t] == order[..t];
  }

  lemma {:induction false} SucceededInAppend(outs: seq<Result<ScanResult, Error>>, a: seq<nat>, b: seq<nat>)
    ensures SucceededIn(outs, a + b) == SucceededIn(outs, a) + SucceededIn(outs, b)
    decreases |b|
  {
    if b == [] {
      assert a + b == a;
    } else {
      var n := |b| - 1;
      assert (a + b)[..|a + b| - 1] == a + b[..n];
      SucceededInAppend(outs, a, b[..n]);
    }
  }

  /** Taking one occurrence of the last element of `a` out of `b`. */
  lemma RemoveMatching(a: seq<nat>, b: seq<nat>, j: nat)
    requires multiset(a) == multiset(b) && a != [] && j < |b| && b[j] == a[|a| - 1]
    ensures multiset(a[..|a| - 1]) == multiset(b[..j] + b[j + 1..])
  {
    var n := |a| - 1;
    var x := a[n];
    assert a == a[..n] + [x];
    assert b == b[..j] + [x] + b[j + 1..];
    var ma, mb := multiset(a[..n]), multiset(b[..j] + b[j + 1..]);
    assert ma + multiset{x} == mb + multiset{x};
    forall y
      ensures ma[y] == mb[y]
    {
      assert (ma + multiset{x})[y] == (mb + multiset{x})[y];
    }
    assert ma == mb;
  }

  /** Task `j` of an order contributes between the earlier and the later tasks. */
  lemma SucceededInSplit(outs: seq<Result<ScanResult, Error>>, b: seq<nat>, j: nat)
    requires j < |b|
    ensures SucceededIn(outs, b) == SucceededIn(outs, b[..j]) + ContributionAt(outs, b[j]) + SucceededIn(outs, b[j + 1..])
  {
    assert b[..j + 1] + b[j + 1..] == b;
    SucceededInAppend(outs, b[..j + 1], b[j + 1..]);
    SucceededInStep(outs, b, j);
  }

  /** Where the last task of `a` sits in `b`, when both run the same tasks. */
  lemma FindMatching(a: seq<nat>, b: seq<nat>) returns (j: nat)
    requires multiset(a) == multiset(b) && a != []
    ensures j < |b| && b[j] == a[|a| - 1]
  {
    var x := a[|a| - 1];
    assert x in multiset(a);
    assert x in multiset(b);
    j :| 0 <= j < |b| && b[j] == x;
  }

  lemma MultisetRearrange<T>(front: seq<T>, before: seq<T>, after: seq<T>, c: seq<T>)
    requires multiset(front) == multiset(before + after)
    ensures multiset(front + c) == multiset(before + c + after)
  {
  }

  /** The results, as a multiset, do not depend on the order in which tasks finish. */
  lemma {:induction false} SucceededInPermutation(outs: seq<Result<ScanResult, Error>>, a: seq<nat>, b: seq<nat>)
    requires multiset(a) == multiset(b)
    ensures multiset(SucceededIn(outs, a)) == multiset(SucceededIn(outs, b))
    decreases |a|
  {
    if a == [] {
      assert |multiset(b)| == 0;
    } else {
      var n := |a| - 1;
      var j := FindMatching(a, b);
      RemoveMatching(a, b, j);
      SucceededInPermutation(outs, a[..n], b[..j] + b[j + 1..]);
      var front, before, after := SucceededIn(outs, a[..n]), SucceededIn(outs, b[..j]), SucceededIn(outs, b[j + 1..]);
      var c := ContributionAt(outs, b[j]);
      assert SucceededIn(outs, b) == before + c + after by {
        SucceededInSplit(outs, b, j);
      }
      assert SucceededIn(outs, b[..j] + b[j + 1..]) == before + after by {
        SucceededInAppend(outs, b[..j], b[j + 1..]);
      }
      MultisetRearrange(front, before, after, c);
    }
  }

  /** Running tasks in listing order gives `Succeeded`. */
  lemma {:induction false} SucceededInListingOrder(outs: seq<Result<ScanResult, Error>>, k: nat)
    requires k <= |outs|
    ensures SucceededIn(outs, Indices(k)) == Succeeded(outs[..k])
  {
    if k > 0 {
      SucceededInListingOrder(outs, k - 1);
      assert Indices(k)[..k - 1] == Indices(k - 1);
      assert outs[..k][..k - 1] == outs[..k - 1];
    }
  }

  /**
   * The results in listing order: one per task at most, and a result is
   * there exactly when some task produced it.
   */
  lemma {:induction false} SucceededSpec(outs: seq<Result<ScanResult, Error>>)
    ensures |Succeeded(outs)| <= |outs|
    ensures forall res :: res in Succeeded(outs) <==> Ok(res) in outs
  {
    if outs != [] {
      var n := |outs| - 1;
      SucceededSpec(outs[..n]);
      assert outs == outs[..n] + [outs[n]];
    }
  }

  class ScanUseCase {
    const scanner: FileSystemScanner
    const detection: DetectionService
    const maxConcurrency: nat

    /** `new`: at most four files at a time unless told otherwise. */
    constructor(scanner: FileSystemScanner, detection: DetectionService, maxConcurrency: Option<nat>)
      ensures this.scanner == scanner && this.detection == detection
      ensures maxConcurrency.None? ==> this.maxConcurrency == DefaultMaxConcurrency
      ensures maxConcurrency.Some? ==> this.maxConcurrency == maxConcurrency.value
    {
      this.scanner := scanner;
      this.detection := detection;
      this.maxConcurrency := maxConcurrency.GetOr(DefaultMaxConcurrency);
    }

    /** The outcome of each file's task, by listing position. */
    function Outcomes(fs: Fs, files: seq<string>): (outs: seq<Result<ScanResult, Error>>)
      reads scanner.manager
      ensures |outs| == |files|
      ensures forall i :: 0 <= i < |files| ==> outs[i] == ScanFile(fs, files[i])
    {
      if files == [] then []
      else
        var init := files[..|files| - 1];
        var prev := Outcomes(fs, init);
        assert forall i :: 0 <= i < |init| ==> init[i] == files[i];
        prev + [ScanFile(fs, files[|files| - 1])]
    }

    /**
     * `scan_directory`. A listing error ends the scan. Otherwise the results
     * are those of the files whose extraction and detection both succeeded,
     * whatever order its tasks ran in, and the progress bar advanced once
     * per listed file.
     */
    method ScanDirectory(fs: Fs, path: string, recursive: bool, schedule: nat -> seq<nat>)
      returns (r: Result<seq<ScanResult>, Error>, updates: nat)
      requires maxConcurrency > 0
      requires forall n: nat :: IsSchedule(schedule(n), n)
      ensures Listing(fs, path, recursive).Err? ==> r == Err(Listing(fs, path, recursive).error)
      ensures Listing(fs, path, recursive).Ok? ==> r.Ok?
      ensures Listing(fs, path, recursive).Ok? ==>
        multiset(r.value) == multiset(Succeeded(Outcomes(fs, Listing(fs, path, recursive).value)))
      ensures Listing(fs, path, recursive).Ok? ==> updates == |Listing(fs, path, recursive).value|
      ensures Listing(fs, path, recursive).Ok? ==> |r.value| <= |Listing(fs, path, recursive).value|
    {
      var listing := scanner.ScanPath(fs, path, recursive);
      if listing.Err? {
        return Err(listing.error), 0;
      }
      var files := listing.value;
      var order := schedule(|files|);
      ScheduleBounds(order, |files|);
      var results;
      results, updates := RunTasks(fs, files, order);
      ghost var outs := Outcomes(fs, files);
      SucceededInPermutation(outs, order, Indices(|files|));
      SucceededInListingOrder(outs, |files|);
      assert outs[..|outs|] == outs;
      SucceededSpec(outs);
      assert |results| == |multiset(results)|;
      r := Ok(results);
    }

    /**
     * `scan_directory`'s tasks, one per listed file, run in the order
     * `order`: each extracts and detects, adds its result on success, and
     * advances the progress bar whatever happened.
     */
    method RunTasks(fs: Fs, files: seq<string>, order: seq<nat>) returns (results: seq<ScanResult>, updates: nat)
      requires InRange(order, |files|)
      ensures results == SucceededIn(Outcomes(fs, files), order)
      ensures updates == |order|
    {
      ghost var outs := Outcomes(fs, files);
      results := [];
      var bar := new ProgressBar(|files|);
      for t := 0 to |order|
        invariant results == SucceededIn(outs, order[..t])
        invariant bar.updates == t
      {
        SucceededInStep(outs, order, t);
        var file := files[order[t]];
        match scanner.ProcessFile(fs, file) {
          case Ok(info) =>
            match DetectInFile(detection, info) {
              case Ok(result) =>
                results := results + [result];
              case Err(_) =>
            }
            bar.Update();
          case Err(_) =>
            bar.Update();
        }
      }
      bar.Finish();
      assert order[..|order|] == order;
      updates := bar.updates;
    }

    /**
     * `scan_file`: extraction, then detection; either error ends it. Each
     * task of `scan_directory` does the same for its file.
     */
    function ScanFile(fs: Fs, path: string): (r: Result<ScanResult, Error>)
      reads scanner.manager
      ensures scanner.ProcessFile(fs, path).Err? ==> r == Err(scanner.ProcessFile(fs, path).error)
      ensures scanner.ProcessFile(fs, path).Ok? ==> r == DetectInFile(detection, scanner.ProcessFile(fs, path).value)
    {
      match scanner.ProcessFile(fs, path)
      case Ok(info) => DetectInFile(detection, info)
      case Err(e) => Err(e)
    }
  }
}
