/**
 * `ScanMetrics`: four counters updated in place (files, errors, detections
 * and processing milliseconds) and the readings taken from them. The
 * counters are 64-bit atomics whose `fetch_add` wraps around on overflow;
 * the wrap is written out. The start instant and `elapsed` are a clock and
 * are not part of this model.
 */
module Metrics {
  import opened Wrappers

  /** 2^64: `usize` on a 64-bit target, and `u64`. */
  const Word: nat := 0x1_0000_0000_0000_0000

  const NanosPerMilli: nat := 1_000_000
  const MillisPerSec: nat := 1000

  /** A `Duration`: whole seconds and the nanoseconds below one second. */
  datatype Duration = Duration(secs: nat, nanos: nat)
  {
    predicate Valid()
    {
      nanos < NanosPerMilli * MillisPerSec
    }
  }

  /** `fetch_add` on a 64-bit counter: the sum modulo 2^64. */
  function WrappingAdd(a: nat, b: nat): (r: nat)
    requires a < Word
    ensures r < Word
    ensures a + b < Word ==> r == a + b
    ensures a + b >= Word ==> r + Word * ((a + b) / Word) == a + b
  {
    (a + b) % Word
  }

  /** `as_millis`: whole milliseconds, the part below a millisecond dropped. */
  function AsMillis(d: Duration): (ms: nat)
    requires d.Valid()
    ensures ms * NanosPerMilli <= d.secs * MillisPerSec * NanosPerMilli + d.nanos
    ensures d.secs * MillisPerSec * NanosPerMilli + d.nanos < (ms + 1) * NanosPerMilli
  {
    d.secs * MillisPerSec + d.nanos / NanosPerMilli
  }

  /** `as_millis() as u64`: the low 64 bits of the millisecond count. */
  function TruncatedMillis(d: Duration): (ms: nat)
    requires d.Valid()
    ensures ms < Word
    ensures AsMillis(d) < Word ==> ms == AsMillis(d)
  {
    AsMillis(d) % Word
  }

  /** `Duration::from_millis` */
  function FromMillis(ms: nat): (d: Duration)
    ensures d.Valid()
    ensures d.nanos % NanosPerMilli == 0
  {
    Duration(ms / MillisPerSec, (ms % MillisPerSec) * NanosPerMilli)
  }

  /** A whole number of milliseconds survives the trip through `Duration`. */
  lemma MillisRoundTrip(ms: nat)
    ensures AsMillis(FromMillis(ms)) == ms
  {
    var d := FromMillis(ms);
    assert d.nanos / NanosPerMilli == ms % MillisPerSec;
  }

  /** The millisecond count of `average_time_per_file`, when there are files. */
  function AverageMillis(totalMs: nat, files: nat): (avg: Option<nat>)
    ensures avg.None? <==> files == 0
    ensures avg.Some? ==> avg.value * files <= totalMs < (avg.value + 1) * files
  {
    if files == 0 then None
    else
      var q := totalMs / files;
      assert totalMs == q * files + totalMs % files;
      Some(q)
  }

  class ScanMetrics {
    var fileCount: nat
    var errorCount: nat
    var detectionCount: nat
    var processingTimeMs: nat

    /** Each counter fits its 64-bit atomic. */
    predicate Valid()
      reads this
    {
      fileCount < Word && errorCount < Word && detectionCount < Word && processingTimeMs < Word
    }

    /** `new`: every counter at zero. */
    constructor()
      ensures Valid()
      ensures fileCount == 0 && errorCount == 0 && detectionCount == 0 && processingTimeMs == 0
    {
      fileCount := 0;
      errorCount := 0;
      detectionCount := 0;
      processingTimeMs := 0;
    }

    /** `increment_file_count`: one more file, nothing else changes. */
    method IncrementFileCount()
      requires Valid()
      modifies this
      ensures Valid()
      ensures fileCount == WrappingAdd(old(fileCount), 1)
      ensures errorCount == old(errorCount) && detectionCount == old(detectionCount)
      ensures processingTimeMs == old(processingTimeMs)
    {
      fileCount := WrappingAdd(fileCount, 1);
    }

    /** `increment_error_count`: one more error, nothing else changes. */
    method IncrementErrorCount()
      requires Valid()
      modifies this
      ensures Valid()
      ensures errorCount == WrappingAdd(old(errorCount), 1)
      ensures fileCount == old(fileCount) && detectionCount == old(detectionCount)
      ensures processingTimeMs == old(processingTimeMs)
    {
      errorCount := WrappingAdd(errorCount, 1);
    }

    /** `add_detection_count`: `count` more detections, nothing else changes. */
    method AddDetectionCount(count: nat)
      requires Valid()
      modifies this
      ensures Valid()
      ensures detectionCount == WrappingAdd(old(detectionCount), count)
      ensures fileCount == old(fileCount) && errorCount == old(errorCount)
      ensures processingTimeMs == old(processingTimeMs)
    {
      detectionCount := WrappingAdd(detectionCount, count);
    }

    /** `add_processing_time`: the duration's whole milliseconds, truncated to 64 bits, are added. */
    method AddProcessingTime(d: Duration)
      requires Valid() && d.Valid()
      modifies this
      ensures Valid()
      ensures processingTimeMs == WrappingAdd(old(processingTimeMs), TruncatedMillis(d))
      ensures fileCount == old(fileCount) && errorCount == old(errorCount)
      ensures detectionCount == old(detectionCount)
    {
      processingTimeMs := WrappingAdd(processingTimeMs, TruncatedMillis(d));
    }

    /** `total_files` */
    function TotalFiles(): (n: nat)
      reads this
      ensures n == fileCount
    {
      fileCount
    }

    /** `total_errors` */
    function TotalErrors(): (n: nat)
      reads this
      ensures n == errorCount
    {
      errorCount
    }

    /** `total_detections` */
    function TotalDetections(): (n: nat)
      reads this
      ensures n == detectionCount
    {
      detectionCount
    }

    /** `total_processing_time`: the counter read back as a duration, losing nothing. */
    function TotalProcessingTime(): (d: Duration)
      reads this
      ensures d.Valid() && AsMillis(d) == processingTimeMs
    {
      MillisRoundTrip(processingTimeMs);
      FromMillis(processingTimeMs)
    }

    /**
     * `average_time_per_file`: nothing before the first file; afterwards the
     * processing time divided by the file count, rounded down to a millisecond.
     */
    function AverageTimePerFile(): (avg: Option<Duration>)
      reads this
      ensures avg.None? <==> fileCount == 0
      ensures avg.Some? ==> avg.value.Valid()
      ensures avg.Some? ==> AsMillis(avg.value) * fileCount <= processingTimeMs < (AsMillis(avg.value) + 1) * fileCount
    {
      match AverageMillis(processingTimeMs, fileCount)
      case None => None
      case Some(ms) =>
        MillisRoundTrip(ms);
        Some(FromMillis(ms))
    }
  }

  /**
   * The average is the one whole number of milliseconds that, multiplied by
   * the file count, does not exceed the total and falls short of it by less
   * than one millisecond per file.
   */
  lemma AverageUnique(totalMs: nat, files: nat, q: nat)
    requires files > 0 && q * files <= totalMs < (q + 1) * files
    ensures AverageMillis(totalMs, files) == Some(q)
  {
    var avg := AverageMillis(totalMs, files).value;
    if avg < q {
      ScaleMonotone(avg + 1, q, files);
    } else if q < avg {
      ScaleMonotone(q + 1, avg, files);
    }
  }

  lemma ScaleMonotone(x: nat, y: nat, k: nat)
    requires x <= y
    ensures x * k <= y * k
  {
    assert y * k == x * k + (y - x) * k;
  }
}
