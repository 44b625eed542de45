/**
 * `HybridDetector`: runs every available detector in registration order,
 * merges the results of those that succeeded (first occurrence of each key
 * wins), and reports an aggregate error only when every detector it ran
 * failed.
 */
module HybridDetection {
  import opened Wrappers
  import opened Text
  import opened Errors
  import opened Models

  const HybridDetectorName := "Hybrid Detector"
  const AllFailedPrefix := "All detectors failed: "

  // ---------------------------------------------------------------------------
  // Merging

  /** The de-duplication key `type:value:line:start`; `end` takes no part in it. */
  function Key(f: Finding): string
  {
    f.kind + ":" + f.value + ":" + NatToString(f.line) + ":" + NatToString(f.start)
  }

  function Keys(fs: seq<Finding>): set<string>
  {
    set k | 0 <= k < |fs| :: Key(fs[k])
  }

  /** The detectors' result lists, one after the other. */
  function Flatten(lists: seq<seq<Finding>>): seq<Finding>
  {
    if lists == [] then [] else Flatten(lists[..|lists| - 1]) + lists[|lists| - 1]
  }

  /** Keeps a finding when no earlier finding has its key. */
  function Dedup(fs: seq<Finding>): seq<Finding>
  {
    if fs == [] then []
    else
      var prefix := fs[..|fs| - 1];
      Dedup(prefix) + (if Key(fs[|fs| - 1]) in Keys(prefix) then [] else [fs[|fs| - 1]])
  }

  /** What `merge_results` returns. */
  function Merge(lists: seq<seq<Finding>>): seq<Finding>
  {
    Dedup(Flatten(lists))
  }

  lemma KeysAppend(a: seq<Finding>, b: seq<Finding>)
    ensures Keys(a + b) == Keys(a) + Keys(b)
  {
    forall key | key in Keys(a + b)
      ensures key in Keys(a) + Keys(b)
    {
      var k :| 0 <= k < |a + b| && Key((a + b)[k]) == key;
      if k >= |a| {
        assert b[k - |a|] == (a + b)[k];
      }
    }
    forall key | key in Keys(a) + Keys(b)
      ensures key in Keys(a + b)
    {
      if key in Keys(b) {
        var k :| 0 <= k < |b| && Key(b[k]) == key;
        assert (a + b)[|a| + k] == b[k];
      } else {
        var k :| 0 <= k < |a| && Key(a[k]) == key;
        assert (a + b)[k] == a[k];
      }
    }
  }

  lemma DedupStep(fs: seq<Finding>, j: nat)
    requires j < |fs|
    ensures Dedup(fs[..j + 1]) == Dedup(fs[..j]) + (if Key(fs[j]) in Keys(fs[..j]) then [] else [fs[j]])
  {
    assert fs[..j + 1][..j] == fs[..j];
  }

  /** Merging keeps every key of its input and no other. */
  lemma {:induction false} DedupKeys(fs: seq<Finding>)
    ensures Keys(Dedup(fs)) == Keys(fs)
  {
    if fs != [] {
      var prefix := fs[..|fs| - 1];
      var last := fs[|fs| - 1];
      DedupKeys(prefix);
      assert fs == prefix + [last];
      KeysAppend(prefix, [last]);
      KeysAppend(Dedup(prefix), if Key(last) in Keys(prefix) then [] else [last]);
      assert Keys([last]) == {Key(last)};
      assert Keys([]) == {};
    }
  }

  /** No two merged findings share a key. */
  lemma {:induction false} DedupDistinct(fs: seq<Finding>)
    ensures forall a, b :: 0 <= a < b < |Dedup(fs)| ==> Key(Dedup(fs)[a]) != Key(Dedup(fs)[b])
  {
    if fs != [] {
      var prefix := fs[..|fs| - 1];
      var last := fs[|fs| - 1];
      DedupDistinct(prefix);
      DedupKeys(prefix);
      var d := Dedup(prefix);
      var r := Dedup(fs);
      forall a, b | 0 <= a < b < |r|
        ensures Key(r[a]) != Key(r[b])
      {
        if b == |d| {
          assert r[a] == d[a];
          assert Key(d[a]) in Keys(d);
        } else {
          assert r[a] == d[a] && r[b] == d[b];
        }
      }
    }
  }

  /** The index of the first finding with a given key. */
  function FirstWithKey(fs: seq<Finding>, key: string): (i: nat)
    requires key in Keys(fs)
    ensures i < |fs| && Key(fs[i]) == key
  {
    if Key(fs[0]) == key then 0
    else
      assert key in Keys(fs[1..]) by {
        var k :| 0 <= k < |fs| && Key(fs[k]) == key;
        assert fs[1..][k - 1] == fs[k];
      }
      1 + FirstWithKey(fs[1..], key)
  }

  /** No finding before the one `FirstWithKey` picks has the key. */
  lemma {:induction false} FirstWithKeyIsFirst(fs: seq<Finding>, key: string)
    requires key in Keys(fs)
    ensures forall j :: 0 <= j < FirstWithKey(fs, key) ==> Key(fs[j]) != key
  {
    if Key(fs[0]) != key {
      assert key in Keys(fs[1..]) by {
        var k :| 0 <= k < |fs| && Key(fs[k]) == key;
        assert fs[1..][k - 1] == fs[k];
      }
      FirstWithKeyIsFirst(fs[1..], key);
      forall j | 0 < j < FirstWithKey(fs, key)
        ensures Key(fs[j]) != key
      {
        assert fs[j] == fs[1..][j - 1];
      }
    }
  }

  /** The first index holding a key is the only index holding it with none before. */
  lemma FirstWithKeyUnique(fs: seq<Finding>, key: string, i: nat)
    requires i < |fs| && Key(fs[i]) == key
    requires forall j :: 0 <= j < i ==> Key(fs[j]) != key
    ensures key in Keys(fs) && FirstWithKey(fs, key) == i
  {
    assert Key(fs[i]) in Keys(fs);
    FirstWithKeyIsFirst(fs, key);
  }

  lemma FirstWithKeyPrefix(fs: seq<Finding>, n: nat, key: string)
    requires n <= |fs| && key in Keys(fs[..n])
    ensures key in Keys(fs) && FirstWithKey(fs, key) == FirstWithKey(fs[..n], key)
  {
    var i := FirstWithKey(fs[..n], key);
    FirstWithKeyIsFirst(fs[..n], key);
    assert forall j :: 0 <= j <= i ==> fs[..n][j] == fs[j];
    FirstWithKeyUnique(fs, key, i);
  }

  /**
   * First occurrence wins: each merged finding is the first finding of the
   * input with its key (the whole finding, `end` included), and merged
   * findings keep the order of those first occurrences.
   */
  lemma {:induction false} DedupFirstOccurrences(fs: seq<Finding>)
    ensures forall k :: 0 <= k < |Dedup(fs)| ==>
      Key(Dedup(fs)[k]) in Keys(fs) && Dedup(fs)[k] == fs[FirstWithKey(fs, Key(Dedup(fs)[k]))]
    ensures forall a, b :: 0 <= a < b < |Dedup(fs)| ==>
      Key(Dedup(fs)[a]) in Keys(fs) && Key(Dedup(fs)[b]) in Keys(fs) &&
      FirstWithKey(fs, Key(Dedup(fs)[a])) < FirstWithKey(fs, Key(Dedup(fs)[b]))
  {
    if fs != [] {
      var n := |fs| - 1;
      var prefix := fs[..n];
      var last := fs[n];
      DedupFirstOccurrences(prefix);
      var d := Dedup(prefix);
      var r := Dedup(fs);
      assert r == d + (if Key(last) in Keys(prefix) then [] else [last]);
      forall k | 0 <= k < |d|
        ensures Key(d[k]) in Keys(fs) && FirstWithKey(fs, Key(d[k])) == FirstWithKey(prefix, Key(d[k]))
      {
        FirstWithKeyPrefix(fs, n, Key(d[k]));
      }
      if Key(last) !in Keys(prefix) {
        forall j | 0 <= j < n
          ensures Key(fs[j]) != Key(last)
        {
          assert fs[j] == prefix[j];
        }
        FirstWithKeyUnique(fs, Key(last), n);
      }
      forall k | 0 <= k < |r|
        ensures Key(r[k]) in Keys(fs) && r[k] == fs[FirstWithKey(fs, Key(r[k]))]
      {
        if k < |d| {
          assert r[k] == d[k];
        }
      }
      forall a, b | 0 <= a < b < |r|
        ensures Key(r[a]) in Keys(fs) && Key(r[b]) in Keys(fs) &&
          FirstWithKey(fs, Key(r[a])) < FirstWithKey(fs, Key(r[b]))
      {
        assert r[a] == d[a];
        if b < |d| {
          assert r[b] == d[b];
        }
      }
    }
  }

  /** A list whose keys are already distinct is left as it is. */
  lemma {:induction false} DedupOfDistinct(fs: seq<Finding>)
    requires forall a, b :: 0 <= a < b < |fs| ==> Key(fs[a]) != Key(fs[b])
    ensures Dedup(fs) == fs
  {
    if fs != [] {
      var n := |fs| - 1;
      var prefix := fs[..n];
      assert forall j :: 0 <= j < n ==> prefix[j] == fs[j];
      DedupOfDistinct(prefix);
      KeyNotIn(prefix, Key(fs[n]));
      SplitLast(fs);
    }
  }

  lemma SplitLast<T>(s: seq<T>)
    requires s != []
    ensures s == s[..|s| - 1] + [s[|s| - 1]]
  {
  }

  lemma KeyNotIn(fs: seq<Finding>, key: string)
    requires forall j :: 0 <= j < |fs| ==> Key(fs[j]) != key
    ensures key !in Keys(fs)
  {
  }

  /** Merging one already-merged list returns it unchanged. */
  lemma MergeIdempotent(fs: seq<Finding>)
    ensures Merge([Dedup(fs)]) == Dedup(fs)
  {
    assert Flatten([Dedup(fs)]) == Dedup(fs) by {
      assert [Dedup(fs)][..0] == [];
    }
    DedupDistinct(fs);
    DedupOfDistinct(Dedup(fs));
  }

  /** What was merged from a prefix of the input stays at the front when more is merged. */
  lemma {:induction false} DedupPrefix(a: seq<Finding>, b: seq<Finding>)
    ensures Dedup(a) <= Dedup(a + b)
  {
    if b != [] {
      var n := |b| - 1;
      DedupPrefix(a, b[..n]);
      assert a + b == (a + b[..n]) + [b[n]];
      assert (a + b)[..|a + b| - 1] == a + b[..n];
    } else {
      assert a + b == a;
    }
  }

  /** Two findings that differ only in `end`: the second is dropped, even though its range differs. */
  lemma EndIgnored(f: Finding, end: nat)
    ensures Merge([[f], [f.(end := end)]]) == [f]
  {
    var g := f.(end := end);
    assert Flatten([[f], [g]]) == [f, g] by {
      assert [[f], [g]][..1] == [[f]];
      assert [[f]][..0] == [];
      assert Flatten([[f]]) == [f];
    }
    assert [f, g][..1] == [f];
    assert Key(g) == Key(f);
    assert Key([f][0]) in Keys([f]);
    assert Dedup([f]) == [f] by {
      assert [f][..0] == [];
    }
  }

  /** Colons inside `type` and `value` let different findings share a key. */
  lemma ColonCollision(line: nat, start: nat, e1: nat, e2: nat)
    ensures Key(Finding("a:b", "c", line, start, e1)) == Key(Finding("a", "b:c", line, start, e2))
    ensures Merge([[Finding("a:b", "c", line, start, e1)], [Finding("a", "b:c", line, start, e2)]]) ==
            [Finding("a:b", "c", line, start, e1)]
  {
    var f := Finding("a:b", "c", line, start, e1);
    var g := Finding("a", "b:c", line, start, e2);
    var tail := ":" + NatToString(line) + ":" + NatToString(start);
    assert Key(f) == "a:b:c" + tail;
    assert Key(g) == "a:b:c" + tail;
    assert Flatten([[f], [g]]) == [f, g] by {
      assert [[f], [g]][..1] == [[f]];
      assert [[f]][..0] == [];
      assert Flatten([[f]]) == [f];
    }
    assert [f, g][..1] == [f];
    assert Key([f][0]) in Keys([f]);
    assert Dedup([f]) == [f] by {
      assert [f][..0] == [];
    }
  }

  lemma DedupSnoc(xs: seq<Finding>, x: Finding)
    ensures Dedup(xs + [x]) == Dedup(xs) + (if Key(x) in Keys(xs) then [] else [x])
    ensures Keys(xs + [x]) == Keys(xs) + {Key(x)}
  {
    assert (xs + [x])[..|xs|] == xs;
    KeysAppend(xs, [x]);
    assert Key([x][0]) in Keys([x]);
  }

  lemma FlattenStep(lists: seq<seq<Finding>>, i: nat)
    requires i < |lists|
    ensures Flatten(lists[..i + 1]) == Flatten(lists[..i]) + lists[i]
  {
    assert lists[..i + 1][..i] == lists[..i];
  }

  /** `merge_results`: one pass over all lists with a set of keys already seen. */
  method MergeResults(lists: seq<seq<Finding>>) returns (result: seq<Finding>)
    ensures result == Merge(lists)
  {
    result := [];
    var seen: set<string> := {};
    for i := 0 to |lists|
      invariant result == Merge(lists[..i]) && seen == Keys(Flatten(lists[..i]))
    {
      FlattenStep(lists, i);
      result, seen := MergeBatch(Flatten(lists[..i]), lists[i], result, seen);
    }
    assert lists[..|lists|] == lists;
  }

  /** The inner loop of `merge_results`: one detector's findings against the keys seen so far. */
  method MergeBatch(ghost done: seq<Finding>, batch: seq<Finding>, result: seq<Finding>, seen: set<string>)
    returns (result': seq<Finding>, seen': set<string>)
    requires result == Dedup(done) && seen == Keys(done)
    ensures result' == Dedup(done + batch) && seen' == Keys(done + batch)
  {
    result', seen' := result, seen;
    assert done + batch[..0] == done;
    for j := 0 to |batch|
      invariant result' == Dedup(done + batch[..j]) && seen' == Keys(done + batch[..j])
    {
      var info := batch[j];
      MergeBatchStep(done, batch, j);
      if Key(info) !in seen' {
        seen' := seen' + {Key(info)};
        result' := result' + [info];
      }
    }
    assert batch[..|batch|] == batch;
  }

  lemma MergeBatchStep(done: seq<Finding>, batch: seq<Finding>, j: nat)
    requires j < |batch|
    ensures Dedup(done + batch[..j + 1]) ==
      Dedup(done + batch[..j]) + (if Key(batch[j]) in Keys(done + batch[..j]) then [] else [batch[j]])
    ensures Keys(done + batch[..j + 1]) == Keys(done + batch[..j]) + {Key(batch[j])}
  {
    assert done + batch[..j + 1] == (done + batch[..j]) + [batch[j]];
    DedupSnoc(done + batch[..j], batch[j]);
  }

  // ---------------------------------------------------------------------------
  // Running the detectors

  /** The results of the available detectors that succeeded, in registration order. */
  function Successes(ds: seq<Detector>, text: string): seq<seq<Finding>>
  {
    if ds == [] then []
    else
      var d := ds[|ds| - 1];
      Successes(ds[..|ds| - 1], text) + (if d.available && d.detect(text).Ok? then [d.detect(text).value] else [])
  }

  /** `name:error` for each available detector that failed, in registration order. */
  function Failures(ds: seq<Detector>, text: string): seq<string>
  {
    if ds == [] then []
    else
      var d := ds[|ds| - 1];
      Failures(ds[..|ds| - 1], text) +
        (if d.available && d.detect(text).Err? then [d.name + ":" + Display(d.detect(text).error)] else [])
  }

  /** The indices of the available detectors: those whose `detect` is called. */
  function AvailableIndices(ds: seq<Detector>): seq<nat>
  {
    if ds == [] then []
    else AvailableIndices(ds[..|ds| - 1]) + (if ds[|ds| - 1].available then [|ds| - 1] else [])
  }

  /** What `detect` returns for a list of detectors. */
  function Outcome(ds: seq<Detector>, text: string): Result<seq<Finding>, Error>
  {
    if ds == [] then Ok([])
    else if Successes(ds, text) != [] then Ok(Merge(Successes(ds, text)))
    else if Failures(ds, text) != [] then Err(Message(AllFailedPrefix + Join(", ", Failures(ds, text))))
    else Ok([])
  }

  /** `iter().any(|d| d.is_available())` */
  predicate AnyAvailable(ds: seq<Detector>)
  {
    exists i :: 0 <= i < |ds| && ds[i].available
  }

  lemma AvailableIndicesSpec(ds: seq<Detector>)
    ensures forall k :: 0 <= k < |AvailableIndices(ds)| ==>
      AvailableIndices(ds)[k] < |ds| && ds[AvailableIndices(ds)[k]].available
    ensures forall i :: 0 <= i < |ds| && ds[i].available ==> i in AvailableIndices(ds)
    ensures forall a, b :: 0 <= a < b < |AvailableIndices(ds)| ==> AvailableIndices(ds)[a] < AvailableIndices(ds)[b]
  {
    if ds != [] {
      var n := |ds| - 1;
      AvailableIndicesSpec(ds[..n]);
      var prev := AvailableIndices(ds[..n]);
      forall k | 0 <= k < |prev|
        ensures prev[k] < n && ds[prev[k]].available
      {
        assert ds[..n][prev[k]] == ds[prev[k]];
      }
      forall i | 0 <= i < n && ds[i].available
        ensures i in prev
      {
        assert ds[..n][i] == ds[i];
      }
    }
  }

  lemma SuccessesStep(ds: seq<Detector>, i: nat, text: string)
    requires i < |ds|
    ensures Successes(ds[..i + 1], text) == Successes(ds[..i], text) +
      (if ds[i].available && ds[i].detect(text).Ok? then [ds[i].detect(text).value] else [])
    ensures Failures(ds[..i + 1], text) == Failures(ds[..i], text) +
      (if ds[i].available && ds[i].detect(text).Err? then [ds[i].name + ":" + Display(ds[i].detect(text).error)] else [])
    ensures AvailableIndices(ds[..i + 1]) == AvailableIndices(ds[..i]) + (if ds[i].available then [i] else [])
  {
    assert ds[..i + 1][..i] == ds[..i];
  }

  /** An empty list of detectors finds nothing and does not fail. */
  lemma EmptyFindsNothing(text: string)
    ensures Outcome([], text) == Ok([])
  {
  }

  /** The available detectors alone decide the outcome; the list being empty only matters when nothing is available either. */
  lemma OnlyAvailableMatter(ds: seq<Detector>, ds': seq<Detector>, text: string)
    requires |ds| == |ds'|
    requires forall i :: 0 <= i < |ds| ==> ds[i].available == ds'[i].available
    requires forall i :: 0 <= i < |ds| && ds[i].available ==> ds[i].name == ds'[i].name && ds[i].detect(text) == ds'[i].detect(text)
    ensures Outcome(ds, text) == Outcome(ds', text)
  {
    SameRuns(ds, ds', text);
  }

  lemma {:induction false} SameRuns(ds: seq<Detector>, ds': seq<Detector>, text: string)
    requires |ds| == |ds'|
    requires forall i :: 0 <= i < |ds| ==> ds[i].available == ds'[i].available
    requires forall i :: 0 <= i < |ds| && ds[i].available ==> ds[i].name == ds'[i].name && ds[i].detect(text) == ds'[i].detect(text)
    ensures Successes(ds, text) == Successes(ds', text) && Failures(ds, text) == Failures(ds', text)
  {
    if ds != [] {
      var n := |ds| - 1;
      SameRuns(ds[..n], ds'[..n], text);
    }
  }

  /**
   * If some available detector succeeds, the outcome succeeds whatever the
   * others do, and every key that detector found is in the merged result.
   */
  lemma {:induction false} OneSuccessSuffices(ds: seq<Detector>, text: string, i: nat)
    requires i < |ds| && ds[i].available && ds[i].detect(text).Ok?
    ensures Outcome(ds, text).Ok?
    ensures Keys(ds[i].detect(text).value) <= Keys(Outcome(ds, text).value)
  {
    SuccessIncluded(ds, text, i);
    var lists := Successes(ds, text);
    var k :| 0 <= k < |lists| && lists[k] == ds[i].detect(text).value;
    FlattenKeys(lists, k);
    DedupKeys(Flatten(lists));
  }

  lemma {:induction false} SuccessIncluded(ds: seq<Detector>, text: string, i: nat)
    requires i < |ds| && ds[i].available && ds[i].detect(text).Ok?
    ensures exists k :: 0 <= k < |Successes(ds, text)| && Successes(ds, text)[k] == ds[i].detect(text).value
  {
    var n := |ds| - 1;
    if i < n {
      SuccessIncluded(ds[..n], text, i);
      var k :| 0 <= k < |Successes(ds[..n], text)| && Successes(ds[..n], text)[k] == ds[..n][i].detect(text).value;
      assert Successes(ds, text)[k] == Successes(ds[..n], text)[k];
    } else {
      assert Successes(ds, text)[|Successes(ds, text)| - 1] == ds[i].detect(text).value;
    }
  }

  lemma {:induction false} FlattenKeys(lists: seq<seq<Finding>>, k: nat)
    requires k < |lists|
    ensures Keys(lists[k]) <= Keys(Flatten(lists))
  {
    var n := |lists| - 1;
    KeysAppend(Flatten(lists[..n]), lists[n]);
    if k < n {
      FlattenKeys(lists[..n], k);
      assert lists[..n][k] == lists[k];
    }
  }

  /** When every available detector fails and there is one, the error names each failure in order. */
  lemma AllFailed(ds: seq<Detector>, text: string)
    requires AnyAvailable(ds)
    requires forall i :: 0 <= i < |ds| && ds[i].available ==> ds[i].detect(text).Err?
    ensures Outcome(ds, text) == Err(Message(AllFailedPrefix + Join(", ", Failures(ds, text))))
    ensures |Failures(ds, text)| == |AvailableIndices(ds)| >= 1
  {
    NoSuccesses(ds, text);
    FailuresCount(ds, text);
    AvailableIndicesSpec(ds);
    var i :| 0 <= i < |ds| && ds[i].available;
    assert i in AvailableIndices(ds);
  }

  lemma {:induction false} NoSuccesses(ds: seq<Detector>, text: string)
    requires forall i :: 0 <= i < |ds| && ds[i].available ==> ds[i].detect(text).Err?
    ensures Successes(ds, text) == []
  {
    if ds != [] {
      var n := |ds| - 1;
      NoSuccesses(ds[..n], text);
    }
  }

  lemma {:induction false} FailuresCount(ds: seq<Detector>, text: string)
    requires forall i :: 0 <= i < |ds| && ds[i].available ==> ds[i].detect(text).Err?
    ensures |Failures(ds, text)| == |AvailableIndices(ds)|
  {
    if ds != [] {
      var n := |ds| - 1;
      FailuresCount(ds[..n], text);
    }
  }

  /** A non-empty list with nothing available finds nothing and does not fail. */
  lemma NoneAvailable(ds: seq<Detector>, text: string)
    requires !AnyAvailable(ds)
    ensures Outcome(ds, text) == Ok([])
  {
    NothingRuns(ds, text);
  }

  lemma {:induction false} NothingRuns(ds: seq<Detector>, text: string)
    requires !AnyAvailable(ds)
    ensures Successes(ds, text) == [] && Failures(ds, text) == [] && AvailableIndices(ds) == []
  {
    if ds != [] {
      var n := |ds| - 1;
      assert !AnyAvailable(ds[..n]);
      NothingRuns(ds[..n], text);
    }
  }

  /**
   * Two detectors that both succeed (the API detector registered before the
   * pattern detector): the first one's merged findings come first and
   * unchanged, and a finding of the second is kept only when its key is new.
   */
  lemma FlattenPair(a: seq<Finding>, b: seq<Finding>)
    ensures Flatten([a, b]) == a + b
  {
    assert [a, b][..1] == [a];
    assert [a][..0] == [];
    assert Flatten([a]) == a;
  }

  lemma FirstRegisteredWins(a: seq<Finding>, b: seq<Finding>)
    ensures Dedup(a) <= Merge([a, b])
    ensures forall k :: |Dedup(a)| <= k < |Merge([a, b])| ==> Key(Merge([a, b])[k]) !in Keys(a)
  {
    FlattenPair(a, b);
    DedupPrefix(a, b);
    DedupDistinct(a + b);
    DedupKeys(a);
  }

  // ---------------------------------------------------------------------------
  // The detector object

  class HybridDetector {
    var detectors: seq<Detector>

    /** `new`: no detectors. */
    constructor()
      ensures detectors == []
    {
      detectors := [];
    }

    /** `add_detector`: appends, so registration order is kept. */
    method AddDetector(d: Detector)
      modifies this
      ensures detectors == old(detectors) + [d]
    {
      detectors := detectors + [d];
    }

    function Name(): (n: string)
    {
      HybridDetectorName
    }

    /** `is_available`: some registered detector is available (so never with none registered). */
    function IsAvailable(): (b: bool)
      reads this
      ensures b <==> AnyAvailable(detectors)
      ensures detectors == [] ==> !b
    {
      AnyOf(detectors)
    }

    /**
     * `detect`: `invoked` records, in order, the detectors whose `detect` was
     * called: exactly the available ones.
     */
    method Detect(text: string) returns (r: Result<seq<Finding>, Error>, ghost invoked: seq<nat>)
      ensures r == Outcome(detectors, text)
      ensures invoked == AvailableIndices(detectors)
    {
      if detectors == [] {
        return Ok([]), [];
      }
      var results: seq<seq<Finding>> := [];
      var errors: seq<string> := [];
      invoked := [];
      for i := 0 to |detectors|
        invariant results == Successes(detectors[..i], text)
        invariant errors == Failures(detectors[..i], text)
        invariant invoked == AvailableIndices(detectors[..i])
      {
        var d := detectors[i];
        SuccessesStep(detectors, i, text);
        if d.available {
          invoked := invoked + [i];
          match d.detect(text)
          case Ok(found) =>
            results := results + [found];
          case Err(e) =>
            errors := errors + [d.name + ":" + Display(e)];
        }
      }
      assert detectors[..|detectors|] == detectors;
      if results != [] {
        var merged := MergeResults(results);
        r := Ok(merged);
      } else if errors != [] {
        r := Err(Message(AllFailedPrefix + Join(", ", errors)));
      } else {
        r := Ok([]);
      }
    }
  }

  /** `any`, written out. */
  function AnyOf(ds: seq<Detector>): (b: bool)
    ensures b <==> AnyAvailable(ds)
  {
    if ds == [] then false
    else
      assert AnyAvailable(ds) <==> ds[0].available || AnyAvailable(ds[1..]) by {
        if AnyAvailable(ds) && !ds[0].available {
          var i :| 0 <= i < |ds| && ds[i].available;
          assert ds[1..][i - 1] == ds[i];
        }
      }
      ds[0].available || AnyOf(ds[1..])
  }

  /** A hybrid detector over a list of detectors, as a detector itself. */
  function AsDetector(ds: seq<Detector>): (d: Detector)
    ensures d.name == HybridDetectorName
    ensures d.available <==> AnyAvailable(ds)
    ensures forall text :: d.detect(text) == Outcome(ds, text)
  {
    Detector(HybridDetectorName, AnyOf(ds), text => Outcome(ds, text))
  }
}
