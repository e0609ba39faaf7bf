/**
 Model of `evaluate_migration_samples` in scripts/indicator-acceptance-probe.py
 (lines 337-430): the loop that finds stable visits of the target to one monitor.
 The specification speaks of windows of consecutive samples only; it has no
 notion of a current run.
 */
module RunDetector {
  import opened Common

  type Handle = string

  datatype Rect = Rect(left: int, top: int, right: int, bottom: int)

  /** An active monitor: its authoritative DPI, if known, and its bounds, if known. */
  datatype Monitor = Monitor(dpi: Option<int>, bounds: Option<Rect>)

  datatype Sample = Sample(converged: bool, handle: Handle, dpi: Option<int>, bounds: Option<Rect>)

  datatype Reason = BindingUnavailable(handle: Handle) | DpiMismatch(handle: Handle) | OutsideMonitor(handle: Handle)

  function Max(a: int, b: int): int { if a > b then a else b }
  function Min(a: int, b: int): int { if a < b then a else b }

  predicate Intersects(a: Rect, b: Rect) {
    Max(a.left, b.left) < Min(a.right, b.right) && Max(a.top, b.top) < Min(a.bottom, b.bottom)
  }

  /** The monitor a sample counts for, or the reason it counts for none. */
  function Classify(topology: map<Handle, Monitor>, s: Sample): Result<Handle, Option<Reason>> {
    if !s.converged then Err(None)
    else if s.handle !in topology || s.dpi.None? || s.bounds.None? then Err(Some(BindingUnavailable(s.handle)))
    else if topology[s.handle].dpi != s.dpi then Err(Some(DpiMismatch(s.handle)))
    else if topology[s.handle].bounds.None? || !Intersects(s.bounds.value, topology[s.handle].bounds.value)
    then Err(Some(OutsideMonitor(s.handle)))
    else Ok(s.handle)
  }

  predicate Contains(r: Rect, x: int, y: int) {
    r.left <= x < r.right && r.top <= y < r.bottom
  }

  /** Rectangles intersect when they have a pixel in common. */
  lemma IntersectsIsSharedPixel(a: Rect, b: Rect)
    ensures Intersects(a, b) <==> exists x, y :: Contains(a, x, y) && Contains(b, x, y)
  {
    if Intersects(a, b) { assert Contains(a, Max(a.left, b.left), Max(a.top, b.top)); }
  }

  /**
     A sample counts for a monitor exactly if it converged on an active monitor, at the
     DPI the topology has for it, with bounds that share a pixel with the monitor's.
   */
  lemma ValidSample(topology: map<Handle, Monitor>, s: Sample, h: Handle)
    ensures Classify(topology, s) == Ok(h) <==>
      && s.converged && s.handle == h && h in topology && s.dpi.Some? && topology[h].dpi == s.dpi
      && s.bounds.Some? && topology[h].bounds.Some?
      && exists x, y :: Contains(s.bounds.value, x, y) && Contains(topology[h].bounds.value, x, y)
  {
    if s.bounds.Some? && h in topology && topology[h].bounds.Some? {
      IntersectsIsSharedPixel(s.bounds.value, topology[h].bounds.value);
    }
  }

  /** A converged sample that counts for none has a reason, the first that applies; others have none. */
  lemma InvalidSample(topology: map<Handle, Monitor>, s: Sample)
    ensures !s.converged ==> Classify(topology, s) == Err(None)
    ensures s.converged && (s.handle !in topology || s.dpi.None? || s.bounds.None?) ==>
      Classify(topology, s) == Err(Some(BindingUnavailable(s.handle)))
    ensures s.converged && s.handle in topology && s.dpi.Some? && s.bounds.Some? && topology[s.handle].dpi != s.dpi ==>
      Classify(topology, s) == Err(Some(DpiMismatch(s.handle)))
    ensures Classify(topology, s).Err? && Classify(topology, s).error == Some(OutsideMonitor(s.handle)) ==>
      s.converged && s.handle in topology && s.dpi.Some? && topology[s.handle].dpi == s.dpi && s.bounds.Some?
  {}

  // ---------- specification ----------

  datatype View = View(samples: seq<Sample>, topology: map<Handle, Monitor>) {
    predicate On(i: int, h: Handle) {
      0 <= i < |samples| && Classify(topology, samples[i]) == Ok(h)
    }

    /** Samples a, ..., b-1 are all valid converged samples of monitor `h`. */
    predicate Visit(h: Handle, a: int, b: int) {
      0 <= a <= b <= |samples| && forall i :: a <= i < b ==> On(i, h)
    }

    /** Sample `i` belongs to a visit of at least `required` samples among the first `n`. */
    ghost predicate Stable(h: Handle, required: int, n: nat, i: int) {
      exists a, b :: a <= i < b <= n && b - a >= required && Visit(h, a, b)
    }

    /** The stable samples of `h` with index below `i`, in order. */
    ghost function StableSamples(h: Handle, required: int, n: nat, i: nat): seq<Sample>
      requires i <= |samples|
    {
      if i == 0 then []
      else StableSamples(h, required, n, i - 1) + if Stable(h, required, n, i - 1) then [samples[i - 1]] else []
    }

    /** `m` is the length of the longest visit to `h` among the first `n` samples. */
    ghost predicate LongestVisit(h: Handle, n: nat, m: nat) {
      && (exists a, b :: Visit(h, a, b) && b <= n && b - a == m)
      && (forall a, b :: Visit(h, a, b) && b <= n ==> b - a <= m)
    }

    /** The reasons recorded by the first `n` samples. */
    function Reasons(n: nat): seq<Reason>
      requires n <= |samples|
    {
      if n == 0 then []
      else Reasons(n - 1) + match Classify(topology, samples[n - 1])
        case Err(Some(reason)) => [reason]
        case _ => []
    }

    /** What the two result dictionaries must hold for monitor `h` about the first `n` samples. */
    ghost predicate SummarisesMonitor(runs: Runs, required: int, n: nat, h: Handle)
      requires n <= |samples|
    {
      && (h in runs.maximum <==> exists i :: 0 <= i < n && On(i, h))
      && (h in runs.maximum ==> LongestVisit(h, n, runs.maximum[h]))
      && (h in runs.stable <==> exists i :: 0 <= i < n && Stable(h, required, n, i))
      && (h in runs.stable ==> runs.stable[h] == StableSamples(h, required, n, n))
    }

    ghost predicate Summarises(runs: Runs, required: int, n: nat)
      requires n <= |samples|
    {
      forall h :: SummarisesMonitor(runs, required, n, h)
    }
  }

  // ---------- closing a run ----------

  /** Sample `i` is on `current`, or on no monitor when there is none. */
  ghost predicate LastOn(v: View, i: int, current: Option<Handle>)
    requires 0 <= i < |v.samples|
  {
    forall h :: v.On(i, h) <==> current == Some(h)
  }

  /** Samples start, ..., end-1 are one block: all on `current`, or all on no monitor; and the block
      does not continue a visit that ends at `start`. */
  ghost predicate Block(v: View, current: Option<Handle>, start: int, end: int) {
    && 0 <= start <= end <= |v.samples|
    && (forall j, h :: start <= j < end ==> (v.On(j, h) <==> current == Some(h)))
    && (0 < start < |v.samples| && current.Some? ==> !v.On(start - 1, current.value))
    && (current.Some? ==> start < end)
  }

  lemma BlockGrows(v: View, current: Option<Handle>, start: int, end: int)
    requires Block(v, current, start, end) && end < |v.samples| && LastOn(v, end, current)
    ensures Block(v, current, start, end + 1)
  {}

  /** A visit lies before the block or inside it. */
  lemma NoVisitCrosses(v: View, current: Option<Handle>, start: int, end: int, h: Handle, a: int, b: int)
    requires Block(v, current, start, end)
    requires v.Visit(h, a, b) && a < b <= end
    ensures b <= start || (start <= a && current == Some(h))
  {
    if start < b {
      assert a < start ==> v.On(start - 1, h);
      assert v.On(b - 1, h);
    }
  }

  /** Stability before the block does not change, and inside the block it is a matter of its length. */
  lemma StableInBlock(v: View, required: int, current: Option<Handle>, start: int, end: int, h: Handle, i: int)
    requires Block(v, current, start, end) && 0 <= i < end
    ensures v.Stable(h, required, end, i) <==>
      if i < start then v.Stable(h, required, start, i) else current == Some(h) && end - start >= required
  {
    if v.Stable(h, required, end, i) {
      var a, b :| a <= i < b <= end && b - a >= required && v.Visit(h, a, b);
      NoVisitCrosses(v, current, start, end, h, a, b);
      if b <= start { assert v.Stable(h, required, start, i); }
    }
    if i >= start && current == Some(h) && end - start >= required {
      assert v.Visit(h, start, end);
    }
  }

  lemma {:induction false} StableSamplesBefore(v: View, required: int, current: Option<Handle>, start: int, end: int, h: Handle, i: nat)
    requires Block(v, current, start, end) && i <= start
    ensures v.StableSamples(h, required, end, i) == v.StableSamples(h, required, start, i)
  {
    if i > 0 {
      StableSamplesBefore(v, required, current, start, end, h, i - 1);
      StableInBlock(v, required, current, start, end, h, i - 1);
    }
  }

  lemma {:induction false} StableSamplesInside(v: View, required: int, current: Option<Handle>, start: int, end: int, h: Handle, i: nat)
    requires Block(v, current, start, end) && start <= i <= end
    ensures v.StableSamples(h, required, end, i) ==
      v.StableSamples(h, required, end, start) + if current == Some(h) && end - start >= required then v.samples[start..i] else []
    decreases i
  {
    var before := v.StableSamples(h, required, end, start);
    if i > start {
      StableSamplesInside(v, required, current, start, end, h, i - 1);
      StableInBlock(v, required, current, start, end, h, i - 1);
      assert v.samples[start..i] == v.samples[start..i - 1] + [v.samples[i - 1]];
      assert before + v.samples[start..i] == before + v.samples[start..i - 1] + [v.samples[i - 1]];
    } else {
      assert v.samples[start..i] == [] && before + [] == before;
    }
  }

  /** The stable samples up to the end of a block are those before it and, if it is a long enough visit, all of it. */
  lemma StableSamplesInBlock(v: View, required: int, current: Option<Handle>, start: int, end: int, h: Handle)
    requires Block(v, current, start, end)
    ensures v.StableSamples(h, required, end, end) == v.StableSamples(h, required, start, start) +
      if current == Some(h) && end - start >= required then v.samples[start..end] else []
  {
    StableSamplesBefore(v, required, current, start, end, h, start);
    StableSamplesInside(v, required, current, start, end, h, end);
  }

  lemma LongestInBlock(v: View, current: Option<Handle>, start: int, end: int, h: Handle, before: nat)
    requires Block(v, current, start, end)
    requires v.LongestVisit(h, start, before)
    ensures v.LongestVisit(h, end, if current == Some(h) then Max(before, end - start) else before)
  {
    var m := if current == Some(h) then Max(before, end - start) else before;
    forall a, b | v.Visit(h, a, b) && b <= end ensures b - a <= m {
      if a < b { NoVisitCrosses(v, current, start, end, h, a, b); }
    }
    if m == before {
      var a, b :| v.Visit(h, a, b) && b <= start && b - a == before;
    } else {
      assert v.Visit(h, start, end);
    }
  }

  lemma NeverVisited(v: View, start: nat, h: Handle)
    requires start <= |v.samples| && forall i :: 0 <= i < start ==> !v.On(i, h)
    ensures v.LongestVisit(h, start, 0)
  {
    assert v.Visit(h, 0, 0);
    forall a, b | v.Visit(h, a, b) && b <= start ensures b - a <= 0 {
      assert v.On(a, h) || a >= b;
    }
  }

  /** Closing the block's run turns a summary of the samples before it into one that covers it. */
  lemma RunCloses(v: View, runs: Runs, required: int, current: Option<Handle>, start: int, end: int)
    requires Block(v, current, start, end)
    requires v.Summarises(runs, required, start)
    ensures v.Summarises(FinishRun(runs, required, current, v.samples[start..end]), required, end)
  {
    var closed := FinishRun(runs, required, current, v.samples[start..end]);
    forall h ensures v.SummarisesMonitor(closed, required, end, h) {
      assert v.SummarisesMonitor(runs, required, start, h);
      LongestCloses(v, runs, required, current, start, end, h);
      StableCloses(v, runs, required, current, start, end, h);
    }
  }

  lemma LongestCloses(v: View, runs: Runs, required: int, current: Option<Handle>, start: int, end: int, h: Handle)
    requires Block(v, current, start, end)
    requires v.SummarisesMonitor(runs, required, start, h)
    ensures var maximum := FinishRun(runs, required, current, v.samples[start..end]).maximum;
      && (h in maximum <==> exists i :: 0 <= i < end && v.On(i, h))
      && (h in maximum ==> v.LongestVisit(h, end, maximum[h]))
  {
    if h in runs.maximum {
      LongestInBlock(v, current, start, end, h, runs.maximum[h]);
    } else if current == Some(h) {
      assert v.On(start, h);
      NeverVisited(v, start, h);
      LongestInBlock(v, current, start, end, h, 0);
    }
  }

  lemma NothingOpens(v: View, runs: Runs, required: int, i: int)
    requires 0 <= i < |v.samples| && LastOn(v, i, None)
    requires v.Summarises(runs, required, i)
    ensures v.Summarises(runs, required, i + 1)
  {
    RunCloses(v, runs, required, None, i, i + 1);
  }

  lemma ReasonsGrow(v: View, i: nat)
    requires i < |v.samples|
    ensures v.Reasons(i + 1) == v.Reasons(i) + match Classify(v.topology, v.samples[i])
      case Err(Some(reason)) => [reason]
      case _ => []
  {}

  lemma StableCloses(v: View, runs: Runs, required: int, current: Option<Handle>, start: int, end: int, h: Handle)
    requires Block(v, current, start, end)
    requires v.SummarisesMonitor(runs, required, start, h)
    ensures var stable := FinishRun(runs, required, current, v.samples[start..end]).stable;
      && (h in stable <==> exists i :: 0 <= i < end && v.Stable(h, required, end, i))
      && (h in stable ==> stable[h] == v.StableSamples(h, required, end, end))
  {
    forall i | 0 <= i < end
      ensures v.Stable(h, required, end, i) <==>
        if i < start then v.Stable(h, required, start, i) else current == Some(h) && end - start >= required
    {
      StableInBlock(v, required, current, start, end, h, i);
    }
    if current == Some(h) && end - start >= required { assert v.Stable(h, required, end, start); }
    StableSamplesInBlock(v, required, current, start, end, h);
    if h !in runs.stable { NoStableSamples(v, required, h, start, start); }
  }

  lemma {:induction false} NoStableSamples(v: View, required: int, h: Handle, n: nat, i: nat)
    requires i <= n <= |v.samples| && forall k :: 0 <= k < n ==> !v.Stable(h, required, n, k)
    ensures v.StableSamples(h, required, n, i) == []
  {
    if i > 0 { NoStableSamples(v, required, h, n, i - 1); }
  }

  // ---------- the loop ----------

  /** `maximum_run` and `stable_observations`. */
  datatype Runs = Runs(maximum: map<Handle, nat>, stable: map<Handle, seq<Sample>>)

  /** The nested `finish_run`: close the current run. */
  function FinishRun(runs: Runs, required: int, current: Option<Handle>, run: seq<Sample>): Runs {
    if current.None? then runs
    else
      var h := current.value;
      var longest := if h in runs.maximum && runs.maximum[h] > |run| then runs.maximum[h] else |run|;
      var visits := if h in runs.stable then runs.stable[h] else [];
      Runs(runs.maximum[h := longest],
           if |run| >= required then runs.stable[h := visits + run] else runs.stable)
  }

  /** Where the loop stands: samples start, ..., i-1 are the open run, and the ones before it are summarised. */
  ghost predicate Tracks(v: View, runs: Runs, required: int, current: Option<Handle>, run: seq<Sample>, start: int, i: int) {
    && Block(v, current, start, i) && run == v.samples[start..i] && (current.None? ==> start == i)
    && (i > 0 ==> LastOn(v, i - 1, current))
    && v.Summarises(runs, required, start)
  }

  /** A sample that counts for no monitor closes the run and opens none. */
  lemma LeavesRun(v: View, runs: Runs, required: int, current: Option<Handle>, run: seq<Sample>, start: int, i: nat)
    requires Tracks(v, runs, required, current, run, start, i) && i < |v.samples|
    requires Classify(v.topology, v.samples[i]).Err?
    ensures Tracks(v, FinishRun(runs, required, current, run), required, None, [], i + 1, i + 1)
  {
    RunCloses(v, runs, required, current, start, i);
    NothingOpens(v, FinishRun(runs, required, current, run), required, i);
  }

  /** A sample of another monitor closes the run and opens its own. */
  lemma ChangesRun(v: View, runs: Runs, required: int, current: Option<Handle>, run: seq<Sample>, start: int, i: nat, handle: Handle)
    requires Tracks(v, runs, required, current, run, start, i) && i < |v.samples|
    requires Classify(v.topology, v.samples[i]) == Ok(handle) && current != Some(handle)
    ensures Tracks(v, FinishRun(runs, required, current, run), required, Some(handle), [v.samples[i]], i, i + 1)
  {
    RunCloses(v, runs, required, current, start, i);
  }

  lemma ExtendsRun(v: View, runs: Runs, required: int, run: seq<Sample>, start: int, i: nat, handle: Handle)
    requires Tracks(v, runs, required, Some(handle), run, start, i) && i < |v.samples|
    requires Classify(v.topology, v.samples[i]) == Ok(handle)
    ensures Tracks(v, runs, required, Some(handle), run + [v.samples[i]], start, i + 1)
  {
    BlockGrows(v, Some(handle), start, i);
  }

  method EvaluateMigrationSamples(samples: seq<Sample>, topology: map<Handle, Monitor>, required: int)
    returns (runs: Runs, reasons: seq<Reason>)
    ensures View(samples, topology).Summarises(runs, required, |samples|)
    ensures reasons == View(samples, topology).Reasons(|samples|)
  {
    ghost var v := View(samples, topology);
    runs, reasons := Runs(map[], map[]), [];
    var current: Option<Handle>, run: seq<Sample> := None, [];
    ghost var start := 0;
    var i := 0;
    while i < |samples|
      invariant 0 <= i <= |samples|
      invariant Tracks(v, runs, required, current, run, start, i)
      invariant reasons == v.Reasons(i)
    {
      var sample := samples[i];
      var verdict := Classify(topology, sample);
      ReasonsGrow(v, i);
      match verdict {
        case Err(reason) =>
          LeavesRun(v, runs, required, current, run, start, i);
          runs := FinishRun(runs, required, current, run);
          current, run, start := None, [], i + 1;
          if reason.Some? { reasons := reasons + [reason.value]; }
        case Ok(handle) =>
          if Some(handle) != current {
            ChangesRun(v, runs, required, current, run, start, i, handle);
            runs := FinishRun(runs, required, current, run);
            current, run, start := Some(handle), [], i;
          } else {
            ExtendsRun(v, runs, required, run, start, i, handle);
          }
          run := run + [sample];
      }
      i := i + 1;
    }
    RunCloses(v, runs, required, current, start, i);
    runs := FinishRun(runs, required, current, run);
  }
}
