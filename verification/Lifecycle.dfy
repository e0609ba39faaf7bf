/**
 Model of the lifecycle verdict in scripts/indicator-acceptance-probe.py
 (`run_probe`, lines 2456-2541 and 2589-2624): the flags the sampling loop keeps
 and the decision taken after it, against regular languages over the samples.
 */
module Lifecycle {
  import opened Common

  /** One sample: did it converge, and which indicator windows (with or without HWND) were there. */
  datatype Sample = Sample(converged: bool, windows: seq<Option<string>>)

  datatype Reason =
    | WindowsReappeared
    | PartialTeardown
    | TeardownNotObserved
    | FinalWindowsRemaining
    | FinalSampleNotConverged

  // ---------- specification: languages over samples ----------

  predicate NoneConverged(s: seq<Sample>) { forall i :: 0 <= i < |s| ==> !s[i].converged }
  predicate AllConverged(s: seq<Sample>) { forall i :: 0 <= i < |s| ==> s[i].converged }
  predicate AllAbsent(s: seq<Sample>) { forall i :: 0 <= i < |s| ==> s[i].windows == [] }

  /** Convergence sets in at sample `k` and lasts. */
  ghost predicate SteadyFrom(s: seq<Sample>, k: int) {
    0 <= k < |s| && NoneConverged(s[..k]) && AllConverged(s[k..])
  }

  /** not-converged* converged+ */
  ghost predicate Steady(s: seq<Sample>) {
    exists k :: SteadyFrom(s, k)
  }

  /** Teardown begins at sample `k`, with one that did not converge. */
  ghost predicate CleanedFrom(s: seq<Sample>, k: int) {
    0 < k < |s| && Steady(s[..k]) && !s[k].converged && AllAbsent(s[k..])
  }

  /** not-converged* converged+ absent+, the teardown beginning with a sample that did not converge. */
  ghost predicate Cleaned(s: seq<Sample>) {
    exists k :: CleanedFrom(s, k)
  }

  lemma NoneConvergedGrows(s: seq<Sample>, x: Sample)
    ensures NoneConverged(s + [x]) <==> NoneConverged(s) && !x.converged
  {
    assert (s + [x])[|s|] == x;
    assert forall i :: 0 <= i < |s| ==> (s + [x])[i] == s[i];
  }

  lemma TailGrows(s: seq<Sample>, x: Sample)
    ensures AllConverged(s + [x]) <==> AllConverged(s) && x.converged
    ensures AllAbsent(s + [x]) <==> AllAbsent(s) && x.windows == []
  {
    assert (s + [x])[|s|] == x;
    assert forall i :: 0 <= i < |s| ==> (s + [x])[i] == s[i];
  }

  lemma SteadyFromGrows(s: seq<Sample>, x: Sample, k: int)
    requires 0 <= k <= |s|
    ensures SteadyFrom(s + [x], k) <==> x.converged && if k == |s| then NoneConverged(s) else SteadyFrom(s, k)
  {
    var t := s + [x];
    assert t[..k] == s[..k] && t[k..] == s[k..] + [x];
    assert s[..|s|] == s;
    TailGrows(s[k..], x);
  }

  lemma CleanedFromGrows(s: seq<Sample>, x: Sample, k: int)
    requires 0 <= k <= |s|
    ensures CleanedFrom(s + [x], k) <==> x.windows == [] && if k == |s| then Steady(s) && !x.converged else CleanedFrom(s, k)
  {
    var t := s + [x];
    assert t[..k] == s[..k] && t[k..] == s[k..] + [x];
    assert s[..|s|] == s;
    TailGrows(s[k..], x);
    assert Steady(s) ==> s != [];
  }

  lemma SteadyGrows(s: seq<Sample>, x: Sample)
    ensures Steady(s + [x]) <==> x.converged && (NoneConverged(s) || Steady(s))
  {
    SteadyFromGrows(s, x, |s|);
    forall k | 0 <= k <= |s|
      ensures SteadyFrom(s + [x], k) <==> x.converged && if k == |s| then NoneConverged(s) else SteadyFrom(s, k)
    {
      SteadyFromGrows(s, x, k);
    }
  }

  lemma CleanedGrows(s: seq<Sample>, x: Sample)
    ensures Cleaned(s + [x]) <==> x.windows == [] && (Cleaned(s) || (Steady(s) && !x.converged))
  {
    CleanedFromGrows(s, x, |s|);
    forall k | 0 <= k <= |s|
      ensures CleanedFrom(s + [x], k) <==> x.windows == [] && if k == |s| then Steady(s) && !x.converged else CleanedFrom(s, k)
    {
      CleanedFromGrows(s, x, k);
    }
  }

  /** When a sample without windows cannot converge, the language is not-converged* converged+ absent+. */
  lemma CleanedIsPlain(s: seq<Sample>)
    requires forall i :: 0 <= i < |s| && s[i].converged ==> s[i].windows != []
    ensures Cleaned(s) <==> exists k :: 0 < k < |s| && Steady(s[..k]) && AllAbsent(s[k..])
  {
    forall k | 0 < k < |s| && Steady(s[..k]) && AllAbsent(s[k..]) ensures CleanedFrom(s, k) {
      assert s[k..][0] == s[k];
    }
  }

  // ---------- the loop ----------

  function Handles(windows: seq<Option<string>>): set<string> {
    set w | w in windows && w.Some? :: w.value
  }

  /**
     The verdict. `reasons` lists each kind of violation once, in the order found;
     `converged` is the summary flag that overall acceptance also requires.
   */
  method RunProbe(samples: seq<Sample>, requireCleanup: bool)
    returns (accepted: bool, converged: bool, reasons: seq<Reason>)
    ensures converged <==> !NoneConverged(samples)
    ensures requireCleanup ==> (accepted <==> Cleaned(samples))
    ensures !requireCleanup ==> (accepted <==> samples != [] && samples[|samples| - 1].converged)
    ensures accepted <==> reasons == []
    ensures PartialTeardown in reasons || WindowsReappeared in reasons ==> requireCleanup && converged
  {
    converged, reasons := false, [];
    var finalConverged, teardownStarted := false, false;
    var finalSeen: set<string> := {};
    var kinds: set<Reason> := {};
    var i := 0;
    while i < |samples|
      invariant i <= |samples|
      invariant converged <==> !NoneConverged(samples[..i])
      invariant finalConverged <==> i > 0 && samples[i - 1].converged
      invariant finalSeen == if i == 0 then {} else Handles(samples[i - 1].windows)
      invariant teardownStarted ==> requireCleanup && converged
      invariant forall r :: r in kinds <==> r in reasons
      invariant kinds <= {PartialTeardown, WindowsReappeared}
      invariant kinds != {} ==> requireCleanup && converged
      invariant requireCleanup && !teardownStarted && kinds == {} ==> (converged <==> Steady(samples[..i]))
      invariant requireCleanup && kinds == {} ==> (teardownStarted <==> Cleaned(samples[..i]))
      invariant requireCleanup && (teardownStarted || kinds != {}) ==> !Steady(samples[..i])
      invariant requireCleanup && kinds != {} ==> !Cleaned(samples[..i])
      invariant teardownStarted && kinds == {} ==> samples[i - 1].windows == []
    {
      var sample := samples[i];
      assert samples[..i + 1] == samples[..i] + [sample];
      NoneConvergedGrows(samples[..i], sample);
      SteadyGrows(samples[..i], sample);
      CleanedGrows(samples[..i], sample);
      var previouslyConverged := converged;
      converged := converged || sample.converged;
      finalConverged := sample.converged;
      if requireCleanup && previouslyConverged {
        if teardownStarted && sample.windows != [] {
          if WindowsReappeared !in kinds {
            kinds, reasons := kinds + {WindowsReappeared}, reasons + [WindowsReappeared];
          }
        } else if !teardownStarted && !sample.converged {
          if sample.windows != [] {
            if PartialTeardown !in kinds {
              kinds, reasons := kinds + {PartialTeardown}, reasons + [PartialTeardown];
            }
          } else {
            teardownStarted := true;
          }
        }
      }
      finalSeen := Handles(sample.windows);
      i := i + 1;
    }
    assert samples[..i] == samples;
    assert reasons != [] ==> reasons[0] in kinds;
    if requireCleanup {
      if !teardownStarted { reasons := reasons + [TeardownNotObserved]; }
      if finalSeen != {} { reasons := reasons + [FinalWindowsRemaining]; }
      accepted := teardownStarted && finalSeen == {} && reasons == [];
    } else {
      if !finalConverged { reasons := reasons + [FinalSampleNotConverged]; }
      accepted := finalConverged && reasons == [];
    }
  }
}
