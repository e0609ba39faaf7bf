/**
 Model of the content script in browser-extension/chrome/entrypoints/tab-bridge.ts
 (lines 125-204 and 254-289): snapshots hand out refs, an admitted ref burns them.

 The document is abstract: an element has actions, a visibility, a name and a role,
 as the page reports them at the moment of the call. A ref `p<g>:<n>` is the pair
 of its generation and index, and a snapshot id the pair of its generation and a
 random part.
 */
module TabBridge {
  import opened Common

  datatype Action = Click | Type
  datatype Visibility = InViewport | Offscreen

  datatype Element = Element(id: nat, connected: bool, actions: set<Action>, visibility: Option<Visibility>, name: string, role: string)

  datatype Ref = Ref(generation: nat, index: nat)
  datatype SnapshotId = SnapshotId(generation: nat, random: string)
  datatype RefEntry = RefEntry(element: nat, actions: set<Action>, name: string, role: string)

  datatype Snapshot = Snapshot(id: SnapshotId, generation: nat, complete: bool, refs: seq<(Ref, RefEntry)>)

  datatype Error = StaleObservation | PairingMismatch

  datatype Event = Paired | Scanned(generation: nat) | Admitted(ref: Ref) | Invalidated

  const MAX_CANDIDATES := 1_200

  // ---------- which refs a snapshot lists ----------

  predicate Eligible(e: Element) {
    e.actions != {} && e.visibility.Some?
  }

  function EntryOf(e: Element): RefEntry {
    RefEntry(e.id, e.actions, e.name, e.role)
  }

  /** The eligible candidates, in document order. */
  function EligibleEntries(candidates: seq<Element>): seq<RefEntry> {
    if candidates == [] then []
    else EligibleEntries(candidates[..|candidates| - 1])
         + if Eligible(candidates[|candidates| - 1]) then [EntryOf(candidates[|candidates| - 1])] else []
  }

  function Min(a: nat, b: nat): nat { if a < b then a else b }

  /** How many candidates are looked at. */
  function CandidateLimit(maxNodes: nat): nat {
    Min(maxNodes * 4, MAX_CANDIDATES)
  }

  /** The first `maxNodes` eligible ones among the candidates looked at. */
  function Listed(candidates: seq<Element>, maxNodes: nat): seq<RefEntry> {
    FirstEligible(candidates[..Min(|candidates|, CandidateLimit(maxNodes))], maxNodes)
  }

  function FirstEligible(window: seq<Element>, count: nat): seq<RefEntry> {
    var all := EligibleEntries(window);
    all[..Min(|all|, count)]
  }

  lemma {:induction false} EligibleOfPrefix(candidates: seq<Element>, n: nat)
    requires n <= |candidates|
    ensures EligibleEntries(candidates[..n]) <= EligibleEntries(candidates)
  {
    if n == |candidates| {
      assert candidates[..n] == candidates;
    } else {
      var init := candidates[..|candidates| - 1];
      EligibleOfPrefix(init, n);
      assert init[..n] == candidates[..n];
    }
  }

  /** Every eligible candidate is listed, with its identity, actions, name and role, and nothing else is. */
  lemma {:induction false} EligibleAreListed(candidates: seq<Element>, entry: RefEntry)
    ensures entry in EligibleEntries(candidates) <==>
      exists e :: e in candidates && e.actions != {} && e.visibility.Some? && entry == RefEntry(e.id, e.actions, e.name, e.role)
  {
    if candidates != [] {
      var init, last := candidates[..|candidates| - 1], candidates[|candidates| - 1];
      assert candidates == init + [last];
      EligibleAreListed(init, entry);
    }
  }

  /** How many are listed: as many as there are eligible candidates. */
  function CountEligible(candidates: seq<Element>): nat {
    if candidates == [] then 0 else CountEligible(candidates[1..]) + if candidates[0].actions != {} && candidates[0].visibility.Some? then 1 else 0
  }

  /** In document order: an eligible candidate is listed at the place given by the number of eligible ones before it. */
  lemma {:induction false} ListedInOrder(candidates: seq<Element>, i: nat)
    requires i < |candidates| && candidates[i].actions != {} && candidates[i].visibility.Some?
    ensures var e := candidates[i]; var place := CountEligible(candidates[..i]);
      place < |EligibleEntries(candidates)| && EligibleEntries(candidates)[place] == RefEntry(e.id, e.actions, e.name, e.role)
  {
    var upTo := candidates[..i + 1];
    EligibleOfPrefix(candidates, i + 1);
    assert upTo[..i] == candidates[..i];
    CountIsLength(candidates[..i]);
  }

  lemma {:induction false} CountIsLength(candidates: seq<Element>)
    ensures CountEligible(candidates) == |EligibleEntries(candidates)|
  {
    if candidates != [] {
      var init, last := candidates[..|candidates| - 1], candidates[|candidates| - 1];
      assert candidates == init + [last];
      CountIsLength(init);
      CountAppends(init, last);
    }
  }

  lemma {:induction false} CountAppends(candidates: seq<Element>, last: Element)
    ensures CountEligible(candidates + [last]) == CountEligible(candidates) + if last.actions != {} && last.visibility.Some? then 1 else 0
  {
    if candidates == [] {
      assert candidates + [last] == [last] && [last][1..] == [];
    } else {
      assert (candidates + [last])[1..] == candidates[1..] + [last];
      CountAppends(candidates[1..], last);
    }
  }

  /** Entries numbered from one, as refs of a generation. */
  function Numbered(generation: nat, entries: seq<RefEntry>): seq<(Ref, RefEntry)> {
    seq(|entries|, (i: int) requires 0 <= i < |entries| => (Ref(generation, i + 1), entries[i]))
  }

  /** The same as a dictionary. */
  function RefMap(generation: nat, entries: seq<RefEntry>): (m: map<Ref, RefEntry>)
    ensures forall r :: r in m <==> r.generation == generation && 0 < r.index <= |entries|
    ensures forall r :: r in m ==> m[r] == entries[r.index - 1]
  {
    if entries == [] then map[]
    else RefMap(generation, entries[..|entries| - 1])[Ref(generation, |entries|) := entries[|entries| - 1]]
  }

  // ---------- what the log of a run shows ----------

  /** A snapshot was taken, and nothing has used, revoked or replaced it since. */
  predicate Armed(log: seq<Event>) {
    log != [] && log[|log| - 1].Scanned?
  }

  function LatestGeneration(log: seq<Event>): nat {
    if log == [] then 0
    else match log[|log| - 1] case Scanned(g) => g case _ => LatestGeneration(log[..|log| - 1])
  }

  /** Every admission directly follows the snapshot that issued its ref, and every snapshot starts a new generation. */
  predicate SingleUse(log: seq<Event>) {
    log == [] || (SingleUse(log[..|log| - 1]) && EventOk(log[..|log| - 1], log[|log| - 1]))
  }

  predicate EventOk(before: seq<Event>, e: Event) {
    match e
    case Scanned(g) => g > LatestGeneration(before)
    case Admitted(ref) => Armed(before) && ref.generation == LatestGeneration(before)
    case _ => true
  }

  lemma LogGrows(log: seq<Event>, e: Event)
    requires SingleUse(log) && EventOk(log, e)
    ensures SingleUse(log + [e])
    ensures LatestGeneration(log + [e]) == if e.Scanned? then e.generation else LatestGeneration(log)
  {
    assert (log + [e])[..|log|] == log;
  }

  lemma {:induction false} EventAt(log: seq<Event>, i: nat)
    requires SingleUse(log) && i < |log|
    ensures EventOk(log[..i], log[i])
  {
    var init := log[..|log| - 1];
    if i < |init| {
      EventAt(init, i);
      assert init[..i] == log[..i];
    }
  }

  /** Two admitted refs are separated by a snapshot. */
  lemma AdmissionsAreSeparated(log: seq<Event>, i: nat, j: nat)
    requires SingleUse(log) && i < j < |log| && log[i].Admitted? && log[j].Admitted?
    ensures i + 1 < j && log[j - 1].Scanned? && log[j].ref.generation > log[i].ref.generation
  {
    EventAt(log, i);
    EventAt(log, j);
    assert log[..j][j - 1] == log[j - 1];
    EventAt(log, j - 1);
    GenerationsGrow(log, i, j - 1);
    assert log[..j][..j - 1] == log[..j - 1];
  }

  lemma {:induction false} GenerationsGrow(log: seq<Event>, a: nat, b: nat)
    requires SingleUse(log) && a <= b <= |log|
    ensures LatestGeneration(log[..a]) <= LatestGeneration(log[..b])
    decreases b
  {
    if a < b {
      EventAt(log, b - 1);
      assert log[..b][..b - 1] == log[..b - 1];
      GenerationsGrow(log, a, b - 1);
    }
  }

  // ---------- the bridge ----------

  class Bridge {
    var sessionNonce: Option<string>
    var documentUrl: Option<string>
    var generation: nat
    var snapshotId: Option<SnapshotId>
    var refs: map<Ref, RefEntry>
    ghost var log: seq<Event>

    ghost predicate Valid() reads this {
      && SingleUse(log)
      && LatestGeneration(log) <= generation
      && (snapshotId.Some? ==> snapshotId.value.generation == generation && Armed(log) && LatestGeneration(log) == generation)
      && (forall r :: r in refs ==> r.generation == generation && snapshotId.Some?)
    }

    /** The command names the paired session; an empty nonce names none. */
    predicate InSession(nonce: string) reads this {
      sessionNonce == Some(nonce) && nonce != ""
    }

    constructor ()
      ensures Valid() && log == [] && sessionNonce == None && snapshotId == None
    {
      sessionNonce, documentUrl, generation, snapshotId, refs := None, None, 0, None, map[];
      log := [];
    }

    method Pair(nonce: string, href: string)
      requires Valid()
      modifies this
      ensures Valid() && log == old(log) + [Paired]
      ensures sessionNonce == Some(nonce) && documentUrl == Some(href) && refs == map[] && snapshotId == None
      ensures generation == old(generation)
    {
      sessionNonce := Some(nonce);
      documentUrl := Some(href);
      refs := map[];
      snapshotId := None;
      LogGrows(log, Paired);
      log := log + [Paired];
    }

    /** `semanticSnapshot`: a scanning loop that lists the first eligible candidates in document order. */
    method SemanticSnapshot(maxNodes: nat, candidates: seq<Element>, href: string, random: string) returns (s: Snapshot)
      requires Valid()
      modifies this
      ensures Valid() && generation == old(generation) + 1 && log == old(log) + [Scanned(generation)]
      ensures s.generation == generation && Some(s.id) == snapshotId == Some(SnapshotId(generation, random))
      ensures s.refs == Numbered(generation, Listed(candidates, maxNodes))
      ensures refs == RefMap(generation, Listed(candidates, maxNodes))
      ensures s.complete <==> |EligibleEntries(candidates)| < maxNodes && |candidates| <= CandidateLimit(maxNodes)
      ensures s.complete ==> s.refs == Numbered(generation, EligibleEntries(candidates))
      ensures documentUrl == Some(href) && sessionNonce == old(sessionNonce)
    {
      generation := generation + 1;
      snapshotId := Some(SnapshotId(generation, random));
      documentUrl := Some(href);
      LogGrows(log, Scanned(generation));
      log := log + [Scanned(generation)];
      refs := map[];
      var candidateLimit := CandidateLimit(maxNodes);
      var scanned := Min(|candidates|, candidateLimit);
      var listed := Scan(candidates[..scanned], maxNodes);
      if |candidates| <= candidateLimit {
        assert candidates[..scanned] == candidates;
        assert |listed| < maxNodes ==> FirstEligible(candidates, maxNodes) == EligibleEntries(candidates);
      }
      s := Snapshot(snapshotId.value, generation, |listed| < maxNodes && |candidates| <= candidateLimit, listed);
    }

    /** The loop: it stops at the end of the window or when the list is full. */
    method Scan(window: seq<Element>, maxNodes: nat) returns (listed: seq<(Ref, RefEntry)>)
      requires refs == map[]
      modifies this`refs
      ensures listed == Numbered(generation, FirstEligible(window, maxNodes))
      ensures refs == RefMap(generation, FirstEligible(window, maxNodes))
      ensures |listed| < maxNodes <==> |EligibleEntries(window)| < maxNodes
    {
      listed := [];
      ghost var entries: seq<RefEntry> := [];
      var index := 0;
      while index < |window| && |listed| < maxNodes
        invariant index <= |window| && |entries| <= maxNodes
        invariant entries == EligibleEntries(window[..index])
        invariant listed == Numbered(generation, entries) && refs == RefMap(generation, entries)
      {
        var element := window[index];
        assert window[..index + 1][..index] == window[..index];
        if element.actions != {} && element.visibility.Some? {
          var ref := Ref(generation, |listed| + 1);
          NumberedGrows(generation, entries, EntryOf(element));
          refs := refs[ref := EntryOf(element)];
          listed := listed + [(ref, EntryOf(element))];
          entries := entries + [EntryOf(element)];
        }
        index := index + 1;
      }
      ScanListsFirst(window, maxNodes, index, entries);
    }

    /** The `snapshot` command: only the paired session gets one. */
    method HandleSnapshot(nonce: string, maxNodes: nat, candidates: seq<Element>, href: string, random: string) returns (r: Result<Snapshot, Error>)
      requires Valid()
      modifies this
      ensures Valid()
      ensures r.Ok? <==> old(InSession(nonce))
      ensures r.Ok? ==> r.value.refs == Numbered(generation, Listed(candidates, maxNodes)) && log == old(log) + [Scanned(generation)]
      ensures r.Err? ==> unchanged(this) && r.error == PairingMismatch
    {
      if sessionNonce != Some(nonce) || nonce == "" { return Err(PairingMismatch); }
      var s := SemanticSnapshot(maxNodes, candidates, href, random);
      r := Ok(s);
    }

    /** The `click` and `type` commands reach `resolveRef` in the paired session only. */
    method HandleAction(nonce: string, ref: Ref, snapshot: SnapshotId, action: Action, href: string, now: nat -> Element) returns (r: Result<nat, Error>)
      requires Valid()
      modifies this
      ensures Valid()
      ensures r.Ok? <==> old(InSession(nonce) && Current(ref, snapshot, action, href, now))
      ensures r.Ok? ==> log == old(log) + [Admitted(ref)] && refs == map[] && snapshotId == None
      ensures r.Err? ==> unchanged(this)
    {
      if sessionNonce != Some(nonce) || nonce == "" { return Err(PairingMismatch); }
      r := ResolveRef(ref, snapshot, action, href, now);
    }

    /** `resolveRef` admits a ref iff it is current in every respect, and burns all refs; otherwise nothing changes. */
    method ResolveRef(ref: Ref, snapshot: SnapshotId, action: Action, href: string, now: nat -> Element) returns (r: Result<nat, Error>)
      requires Valid()
      modifies this
      ensures Valid()
      ensures r.Ok? <==> old(Current(ref, snapshot, action, href, now))
      ensures r.Ok? ==> old(refs)[ref].element == r.value && log == old(log) + [Admitted(ref)] && refs == map[] && snapshotId == None
      ensures r.Ok? ==> ref.generation == generation == old(generation)
      ensures r.Err? ==> unchanged(this) && r.error == StaleObservation
    {
      if documentUrl != Some(href) || Some(snapshot) != snapshotId { return Err(StaleObservation); }
      if ref !in refs { return Err(StaleObservation); }
      var entry := refs[ref];
      var element := now(entry.element);
      if || !element.connected || action !in entry.actions || action !in element.actions
         || element.visibility != Some(InViewport) || element.name != entry.name || element.role != entry.role {
        return Err(StaleObservation);
      }
      refs := map[];
      snapshotId := None;
      LogGrows(log, Admitted(ref));
      log := log + [Admitted(ref)];
      r := Ok(entry.element);
    }

    /** The ref belongs to the latest snapshot of this very document, and its element still is what it was. */
    predicate Current(ref: Ref, snapshot: SnapshotId, action: Action, href: string, now: nat -> Element) reads this {
      && documentUrl == Some(href) && snapshotId == Some(snapshot) && ref in refs
      && var entry := refs[ref]; var element := now(entry.element);
         element.connected && action in entry.actions && action in element.actions
         && element.visibility == Some(InViewport) && element.name == entry.name && element.role == entry.role
    }

    /** `prepare_navigation`: on current evidence, forget everything. */
    method PrepareNavigation(nonce: string, snapshot: SnapshotId, href: string) returns (r: Result<(), Error>)
      requires Valid()
      modifies this
      ensures Valid()
      ensures r.Ok? <==> old(InSession(nonce) && documentUrl == Some(href) && snapshotId == Some(snapshot))
      ensures r.Ok? ==> sessionNonce == None && documentUrl == None && snapshotId == None && refs == map[] && log == old(log) + [Invalidated]
      ensures r.Err? ==> unchanged(this)
      ensures r == Err(PairingMismatch) <==> !old(InSession(nonce))
    {
      if sessionNonce != Some(nonce) || nonce == "" { return Err(PairingMismatch); }
      if documentUrl != Some(href) || snapshotId != Some(snapshot) { return Err(StaleObservation); }
      sessionNonce, documentUrl, snapshotId, refs := None, None, None, map[];
      LogGrows(log, Invalidated);
      log := log + [Invalidated];
      r := Ok(());
    }
  }

  /**
     A ref of the latest snapshot is good for its element: if that is in the viewport and
     has not changed since, each of its actions is admitted, on that very element.
   */
  lemma ListedRefIsCurrent(b: Bridge, candidates: seq<Element>, maxNodes: nat, href: string, snapshot: SnapshotId, k: nat, action: Action,
                           now: nat -> Element) returns (e: Element)
    requires b.snapshotId == Some(snapshot) && b.documentUrl == Some(href)
    requires k < |Listed(candidates, maxNodes)| && b.refs == RefMap(b.generation, Listed(candidates, maxNodes))
    requires forall c :: c in candidates ==> now(c.id) == c
    ensures e in candidates && Listed(candidates, maxNodes)[k] == RefEntry(e.id, e.actions, e.name, e.role)
    ensures Ref(b.generation, k + 1) in b.refs && b.refs[Ref(b.generation, k + 1)].element == e.id
    ensures e.connected && e.visibility == Some(InViewport) && action in e.actions ==>
      b.Current(Ref(b.generation, k + 1), snapshot, action, href, now)
  {
    e := ListedElement(candidates, maxNodes, k);
    var ref := Ref(b.generation, k + 1);
    assert b.refs[ref] == RefEntry(e.id, e.actions, e.name, e.role);
  }

  /**
     And no ref is good for an element that has changed: one that the snapshot listed
     under another name or role, without the action, or that is gone or out of sight now.
   */
  lemma ChangedElementIsStale(b: Bridge, candidates: seq<Element>, maxNodes: nat, href: string, snapshot: SnapshotId, k: nat, action: Action,
                              now: nat -> Element) returns (e: Element)
    requires k < |Listed(candidates, maxNodes)| && b.refs == RefMap(b.generation, Listed(candidates, maxNodes))
    ensures e in candidates && Listed(candidates, maxNodes)[k] == RefEntry(e.id, e.actions, e.name, e.role)
    ensures b.Current(Ref(b.generation, k + 1), snapshot, action, href, now) ==>
      && now(e.id).name == e.name && now(e.id).role == e.role && now(e.id).connected
      && now(e.id).visibility == Some(InViewport) && action in e.actions && action in now(e.id).actions
      && b.documentUrl == Some(href) && b.snapshotId == Some(snapshot)
  {
    e := ListedElement(candidates, maxNodes, k);
    assert b.refs[Ref(b.generation, k + 1)] == RefEntry(e.id, e.actions, e.name, e.role);
  }

  /** The element behind an entry. */
  lemma ListedElement(candidates: seq<Element>, maxNodes: nat, k: nat) returns (e: Element)
    requires k < |Listed(candidates, maxNodes)|
    ensures e in candidates && Listed(candidates, maxNodes)[k] == RefEntry(e.id, e.actions, e.name, e.role)
  {
    var window := candidates[..Min(|candidates|, CandidateLimit(maxNodes))];
    var entry := Listed(candidates, maxNodes)[k];
    assert entry == EligibleEntries(window)[k];
    EligibleAreListed(window, entry);
    e :| e in window && e.actions != {} && e.visibility.Some? && entry == RefEntry(e.id, e.actions, e.name, e.role);
  }

  /** Never more refs than asked for, and never more candidates looked at than four times as many or 1200. */
  lemma ListedIsBounded(candidates: seq<Element>, maxNodes: nat)
    ensures |Listed(candidates, maxNodes)| <= maxNodes
    ensures CandidateLimit(maxNodes) <= 4 * maxNodes && CandidateLimit(maxNodes) <= 1200
    ensures |EligibleEntries(candidates)| <= maxNodes && |candidates| <= 4 * maxNodes && |candidates| <= 1200 ==>
      Listed(candidates, maxNodes) == EligibleEntries(candidates)
  {
    if |candidates| <= CandidateLimit(maxNodes) { assert candidates[..|candidates|] == candidates; }
  }

  lemma NumberedGrows(generation: nat, entries: seq<RefEntry>, e: RefEntry)
    ensures Numbered(generation, entries + [e]) == Numbered(generation, entries) + [(Ref(generation, |entries| + 1), e)]
    ensures RefMap(generation, entries + [e]) == RefMap(generation, entries)[Ref(generation, |entries| + 1) := e]
  {
    assert (entries + [e])[..|entries|] == entries;
  }

  /** Where the scan of a window stops, it has listed the first eligible ones. */
  lemma ScanListsFirst(window: seq<Element>, maxNodes: nat, index: nat, entries: seq<RefEntry>)
    requires index <= |window| && |entries| <= maxNodes
    requires entries == EligibleEntries(window[..index])
    requires index == |window| || |entries| == maxNodes
    ensures entries == FirstEligible(window, maxNodes)
    ensures |entries| < maxNodes ==> entries == EligibleEntries(window)
  {
    EligibleOfPrefix(window, index);
    if index == |window| { assert window[..index] == window; }
  }
}
