/**
 Model of `BrowserSession` in crates/dcc-cua-browser/src/lib.rs (lines 312-847):
 the evidence fence around mutations, and the continuation chain on top of it.

 `log` records, in order, everything that reaches the native backend or replaces
 the binding. `CallBrowserTool` is the only way to the backend: it demands that the
 evidence is burnt already, makes the entry of the call, and answers anything, or
 fails (`None`).
 Argument checks that look at the request alone arrive as `wellFormed`.
 */
module BrowserFence {
  import opened Common
  import opened BrowserEvidence

  datatype Tool = Click | TypeText | Pointer | SetInputFiles | Download

  datatype Outcome =
    | Failed
    | Refused
    | Published(page: Option<Page>)

  datatype Entry =
    | Authorized(target: string)
    | Invalidated
    | BindCall(response: Option<Json>)
    | SnapshotCall(target: string, tab: string, request: SnapshotRequest, response: Option<Json>, outcome: Outcome)
    | MutationCall(tool: Tool, target: string, tab: string, snapshotId: string)
    | PrepareCall
    | NavigateCall(target: string)
    | DialogCall(target: string)

  /** What is sent to the backend. A snapshot call knows what the session expects of the answer. */
  datatype Call =
    | CallBind
    | CallSnapshot(target: string, tab: string, request: SnapshotRequest, expectation: Option<Expectation>)
    | CallMutation(tool: Tool, target: string, tab: string, snapshotId: string)
    | CallPrepare
    | CallNavigate(target: string)
    | CallDialog(target: string)

  /** The entry a call makes, given its answer. */
  function Recorded(call: Call, response: Option<Json>): Entry {
    match call
    case CallBind => BindCall(response)
    case CallSnapshot(target, tab, request, expectation) =>
      SnapshotCall(target, tab, request, response, OutcomeOf(response, expectation))
    case CallMutation(tool, target, tab, snapshotId) => MutationCall(tool, target, tab, snapshotId)
    case CallPrepare => PrepareCall
    case CallNavigate(target) => NavigateCall(target)
    case CallDialog(target) => DialogCall(target)
  }

  // ---------- what the log says ----------

  /** The target, and whether mutation is allowed, after one more entry. */
  function Rebind(binding: (Option<string>, bool), e: Entry): (Option<string>, bool) {
    match e
    case Authorized(t) => (Some(t), true)
    case BindCall(Some(response)) => (match BindingOf(response) case Ok((t, exact)) => (Some(t), exact) case Err(_) => binding)
    case _ => binding
  }

  /** The binding the log leaves behind: the latest authorization or successful bind. */
  function LastBinding(log: seq<Entry>): (Option<string>, bool) {
    if log == [] then (None, false) else Rebind(LastBinding(log[..|log| - 1]), log[|log| - 1])
  }

  /** The entry is a snapshot of exactly this tab that published exactly this snapshot id. */
  predicate PublishedBy(e: Entry, target: string, tab: string, snapshotId: string) {
    && e.SnapshotCall? && e.target == target && e.tab == tab && e.outcome.Published?
    && e.response.Some? && IsRefusal(e.response.value) == Ok(false) && SnapshotId(e.response.value) == Some(snapshotId)
  }

  /** The entry is a tracked page with this continuation state. */
  predicate OffersContinuation(e: Entry, p: Pending) {
    && PublishedBy(e, p.targetId, p.tabId, p.snapshotId)
    && e.outcome.page == Some(Page(p.snapshotId, p.anchor, Some(p.token)))
  }

  /** Every mutation directly follows the snapshot it relies on, under an exact binding to its target. */
  predicate MutationFenced(before: seq<Entry>, e: Entry) {
    e.MutationCall? ==>
      && before != []
      && PublishedBy(before[|before| - 1], e.target, e.tab, e.snapshotId)
      && LastBinding(before) == (Some(e.target), true)
  }

  /** Navigation and dialogs need an exact binding, but no snapshot. */
  predicate TargetFenced(before: seq<Entry>, e: Entry) {
    && (e.NavigateCall? ==> LastBinding(before) == (Some(e.target), true))
    && (e.DialogCall? ==> LastBinding(before) == (Some(e.target), true))
    && (e.SnapshotCall? ==> LastBinding(before).0 == Some(e.target))
  }

  /** A page published for a continuation request, if tracked, continues the page directly before it. */
  predicate PageChained(before: seq<Entry>, e: Entry) {
    e.SnapshotCall? && e.outcome.Published? && e.request.continuation.Some? ==>
      && (e.response.Some? && HasDistantAnchor(e.response.value) ==> e.outcome.page.Some?)
      && (e.outcome.page.Some? ==>
            && before != [] && before[|before| - 1].SnapshotCall? && before[|before| - 1].outcome.Published?
            && before[|before| - 1].outcome.page.Some?
            && Continues(before[|before| - 1], e))
  }

  /** Same tab, same snapshot, same anchor; the pending token presented and then replaced. */
  predicate Continues(previous: Entry, e: Entry)
    requires previous.SnapshotCall? && previous.outcome.Published? && previous.outcome.page.Some?
    requires e.SnapshotCall? && e.outcome.Published? && e.outcome.page.Some?
  {
    var p, q := previous.outcome.page.value, e.outcome.page.value;
    && e.target == previous.target && e.tab == previous.tab
    && q.snapshotId == p.snapshotId && q.anchor == p.anchor
    && e.request.continuation == p.continuation && q.continuation != p.continuation
  }

  /** A snapshot published for an ancestor role is a tracked page, anchored above the requested element in that role. */
  predicate AncestorFenced(e: Entry) {
    e.SnapshotCall? && e.outcome.Published? && e.request.ancestorRole.Some? ==>
      && e.outcome.page.Some? && e.request.scopeRef.Some? && e.response.Some?
      && e.request.query.Some? && e.request.continuation.None? && 0 < |e.request.ancestorRole.value| <= 128
      && AnchoredFor(e, At(e.response.value, "structuredContent"), e.outcome.page.value.anchor)
  }

  predicate AnchoredFor(e: Entry, s: Json, anchor: Json)
    requires e.SnapshotCall? && e.request.ancestorRole.Some? && e.request.scopeRef.Some?
  {
    && HasField(s, "target_id", JStr(e.target)) && HasField(s, "tab_id", JStr(e.tab))
    && HasField(At(s, "snapshot"), "scope_anchor", anchor)
    && HasField(anchor, "requested_ref", JStr(e.request.scopeRef.value))
    && HasField(anchor, "role", JStr(AsciiLower(e.request.ancestorRole.value)))
    && "distance" in anchor.fields && anchor.fields["distance"].JNum? && anchor.fields["distance"].number > 0
  }

  /** Every entry obeys the fences, given what precedes it. */
  predicate Fenced(log: seq<Entry>) {
    log == [] || (Fenced(log[..|log| - 1]) && EntryFenced(log[..|log| - 1], log[|log| - 1]))
  }

  predicate EntryFenced(before: seq<Entry>, e: Entry) {
    MutationFenced(before, e) && TargetFenced(before, e) && PageChained(before, e) && AncestorFenced(e)
  }

  lemma FencedGrows(log: seq<Entry>, e: Entry)
    requires Fenced(log) && EntryFenced(log, e)
    ensures Fenced(log + [e])
  {
    assert (log + [e])[..|log|] == log;
  }

  lemma {:induction false} FencedAt(log: seq<Entry>, i: nat)
    requires Fenced(log) && i < |log|
    ensures EntryFenced(log[..i], log[i])
  {
    var init := log[..|log| - 1];
    if i < |init| {
      FencedAt(init, i);
      assert init[..i] == log[..i];
    }
  }

  lemma BindingAfter(log: seq<Entry>, e: Entry)
    ensures LastBinding(log + [e]) == Rebind(LastBinding(log), e)
  {
    assert (log + [e])[..|log|] == log;
  }

  /** A call that the fences permit whatever the answer, with an answer they permit, keeps the log fenced. */
  lemma CallIsFenced(log: seq<Entry>, call: Call, response: Option<Json>)
    requires Fenced(log) && EntryFenced(log, Recorded(call, None))
    requires call.CallSnapshot? ==> PageChained(log, Recorded(call, response)) && AncestorFenced(Recorded(call, response))
    ensures Fenced(log + [Recorded(call, response)])
    ensures LastBinding(log + [Recorded(call, response)]) == Rebind(LastBinding(log), Recorded(call, response))
  {
    FencedGrows(log, Recorded(call, response));
    BindingAfter(log, Recorded(call, response));
  }

  // ---------- results over whole runs ----------

  /**
     Whenever a mutation reaches the backend, the entry before it is the successful
     snapshot that published exactly its target, tab and snapshot id, and the latest
     binding is an exact, mutation-allowed one to that target.
   */
  lemma EvidenceFence(log: seq<Entry>, i: nat)
    requires Fenced(log) && i < |log| && log[i].MutationCall?
    ensures i > 0 && PublishedBy(log[i - 1], log[i].target, log[i].tab, log[i].snapshotId)
    ensures LastBinding(log[..i]) == (Some(log[i].target), true)
  {
    FencedAt(log, i);
    assert log[..i][i - 1] == log[i - 1];
  }

  /** Two mutations never rely on the same snapshot: one has been taken between them. */
  lemma EvidenceIsSingleUse(log: seq<Entry>, i: nat, j: nat)
    requires Fenced(log) && i < j < |log| && log[i].MutationCall? && log[j].MutationCall?
    ensures i + 1 < j && log[j - 1].SnapshotCall?
  {
    EvidenceFence(log, j);
  }

  predicate IsTracked(e: Entry) {
    e.SnapshotCall? && e.outcome.Published? && e.outcome.page.Some?
  }

  predicate SamePage(a: Entry, b: Entry)
    requires IsTracked(a) && IsTracked(b)
  {
    a.outcome.page.value.snapshotId == b.outcome.page.value.snapshotId && a.outcome.page.value.anchor == b.outcome.page.value.anchor
  }

  predicate ContinuesAt(log: seq<Entry>, k: int) {
    0 < k < |log| && IsTracked(log[k - 1]) && IsTracked(log[k]) && Continues(log[k - 1], log[k])
  }

  // ---------- bindings and evidence in terms of the responses themselves ----------

  /** The structured content of a response, if it is an object. */
  predicate HasContent(response: Option<Json>, s: Json) {
    response.Some? && HasField(response.value, "structuredContent", s) && s.JObj?
  }

  predicate HasRefusalObject(s: Json) {
    s.JObj? && "refusal" in s.fields && s.fields["refusal"].JObj?
  }

  /** The entry is an authorization of the target, or a bind whose response names it, calls the binding exact, and allows mutation. */
  predicate Permits(e: Entry, target: string) {
    || e == Authorized(target)
    || (e.BindCall? && e.response.Some? && e.response.value.JObj? && "structuredContent" in e.response.value.fields
        && var s := e.response.value.fields["structuredContent"];
           && HasContent(e.response, s) && target != "" && HasField(s, "target_id", JStr(target))
           && HasField(s, "binding_quality", JStr("exact")) && HasField(s, "mutation_allowed", JBool(true))
           && !HasRefusalObject(s))
  }

  /** The entry replaces the binding: an authorization, or a bind whose response names a target and has no refusal object. */
  predicate Rebinds(e: Entry) {
    || e.Authorized?
    || (e.BindCall? && e.response.Some? && e.response.value.JObj? && "structuredContent" in e.response.value.fields
        && var s := e.response.value.fields["structuredContent"];
           HasContent(e.response, s) && !HasRefusalObject(s)
           && "target_id" in s.fields && s.fields["target_id"].JStr? && s.fields["target_id"].text != "")
  }

  /** What one entry does to the binding. */
  lemma RebindIsRaw(binding: (Option<string>, bool), e: Entry)
    ensures !Rebinds(e) ==> Rebind(binding, e) == binding
    ensures Rebinds(e) ==> Rebind(binding, e).0.Some?
    ensures Rebinds(e) ==> (Rebind(binding, e).1 <==> Permits(e, Rebind(binding, e).0.value))
    ensures Rebinds(e) && e.BindCall? ==>
      HasField(e.response.value.fields["structuredContent"], "target_id", JStr(Rebind(binding, e).0.value))
  {}

  /** A bind that replaces the binding allows mutation of its target exactly if both of its fields say so. */
  lemma BindPermitsIffBothFields(e: Entry, target: string)
    requires e.BindCall? && Rebinds(e) && Rebind((None, false), e).0 == Some(target)
    ensures var s := e.response.value.fields["structuredContent"];
      Permits(e, target) <==> HasField(s, "binding_quality", JStr("exact")) && HasField(s, "mutation_allowed", JBool(true))
  {
    RebindIsRaw((None, false), e);
  }

  /** Where an exact binding comes from: the last entry that rebinds permits mutation of its target. */
  lemma {:induction false} BindingIsEarned(log: seq<Entry>, target: string) returns (j: nat)
    requires LastBinding(log) == (Some(target), true)
    ensures j < |log| && Permits(log[j], target)
    ensures forall k :: j < k < |log| ==> !Rebinds(log[k])
  {
    var init, last := log[..|log| - 1], log[|log| - 1];
    RebindIsRaw(LastBinding(init), last);
    if Rebinds(last) {
      j := |log| - 1;
    } else {
      j := BindingIsEarned(init, target);
    }
  }

  /**
     Before every mutation, navigation and dialog that reaches the backend there is an
     authorization of its target, or the response of a bind call that allows mutation
     of it, and nothing in between replaced that binding.
   */
  lemma CallsArePermitted(log: seq<Entry>, i: nat) returns (j: nat)
    requires Fenced(log) && i < |log|
    requires log[i].MutationCall? || log[i].NavigateCall? || log[i].DialogCall?
    ensures j < i && Permits(log[j], log[i].target)
    ensures forall k :: j < k < i ==> !Rebinds(log[k])
  {
    FencedAt(log, i);
    j := BindingIsEarned(log[..i], log[i].target);
    assert log[..i][j] == log[j];
    assert forall k :: j < k < i ==> log[..i][k] == log[k];
  }

  /** A response that publishes a snapshot: not a refusal in either form, and with this snapshot id. */
  predicate Publishes(response: Option<Json>, snapshotId: string) {
    && response.Some? && response.value.JObj? && "structuredContent" in response.value.fields
    && var s := response.value.fields["structuredContent"];
       && s.JObj? && !HasField(s, "status", JStr("refused"))
       && ("refusal" in s.fields ==> s.fields["refusal"] == JNull)
       && (HasField(s, "snapshot_id", JStr(snapshotId))
           || ("snapshot" in s.fields && HasField(s.fields["snapshot"], "id", JStr(snapshotId))))
  }

  /** The evidence of a mutation is in the response directly before it. */
  lemma EvidenceIsInResponse(log: seq<Entry>, i: nat)
    requires Fenced(log) && i < |log| && log[i].MutationCall?
    ensures i > 0 && log[i - 1].SnapshotCall? && log[i - 1].target == log[i].target && log[i - 1].tab == log[i].tab
    ensures Publishes(log[i - 1].response, log[i].snapshotId)
  {
    EvidenceFence(log, i);
  }

  /**
     The pages of a chain: every tracked page reached by a continuation goes back,
     page by page without any other call in between, to one that was not, and all
     share its snapshot id and anchor.
   */
  lemma {:induction false} ChainSharesAnchor(log: seq<Entry>, i: nat) returns (start: nat)
    requires Fenced(log) && i < |log| && IsTracked(log[i])
    ensures start <= i && IsTracked(log[start]) && log[start].request.continuation.None?
    ensures forall k :: start <= k <= i ==> IsTracked(log[k]) && SamePage(log[start], log[k])
    ensures forall k :: start < k <= i ==> ContinuesAt(log, k)
  {
    FencedAt(log, i);
    if log[i].request.continuation.None? {
      start := i;
    } else {
      assert log[..i][i - 1] == log[i - 1];
      start := ChainSharesAnchor(log, i - 1);
    }
  }

  /** A continuation page with a distant anchor is only ever published for the token of the page directly before it. */
  lemma DistantPagesPresentTheToken(log: seq<Entry>, i: nat)
    requires Fenced(log) && i < |log| && log[i].SnapshotCall? && log[i].outcome.Published?
    requires log[i].request.continuation.Some? && log[i].response.Some? && HasDistantAnchor(log[i].response.value)
    ensures i > 0 && IsTracked(log[i]) && IsTracked(log[i - 1])
    ensures log[i].request.continuation == log[i - 1].outcome.page.value.continuation
  {
    FencedAt(log, i);
    assert log[..i][i - 1] == log[i - 1];
  }

  // ---------- the session ----------

  class BrowserSession {
    var targetId: Option<string>
    var mutationAllowed: bool
    var latestSnapshotId: Option<string>
    var latestTabId: Option<string>
    var pending: Option<Pending>
    ghost var log: seq<Entry>

    /** The fields say what the log says; in particular the evidence is that of the last entry. */
    ghost predicate Valid() reads this {
      && Fenced(log)
      && (targetId, mutationAllowed) == LastBinding(log)
      && (latestSnapshotId.Some? ==>
            targetId.Some? && latestTabId.Some? && log != []
            && PublishedBy(log[|log| - 1], targetId.value, latestTabId.value, latestSnapshotId.value))
      && (pending.Some? ==>
            && targetId == Some(pending.value.targetId) && latestTabId == Some(pending.value.tabId)
            && latestSnapshotId == Some(pending.value.snapshotId)
            && log != [] && OffersContinuation(log[|log| - 1], pending.value))
    }

    /** The evidence a mutation would rely on. */
    predicate Evidence(target: string, tab: string, snapshotId: string) reads this {
      && targetId == Some(target) && mutationAllowed
      && latestTabId == Some(tab) && latestSnapshotId == Some(snapshotId)
    }

    constructor ()
      ensures Valid() && log == [] && targetId == None && latestSnapshotId == None && pending == None
    {
      targetId, mutationAllowed, latestSnapshotId, latestTabId, pending := None, false, None, None, None;
      log := [];
    }

    predicate Burnt() reads this {
      latestSnapshotId.None? && latestTabId.None? && pending.None?
    }

    method ClearSnapshot()
      modifies this`latestSnapshotId, this`latestTabId, this`pending
      ensures Burnt()
    {
      latestSnapshotId, latestTabId, pending := None, None, None;
    }

    /** The native call. No evidence survives to the moment it is made, and the fences permit it. */
    method CallBrowserTool(ghost call: Call) returns (response: Option<Json>)
      requires Burnt() && EntryFenced(log, Recorded(call, None))
      modifies this`log
      ensures log == old(log) + [Recorded(call, response)]
    {
      response := *;
      log := log + [Recorded(call, response)];
    }

    /** `begin_snapshot_sensitive_native_attempt` and the call it is for: the evidence goes first, and is gone whatever comes back. */
    method NativeAttempt(ghost call: Call) returns (r: Result<Json, Error>)
      requires Valid() && !call.CallBind? && !call.CallSnapshot? && EntryFenced(log, Recorded(call, None))
      modifies this
      ensures Valid() && Burnt() && log == old(log) + [Recorded(call, None)]
      ensures targetId == old(targetId) && mutationAllowed == old(mutationAllowed)
    {
      ClearSnapshot();
      var response := CallBrowserTool(call);
      CallIsFenced(old(log), call, response);
      r := if response.None? then Err(BackendUnavailable) else Ok(response.value);
    }

    method InvalidateSnapshot()
      requires Valid()
      modifies this
      ensures Valid() && log == old(log) + [Invalidated]
      ensures Burnt()
      ensures targetId == old(targetId) && mutationAllowed == old(mutationAllowed)
    {
      ClearSnapshot();
      FencedGrows(log, Invalidated);
      BindingAfter(log, Invalidated);
      log := log + [Invalidated];
    }

    /** Refused without any change when the target is malformed or another one is bound. */
    method BindAuthorizedExactTarget(target: string, wellFormed: bool) returns (r: Result<(), Error>)
      requires Valid()
      modifies this
      ensures Valid()
      ensures r.Ok? <==> wellFormed && (old(targetId).None? || old(targetId) == Some(target))
      ensures r.Ok? ==> log == old(log) + [Authorized(target)] && targetId == Some(target) && mutationAllowed
      ensures r.Ok? ==> Burnt()
      ensures r.Err? ==> unchanged(this)
    {
      if !wellFormed { return Err(InvalidRequest); }
      if targetId.Some? && targetId != Some(target) { return Err(StaleObservation); }
      targetId := Some(target);
      mutationAllowed := true;
      ClearSnapshot();
      FencedGrows(log, Authorized(target));
      BindingAfter(log, Authorized(target));
      log := log + [Authorized(target)];
      r := Ok(());
    }

    /** `require_mutation_target`. */
    method RequireMutationTarget(target: string, tab: string, snapshotId: string) returns (r: Result<(), Error>)
      ensures r.Ok? <==> Evidence(target, tab, snapshotId)
    {
      if targetId != Some(target) { return Err(StaleObservation); }
      if !mutationAllowed { return Err(BrowserRefused); }
      if latestSnapshotId.None? || latestTabId != Some(tab) { return Err(StaleObservation); }
      if latestSnapshotId != Some(snapshotId) { return Err(StaleObservation); }
      r := Ok(());
    }

    /**
       `click`, `type_text`, `pointer`, `set_input_files` and `download`. The request is
       dispatched iff it presents the current evidence and is well formed, with the
       evidence burnt before the call; otherwise nothing changes and nothing is called.
     */
    method Mutate(tool: Tool, target: string, tab: string, snapshotId: string, wellFormed: bool) returns (r: Result<Json, Error>)
      requires Valid()
      modifies this
      ensures Valid()
      ensures if old(Evidence(target, tab, snapshotId)) && wellFormed
              then log == old(log) + [MutationCall(tool, target, tab, snapshotId)]
                   && Burnt()
                   && targetId == old(targetId) && mutationAllowed == old(mutationAllowed)
              else unchanged(this) && r.Err?
    {
      var fence := RequireMutationTarget(target, tab, snapshotId);
      if fence.Err? { return Err(fence.error); }
      if !wellFormed { return Err(InvalidRequest); }
      r := NativeAttempt(CallMutation(tool, target, tab, snapshotId));
    }

    /** `prepare`: needs nothing, and still burns the evidence. */
    method Prepare(wellFormed: bool) returns (r: Result<Json, Error>)
      requires Valid()
      modifies this
      ensures Valid()
      ensures if wellFormed then log == old(log) + [PrepareCall] && Burnt()
              else unchanged(this) && r.Err?
    {
      if !wellFormed { return Err(InvalidRequest); }
      r := NativeAttempt(CallPrepare);
    }

    /** `navigate` and `dialog`: an exact binding, but no snapshot evidence. */
    method NavigateOrDialog(dialog: bool, target: string, wellFormed: bool) returns (r: Result<Json, Error>)
      requires Valid()
      modifies this
      ensures Valid()
      ensures if old(targetId) == Some(target) && old(mutationAllowed) && wellFormed
              then log == old(log) + [if dialog then DialogCall(target) else NavigateCall(target)]
                   && Burnt()
              else unchanged(this) && r.Err?
    {
      if targetId != Some(target) { return Err(StaleObservation); }
      if !mutationAllowed { return Err(BrowserRefused); }
      if !wellFormed { return Err(InvalidRequest); }
      r := NativeAttempt(if dialog then CallDialog(target) else CallNavigate(target));
    }

    /** Format, arguments, pending continuation and binding allow the request. */
    predicate Dispatchable(request: SnapshotRequest) reads this {
      && request.format in {"dom_refs_v1", "semantic_v2"} && RequestOk(request) && ExpectationFor(pending, request).Ok?
      && if request.targetId.None? then request.tabId.None?
         else targetId == request.targetId && request.tabId.Some? && !IsBlank(request.tabId.value)
    }

    /** `snapshot`. A request is dispatched, as one call, iff it is allowed; otherwise nothing changes. */
    method Snapshot(request: SnapshotRequest) returns (r: Result<Json, Error>)
      requires Valid()
      modifies this
      ensures Valid()
      ensures old(Dispatchable(request)) ==> |log| == |old(log)| + 1 && old(log) <= log
      ensures !old(Dispatchable(request)) ==> unchanged(this) && r.Err?
      ensures old(Dispatchable(request)) && request.targetId.None? ==> log[|old(log)|].BindCall?
      ensures old(Dispatchable(request)) && request.targetId.Some? ==>
        TookSnapshot(log[|old(log)|], request.targetId.value, request.tabId.value, request, ExpectationFor(old(pending), request).value)
    {
      if request.format != "dom_refs_v1" && request.format != "semantic_v2" { return Err(InvalidRequest); }
      if !RequestOk(request) { return Err(InvalidRequest); }
      var expectation := ExpectationFor(pending, request);
      if expectation.Err? { return Err(expectation.error); }
      if request.targetId.None? {
        if request.tabId.Some? { return Err(InvalidRequest); }
        assert expectation.value.None?;
        r := Bind(expectation.value);
      } else {
        if targetId != request.targetId { return Err(StaleObservation); }
        if request.tabId.None? || IsBlank(request.tabId.value) { return Err(InvalidRequest); }
        r := SnapshotTab(request, request.targetId.value, request.tabId.value, expectation.value);
      }
    }

    /** The bind branch of `snapshot`, with `store_binding`. It never has an expectation to fail. */
    method Bind(expectation: Option<Expectation>) returns (r: Result<Json, Error>)
      requires Valid() && expectation.None?
      modifies this
      ensures Valid() && |log| == |old(log)| + 1 && old(log) <= log && log[|old(log)|].BindCall?
      ensures Burnt()
      ensures r.Ok? <==> log[|old(log)|].response.Some? && BindingOf(log[|old(log)|].response.value).Ok?
      ensures r.Err? ==> targetId == old(targetId) && mutationAllowed == old(mutationAllowed)
      ensures r.Ok? <==> Rebinds(log[|old(log)|])
      ensures r.Ok? ==> targetId.Some? && (mutationAllowed <==> Permits(log[|old(log)|], targetId.value))
    {
      ClearSnapshot();
      var response := CallBrowserTool(CallBind);
      CallIsFenced(old(log), CallBind, response);
      if response.None? { return Err(BackendUnavailable); }
      assert ValidateScope(response.value, expectation) == Ok(None);
      var binding := BindingOf(response.value);
      if binding.Err? { return Err(binding.error); }
      targetId, mutationAllowed := Some(binding.value.0), binding.value.1;
      ClearSnapshot();
      r := Ok(response.value);
    }

    /**
       The backend was asked, the entry says what came of it, and the session's
       evidence is that of the entry: none unless it was published.
     */
    predicate TookSnapshot(e: Entry, target: string, tab: string, request: SnapshotRequest, expectation: Option<Expectation>)
      reads this
    {
      && e.SnapshotCall? && e.target == target && e.tab == tab && e.request == request
      && e.outcome == OutcomeOf(e.response, expectation)
      && (latestTabId, latestSnapshotId) == (if e.outcome.Published? then (Some(tab), SnapshotId(e.response.value)) else (None, None))
      && pending == if IsTracked(e) then NextPending(target, tab, e.outcome.page.value) else None
    }

    /** The call for a snapshot of a tab. Whatever comes back, the log stays fenced. */
    method AskForSnapshot(request: SnapshotRequest, target: string, tab: string, expectation: Option<Expectation>) returns (response: Option<Json>)
      requires Valid() && targetId == Some(target)
      requires request.targetId == Some(target) && request.tabId == Some(tab)
      requires RequestOk(request) && ExpectationFor(pending, request) == Ok(expectation)
      modifies this
      ensures Valid() && Burnt() && targetId == old(targetId) && mutationAllowed == old(mutationAllowed)
      ensures log == old(log) + [SnapshotCall(target, tab, request, response, OutcomeOf(response, expectation))]
    {
      ghost var call := CallSnapshot(target, tab, request, expectation);
      ClearSnapshot();
      response := CallBrowserTool(call);
      SnapshotIsFenced(old(log), old(pending), call, response);
    }

    /** The evidence of a published snapshot, which is the last entry. */
    method AdoptSnapshot(value: Json, page: Option<Page>, target: string, tab: string)
      requires Valid() && Burnt() && targetId == Some(target)
      requires log != [] && PublishesPage(log[|log| - 1], value, page, target, tab)
      modifies this`latestSnapshotId, this`latestTabId, this`pending
      ensures Valid() && latestSnapshotId == SnapshotId(value) && latestTabId == Some(tab)
      ensures pending == if page.Some? then NextPending(target, tab, page.value) else None
    {
      latestSnapshotId := if page.Some? then Some(page.value.snapshotId) else SnapshotId(value);
      latestTabId := Some(tab);
      pending := if page.Some? && page.value.continuation.Some?
        then Some(Pending(page.value.continuation.value, target, tab, page.value.snapshotId, page.value.anchor)) else None;
    }

    /** The tab branch of `snapshot`. */
    method SnapshotTab(request: SnapshotRequest, target: string, tab: string, expectation: Option<Expectation>) returns (r: Result<Json, Error>)
      requires Valid() && targetId == Some(target)
      requires request.targetId == Some(target) && request.tabId == Some(tab)
      requires RequestOk(request) && ExpectationFor(pending, request) == Ok(expectation)
      modifies this
      ensures Valid() && targetId == old(targetId) && mutationAllowed == old(mutationAllowed)
      ensures |log| == |old(log)| + 1 && old(log) <= log
      ensures TookSnapshot(log[|old(log)|], target, tab, request, expectation)
      ensures r.Ok? <==> !log[|old(log)|].outcome.Failed?
      ensures r.Ok? ==> log[|old(log)|].response == Some(r.value)
    {
      var response := AskForSnapshot(request, target, tab, expectation);
      if response.None? { return Err(BackendUnavailable); }
      var value := response.value;
      var refusal := IsRefusal(value);
      if refusal.Err? { return Err(refusal.error); }
      if refusal.value { return Ok(value); }
      var validated := ValidateScope(value, expectation);
      if validated.Err? { return Err(validated.error); }
      if validated.value.Some? { ValidatedPage(value, expectation); }
      AdoptSnapshot(value, validated.value, target, tab);
      r := Ok(value);
    }
  }

  /** Whatever the answer to a snapshot call, its entry obeys the fences. */
  lemma SnapshotIsFenced(log: seq<Entry>, pending: Option<Pending>, call: Call, response: Option<Json>)
    requires Fenced(log) && call.CallSnapshot? && EntryFenced(log, Recorded(call, None))
    requires call.request.targetId == Some(call.target) && call.request.tabId == Some(call.tab) && RequestOk(call.request)
    requires ExpectationFor(pending, call.request) == Ok(call.expectation)
    requires pending.Some? ==> log != [] && OffersContinuation(log[|log| - 1], pending.value)
    ensures Fenced(log + [Recorded(call, response)])
    ensures LastBinding(log + [Recorded(call, response)]) == LastBinding(log)
  {
    if Recorded(call, response).outcome.Published? {
      PublishedPageIsChained(log, pending, call.expectation, Recorded(call, response));
    }
    CallIsFenced(log, call, response);
  }

  /** A refusal is no error, and everything else must pass the scope check to be published. */
  function OutcomeOf(response: Option<Json>, expectation: Option<Expectation>): (outcome: Outcome)
    ensures outcome.Published? ==> response.Some? && IsRefusal(response.value) == Ok(false)
  {
    if response.None? then Failed
    else match IsRefusal(response.value)
      case Err(_) => Failed
      case Ok(true) => Refused
      case Ok(false) => match ValidateScope(response.value, expectation) case Ok(page) => Published(page) case Err(_) => Failed
  }

  predicate PublishesPage(e: Entry, value: Json, page: Option<Page>, target: string, tab: string) {
    && e.SnapshotCall? && e.target == target && e.tab == tab
    && e.response == Some(value) && e.outcome == Published(page) && IsRefusal(value) == Ok(false)
    && (page.Some? ==> SnapshotId(value) == Some(page.value.snapshotId))
  }

  function NextPending(target: string, tab: string, page: Page): Option<Pending> {
    if page.continuation.None? then None
    else Some(Pending(page.continuation.value, target, tab, page.snapshotId, page.anchor))
  }

  predicate IsBlank(s: string) {
    forall i :: 0 <= i < |s| ==> s[i] in {' ', '\t', '\n', '\r'}
  }

  /** A page validated against the session's expectation continues the page the session was waiting to continue. */
  lemma PublishedPageIsChained(before: seq<Entry>, pending: Option<Pending>, expectation: Option<Expectation>, e: Entry)
    requires e.SnapshotCall? && e.outcome.Published? && e.response.Some?
    requires e.request.targetId == Some(e.target) && e.request.tabId == Some(e.tab) && RequestOk(e.request)
    requires ExpectationFor(pending, e.request) == Ok(expectation)
    requires ValidateScope(e.response.value, expectation) == Ok(e.outcome.page)
    requires pending.Some? ==> before != [] && OffersContinuation(before[|before| - 1], pending.value)
    ensures PageChained(before, e) && AncestorFenced(e)
    ensures e.outcome.page.Some? ==> SnapshotId(e.response.value) == Some(e.outcome.page.value.snapshotId)
  {
    if e.outcome.page.Some? { ValidatedPage(e.response.value, expectation); }
    if e.request.continuation.Some? && HasDistantAnchor(e.response.value) && expectation.Some? {
      DistantAnchorIsTracked(e.response.value, expectation);
    }
  }
}
