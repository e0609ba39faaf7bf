/**
 The values `BrowserSession` in crates/dcc-cua-browser/src/lib.rs works on: JSON
 responses, snapshot requests, and the two pure checks `ancestor_scope_expectation`
 and `validate_ancestor_scope_response` (lines 789-838 and 1048-1259).
 */
module BrowserEvidence {
  import opened Common

  // ---------- JSON ----------

  datatype Json = JNull | JBool(flag: bool) | JNum(number: int) | JStr(text: string) | JArr(items: seq<Json>) | JObj(fields: map<string, Json>)

  /** `value["key"]`: null when there is no such field. */
  function At(v: Json, key: string): Json {
    if v.JObj? && key in v.fields then v.fields[key] else JNull
  }

  function AsStr(v: Json): Option<string> {
    if v.JStr? then Some(v.text) else None
  }

  function AsU64(v: Json): Option<nat> {
    if v.JNum? && 0 <= v.number < 0x1_0000_0000_0000_0000 then Some(v.number) else None
  }

  datatype Error = InvalidRequest | StaleObservation | BackendUnavailable | BrowserRefused

  function Structured(value: Json): Result<Json, Error> {
    var s := At(value, "structuredContent");
    if s.JObj? then Ok(s) else Err(BackendUnavailable)
  }

  /** `browser_snapshot_id`. */
  function SnapshotId(value: Json): Option<string> {
    var s := At(value, "structuredContent");
    if AsStr(At(s, "snapshot_id")).Some? then AsStr(At(s, "snapshot_id")) else AsStr(At(At(s, "snapshot"), "id"))
  }

  /** `browser_result_is_structured_refusal`. */
  function IsRefusal(value: Json): Result<bool, Error> {
    match Structured(value)
    case Err(e) => Err(e)
    case Ok(s) => Ok(At(s, "status") == JStr("refused") || At(s, "refusal") != JNull)
  }

  /** The binding a response to a bind call establishes (`store_binding`): its target, and whether mutation is allowed. */
  function BindingOf(value: Json): Result<(string, bool), Error> {
    match Structured(value)
    case Err(e) => Err(e)
    case Ok(s) =>
      if At(s, "refusal").JObj? then Err(BrowserRefused)
      else match AsStr(At(s, "target_id"))
        case None => Err(InvalidRequest)
        case Some(t) =>
          if t == "" then Err(InvalidRequest)
          else Ok((t, At(s, "binding_quality") == JStr("exact") && At(s, "mutation_allowed") == JBool(true)))
  }

  // ---------- snapshot requests ----------

  datatype SnapshotRequest = SnapshotRequest(
    targetId: Option<string>, tabId: Option<string>, format: string, scopeRef: Option<string>,
    ancestorRole: Option<string>, query: Option<string>, continuation: Option<string>)

  predicate IsAsciiLetter(c: char) { 'a' <= c <= 'z' || 'A' <= c <= 'Z' }

  predicate RoleOk(role: string) {
    && 0 < |role| <= 128 && IsAsciiLetter(role[0])
    && forall i :: 0 <= i < |role| ==> IsAsciiLetter(role[i]) || '0' <= role[i] <= '9' || role[i] == '_' || role[i] == '-'
  }

  function AsciiLower(s: string): string {
    seq(|s|, (i: int) requires 0 <= i < |s| =>
      if 'A' <= s[i] <= 'Z' then (s[i] as int - 'A' as int + 'a' as int) as char else s[i])
  }

  predicate Present(s: Option<string>) { s.Some? && s.value != "" }

  /** `validate_ancestor_scope_request`. */
  predicate RequestOk(r: SnapshotRequest) {
    r.ancestorRole.Some? ==>
      && r.format == "semantic_v2" && Present(r.targetId) && Present(r.tabId)
      && Present(r.scopeRef) && r.query.Some? && r.continuation.None?
      && RoleOk(r.ancestorRole.value)
  }

  /** A continuation the session may accept next. */
  datatype Pending = Pending(token: string, targetId: string, tabId: string, snapshotId: string, anchor: Json)

  datatype Expectation =
    | Initial(requestedRef: string, role: string, targetId: string, tabId: string)
    | Continuation(pending: Pending)
    | Untracked(targetId: string, tabId: string)

  function OrEmpty(s: Option<string>): string { if s.Some? then s.value else "" }

  /** `ancestor_scope_expectation`. */
  function ExpectationFor(pending: Option<Pending>, r: SnapshotRequest): Result<Option<Expectation>, Error> {
    if r.ancestorRole.Some? then
      Ok(Some(Initial(OrEmpty(r.scopeRef), AsciiLower(r.ancestorRole.value), OrEmpty(r.targetId), OrEmpty(r.tabId))))
    else if r.continuation.None? then Ok(None)
    else if pending.None? then
      Ok(if r.targetId.Some? && r.tabId.Some? then Some(Untracked(r.targetId.value, r.tabId.value)) else None)
    else
      var p := pending.value;
      if r.continuation == Some(p.token) && r.targetId == Some(p.targetId) && r.tabId == Some(p.tabId) then
        if r.format != "semantic_v2" || r.scopeRef.Some? || r.query.Some? then Err(InvalidRequest)
        else Ok(Some(Continuation(p)))
      else Err(StaleObservation)
  }

  // ---------- ancestor-scoped responses ----------

  /** A validated ancestor-scoped page. */
  datatype Page = Page(snapshotId: string, anchor: Json, continuation: Option<string>)

  function ExpectedTarget(e: Expectation): string {
    match e case Initial(_, _, t, _) => t case Continuation(p) => p.targetId case Untracked(t, _) => t
  }

  function ExpectedTab(e: Expectation): string {
    match e case Initial(_, _, _, t) => t case Continuation(p) => p.tabId case Untracked(_, t) => t
  }

  /** The page's anchor, if it is ancestor-scoped with a positive distance. */
  predicate HasDistantAnchor(value: Json) {
    var d := AsU64(At(At(At(At(value, "structuredContent"), "snapshot"), "scope_anchor"), "distance"));
    d.Some? && d.value > 0
  }

  /** `validate_ancestor_scope_response`. */
  function ValidateScope(value: Json, expected: Option<Expectation>): Result<Option<Page>, Error> {
    if expected.None? then Ok(None)
    else match Structured(value)
      case Err(e) => Err(e)
      case Ok(s) =>
        var snapshot := At(s, "snapshot");
        if At(s, "status") != JStr("ok") || At(s, "refusal") != JNull || !snapshot.JObj? then Err(BackendUnavailable)
        else if || AsStr(At(s, "target_id")) != Some(ExpectedTarget(expected.value))
                || AsStr(At(s, "tab_id")) != Some(ExpectedTab(expected.value))
                || AsStr(At(snapshot, "format")) != Some("semantic_v2") then Err(BackendUnavailable)
        else match AsStr(At(snapshot, "id"))
          case None => Err(BackendUnavailable)
          case Some(id) =>
            if id == "" then Err(BackendUnavailable)
            else if At(s, "snapshot_id") != JNull && At(s, "snapshot_id") != JStr(id) then Err(BackendUnavailable)
            else if expected.value.Untracked? then ValidateUntracked(snapshot)
            else ValidateTracked(snapshot, id, expected.value)
  }

  function ValidateUntracked(snapshot: Json): Result<Option<Page>, Error>
    requires snapshot.JObj?
  {
    if AsStr(At(snapshot, "scope")) != Some("continuation") then Err(BackendUnavailable)
    else if "scope_anchor" !in snapshot.fields then Err(BackendUnavailable)
    else if snapshot.fields["scope_anchor"] == JNull then Ok(None)
    else match AsU64(At(snapshot.fields["scope_anchor"], "distance"))
      case Some(d) => if d == 0 then Ok(None) else Err(StaleObservation)
      case None => Err(BackendUnavailable)
  }

  predicate ScopeEvidence(snapshot: Json, id: string, expected: Expectation)
    requires !expected.Untracked?
  {
    var anchor := At(snapshot, "scope_anchor");
    match expected
    case Initial(requestedRef, role, _, _) =>
      && AsStr(At(snapshot, "scope")) == Some("ancestor_subtree")
      && AsStr(At(anchor, "requested_ref")) == Some(requestedRef)
      && AsStr(At(anchor, "role")) == Some(role)
      && AsStr(At(anchor, "frame")) in {Some("main"), Some("iframe"), Some("oopif")}
      && AsU64(At(anchor, "distance")).Some? && AsU64(At(anchor, "distance")).value > 0
    case Continuation(p) =>
      AsStr(At(snapshot, "scope")) == Some("continuation") && id == p.snapshotId && anchor == p.anchor
  }

  function ValidateTracked(snapshot: Json, id: string, expected: Expectation): Result<Option<Page>, Error>
    requires snapshot.JObj? && !expected.Untracked?
  {
    var anchor := At(snapshot, "scope_anchor");
    var token := At(snapshot, "continuation");
    if !anchor.JObj? || !ScopeEvidence(snapshot, id, expected) then Err(BackendUnavailable)
    else if token != JNull && (!token.JStr? || token.text == "") then Err(BackendUnavailable)
    else if expected.Continuation? && AsStr(token) == Some(expected.pending.token) then Err(BackendUnavailable)
    else if token != JNull && At(snapshot, "complete") != JBool(false) then Err(BackendUnavailable)
    else Ok(Some(Page(id, anchor, AsStr(token))))
  }

  // ---------- what the checks guarantee ----------

  /** A validated page carries the expected target and tab, and its ids agree. */
  lemma ValidatedPage(value: Json, expected: Option<Expectation>)
    requires ValidateScope(value, expected).Ok? && ValidateScope(value, expected).value.Some?
    ensures expected.Some? && !expected.value.Untracked?
    ensures var page := ValidateScope(value, expected).value.value;
      && SnapshotId(value) == Some(page.snapshotId)
      && AsStr(At(At(value, "structuredContent"), "target_id")) == Some(ExpectedTarget(expected.value))
      && AsStr(At(At(value, "structuredContent"), "tab_id")) == Some(ExpectedTab(expected.value))
      && page.anchor == At(At(At(value, "structuredContent"), "snapshot"), "scope_anchor")
      && (page.continuation.Some? ==> page.continuation.value != "")
    ensures var page := ValidateScope(value, expected).value.value;
      expected.value.Continuation? ==>
        && page.snapshotId == expected.value.pending.snapshotId && page.anchor == expected.value.pending.anchor
        && page.continuation != Some(expected.value.pending.token)
    ensures expected.value.Initial? ==> HasDistantAnchor(value)
  {}

  /** Letters lose their case, and nothing else changes. */
  lemma LowerKeepsText(s: string, i: nat)
    requires i < |s|
    ensures |AsciiLower(s)| == |s| && !('A' <= AsciiLower(s)[i] <= 'Z')
    ensures if 'A' <= s[i] <= 'Z' then AsciiLower(s)[i] as int == s[i] as int + 32 else AsciiLower(s)[i] == s[i]
  {}

  predicate HasField(v: Json, key: string, value: Json) {
    v.JObj? && key in v.fields && v.fields[key] == value
  }

  /** The response tells of this page: success, the expected target and tab, one id, and a token only if there is more to come. */
  predicate TellsPage(s: Json, expected: Expectation, page: Page) {
    && HasField(s, "status", JStr("ok")) && At(s, "refusal") == JNull
    && HasField(s, "target_id", JStr(ExpectedTarget(expected))) && HasField(s, "tab_id", JStr(ExpectedTab(expected)))
    && (At(s, "snapshot_id") == JNull || HasField(s, "snapshot_id", JStr(page.snapshotId)))
    && page.snapshotId != "" && page.anchor.JObj?
    && var snapshot := At(s, "snapshot");
    && HasField(snapshot, "format", JStr("semantic_v2")) && HasField(snapshot, "id", JStr(page.snapshotId))
    && HasField(snapshot, "scope_anchor", page.anchor)
    && match page.continuation
       case None => At(snapshot, "continuation") == JNull
       case Some(token) => token != "" && HasField(snapshot, "continuation", JStr(token)) && HasField(snapshot, "complete", JBool(false))
  }

  /** The page is the one asked for: a first page above the requested element, or the next one of the pending snapshot. */
  predicate TellsScope(snapshot: Json, expected: Expectation, page: Page) {
    match expected
    case Initial(requestedRef, role, _, _) =>
      && HasField(snapshot, "scope", JStr("ancestor_subtree"))
      && HasField(page.anchor, "requested_ref", JStr(requestedRef)) && HasField(page.anchor, "role", JStr(role))
      && (HasField(page.anchor, "frame", JStr("main")) || HasField(page.anchor, "frame", JStr("iframe")) || HasField(page.anchor, "frame", JStr("oopif")))
      && "distance" in page.anchor.fields && AsU64(page.anchor.fields["distance"]).Some? && page.anchor.fields["distance"] != JNum(0)
    case Continuation(p) =>
      && HasField(snapshot, "scope", JStr("continuation")) && page.snapshotId == p.snapshotId && page.anchor == p.anchor
      && page.continuation != Some(p.token)
    case Untracked(_, _) => false
  }

  /** A page is validated if and only if the raw response tells of it. */
  lemma ValidationIsExact(value: Json, expected: Expectation, page: Page)
    ensures ValidateScope(value, Some(expected)) == Ok(Some(page)) <==>
      var s := At(value, "structuredContent");
      TellsPage(s, expected, page) && TellsScope(At(s, "snapshot"), expected, page)
  {}

  /** A continuation the session does not track passes exactly if it is a successful page of the tab without a distant anchor, and it is never tracked. */
  lemma UntrackedIsExact(value: Json, target: string, tab: string)
    ensures ValidateScope(value, Some(Untracked(target, tab))).Ok? <==>
      var s := At(value, "structuredContent"); var snapshot := At(s, "snapshot");
      && HasField(s, "status", JStr("ok")) && At(s, "refusal") == JNull
      && HasField(s, "target_id", JStr(target)) && HasField(s, "tab_id", JStr(tab))
      && HasField(snapshot, "format", JStr("semantic_v2")) && HasField(snapshot, "scope", JStr("continuation"))
      && (exists id: string :: id != "" && HasField(snapshot, "id", JStr(id)) && At(s, "snapshot_id") in {JNull, JStr(id)})
      && "scope_anchor" in snapshot.fields
      && (snapshot.fields["scope_anchor"] == JNull || HasField(snapshot.fields["scope_anchor"], "distance", JNum(0)))
    ensures ValidateScope(value, Some(Untracked(target, tab))).Ok? ==> ValidateScope(value, Some(Untracked(target, tab))).value == None
  {
    var snapshot := At(At(value, "structuredContent"), "snapshot");
    if AsStr(At(snapshot, "id")).Some? { assert HasField(snapshot, "id", JStr(At(snapshot, "id").text)); }
  }

  /** The id of a snapshot is the field beside it, and the one inside it only where that is no text. */
  lemma IdBesideSnapshot(value: Json, id: string)
    ensures SnapshotId(value) == Some(id) <==>
      var s := At(value, "structuredContent");
      if At(s, "snapshot_id").JStr? then HasField(s, "snapshot_id", JStr(id)) else HasField(At(s, "snapshot"), "id", JStr(id))
  {}

  /** A session that waits for a continuation takes the next request for it only if it is a plain one with the pending token, for the same tab. */
  lemma ContinuationIsPlain(pending: Option<Pending>, r: SnapshotRequest, p: Pending)
    ensures ExpectationFor(pending, r) == Ok(Some(Continuation(p))) <==>
      && pending == Some(p) && r.continuation == Some(p.token) && r.targetId == Some(p.targetId) && r.tabId == Some(p.tabId)
      && r.ancestorRole == None && r.format == "semantic_v2" && r.scopeRef == None && r.query == None
  {}

  /** A page with a distant anchor passes an expectation only as a tracked page. */
  lemma DistantAnchorIsTracked(value: Json, expected: Option<Expectation>)
    requires expected.Some? && ValidateScope(value, expected).Ok? && HasDistantAnchor(value)
    ensures ValidateScope(value, expected).value.Some?
  {}

  /** A request without a target is never given an expectation: the error for one in the bind branch is unreachable. */
  lemma BindHasNoExpectation(pending: Option<Pending>, r: SnapshotRequest)
    requires RequestOk(r) && r.targetId.None?
    requires ExpectationFor(pending, r).Ok?
    ensures ExpectationFor(pending, r).value.None?
  {}
}
