/**
 Model of `navigatePairedTab` in browser-extension/chrome/navigation.ts (lines
 19-66): one admitted navigation attempt, as ordered effects with checks between
 them. Every operation, the two synchronous ones included, may answer anything or
 throw any code.

 `Operations` plays a list of answers and logs the calls. The specification is a
 table of fifteen steps, with what each answer means at each step; the function is
 proved to follow it, and the promises are proved about it for every list of answers.
 */
module Navigation {
  import opened Common

  /** `None` is an error without a code. */
  type Code = Option<string>

  const CANCELLED: Code := Some("navigation_cancelled")
  const EXPIRED: Code := Some("command_expired")
  const TARGET_REFUSED: Code := Some("navigation_target_refused")
  const NOT_FOREGROUND: Code := Some("target_not_foreground")
  const PAIRING_REQUIRED: Code := Some("navigation_pairing_required")
  const OUTCOME_UNKNOWN: Code := Some("navigation_outcome_unknown")

  datatype Url = Url(href: string, protocol: string, username: string, password: string, origin: string)

  /** `url` is `None` when the requested text does not parse. */
  datatype Request = Request(url: Option<Url>, tabId: int, sessionNonce: string, deadline: int)

  datatype Pairing = Pairing(tabId: int, sessionNonce: string, origin: string)

  datatype Outcome = Dispatched | Failed(code: Code)

  datatype Operation =
    | IsCurrent
    | Now
    | RequirePairing
    | Foreground
    | InvalidateDocument
    | RevokePairing
    | UpdateTab(tabId: int, href: string)

  /** A predicate answers with its flag, the clock with its time; the others just return. */
  datatype Answer = Throws(code: Code) | Returns(flag: bool, time: int)

  datatype Event = Event(operation: Operation, answer: Answer)

  type Answers = nat -> Answer

  /** The operations of one attempt: the n-th call gets the n-th answer. */
  class Operations {
    const answers: Answers
    var trace: seq<Event>

    constructor (answers: Answers)
      ensures this.answers == answers && trace == []
    {
      this.answers := answers;
      trace := [];
    }

    method Call(operation: Operation) returns (answer: Answer)
      modifies this
      ensures answer == answers(|old(trace)|) && trace == old(trace) + [Event(operation, answer)]
    {
      answer := answers(|trace|);
      trace := trace + [Event(operation, answer)];
    }
  }

  // ---------- specification ----------

  /** The request is for the paired tab, in its session, to a plain web address of its origin. */
  predicate TargetAllowed(request: Request, pairing: Pairing) {
    && request.url.Some?
    && request.url.value.protocol in {"http:", "https:"} && request.url.value.username == "" && request.url.value.password == ""
    && request.url.value.origin == pairing.origin
    && request.tabId == pairing.tabId && request.sessionNonce == pairing.sessionNonce
  }

  const STEPS := 15
  /** The target is looked at before this step. */
  const TARGET_CHECK := 2
  const INVALIDATION := 6
  const UPDATE := 12

  /** The order of the effects. */
  function Step(i: nat, request: Request, pairing: Pairing): Operation
    requires i < STEPS
  {
    match i
    case 0 => IsCurrent
    case 1 => Now
    case 2 => RequirePairing
    case 3 => Foreground
    case 4 => IsCurrent
    case 5 => Now
    case 6 => InvalidateDocument
    case 7 => IsCurrent
    case 8 => Now
    case 9 => RevokePairing
    case 10 => IsCurrent
    case 11 => Now
    case 12 => UpdateTab(pairing.tabId, if request.url.Some? then request.url.value.href else "")
    case 13 => IsCurrent
    case _ => Now
  }

  /** The answer lets the attempt go on. */
  predicate Passes(operation: Operation, answer: Answer, deadline: int) {
    && answer.Returns?
    && (operation.IsCurrent? || operation.Foreground? ==> answer.flag)
    && (operation.Now? ==> answer.time < deadline)
  }

  /**
     The code reported for an answer that does not: up to the invalidation the
     operation's own, then first one and later another that cover everything, except
     that an error thrown by the last check escapes.
   */
  function FailureCode(i: nat, operation: Operation, answer: Answer): Code {
    if INVALIDATION < i < UPDATE then PAIRING_REQUIRED
    else if answer.Throws? && i != UPDATE then answer.code
    else if i >= UPDATE then OUTCOME_UNKNOWN
    else if operation.IsCurrent? then CANCELLED
    else if operation.Now? then EXPIRED
    else NOT_FOREGROUND
  }

  /** The calls made from step `i` on, and how the attempt ends. */
  function Attempt(answers: Answers, request: Request, pairing: Pairing, i: nat): (seq<Event>, Outcome)
    requires i <= STEPS
    decreases STEPS - i
  {
    if i == STEPS then ([], Dispatched)
    else if i == TARGET_CHECK && !TargetAllowed(request, pairing)
    then ([], Failed(if request.url.None? then None else TARGET_REFUSED))
    else
      var operation := Step(i, request, pairing);
      var event := Event(operation, answers(i));
      if !Passes(operation, answers(i), request.deadline) then ([event], Failed(FailureCode(i, operation, answers(i))))
      else var (rest, outcome) := Attempt(answers, request, pairing, i + 1); ([event] + rest, outcome)
  }

  predicate StepPasses(answers: Answers, request: Request, pairing: Pairing, i: nat)
    requires i < STEPS
  {
    Passes(Step(i, request, pairing), answers(i), request.deadline)
  }

  predicate PassesUntil(answers: Answers, request: Request, pairing: Pairing, n: nat)
    requires n <= STEPS
  {
    forall i: nat :: i < n ==> StepPasses(answers, request, pairing, i)
  }

  function Calls(answers: Answers, request: Request, pairing: Pairing, from: nat, to: nat): seq<Event>
    requires from <= to <= STEPS
  {
    seq(to - from, (k: nat) requires k < to - from => Event(Step(from + k, request, pairing), answers(from + k)))
  }

  /** The attempt ends at step `n`: after the last step, at the refusal of the target, or at a call that does not pass. */
  predicate Stops(answers: Answers, request: Request, pairing: Pairing, n: nat)
    requires n <= STEPS
  {
    n == STEPS || (n == TARGET_CHECK && !TargetAllowed(request, pairing)) || !StepPasses(answers, request, pairing, n)
  }

  /** The calls made from step `i` on and the outcome, if the attempt ends at step `n`. */
  function Ending(answers: Answers, request: Request, pairing: Pairing, i: nat, n: nat): (seq<Event>, Outcome)
    requires i <= n <= STEPS
  {
    if n == STEPS then (Calls(answers, request, pairing, i, n), Dispatched)
    else if n == TARGET_CHECK && !TargetAllowed(request, pairing)
    then (Calls(answers, request, pairing, i, n), Failed(if request.url.None? then None else TARGET_REFUSED))
    else (Calls(answers, request, pairing, i, n + 1), Failed(FailureCode(n, Step(n, request, pairing), answers(n))))
  }

  lemma EndingGrows(answers: Answers, request: Request, pairing: Pairing, i: nat, n: nat)
    requires i < n <= STEPS
    ensures Ending(answers, request, pairing, i, n) ==
      ([Event(Step(i, request, pairing), answers(i))] + Ending(answers, request, pairing, i + 1, n).0, Ending(answers, request, pairing, i + 1, n).1)
  {
    CallsGrow(answers, request, pairing, i, n);
    if n < STEPS { CallsGrow(answers, request, pairing, i, n + 1); }
  }

  lemma CallsGrow(answers: Answers, request: Request, pairing: Pairing, i: nat, to: nat)
    requires i < to <= STEPS
    ensures Calls(answers, request, pairing, i, to) == [Event(Step(i, request, pairing), answers(i))] + Calls(answers, request, pairing, i + 1, to)
  {
    var calls, rest := Calls(answers, request, pairing, i, to), Calls(answers, request, pairing, i + 1, to);
    assert calls[0] == Event(Step(i + 0, request, pairing), answers(i + 0));
    forall k: nat | k < to - i - 1 ensures calls[k + 1] == rest[k] {
      assert calls[k + 1] == Event(Step(i + (k + 1), request, pairing), answers(i + (k + 1)));
      assert i + (k + 1) == i + 1 + k;
    }
  }

  lemma EndsHere(answers: Answers, request: Request, pairing: Pairing, i: nat)
    requires i <= STEPS && Stops(answers, request, pairing, i)
    ensures Attempt(answers, request, pairing, i) == Ending(answers, request, pairing, i, i)
  {
    assert Calls(answers, request, pairing, i, i) == [];
    assert i < STEPS ==> Calls(answers, request, pairing, i, i + 1) == [Event(Step(i, request, pairing), answers(i))];
  }

  /** Every attempt passes some steps and then ends. */
  lemma {:induction false} Shape(answers: Answers, request: Request, pairing: Pairing, i: nat) returns (n: nat)
    requires i <= STEPS
    ensures i <= n <= STEPS && forall j: nat :: i <= j < n ==> StepPasses(answers, request, pairing, j)
    ensures i <= TARGET_CHECK < n ==> TargetAllowed(request, pairing)
    ensures Stops(answers, request, pairing, n)
    ensures Attempt(answers, request, pairing, i) == Ending(answers, request, pairing, i, n)
    decreases STEPS - i
  {
    if Stops(answers, request, pairing, i) {
      n := i;
      EndsHere(answers, request, pairing, i);
    } else {
      n := Shape(answers, request, pairing, i + 1);
      EndingGrows(answers, request, pairing, i, n);
    }
  }

  // ---------- the promises ----------

  predicate Updated(trace: seq<Event>) {
    exists i :: 0 <= i < |trace| && trace[i].operation.UpdateTab?
  }

  /** Only the thirteenth call updates the tab. */
  lemma UpdateAmongCalls(answers: Answers, request: Request, pairing: Pairing, m: nat)
    requires m <= STEPS
    ensures var calls := Calls(answers, request, pairing, 0, m);
      forall i :: 0 <= i < |calls| ==> (calls[i].operation.UpdateTab? <==> i == UPDATE)
    ensures Updated(Calls(answers, request, pairing, 0, m)) <==> m > UPDATE
  {
    var calls := Calls(answers, request, pairing, 0, m);
    forall i: nat | i < m ensures calls[i].operation == Step(i, request, pairing) {
      assert calls[i] == Event(Step(0 + i, request, pairing), answers(0 + i));
    }
    assert m > UPDATE ==> calls[UPDATE].operation.UpdateTab?;
  }

  /**
     The tab is updated at most once, as the thirteenth call, with the paired tab and
     the requested address; and that happens exactly when the target is allowed and
     the twelve calls before it, the invalidation and the revocation among them, pass.
   */
  lemma UpdateIsAdmitted(answers: Answers, request: Request, pairing: Pairing)
    ensures var trace := Attempt(answers, request, pairing, 0).0;
      forall i :: 0 <= i < |trace| && trace[i].operation.UpdateTab? ==>
        i == UPDATE && request.url.Some? && trace[i].operation == UpdateTab(pairing.tabId, request.url.value.href)
    ensures Updated(Attempt(answers, request, pairing, 0).0) <==>
      TargetAllowed(request, pairing) && PassesUntil(answers, request, pairing, UPDATE)
    ensures Updated(Attempt(answers, request, pairing, 0).0) ==>
      request.url.Some? && request.url.value.origin == pairing.origin
      && request.tabId == pairing.tabId && request.sessionNonce == pairing.sessionNonce
    ensures Updated(Attempt(answers, request, pairing, 0).0) ==>
      request.url.value.protocol in {"http:", "https:"} && request.url.value.username == request.url.value.password == ""
  {
    var n := Shape(answers, request, pairing, 0);
    AdmittedAt(answers, request, pairing, n);
  }

  lemma AdmittedAt(answers: Answers, request: Request, pairing: Pairing, n: nat)
    requires n <= STEPS && Stops(answers, request, pairing, n)
    requires TARGET_CHECK < n ==> TargetAllowed(request, pairing)
    requires forall j: nat :: j < n ==> StepPasses(answers, request, pairing, j)
    ensures var trace := Ending(answers, request, pairing, 0, n).0;
      forall i :: 0 <= i < |trace| && trace[i].operation.UpdateTab? ==>
        i == UPDATE && request.url.Some? && trace[i].operation == UpdateTab(pairing.tabId, request.url.value.href)
    ensures Updated(Ending(answers, request, pairing, 0, n).0) <==>
      TargetAllowed(request, pairing) && PassesUntil(answers, request, pairing, UPDATE)
  {
    var trace := Ending(answers, request, pairing, 0, n).0;
    UpdateAmongCalls(answers, request, pairing, |trace|);
    assert |trace| > UPDATE ==> trace[UPDATE] == Event(Step(UPDATE, request, pairing), answers(UPDATE));
    assert n < UPDATE && PassesUntil(answers, request, pairing, UPDATE) ==> StepPasses(answers, request, pairing, n);
  }

  /** The i-th call is this operation, and it returned. */
  predicate Did(trace: seq<Event>, i: int, operation: Operation) {
    0 <= i < |trace| && trace[i].operation == operation && trace[i].answer.Returns?
  }

  predicate WasTrue(trace: seq<Event>, i: int, operation: Operation) {
    Did(trace, i, operation) && trace[i].answer.flag
  }

  predicate WasInTime(trace: seq<Event>, i: int, deadline: int) {
    Did(trace, i, Now) && trace[i].answer.time < deadline
  }

  /** Before call `j` the pairing was required and the tab was in the foreground. */
  ghost predicate PairedAndVisible(trace: seq<Event>, j: int) {
    exists a, b :: a < j && b < j && Did(trace, a, RequirePairing) && WasTrue(trace, b, Foreground)
  }

  /** Between the calls `k` and `i` the attempt was found current, and in time. */
  ghost predicate CurrentBetween(trace: seq<Event>, k: int, i: int, deadline: int) {
    exists a, b :: k < a < i && k < b < i && WasTrue(trace, a, IsCurrent) && WasInTime(trace, b, deadline)
  }

  /**
     Before call `i`, and in this order: pairing and foreground, the invalidation of the
     document, the revocation of the pairing, and a check that the attempt is current
     and in time.
   */
  ghost predicate RevokedBefore(trace: seq<Event>, i: int, deadline: int) {
    exists j, k :: j < k < i && Did(trace, j, InvalidateDocument) && Did(trace, k, RevokePairing)
      && PairedAndVisible(trace, j) && CurrentBetween(trace, k, i, deadline)
  }

  /** The calls of an attempt that passed `n` steps, one by one. */
  lemma CallAt(answers: Answers, request: Request, pairing: Pairing, n: nat, i: nat)
    requires n <= STEPS && i < |Ending(answers, request, pairing, 0, n).0|
    ensures Ending(answers, request, pairing, 0, n).0[i] == Event(Step(i, request, pairing), answers(i))
  {}

  /** No update without a revocation before it, whatever the table of steps: by the names of the operations alone. */
  lemma UpdateIsRevoked(answers: Answers, request: Request, pairing: Pairing, i: nat)
    requires i < |Attempt(answers, request, pairing, 0).0| && Attempt(answers, request, pairing, 0).0[i].operation.UpdateTab?
    ensures RevokedBefore(Attempt(answers, request, pairing, 0).0, i, request.deadline)
  {
    var n := Shape(answers, request, pairing, 0);
    PassedCalls(answers, request, pairing, n, i);
  }

  lemma PassedCalls(answers: Answers, request: Request, pairing: Pairing, n: nat, i: nat)
    requires n <= STEPS && forall j: nat :: j < n ==> StepPasses(answers, request, pairing, j)
    requires var trace := Ending(answers, request, pairing, 0, n).0; i < |trace| && trace[i].operation.UpdateTab?
    ensures RevokedBefore(Ending(answers, request, pairing, 0, n).0, i, request.deadline)
  {
    var trace := Ending(answers, request, pairing, 0, n).0;
    UpdateAmongCalls(answers, request, pairing, |trace|);
    forall k: nat | k < i ensures trace[k] == Event(Step(k, request, pairing), answers(k)) && StepPasses(answers, request, pairing, k) {
      CallAt(answers, request, pairing, n, k);
    }
    assert Did(trace, 2, RequirePairing) && WasTrue(trace, 3, Foreground);
    assert Did(trace, INVALIDATION, InvalidateDocument) && Did(trace, 9, RevokePairing);
    assert WasTrue(trace, 10, IsCurrent) && WasInTime(trace, 11, request.deadline);
    assert PairedAndVisible(trace, INVALIDATION) && CurrentBetween(trace, 9, i, request.deadline);
  }

  /** A dispatch is reported only after an update that returned and, after that, a check that the attempt is still current and in time. */
  lemma DispatchIsChecked(answers: Answers, request: Request, pairing: Pairing) returns (i: nat)
    requires Attempt(answers, request, pairing, 0).1 == Dispatched
    ensures var trace := Attempt(answers, request, pairing, 0).0;
      request.url.Some? && Did(trace, i, UpdateTab(pairing.tabId, request.url.value.href)) && CurrentBetween(trace, i, |trace|, request.deadline)
  {
    var n := Shape(answers, request, pairing, 0);
    assert n == STEPS;
    LastCheck(answers, request, pairing);
    i := UPDATE;
  }

  lemma LastCheck(answers: Answers, request: Request, pairing: Pairing)
    requires TargetAllowed(request, pairing) && PassesUntil(answers, request, pairing, STEPS)
    ensures var trace := Ending(answers, request, pairing, 0, STEPS).0;
      && |trace| == STEPS && Did(trace, UPDATE, UpdateTab(pairing.tabId, request.url.value.href))
      && CurrentBetween(trace, UPDATE, STEPS, request.deadline)
  {
    var trace := Ending(answers, request, pairing, 0, STEPS).0;
    CallAt(answers, request, pairing, STEPS, 12);
    CallAt(answers, request, pairing, STEPS, 13);
    CallAt(answers, request, pairing, STEPS, 14);
    assert StepPasses(answers, request, pairing, 12) && StepPasses(answers, request, pairing, 13) && StepPasses(answers, request, pairing, 14);
    assert WasTrue(trace, 13, IsCurrent);
    assert WasInTime(trace, 14, request.deadline);
  }

  /** An operation of this kind was called. */
  predicate Called(trace: seq<Event>, operation: Operation) {
    exists i :: 0 <= i < |trace| && trace[i].operation == operation
  }

  /**
     How far a failed attempt got, by its code, unless the last call threw it: before
     the invalidation of the document, after it but without an update, or with one.
   */
  lemma FailureTellsHowFar(answers: Answers, request: Request, pairing: Pairing)
    ensures var (trace, outcome) := Attempt(answers, request, pairing, 0);
      outcome.Failed? && (trace != [] ==> trace[|trace| - 1].answer.Returns?) ==>
        && (outcome.code in {None, CANCELLED, EXPIRED, TARGET_REFUSED, NOT_FOREGROUND} <==> !Called(trace, InvalidateDocument))
        && (outcome.code == PAIRING_REQUIRED <==> Called(trace, InvalidateDocument) && !Updated(trace))
        && (outcome.code == OUTCOME_UNKNOWN <==> Updated(trace))
  {
    var n := Shape(answers, request, pairing, 0);
    FailureAt(answers, request, pairing, n);
  }

  lemma FailureAt(answers: Answers, request: Request, pairing: Pairing, n: nat)
    requires n <= STEPS && Stops(answers, request, pairing, n)
    requires forall j: nat :: j < n ==> StepPasses(answers, request, pairing, j)
    ensures var (trace, outcome) := Ending(answers, request, pairing, 0, n);
      outcome.Failed? && (trace != [] ==> trace[|trace| - 1].answer.Returns?) ==>
        && (outcome.code in {None, CANCELLED, EXPIRED, TARGET_REFUSED, NOT_FOREGROUND} <==> !Called(trace, InvalidateDocument))
        && (outcome.code == PAIRING_REQUIRED <==> Called(trace, InvalidateDocument) && !Updated(trace))
        && (outcome.code == OUTCOME_UNKNOWN <==> Updated(trace))
  {
    var trace := Ending(answers, request, pairing, 0, n).0;
    UpdateAmongCalls(answers, request, pairing, |trace|);
    forall k: nat | k < |trace| ensures trace[k] == Event(Step(k, request, pairing), answers(k)) {
      CallAt(answers, request, pairing, n, k);
    }
    InvalidationAmongCalls(trace, request, pairing);
    CodesDiffer();
  }

  /**
     The code a failed attempt reports, by its last call: a check up to the invalidation
     that does not hold has a code of its own, an operation up to there that throws
     passes its code on, and then one code and later another cover everything, but for
     an error thrown by the check after the update.
   */
  predicate NamesItsCause(trace: seq<Event>, code: Code, request: Request) {
    trace != [] ==>
      var last := trace[|trace| - 1];
      if Updated(trace) then
        code == if last.answer.Throws? && !last.operation.UpdateTab? then last.answer.code else Some("navigation_outcome_unknown")
      else if Called(trace, InvalidateDocument) && last.operation != InvalidateDocument then code == Some("navigation_pairing_required")
      else if last.answer.Throws? then code == last.answer.code
      else match last.operation
        case IsCurrent => code == Some("navigation_cancelled")
        case Foreground => code == Some("target_not_foreground")
        case Now => code == if last.answer.time >= request.deadline then Some("command_expired")
                            else if request.url.None? then None else Some("navigation_target_refused")
        case _ => false
  }

  lemma FailureNamesItsCause(answers: Answers, request: Request, pairing: Pairing)
    ensures var (trace, outcome) := Attempt(answers, request, pairing, 0);
      outcome.Failed? ==> NamesItsCause(trace, outcome.code, request)
  {
    var n := Shape(answers, request, pairing, 0);
    CauseAt(answers, request, pairing, n);
  }

  lemma CauseAt(answers: Answers, request: Request, pairing: Pairing, n: nat)
    requires n <= STEPS && Stops(answers, request, pairing, n)
    requires forall j: nat :: j < n ==> StepPasses(answers, request, pairing, j)
    ensures var (trace, outcome) := Ending(answers, request, pairing, 0, n);
      outcome.Failed? ==> NamesItsCause(trace, outcome.code, request)
  {
    var trace := Ending(answers, request, pairing, 0, n).0;
    UpdateAmongCalls(answers, request, pairing, |trace|);
    forall k: nat | k < |trace| ensures trace[k] == Event(Step(k, request, pairing), answers(k)) {
      CallAt(answers, request, pairing, n, k);
    }
    InvalidationAmongCalls(trace, request, pairing);
    assert n == TARGET_CHECK ==> StepPasses(answers, request, pairing, 1);
  }

  lemma InvalidationAmongCalls(trace: seq<Event>, request: Request, pairing: Pairing)
    requires |trace| <= STEPS && forall k: nat :: k < |trace| ==> trace[k].operation == Step(k, request, pairing)
    ensures Called(trace, InvalidateDocument) <==> |trace| > INVALIDATION
  {
    assert |trace| > INVALIDATION ==> trace[INVALIDATION].operation == InvalidateDocument;
  }

  /** A dispatch is reported exactly when the target is allowed and all fifteen calls pass, the checks after the update included. */
  lemma DispatchedIsConfirmed(answers: Answers, request: Request, pairing: Pairing)
    ensures Attempt(answers, request, pairing, 0).1 == Dispatched <==>
      TargetAllowed(request, pairing) && PassesUntil(answers, request, pairing, STEPS)
  {
    var n := Shape(answers, request, pairing, 0);
    if n < STEPS && PassesUntil(answers, request, pairing, STEPS) {
      assert StepPasses(answers, request, pairing, n);
    }
  }

  /**
     The last call threw, and its code misleads: the code of an unknown outcome thrown
     before anything was revoked, or another code thrown by the check after the update.
   */
  predicate Misleads(trace: seq<Event>) {
    && trace != [] && trace[|trace| - 1].answer.Throws?
    && var code := trace[|trace| - 1].answer.code;
       (|trace| <= INVALIDATION + 1 && code == OUTCOME_UNKNOWN) || (|trace| > UPDATE + 1 && code != OUTCOME_UNKNOWN)
  }

  /** No other code of this module reads like the one of an unknown outcome. */
  lemma CodesDiffer()
    ensures OUTCOME_UNKNOWN !in {None, CANCELLED, EXPIRED, TARGET_REFUSED, NOT_FOREGROUND, PAIRING_REQUIRED}
    ensures PAIRING_REQUIRED !in {None, CANCELLED, EXPIRED, TARGET_REFUSED, NOT_FOREGROUND}
  {
    assert |OUTCOME_UNKNOWN.value| == 26 && |CANCELLED.value| == 20 && |EXPIRED.value| == 15;
    assert |TARGET_REFUSED.value| == 25 && |NOT_FOREGROUND.value| == 21 && |PAIRING_REQUIRED.value| == 27;
  }

  /** How the report of an attempt that ends at step `n` relates to the update. */
  lemma ReportAt(answers: Answers, request: Request, pairing: Pairing, n: nat)
    requires n <= STEPS && Stops(answers, request, pairing, n)
    requires TARGET_CHECK < n ==> TargetAllowed(request, pairing)
    requires forall j: nat :: j < n ==> StepPasses(answers, request, pairing, j)
    ensures var (trace, outcome) := Ending(answers, request, pairing, 0, n);
      (Updated(trace) <==> outcome in {Dispatched, Failed(OUTCOME_UNKNOWN)}) <==> !Misleads(trace)
  {
    var trace := Ending(answers, request, pairing, 0, n).0;
    UpdateAmongCalls(answers, request, pairing, |trace|);
    assert trace != [] && |trace| == n + 1 ==> trace[n] == Event(Step(n, request, pairing), answers(n));
    assert trace != [] && |trace| == n ==>
      trace[n - 1] == Event(Step(n - 1, request, pairing), answers(n - 1)) && StepPasses(answers, request, pairing, n - 1);
    CodesDiffer();
  }

  /** What callers rely on, and exactly when they may: the tab was updated iff a dispatch or an unknown outcome is reported. */
  lemma UpdatedIffReported(answers: Answers, request: Request, pairing: Pairing)
    ensures var (trace, outcome) := Attempt(answers, request, pairing, 0);
      (Updated(trace) <==> outcome in {Dispatched, Failed(OUTCOME_UNKNOWN)}) <==> !Misleads(trace)
  {
    var n := Shape(answers, request, pairing, 0);
    ReportAt(answers, request, pairing, n);
  }

  /** A list of answers in which all calls pass but one, which throws. */
  function AllButOne(at: nat, code: Code): Answers {
    i => if i == at then Throws(code) else Returns(true, 0)
  }

  lemma PassesUnlessAt(at: nat, code: Code, request: Request, pairing: Pairing, j: nat)
    requires j < STEPS && request.deadline > 0
    ensures StepPasses(AllButOne(at, code), request, pairing, j) <==> j != at
  {}

  /** Such an attempt ends there. */
  lemma StopsThere(at: nat, code: Code, request: Request, pairing: Pairing, n: nat)
    requires at < STEPS && request.deadline > 0 && TargetAllowed(request, pairing)
    requires n <= STEPS && Stops(AllButOne(at, code), request, pairing, n)
    requires forall j: nat :: j < n ==> StepPasses(AllButOne(at, code), request, pairing, j)
    ensures n == at
  {
    PassesUnlessAt(at, code, request, pairing, at);
    if n < STEPS { PassesUnlessAt(at, code, request, pairing, n); }
  }

  /** One failing case: the content script answers the invalidation with the code of an unknown outcome. Nothing was updated. */
  lemma InvalidationMayMislead(request: Request, pairing: Pairing)
    requires TargetAllowed(request, pairing) && request.deadline > 0
    ensures var (trace, outcome) := Attempt(AllButOne(INVALIDATION, OUTCOME_UNKNOWN), request, pairing, 0);
      outcome == Failed(OUTCOME_UNKNOWN) && !Updated(trace)
  {
    var answers := AllButOne(INVALIDATION, OUTCOME_UNKNOWN);
    var n := Shape(answers, request, pairing, 0);
    StopsThere(INVALIDATION, OUTCOME_UNKNOWN, request, pairing, n);
    UpdateAmongCalls(answers, request, pairing, INVALIDATION + 1);
  }

  /** The other: a check after the update throws a code of its own. The tab was updated, and that code is reported. */
  lemma LastCheckMayMislead(request: Request, pairing: Pairing, code: Code)
    requires TargetAllowed(request, pairing) && request.deadline > 0 && code != OUTCOME_UNKNOWN
    ensures var (trace, outcome) := Attempt(AllButOne(UPDATE + 1, code), request, pairing, 0);
      outcome == Failed(code) && Updated(trace)
  {
    var answers := AllButOne(UPDATE + 1, code);
    var n := Shape(answers, request, pairing, 0);
    StopsThere(UPDATE + 1, code, request, pairing, n);
    UpdateAmongCalls(answers, request, pairing, UPDATE + 2);
  }

  // ---------- the function ----------

  /** `trace` holds the calls of the steps before `i`, and the attempt goes on from there. */
  predicate Reached(answers: Answers, request: Request, pairing: Pairing, trace: seq<Event>, i: nat)
    requires i <= STEPS
  {
    && |trace| == i
    && Attempt(answers, request, pairing, 0) ==
       (trace + Attempt(answers, request, pairing, i).0, Attempt(answers, request, pairing, i).1)
  }

  lemma StepTaken(answers: Answers, request: Request, pairing: Pairing, trace: seq<Event>, i: nat)
    requires i < STEPS && Reached(answers, request, pairing, trace, i)
    requires i == TARGET_CHECK ==> TargetAllowed(request, pairing)
    ensures var operation := Step(i, request, pairing); var longer := trace + [Event(operation, answers(i))];
      if StepPasses(answers, request, pairing, i) then Reached(answers, request, pairing, longer, i + 1)
      else Attempt(answers, request, pairing, 0) == (longer, Failed(FailureCode(i, operation, answers(i))))
  {
    var event := Event(Step(i, request, pairing), answers(i));
    if StepPasses(answers, request, pairing, i) {
      Regroup(trace, event, Attempt(answers, request, pairing, i + 1).0);
    }
  }

  lemma Regroup(trace: seq<Event>, event: Event, rest: seq<Event>)
    ensures trace + ([event] + rest) == trace + [event] + rest
  {}

  predicate Ended(ops: Operations, request: Request, pairing: Pairing, outcome: Outcome)
    reads ops
  {
    (ops.trace, outcome) == Attempt(ops.answers, request, pairing, 0)
  }

  predicate At(ops: Operations, request: Request, pairing: Pairing, i: nat)
    requires i <= STEPS
    reads ops
  {
    Reached(ops.answers, request, pairing, ops.trace, i)
  }

  /** The call of step `i`: it brings the attempt to the next step, or ends it. */
  method Perform(ops: Operations, operation: Operation, ghost request: Request, ghost pairing: Pairing, ghost i: nat) returns (answer: Answer)
    requires i < STEPS && At(ops, request, pairing, i) && operation == Step(i, request, pairing)
    requires i == TARGET_CHECK ==> TargetAllowed(request, pairing)
    modifies ops
    ensures Passes(operation, answer, request.deadline) ==> At(ops, request, pairing, i + 1)
    ensures !Passes(operation, answer, request.deadline) ==> Ended(ops, request, pairing, Failed(FailureCode(i, operation, answer)))
  {
    StepTaken(ops.answers, request, pairing, ops.trace, i);
    answer := ops.Call(operation);
  }

  /** `beforeDispatch`, at the steps `i` and `i + 1`. */
  method BeforeDispatch(ops: Operations, request: Request, ghost pairing: Pairing, ghost i: nat) returns (thrown: Option<Code>)
    requires i in {0, 4, 7, 10} && At(ops, request, pairing, i)
    modifies ops
    ensures thrown.None? ==> At(ops, request, pairing, i + 2)
    ensures thrown.Some? ==> Ended(ops, request, pairing, Failed(if i > INVALIDATION then PAIRING_REQUIRED else thrown.value))
  {
    var current := Perform(ops, IsCurrent, request, pairing, i);
    if current.Throws? { return Some(current.code); }
    if !current.flag { return Some(CANCELLED); }
    var now := Perform(ops, Now, request, pairing, i + 1);
    if now.Throws? { return Some(now.code); }
    if now.time >= request.deadline { return Some(EXPIRED); }
    thrown := None;
  }

  /** Lines 29 to 41: everything up to the invalidation of the document. */
  method Admit(request: Request, pairing: Pairing, ops: Operations) returns (thrown: Option<Code>)
    requires ops.trace == []
    modifies ops
    ensures thrown.None? ==> At(ops, request, pairing, INVALIDATION + 1) && TargetAllowed(request, pairing)
    ensures thrown.Some? ==> Ended(ops, request, pairing, Failed(thrown.value))
  {
    assert At(ops, request, pairing, 0) by { assert [] + Attempt(ops.answers, request, pairing, 0).0 == Attempt(ops.answers, request, pairing, 0).0; }
    thrown := BeforeDispatch(ops, request, pairing, 0);
    if thrown.Some? { return; }
    assert ops.trace + [] == ops.trace;
    if request.url.None? { return Some(None); }
    if !TargetAllowed(request, pairing) { return Some(TARGET_REFUSED); }
    var required := Perform(ops, RequirePairing, request, pairing, 2);
    if required.Throws? { return Some(required.code); }
    var foreground := Perform(ops, Foreground, request, pairing, 3);
    if foreground.Throws? { return Some(foreground.code); }
    if !foreground.flag { return Some(NOT_FOREGROUND); }
    thrown := BeforeDispatch(ops, request, pairing, 4);
    if thrown.Some? { return; }
    var invalidated := Perform(ops, InvalidateDocument, request, pairing, INVALIDATION);
    if invalidated.Throws? { return Some(invalidated.code); }
  }

  /** Lines 42 to 49: the first `try`, which answers every failure with one code. */
  method Revoke(ops: Operations, request: Request, ghost pairing: Pairing) returns (ok: bool)
    requires At(ops, request, pairing, INVALIDATION + 1)
    modifies ops
    ensures ok ==> At(ops, request, pairing, UPDATE)
    ensures !ok ==> Ended(ops, request, pairing, Failed(PAIRING_REQUIRED))
  {
    var thrown := BeforeDispatch(ops, request, pairing, 7);
    if thrown.Some? { return false; }
    var revoked := Perform(ops, RevokePairing, request, pairing, 9);
    if revoked.Throws? { return false; }
    thrown := BeforeDispatch(ops, request, pairing, 10);
    ok := thrown.None?;
  }

  /** The calls made and the outcome are those of the table, for any answers. */
  method NavigatePairedTab(request: Request, pairing: Pairing, ops: Operations) returns (outcome: Outcome)
    requires ops.trace == []
    modifies ops
    ensures (ops.trace, outcome) == Attempt(ops.answers, request, pairing, 0)
  {
    var thrown := Admit(request, pairing, ops);
    if thrown.Some? { return Failed(thrown.value); }
    var revoked := Revoke(ops, request, pairing);
    if !revoked { return Failed(PAIRING_REQUIRED); }
    var updated := Perform(ops, UpdateTab(pairing.tabId, request.url.value.href), request, pairing, UPDATE);
    if updated.Throws? { return Failed(OUTCOME_UNKNOWN); }
    outcome := Confirm(ops, request, pairing);
  }

  /** Lines 55 to 65: the check after the update. What it throws itself escapes. */
  method Confirm(ops: Operations, request: Request, ghost pairing: Pairing) returns (outcome: Outcome)
    requires At(ops, request, pairing, UPDATE + 1)
    modifies ops
    ensures Ended(ops, request, pairing, outcome)
  {
    var current := Perform(ops, IsCurrent, request, pairing, UPDATE + 1);
    if current.Throws? { return Failed(current.code); }
    if !current.flag { return Failed(OUTCOME_UNKNOWN); }
    var now := Perform(ops, Now, request, pairing, UPDATE + 2);
    if now.Throws? { return Failed(now.code); }
    if now.time >= request.deadline { return Failed(OUTCOME_UNKNOWN); }
    assert ops.trace + [] == ops.trace;
    outcome := Dispatched;
  }
}
