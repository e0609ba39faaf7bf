/**
 Model of `publish` in scripts/publish_verified_release.py (lines 134-293) and of
 its use with `ExistingAssetsGitHub` (scripts/resume_native_publication.py, lines
 182-204): draft, public prerelease, verified public bytes, stable and Latest.

 Two kinds of results. Against a gateway that answers anything, the log of calls
 is safe: every mutation is justified by what was read immediately before it, and
 all of them by one commitment to a release and its frozen assets. In
 an honest and undisturbed world, stopping after any call leaves a state from
 which a new run reaches the same final state.
 */
module Publication {
  import opened Common
  import opened ReleaseModel
  import opened Versions

  // ---------- trace safety ----------

  predicate NoUpload(t: seq<Event>) { forall i :: 0 <= i < |t| ==> !t[i].Uploaded? && !t[i].UploadRefused? }
  predicate NoPatch(t: seq<Event>) { forall i :: 0 <= i < |t| ==> !t[i].Patched? }
  predicate NoPromotion(t: seq<Event>) { forall i :: 0 <= i < |t| ==> t[i].Patched? ==> t[i].prerelease }

  /** The two log entries of a fresh read, and the three of one followed by the Latest guard. */
  function FreshEvents(cfg: Config, m: Release): seq<Event> { [ReleaseRead(Some(m)), TagRead(Some(cfg.sourceSha))] }

  function GateEvents(cfg: Config, m: Release, latest: Option<Release>): seq<Event> {
    [ReleaseRead(Some(m)), TagRead(Some(cfg.sourceSha)), LatestRead(Some(latest))]
  }

  /** What one run commits itself to: the release it works on, and the identities it froze. */
  datatype Commitment = Commitment(id: int, frozen: set<Identity>)

  /** The log `before` is `q` and then a fresh read with Latest guard. */
  predicate Gate(cfg: Config, before: seq<Event>, q: seq<Event>, m: Release, latest: Option<Release>,
                 id: int, frozen: Option<set<Identity>>, complete: bool) {
    && before == q + GateEvents(cfg, m, latest)
    && FreshOk(cfg, id, frozen, complete, m) && LatestAdmissible(cfg, id, latest)
  }

  /** The very first read of the run identified its release. */
  predicate Named(t: seq<Event>, id: int) {
    t != [] && t[0].ReleaseRead? && t[0].release.Some? && t[0].release.value.id == Some(id)
  }

  /** Metadata of the run's release whose complete assets have the frozen identities. */
  predicate Freezes(cfg: Config, c: Commitment, m: Release) {
    SameRelease(cfg, c.id, m) && m.isDraft.Some? && Content(cfg, m) && AssetIdentities(cfg, m) == Some(c.frozen)
  }

  /** Entry `i` is the read that froze the identities: nothing was uploaded after it. */
  predicate FreezesAt(cfg: Config, c: Commitment, t: seq<Event>, i: int) {
    && 0 <= i < |t| && t[i].ReleaseRead? && t[i].release.Some? && Freezes(cfg, c, t[i].release.value)
    && forall j :: i < j < |t| ==> !IsUpload(t[j])
  }

  ghost predicate FrozenIn(cfg: Config, c: Commitment, t: seq<Event>) {
    Named(t, c.id) && exists i :: FreezesAt(cfg, c, t, i)
  }

  /** The read that froze the identities found a draft. */
  ghost predicate FrozenAsDraft(cfg: Config, c: Commitment, t: seq<Event>) {
    Named(t, c.id) && exists i :: FreezesAt(cfg, c, t, i) && t[i].release.value.isDraft == Some(true)
  }

  /** An upload directly follows a fresh read of the run's release without assets and an admissible Latest, and nothing was changed before. */
  ghost predicate UploadJustified(cfg: Config, c: Commitment, before: seq<Event>) {
    && NoUpload(before) && NoPatch(before) && Named(before, c.id)
    && exists q, m, latest :: Gate(cfg, before, q, m, latest, c.id, None, false) && m.assets == []
  }

  /** A staging patch directly follows a fresh read of the complete frozen assets, frozen when the release was a draft. */
  ghost predicate StagingJustified(cfg: Config, c: Commitment, before: seq<Event>) {
    && NoPatch(before)
    && exists q, m, latest :: Gate(cfg, before, q, m, latest, c.id, Some(c.frozen), true) && FrozenAsDraft(cfg, c, q)
  }

  /** The public bytes of every frozen asset were read and matched. */
  predicate DigestsMatch(cfg: Config, ids: set<Identity>, digests: seq<Event>) {
    && (forall i :: 0 <= i < |digests| ==> digests[i].DigestRead?)
    && (forall a :: a in ids ==> DigestRead(a.url, a.size, Some((a.size, cfg.strip(a.digest)))) in digests)
  }

  /** `t` ends with a fresh read of a public release with exactly these assets and the verification of its bytes. */
  ghost predicate BytesVerified(cfg: Config, t: seq<Event>, c: Commitment) {
    exists q, m, digests :: t == q + FreshEvents(cfg, m) + digests && PublicRead(cfg, c, m) && DigestsMatch(cfg, c.frozen, digests)
  }

  predicate PublicRead(cfg: Config, c: Commitment, m: Release) {
    FreshOk(cfg, c.id, Some(c.frozen), true, m) && m.isDraft == Some(false)
  }

  /**
     A promotion directly follows a fresh read of the frozen assets and an admissible
     Latest, and that read directly follows the verification of their public bytes. It
     happens once, touches Latest only for the native component, and was needed.
   */
  ghost predicate PromotionJustified(cfg: Config, c: Commitment, before: seq<Event>, makeLatest: bool) {
    && NoPromotion(before)
    && makeLatest == (cfg.component == Native)
    && exists q, m, latest :: Gate(cfg, before, q, m, latest, c.id, Some(c.frozen), true) && VerifiedFrozen(cfg, c, q)
         && PromotionNeeded(cfg, m, latest)
  }

  /** The identities were frozen, and the log ends with the verification of their public bytes. */
  ghost predicate VerifiedFrozen(cfg: Config, c: Commitment, t: seq<Event>) {
    FrozenIn(cfg, c, t) && BytesVerified(cfg, t, c)
  }

  ghost predicate Justified(cfg: Config, c: Commitment, before: seq<Event>, e: Event) {
    match e
    case Uploaded => UploadJustified(cfg, c, before)
    case UploadRefused => UploadJustified(cfg, c, before)
    case Patched(id, prerelease, makeLatest) =>
      && id == c.id
      && if prerelease then !makeLatest && StagingJustified(cfg, c, before) else PromotionJustified(cfg, c, before, makeLatest)
    case _ => true
  }

  /** Every entry of the log is justified by what precedes it, under one commitment. */
  ghost predicate Safe(cfg: Config, c: Commitment, t: seq<Event>) {
    t == [] || (Safe(cfg, c, t[..|t| - 1]) && Justified(cfg, c, t[..|t| - 1], t[|t| - 1]))
  }

  lemma {:induction false} SafeAt(cfg: Config, c: Commitment, t: seq<Event>, i: nat)
    requires i < |t|
    ensures Safe(cfg, c, t) ==> Justified(cfg, c, t[..i], t[i])
  {
    var init := t[..|t| - 1];
    if i < |init| {
      SafeAt(cfg, c, init, i);
      assert init[..i] == t[..i];
    }
  }

  lemma SafeGrows(cfg: Config, c: Commitment, t: seq<Event>, e: Event)
    requires Safe(cfg, c, t) && Justified(cfg, c, t, e)
    ensures Safe(cfg, c, t + [e])
  {
    assert (t + [e])[..|t|] == t;
  }

  /** Before the first patch nothing depends on the identities yet to be frozen. */
  lemma {:induction false} SafeBeforeFreeze(cfg: Config, c: Commitment, frozen: set<Identity>, t: seq<Event>)
    requires Safe(cfg, c, t) && NoPatch(t)
    ensures Safe(cfg, c.(frozen := frozen), t)
  {
    if t != [] { SafeBeforeFreeze(cfg, c, frozen, t[..|t| - 1]); }
  }

  /** What was frozen stays frozen while nothing is uploaded. */
  lemma StaysFrozen(cfg: Config, c: Commitment, t: seq<Event>, t': seq<Event>)
    requires t <= t' && forall j :: |t| <= j < |t'| ==> !IsUpload(t'[j])
    ensures FrozenIn(cfg, c, t) ==> FrozenIn(cfg, c, t')
    ensures FrozenAsDraft(cfg, c, t) ==> FrozenAsDraft(cfg, c, t')
  {
    if FrozenIn(cfg, c, t) {
      var i :| FreezesAt(cfg, c, t, i);
      assert FreezesAt(cfg, c, t', i);
    }
    if FrozenAsDraft(cfg, c, t) {
      var i :| FreezesAt(cfg, c, t, i) && t[i].release.value.isDraft == Some(true);
      assert FreezesAt(cfg, c, t', i);
    }
  }

  predicate IsMutation(e: Event) { e.Uploaded? || e.UploadRefused? || e.Patched? }

  /** `t'` continues `t` by reads only. */
  predicate OnlyReads(t: seq<Event>, t': seq<Event>) {
    t <= t' && forall i :: |t| <= i < |t'| ==> !IsMutation(t'[i])
  }

  lemma {:induction false} SafeReads(cfg: Config, c: Commitment, t: seq<Event>, t': seq<Event>)
    requires Safe(cfg, c, t) && OnlyReads(t, t')
    ensures Safe(cfg, c, t')
    decreases |t'|
  {
    if |t'| > |t| {
      SafeReads(cfg, c, t, t'[..|t'| - 1]);
      assert !IsMutation(t'[|t'| - 1]);
    } else {
      assert t == t';
    }
  }

  predicate IsUpload(e: Event) { e.Uploaded? || e.UploadRefused? }
  predicate IsStaging(e: Event) { e.Patched? && e.prerelease }
  predicate IsPromotion(e: Event) { e.Patched? && !e.prerelease }

  function Count(t: seq<Event>, which: Event -> bool): nat {
    if t == [] then 0 else Count(t[..|t| - 1], which) + if which(t[|t| - 1]) then 1 else 0
  }

  lemma {:induction false} CountZero(t: seq<Event>, which: Event -> bool)
    requires forall i :: 0 <= i < |t| ==> !which(t[i])
    ensures Count(t, which) == 0
  {
    if t != [] { CountZero(t[..|t| - 1], which); }
  }

  /** A safe log holds at most one upload, one staging patch and one promotion. */
  lemma {:induction false} MutationsAreFew(cfg: Config, c: Commitment, t: seq<Event>)
    requires Safe(cfg, c, t)
    ensures Count(t, IsUpload) <= 1
    ensures Count(t, IsStaging) <= 1
    ensures Count(t, IsPromotion) <= 1
  {
    if t != [] {
      var init := t[..|t| - 1];
      MutationsAreFew(cfg, c, init);
      assert Justified(cfg, c, init, t[|t| - 1]);
      var last := t[|t| - 1];
      if last.Uploaded? || last.UploadRefused? { CountZero(init, IsUpload); }
      if last.Patched? && last.prerelease { CountZero(init, IsStaging); }
      if last.Patched? && !last.prerelease { CountZero(init, IsPromotion); }
    }
  }

  /** In particular, a native promotion never follows a Latest reading of a newer version: number by number, its version is not larger. */
  lemma PromotionNeverReplacesNewer(cfg: Config, c: Commitment, t: seq<Event>, i: nat)
    requires Safe(cfg, c, t) && cfg.component == Native
    requires i < |t| && t[i].Patched? && !t[i].prerelease
    ensures i > 0 && t[i - 1].LatestRead? && t[i - 1].latest.Some?
    ensures t[i - 1].latest.value.Some? ==>
      var latest, own := TagVersion(t[i - 1].latest.value.value.tagName), TagVersion(cfg.tag);
      && latest.Some? && own.Some?
      && (latest.value.0 < own.value.0
          || (latest.value.0 == own.value.0
              && (latest.value.1 < own.value.1 || (latest.value.1 == own.value.1 && latest.value.2 <= own.value.2))))
  {
    SafeAt(cfg, c, t, i);
    var q, m, latest :| Gate(cfg, t[..i], q, m, latest, c.id, Some(c.frozen), true) && VerifiedFrozen(cfg, c, q) && PromotionNeeded(cfg, m, latest);
    assert t[..i][i - 1] == GateEvents(cfg, m, latest)[2];
  }

  /** With printed tags: the Latest before a native promotion of version `own` is a release of a version that is not larger. */
  lemma PromotionOfPrintedVersion(cfg: Config, c: Commitment, t: seq<Event>, i: nat, own: Version, latest: Version)
    requires Safe(cfg, c, t) && cfg.component == Native && cfg.tag == "v" + PrintVersion(own)
    requires 0 < i < |t| && t[i].Patched? && !t[i].prerelease
    requires t[i - 1].LatestRead? && t[i - 1].latest.Some? && t[i - 1].latest.value.Some?
    requires t[i - 1].latest.value.value.tagName == "v" + PrintVersion(latest)
    ensures latest.0 < own.0 || (latest.0 == own.0 && (latest.1 < own.1 || (latest.1 == own.1 && latest.2 <= own.2)))
  {
    PromotionNeverReplacesNewer(cfg, c, t, i);
    TagVersionUndoesPrinting(own);
    TagVersionUndoesPrinting(latest);
  }

  /** A staging patch or promotion is preceded by the read that froze the assets. */
  lemma StagingIsFrozen(cfg: Config, c: Commitment, before: seq<Event>)
    requires StagingJustified(cfg, c, before)
    ensures FrozenIn(cfg, c, before)
  {
    var q, m, latest :| Gate(cfg, before, q, m, latest, c.id, Some(c.frozen), true) && FrozenAsDraft(cfg, c, q);
    StaysFrozen(cfg, c, q, before);
  }

  lemma PromotionIsFrozen(cfg: Config, c: Commitment, before: seq<Event>, makeLatest: bool)
    requires PromotionJustified(cfg, c, before, makeLatest)
    ensures FrozenIn(cfg, c, before)
  {
    var q, m, latest :| Gate(cfg, before, q, m, latest, c.id, Some(c.frozen), true) && VerifiedFrozen(cfg, c, q) && PromotionNeeded(cfg, m, latest);
    StaysFrozen(cfg, c, q, before);
  }

  /**
     One run works on one release and one set of assets: every patch of a safe log
     names the release its first read identified, and follows the read of that
     release that froze the assets.
   */
  lemma OneReleaseOneSet(cfg: Config, c: Commitment, t: seq<Event>, i: nat)
    requires Safe(cfg, c, t) && i < |t| && t[i].Patched?
    ensures t[i].id == c.id && Named(t, c.id) && FrozenIn(cfg, c, t[..i])
  {
    SafeAt(cfg, c, t, i);
    if t[i].prerelease { StagingIsFrozen(cfg, c, t[..i]); } else { PromotionIsFrozen(cfg, c, t[..i], t[i].makeLatest); }
  }

  /** Nothing is uploaded once a patch was sent. */
  lemma NoUploadAfterPatch(cfg: Config, c: Commitment, t: seq<Event>, i: nat, j: nat)
    requires Safe(cfg, c, t) && i < j < |t| && t[i].Patched?
    ensures !IsUpload(t[j])
  {
    SafeAt(cfg, c, t, j);
    assert t[..j][i] == t[i];
  }
}
