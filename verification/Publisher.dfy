/**
 `publish` itself (scripts/publish_verified_release.py, lines 164-293), with its
 inner functions `fresh` and `latest_guard`. `goal` is the ghost final state of
 the honest world; it plays no part in what the methods do.
 */
module Publisher {
  import opened Common
  import opened ReleaseModel
  import opened Versions
  import opened Publication
  import opened Recovery

  datatype Failure = BadArguments | BadBundle | BadRelease | LatestRefused | Transport | NotStaged | NotPublic | BytesDiffer | NotStable | NotLatest

  /** `fresh`; in the honest world it succeeds if the release as described passes. */
  method Fresh(g: Gateway, cfg: Config, id: int, frozen: Option<set<Identity>>, complete: bool) returns (r: Result<Release, Failure>)
    modifies g
    ensures g.world == old(g.world) && Visits(old(g.history), g.history, {g.world})
    ensures OnlyReads(old(g.trace), g.trace)
    ensures r.Ok? ==> g.trace == old(g.trace) + FreshEvents(cfg, r.value) && FreshOk(cfg, id, frozen, complete, r.value)
    ensures r.Ok? && g.resume.Some? ==> r.value.assets != []
    ensures old(g.Cooperative()) ==> g.Cooperative() && (Passes(cfg, g.world, id, frozen, complete) ==> r == Ok(View(g.world)))
  {
    var metadata := g.ReadRelease();
    assert OnlyReads(old(g.trace), g.trace);
    if metadata.None? { return Err(Transport); }
    var m := metadata.value;
    if !SameRelease(cfg, id, m) { return Err(BadRelease); }
    var sha := g.ReadTag();
    assert OnlyReads(old(g.trace), g.trace);
    if sha != Some(cfg.sourceSha) { return Err(BadRelease); }
    if m.isDraft.None? || m.isPrerelease.None? { return Err(BadRelease); }
    if complete {
      if !Content(cfg, m) { return Err(BadRelease); }
      if frozen.Some? && AssetIdentities(cfg, m) != frozen { return Err(BadRelease); }
    }
    r := Ok(m);
  }

  /** `latest_guard`. */
  method LatestGuard(g: Gateway, cfg: Config, id: int) returns (r: Result<Option<Release>, Failure>)
    modifies g
    ensures g.world == old(g.world) && Visits(old(g.history), g.history, {g.world})
    ensures OnlyReads(old(g.trace), g.trace)
    ensures r.Ok? ==> g.trace == old(g.trace) + [LatestRead(Some(r.value))] && LatestAdmissible(cfg, id, r.value)
    ensures old(g.Cooperative()) ==> g.Cooperative() && (LatestAdmissible(cfg, id, ViewLatest(g.world)) ==> r == Ok(ViewLatest(g.world)))
  {
    var latest := g.ReadLatest();
    assert OnlyReads(old(g.trace), g.trace);
    if latest.None? { return Err(Transport); }
    if !LatestAdmissible(cfg, id, latest.value) { return Err(LatestRefused); }
    r := Ok(latest.value);
  }

  /** A fresh read and the Latest guard after it, as before every mutation. */
  method FreshAndGuard(g: Gateway, cfg: Config, id: int, frozen: Option<set<Identity>>, complete: bool)
    returns (r: Result<(Release, Option<Release>), Failure>)
    modifies g
    ensures g.world == old(g.world) && Visits(old(g.history), g.history, {g.world})
    ensures OnlyReads(old(g.trace), g.trace)
    ensures r.Ok? ==> Gate(cfg, g.trace, old(g.trace), r.value.0, r.value.1, id, frozen, complete)
    ensures r.Ok? && g.resume.Some? ==> r.value.0.assets != []
    ensures old(g.Cooperative()) ==> g.Cooperative()
    ensures old(g.Cooperative()) && Passes(cfg, g.world, id, frozen, complete) ==> r == Ok((View(g.world), ViewLatest(g.world)))
  {
    var metadata := Fresh(g, cfg, id, frozen, complete);
    ghost var middle := g.trace;
    if metadata.Err? { return Err(metadata.error); }
    var latest := LatestGuard(g, cfg, id);
    OnlyReadsChain(old(g.trace), middle, g.trace);
    if latest.Err? { return Err(latest.error); }
    r := Ok((metadata.value, latest.value));
  }

  lemma OnlyReadsChain(a: seq<Event>, b: seq<Event>, c: seq<Event>)
    requires OnlyReads(a, b) && OnlyReads(b, c)
    ensures OnlyReads(a, c)
  {
    forall i | |a| <= i < |c| ensures !IsMutation(c[i]) {
      assert i < |b| ==> b[i] == c[i];
    }
  }

  // ---------- the phases of `publish` ----------

  /** Reuse the complete remote assets, or upload into an empty release; then freeze their identities. */
  method EnsureAssets(g: Gateway, cfg: Config, id: int) returns (r: Result<(Release, set<Identity>), Failure>, ghost c: Commitment)
    requires Begun(cfg, id, g.trace)
    modifies g
    ensures c.id == id && Safe(cfg, c, g.trace) && NoPatch(g.trace)
    ensures g.resume.Some? ==> NoUpload(g.trace)
    ensures r.Ok? ==> FrozenBy(cfg, c, g.trace, r.value)
    ensures old(g.Cooperative()) && CanStock(cfg, g.uploadable, old(g.world), id) ==>
      && g.Cooperative() && g.world == Stocked(g.uploadable, old(g.world))
      && Visits(old(g.history), g.history, {old(g.world), g.world})
      && r.Ok? && r.value.0 == View(g.world)
      && (old(g.world).assets != [] ==> NoUpload(g.trace))
  {
    c := Commitment(id, {});
    var gate := FreshAndGuard(g, cfg, id, None, false);
    SafeReads(cfg, c, old(g.trace), g.trace);
    OnlyReadsKeep(old(g.trace), g.trace);
    if gate.Err? { return Err(gate.error), c; }
    var metadata := gate.value.0;
    ghost var at := |old(g.trace)|;
    assert g.trace[at] == ReleaseRead(Some(metadata));
    assert NoUploadAfter(g.trace, at);
    if metadata.assets == [] {
      UploadIsSafe(cfg, c, old(g.trace), g.trace, metadata, gate.value.1);
      var uploaded := g.Upload();
      if !uploaded { return Err(Transport), c; }
      at := |g.trace|;
      ghost var after := g.trace;
      var again := Fresh(g, cfg, id, None, true);
      SafeReads(cfg, c, after, g.trace);
      OnlyReadsKeep(after, g.trace);
      if again.Err? { return Err(again.error), c; }
      metadata := again.value;
      assert g.trace[at] == ReleaseRead(Some(metadata));
      assert NoUploadAfter(g.trace, at);
    } else if !Content(cfg, metadata) {
      return Err(BadRelease), c;
    }
    var frozen := AssetIdentities(cfg, metadata);
    if frozen.None? { return Err(BadRelease), c; }
    SafeBeforeFreeze(cfg, c, frozen.value, g.trace);
    c := Commitment(id, frozen.value);
    assert FreezesAt(cfg, c, g.trace, at);
    r := Ok((metadata, frozen.value));
  }

  /** The run knows its release, and has changed nothing yet. */
  ghost predicate Begun(cfg: Config, id: int, t: seq<Event>) {
    Named(t, id) && NoUpload(t) && NoPatch(t) && Safe(cfg, Commitment(id, {}), t)
  }

  predicate NoUploadAfter(t: seq<Event>, i: int) {
    forall j :: i < j < |t| ==> 0 <= j && !IsUpload(t[j])
  }

  /** The identities were frozen by reading this metadata of the release. */
  ghost predicate FrozenBy(cfg: Config, c: Commitment, t: seq<Event>, result: (Release, set<Identity>)) {
    && c.frozen == result.1 && Freezes(cfg, c, result.0) && FrozenIn(cfg, c, t)
    && (result.0.isDraft == Some(true) ==> FrozenAsDraft(cfg, c, t))
  }

  /** The release as it is passes, and with its assets in place it passes completely. */
  predicate CanStock(cfg: Config, uploadable: seq<Stored>, w: World, id: int) {
    && Passes(cfg, w, id, None, false) && Passes(cfg, Stocked(uploadable, w), id, None, true)
    && AssetIdentities(cfg, View(Stocked(uploadable, w))).Some?
  }

  lemma UploadIsSafe(cfg: Config, c: Commitment, q: seq<Event>, t: seq<Event>, m: Release, latest: Option<Release>)
    requires Safe(cfg, c, t) && NoUpload(t) && NoPatch(t) && Named(t, c.id)
    requires Gate(cfg, t, q, m, latest, c.id, None, false) && m.assets == []
    ensures Safe(cfg, c, t + [Uploaded]) && Safe(cfg, c, t + [UploadRefused])
    ensures NoPatch(t + [Uploaded]) && NoPatch(t + [UploadRefused])
  {
    SafeGrows(cfg, c, t, Uploaded);
    SafeGrows(cfg, c, t, UploadRefused);
  }

  lemma StagingIsSafe(cfg: Config, c: Commitment, q: seq<Event>, t: seq<Event>, m: Release, latest: Option<Release>)
    requires Safe(cfg, c, t) && NoPatch(t) && FrozenAsDraft(cfg, c, q)
    requires Gate(cfg, t, q, m, latest, c.id, Some(c.frozen), true)
    ensures Safe(cfg, c, t + [Patched(c.id, true, false)]) && NoPromotion(t + [Patched(c.id, true, false)])
    ensures NoUpload(t) ==> NoUpload(t + [Patched(c.id, true, false)])
  {
    SafeGrows(cfg, c, t, Patched(c.id, true, false));
  }

  lemma PromotionIsSafe(cfg: Config, c: Commitment, q: seq<Event>, t: seq<Event>, m: Release, latest: Option<Release>)
    requires Safe(cfg, c, t) && NoPromotion(t) && VerifiedFrozen(cfg, c, q)
    requires Gate(cfg, t, q, m, latest, c.id, Some(c.frozen), true) && PromotionNeeded(cfg, m, latest)
    ensures Safe(cfg, c, t + [Patched(c.id, false, cfg.component == Native)])
    ensures NoUpload(t) ==> NoUpload(t + [Patched(c.id, false, cfg.component == Native)])
  {
    SafeGrows(cfg, c, t, Patched(c.id, false, cfg.component == Native));
  }

  lemma OnlyReadsKeep(t: seq<Event>, t': seq<Event>)
    requires OnlyReads(t, t')
    ensures NoUpload(t) ==> NoUpload(t')
    ensures NoPatch(t) ==> NoPatch(t')
    ensures NoPromotion(t) ==> NoPromotion(t')
  {
    forall i | 0 <= i < |t'| ensures i < |t| ==> t'[i] == t[i] {}
  }

  /** Draft to public prerelease. */
  method Stage(g: Gateway, cfg: Config, id: int, frozen: set<Identity>) returns (r: Result<(), Failure>)
    requires Safe(cfg, Commitment(id, frozen), g.trace) && NoPatch(g.trace) && FrozenAsDraft(cfg, Commitment(id, frozen), g.trace)
    modifies g
    ensures Safe(cfg, Commitment(id, frozen), g.trace) && NoPromotion(g.trace)
    ensures NothingUploaded(old(g.trace), g.trace)
    ensures old(g.Cooperative()) && CanStage(cfg, old(g.world), id, frozen) ==>
      && r.Ok? && g.Cooperative() && g.world == AfterPatch(old(g.world), true, false)
      && Visits(old(g.history), g.history, {old(g.world), g.world})
  {
    ghost var c := Commitment(id, frozen);
    var gate := FreshAndGuard(g, cfg, id, Some(frozen), true);
    SafeReads(cfg, c, old(g.trace), g.trace);
    OnlyReadsKeep(old(g.trace), g.trace);
    ReadsUploadNothing(old(g.trace), g.trace, id, true, false);
    if gate.Err? { return Err(gate.error); }
    StagingIsSafe(cfg, c, old(g.trace), g.trace, gate.value.0, gate.value.1);
    var patched := g.Patch(id, true, false);
    if !patched { return Err(Transport); }
    ghost var after := g.trace;
    var again := Fresh(g, cfg, id, Some(frozen), true);
    SafeReads(cfg, c, after, g.trace);
    OnlyReadsKeep(after, g.trace);
    ReadsUploadNothing(after, g.trace, id, true, false);
    NothingUploadedChain(old(g.trace), after, g.trace);
    if again.Err? { return Err(again.error); }
    if again.value.isDraft.value || !again.value.isPrerelease.value { return Err(NotStaged); }
    r := Ok(());
  }

  /** `t'` continues `t` without an upload. */
  predicate NothingUploaded(t: seq<Event>, t': seq<Event>) {
    t <= t' && forall j :: |t| <= j < |t'| ==> !IsUpload(t'[j])
  }

  lemma NothingUploadedChain(a: seq<Event>, b: seq<Event>, c: seq<Event>)
    requires NothingUploaded(a, b) && NothingUploaded(b, c)
    ensures NothingUploaded(a, c)
  {
    forall j | |a| <= j < |c| ensures !IsUpload(c[j]) {
      assert j < |b| ==> c[j] == b[j];
    }
  }

  /** Reads, and perhaps a patch after them, upload nothing. */
  lemma ReadsUploadNothing(t: seq<Event>, t': seq<Event>, id: int, prerelease: bool, makeLatest: bool)
    requires OnlyReads(t, t')
    ensures NothingUploaded(t, t') && NothingUploaded(t, t' + [Patched(id, prerelease, makeLatest)])
  {
    var longer := t' + [Patched(id, prerelease, makeLatest)];
    forall j | |t| <= j < |longer| ensures !IsUpload(longer[j]) {
      assert j < |t'| ==> longer[j] == t'[j] && !IsMutation(t'[j]);
    }
  }

  lemma NothingUploadedKeeps(t: seq<Event>, t': seq<Event>)
    requires NothingUploaded(t, t')
    ensures NoUpload(t) ==> NoUpload(t')
  {
    forall i | 0 <= i < |t'| ensures i < |t| ==> t'[i] == t[i] {}
  }

  /** The release passes before and after the staging patch. */
  predicate CanStage(cfg: Config, w: World, id: int, frozen: set<Identity>) {
    w.id == id && Passes(cfg, w, id, Some(frozen), true) && Passes(cfg, AfterPatch(w, true, false), id, Some(frozen), true)
  }

  /** Anonymous downloads of every asset of a public release. */
  method VerifyPublicBytes(g: Gateway, cfg: Config, id: int, frozen: set<Identity>) returns (r: Result<(), Failure>)
    modifies g
    ensures g.world == old(g.world) && Visits(old(g.history), g.history, {g.world})
    ensures OnlyReads(old(g.trace), g.trace)
    ensures r.Ok? ==> BytesVerified(cfg, g.trace, Commitment(id, frozen))
    ensures old(g.Cooperative()) ==> g.Cooperative()
    ensures old(g.Cooperative()) && Hosts(cfg, g.world) && !g.world.draft && Passes(cfg, g.world, id, Some(frozen), true) ==> r.Ok?
  {
    var again := Fresh(g, cfg, id, Some(frozen), true);
    if again.Err? { return Err(again.error); }
    var metadata := again.value;
    if metadata.isDraft.value { return Err(NotPublic); }
    ghost var start, digests: seq<Event> := g.trace, [];
    DigestsAreReads(old(g.trace), cfg, metadata, digests);
    PublicUrls(cfg, metadata);
    var i := 0;
    while i < |metadata.assets|
      invariant i <= |metadata.assets|
      invariant g.world == old(g.world) && Visits(old(g.history), g.history, {g.world})
      invariant g.trace == start + digests && OnlyReads(old(g.trace), g.trace)
      invariant forall k :: 0 <= k < |digests| ==> digests[k].DigestRead?
      invariant forall k :: 0 <= k < i ==> Verified(cfg, metadata.assets[k]) in digests
      invariant old(g.Cooperative()) ==> g.Cooperative()
    {
      var ok, entry := VerifyAsset(g, cfg, metadata.assets[i]);
      digests := digests + [entry];
      DigestsAreReads(old(g.trace), cfg, metadata, digests);
      if !ok { return Err(BytesDiffer); }
      assert digests[|digests| - 1] == Verified(cfg, metadata.assets[i]);
      i := i + 1;
    }
    BytesAreVerified(cfg, old(g.trace), id, frozen, metadata, digests);
    r := Ok(());
  }

  /** One anonymous download. */
  method VerifyAsset(g: Gateway, cfg: Config, asset: Asset) returns (ok: bool, ghost entry: Event)
    requires asset.url == Some(Download(cfg.tag, asset.name))
    modifies g
    ensures g.world == old(g.world) && g.history == old(g.history) + [g.world]
    ensures g.trace == old(g.trace) + [entry] && entry.DigestRead?
    ensures ok ==> entry == Verified(cfg, asset)
    ensures old(g.Cooperative()) ==> g.Cooperative()
    ensures old(g.Cooperative()) && Hosts(cfg, g.world) && !g.world.draft && asset in View(g.world).assets ==> ok
  {
    if Hosts(cfg, g.world) && !g.world.draft && asset in View(g.world).assets { ServedBytes(cfg, g.world, asset); }
    var actual := g.PublicDigest(asset.url.value, asset.size);
    entry := DigestRead(asset.url.value, asset.size, actual);
    ok := actual == Some((asset.size, cfg.strip(asset.digest)));
  }

  /** The log entry of a verified asset of a public release. */
  function Verified(cfg: Config, a: Asset): Event {
    DigestRead(Download(cfg.tag, a.name), a.size, Some((a.size, cfg.strip(a.digest))))
  }

  /** The assets of a public release are at their canonical locations. */
  lemma PublicUrls(cfg: Config, m: Release)
    requires AssetIdentities(cfg, m).Some? && m.isDraft == Some(false)
    ensures forall k :: 0 <= k < |m.assets| ==> m.assets[k].url == Some(Download(cfg.tag, m.assets[k].name))
  {
    forall k | 0 <= k < |m.assets| ensures m.assets[k].url == Some(Download(cfg.tag, m.assets[k].name)) {
      assert AssetOk(cfg, m.isDraft, m.assets[k]);
    }
  }

  lemma DigestsAreReads(t: seq<Event>, cfg: Config, m: Release, digests: seq<Event>)
    requires forall k :: 0 <= k < |digests| ==> digests[k].DigestRead?
    ensures OnlyReads(t, t + FreshEvents(cfg, m) + digests)
  {
    var t' := t + FreshEvents(cfg, m) + digests;
    forall i | |t| <= i < |t'| ensures !IsMutation(t'[i]) {}
  }

  /** In the honest world a public asset serves the bytes its description promises. */
  lemma ServedBytes(cfg: Config, w: World, a: Asset)
    requires Hosts(cfg, w) && !w.draft && a in View(w).assets
    ensures a.url == Some(Download(w.tagName, a.name))
    ensures exists s :: s in w.assets && s.name == a.name && s.size == a.size && s.sha == cfg.strip(a.digest)
  {
    ViewedAssets(w);
    var s :| s in w.assets && a == ViewAsset(w, s);
    assert StoredOk(cfg, s);
  }

  /** A public read of the frozen assets and a verified entry for each of them verify the public bytes. */
  lemma BytesAreVerified(cfg: Config, q: seq<Event>, id: int, frozen: set<Identity>, m: Release, digests: seq<Event>)
    requires FreshOk(cfg, id, Some(frozen), true, m) && m.isDraft == Some(false)
    requires forall k :: 0 <= k < |digests| ==> digests[k].DigestRead?
    requires forall k :: 0 <= k < |m.assets| ==> Verified(cfg, m.assets[k]) in digests
    ensures BytesVerified(cfg, q + FreshEvents(cfg, m) + digests, Commitment(id, frozen))
  {
    forall a | a in frozen ensures DigestRead(a.url, a.size, Some((a.size, cfg.strip(a.digest)))) in digests {
      var asset :| asset in m.assets && asset.id.Some? && a == IdentityOf(cfg, asset);
      assert Verified(cfg, asset) in digests;
    }
    assert PublicRead(cfg, Commitment(id, frozen), m) && DigestsMatch(cfg, frozen, digests);
  }

  /** The world was promoted if that was needed, and only then. */
  predicate PromotionDone(cfg: Config, w: World, w': World, h: seq<World>, h': seq<World>, t: seq<Event>, t': seq<Event>) {
    && w' == Promoted(cfg, w) && Visits(h, h', {w, w'})
    && (!PromotionNeeded(cfg, View(w), ViewLatest(w)) && NoPatch(t) ==> NoPatch(t'))
  }

  /** Stable, and Latest for the native component; without a patch if it is so already. */
  method Promote(g: Gateway, cfg: Config, id: int, frozen: set<Identity>) returns (r: Result<(), Failure>)
    requires Safe(cfg, Commitment(id, frozen), g.trace) && NoPromotion(g.trace) && VerifiedFrozen(cfg, Commitment(id, frozen), g.trace)
    modifies g
    ensures Safe(cfg, Commitment(id, frozen), g.trace) && NothingUploaded(old(g.trace), g.trace)
    ensures old(g.Cooperative()) && old(g.world).id == id && Passes(cfg, old(g.world), id, Some(frozen), true) ==>
      && r.Ok? && g.Cooperative()
      && PromotionDone(cfg, old(g.world), g.world, old(g.history), g.history, old(g.trace), g.trace)
  {
    ghost var c := Commitment(id, frozen);
    var gate := FreshAndGuard(g, cfg, id, Some(frozen), true);
    SafeReads(cfg, c, old(g.trace), g.trace);
    OnlyReadsKeep(old(g.trace), g.trace);
    ReadsUploadNothing(old(g.trace), g.trace, id, false, cfg.component == Native);
    if gate.Err? { return Err(gate.error); }
    var (metadata, latest) := gate.value;
    var alreadyStable := metadata.isDraft == Some(false) && metadata.isPrerelease == Some(false);
    if !alreadyStable || (cfg.component == Native && LatestTag(latest) != Some(cfg.tag)) {
      PromotionIsSafe(cfg, c, old(g.trace), g.trace, metadata, latest);
      var patched := g.Patch(id, false, cfg.component == Native);
      if !patched { return Err(Transport); }
    }
    r := Ok(());
  }

  /** The last look: stable, complete, and Latest as it must be. */
  method Confirm(g: Gateway, cfg: Config, id: int, frozen: set<Identity>) returns (r: Result<Option<string>, Failure>)
    modifies g
    ensures g.world == old(g.world) && Visits(old(g.history), g.history, {g.world})
    ensures OnlyReads(old(g.trace), g.trace)
    ensures r.Ok? ==> EndsPublished(cfg, g.trace, old(g.trace), Commitment(id, frozen), r.value)
    ensures old(g.Cooperative()) ==> g.Cooperative()
    ensures old(g.Cooperative()) && Passes(cfg, g.world, id, Some(frozen), true) && Published(cfg, id, frozen, View(g.world), ViewLatest(g.world)) ==> r.Ok?
  {
    var again := Fresh(g, cfg, id, Some(frozen), true);
    ghost var middle := g.trace;
    if again.Err? { return Err(again.error); }
    var metadata := again.value;
    if metadata.isDraft.value || metadata.isPrerelease.value { return Err(NotStable); }
    var guarded := LatestGuard(g, cfg, id);
    OnlyReadsChain(old(g.trace), middle, g.trace);
    if guarded.Err? { return Err(guarded.error); }
    var actual := LatestTag(guarded.value);
    if actual != Some(if cfg.component == Native then cfg.tag else cfg.nativeTag) { return Err(NotLatest); }
    if cfg.component == Extension && actual == Some(cfg.tag) { return Err(NotLatest); }
    assert g.trace == old(g.trace) + GateEvents(cfg, metadata, guarded.value);
    assert Published(cfg, id, frozen, metadata, guarded.value);
    r := Ok(actual);
  }

  /** The log is `q` and then the three reads that prove the release published. */
  ghost predicate EndsPublished(cfg: Config, t: seq<Event>, q: seq<Event>, c: Commitment, tag: Option<string>) {
    exists m, latest :: t == q + GateEvents(cfg, m, latest) && Published(cfg, c.id, c.frozen, m, latest) && tag == LatestTag(latest)
  }

  /** Public bytes, then promotion. */
  method VerifyAndPromote(g: Gateway, cfg: Config, id: int, frozen: set<Identity>) returns (r: Result<(), Failure>)
    requires Safe(cfg, Commitment(id, frozen), g.trace) && NoPromotion(g.trace) && FrozenIn(cfg, Commitment(id, frozen), g.trace)
    modifies g
    ensures Safe(cfg, Commitment(id, frozen), g.trace) && NothingUploaded(old(g.trace), g.trace)
    ensures r.Ok? ==> exists k :: 0 <= k <= |g.trace| && VerifiedFrozen(cfg, Commitment(id, frozen), g.trace[..k])
    ensures old(g.Cooperative()) && CanFinish(cfg, old(g.world), id, frozen) ==> r.Ok? && g.Cooperative()
    ensures old(g.Cooperative()) && CanFinish(cfg, old(g.world), id, frozen) ==> PromotionDone(cfg, old(g.world), g.world,
      old(g.history), g.history, old(g.trace), g.trace)
  {
    ghost var c := Commitment(id, frozen);
    var verified := VerifyPublicBytes(g, cfg, id, frozen);
    SafeReads(cfg, c, old(g.trace), g.trace);
    OnlyReadsKeep(old(g.trace), g.trace);
    ReadsUploadNothing(old(g.trace), g.trace, id, false, false);
    StaysFrozen(cfg, c, old(g.trace), g.trace);
    if verified.Err? { return Err(verified.error); }
    ghost var checked, h := g.trace, g.history;
    r := Promote(g, cfg, id, frozen);
    NothingUploadedChain(old(g.trace), checked, g.trace);
    PromotionDoneAfterReads(cfg, old(g.world), g.world, old(g.history), h, g.history, old(g.trace), checked, g.trace);
    assert g.trace[..|checked|] == checked;
  }

  /** Public bytes, promotion and confirmation, once the release is public. */
  method FinishPublic(g: Gateway, cfg: Config, id: int, frozen: set<Identity>) returns (r: Result<Option<string>, Failure>)
    requires Safe(cfg, Commitment(id, frozen), g.trace) && NoPromotion(g.trace) && FrozenIn(cfg, Commitment(id, frozen), g.trace)
    modifies g
    ensures Safe(cfg, Commitment(id, frozen), g.trace)
    ensures old(NoUpload(g.trace)) ==> NoUpload(g.trace)
    ensures r.Ok? ==> ProvenPublished(cfg, Commitment(id, frozen), g.trace, r.value)
    ensures old(g.Cooperative()) && CanFinish(cfg, old(g.world), id, frozen) ==> r.Ok? && g.Cooperative()
    ensures old(g.Cooperative()) && CanFinish(cfg, old(g.world), id, frozen) ==> PromotionDone(cfg, old(g.world), g.world,
      old(g.history), g.history, old(g.trace), g.trace)
  {
    var promoted := VerifyAndPromote(g, cfg, id, frozen);
    NothingUploadedKeeps(old(g.trace), g.trace);
    if promoted.Err? { return Err(promoted.error); }
    ghost var t := g.trace;
    ghost var h := g.history;
    r := Confirm(g, cfg, id, frozen);
    SafeReads(cfg, Commitment(id, frozen), t, g.trace);
    OnlyReadsKeep(t, g.trace);
    PromotionDoneReads(cfg, old(g.world), g.world, old(g.history), h, g.history, old(g.trace), t, g.trace);
  }

  /** Reads before a promotion change nothing about it. */
  lemma PromotionDoneAfterReads(cfg: Config, w: World, w': World, h: seq<World>, h': seq<World>, h'': seq<World>,
                                t: seq<Event>, t': seq<Event>, t'': seq<Event>)
    requires Visits(h, h', {w}) && OnlyReads(t, t')
    ensures PromotionDone(cfg, w, w', h', h'', t', t'') ==> PromotionDone(cfg, w, w', h, h'', t, t'')
  {
    OnlyReadsKeep(t, t');
    if Visits(h', h'', {w, w'}) {
      forall i | |h| <= i < |h''| ensures h''[i] in {w, w'} {
        assert i < |h'| ==> h''[i] == h'[i];
      }
    }
  }

  /** Reads after a promotion change nothing about it. */
  lemma PromotionDoneReads(cfg: Config, w: World, w': World, h: seq<World>, h': seq<World>, h'': seq<World>,
                           t: seq<Event>, t': seq<Event>, t'': seq<Event>)
    requires Visits(h', h'', {w'}) && OnlyReads(t', t'')
    ensures PromotionDone(cfg, w, w', h, h', t, t') ==> PromotionDone(cfg, w, w', h, h'', t, t'')
  {
    OnlyReadsKeep(t', t'');
    if Visits(h, h', {w, w'}) {
      forall i | |h| <= i < |h''| ensures h''[i] in {w, w'} {
        assert i < |h'| ==> h''[i] == h'[i];
      }
    }
  }

  /** The public release passes and serves its bytes, and once promoted it counts as published. */
  predicate CanFinish(cfg: Config, w: World, id: int, frozen: set<Identity>) {
    && w.id == id && Hosts(cfg, w) && !w.draft && Passes(cfg, w, id, Some(frozen), true)
    && Passes(cfg, Promoted(cfg, w), id, Some(frozen), true)
    && Published(cfg, id, frozen, View(Promoted(cfg, w)), ViewLatest(Promoted(cfg, w)))
  }

  /** The log ends with the proof of publication, and the public bytes of the frozen assets were verified before. */
  ghost predicate ProvenPublished(cfg: Config, c: Commitment, t: seq<Event>, tag: Option<string>) {
    exists q, k :: 0 <= k <= |q| && VerifiedFrozen(cfg, c, q[..k]) && EndsPublished(cfg, t, q, c, tag)
  }

  /** Every step of the plan of an honest run can be carried out. */
  predicate Feasible(cfg: Config, uploadable: seq<Stored>, w: World, id: int) {
    && CanStock(cfg, uploadable, w, id)
    && var stocked := Stocked(uploadable, w); var frozen := AssetIdentities(cfg, View(stocked)).value;
       (stocked.draft ==> CanStage(cfg, stocked, id, frozen)) && CanFinish(cfg, Staged(stocked), id, frozen)
  }

  lemma AdmissibleIsFeasible(cfg: Config, uploadable: seq<Stored>, w: World)
    requires Admissible(cfg, uploadable, w)
    ensures Feasible(cfg, uploadable, w, w.id)
  {
    var stocked, staged, goal := Stocked(uploadable, w), Staged(Stocked(uploadable, w)), Final(cfg, uploadable, w);
    PlanLeadsToFinal(cfg, uploadable, w);
    AdmissiblePasses(cfg, uploadable, w);
    AdmissiblePasses(cfg, uploadable, stocked);
    AdmissiblePasses(cfg, uploadable, staged);
    AdmissiblePasses(cfg, uploadable, goal);
    StockedPasses(cfg, stocked);
    StockedPasses(cfg, staged);
    StockedPasses(cfg, goal);
    FinalIsPublished(cfg, uploadable, goal);
  }

  /** The assets in place, and the release public. */
  method MakePublic(g: Gateway, cfg: Config, id: int) returns (r: Result<set<Identity>, Failure>, ghost c: Commitment)
    requires Begun(cfg, id, g.trace)
    modifies g
    ensures c.id == id && Safe(cfg, c, g.trace) && NoPromotion(g.trace)
    ensures g.resume.Some? ==> NoUpload(g.trace)
    ensures r.Ok? ==> c.frozen == r.value && FrozenIn(cfg, c, g.trace)
    ensures old(g.Cooperative()) && Feasible(cfg, g.uploadable, old(g.world), id) ==>
      && g.Cooperative() && r.Ok? && CanFinish(cfg, g.world, id, r.value)
      && MadePublic(g.uploadable, old(g.world), g.world, old(g.history), g.history, g.trace)
  {
    var ensured;
    ensured, c := EnsureAssets(g, cfg, id);
    if ensured.Err? { return Err(ensured.error), c; }
    var (metadata, frozen) := ensured.value;
    if metadata.isDraft.value {
      ghost var t := g.trace;
      var staged := Stage(g, cfg, id, frozen);
      NothingUploadedKeeps(t, g.trace);
      StaysFrozen(cfg, c, t, g.trace);
      if staged.Err? { return Err(staged.error), c; }
    }
    r := Ok(frozen);
  }

  /** The world was stocked and staged, each only if that was needed. */
  predicate MadePublic(uploadable: seq<Stored>, w: World, w': World, h: seq<World>, h': seq<World>, t: seq<Event>) {
    && w' == Staged(Stocked(uploadable, w)) && Visits(h, h', {w, Stocked(uploadable, w), w'})
    && (w.assets != [] ==> NoUpload(t)) && (!Stocked(uploadable, w).draft ==> NoPatch(t))
  }

  /** Everything after the identity of the release is known. */
  method PublishRelease(g: Gateway, cfg: Config, id: int) returns (r: Result<Option<string>, Failure>, ghost c: Commitment)
    requires Begun(cfg, id, g.trace)
    modifies g
    ensures c.id == id && Safe(cfg, c, g.trace)
    ensures g.resume.Some? ==> NoUpload(g.trace)
    ensures r.Ok? ==> ProvenPublished(cfg, c, g.trace, r.value)
    ensures old(g.Cooperative()) && Feasible(cfg, g.uploadable, old(g.world), id) ==> r.Ok? && g.Cooperative()
    ensures old(g.Cooperative()) && Feasible(cfg, g.uploadable, old(g.world), id) ==>
      PlanCarriedOut(cfg, g.uploadable, old(g.world), old(g.history), g.history, g.world, g.trace)
  {
    var frozen;
    frozen, c := MakePublic(g, cfg, id);
    if frozen.Err? { return Err(frozen.error), c; }
    ghost var w, h, t := g.world, g.history, g.trace;
    r := FinishPublic(g, cfg, id, frozen.value);
    if MadePublic(g.uploadable, old(g.world), w, old(g.history), h, t) && PromotionDone(cfg, w, g.world, h, g.history, t, g.trace) {
      PlanFromPhases(cfg, g.uploadable, old(g.world), w, g.world, old(g.history), h, g.history, t, g.trace);
    }
  }

  /** Making the release public and promoting it carries out the plan. */
  lemma PlanFromPhases(cfg: Config, uploadable: seq<Stored>, w: World, w': World, w'': World,
                       h: seq<World>, h': seq<World>, h'': seq<World>, t: seq<Event>, t': seq<Event>)
    requires MadePublic(uploadable, w, w', h, h', t) && PromotionDone(cfg, w', w'', h', h'', t, t')
    requires NoUpload(t) ==> NoUpload(t')
    ensures PlanCarriedOut(cfg, uploadable, w, h, h'', w'', t')
  {
    var worlds := {w, Stocked(uploadable, w), w', w''};
    forall i | |h| <= i < |h''| ensures h''[i] in worlds {
      assert i < |h'| ==> h''[i] == h'[i];
    }
  }

  /**
     One run. Whatever the gateway answers, the log is safe under one commitment to a
     release and its frozen assets, a resuming gateway is never asked to upload, and
     success is proven by the log for that same commitment. Wrong arguments and a
     wrong bundle are refused before any call. In an honest world a feasible plan is
     carried out.
   */
  method Publish(g: Gateway, cfg: Config) returns (r: Result<Option<string>, Failure>, ghost c: Commitment)
    modifies g
    ensures Safe(cfg, c, g.trace)
    ensures g.resume.Some? ==> NoUpload(g.trace)
    ensures !cfg.ArgumentsOk() || !cfg.bundleValid || cfg.local.Keys != cfg.expectedNames ==> r.Err? && g.trace == []
    ensures r.Ok? ==> ProvenPublished(cfg, c, g.trace, r.value)
    ensures old(CanRun(g, cfg)) ==> r.Ok? && g.Cooperative()
    ensures old(CanRun(g, cfg)) ==>
      PlanCarriedOut(cfg, g.uploadable, old(g.world), [old(g.world)], g.history, g.world, g.trace)
  {
    g.StartLog();
    var id := Admit(g, cfg);
    c := Commitment(if id.Ok? then id.value else 0, {});
    SafeReads(cfg, c, [], g.trace);
    if id.Err? { return Err(id.error), c; }
    ghost var h := g.history;
    r, c := PublishRelease(g, cfg, id.value);
    if old(CanRun(g, cfg)) {
      PlanFromStart(cfg, g.uploadable, old(g.world), h, g.history, g.world, g.trace);
    }
  }

  /** Reads before the plan starts do not change what it did. */
  lemma PlanFromStart(cfg: Config, uploadable: seq<Stored>, start: World, h: seq<World>, h': seq<World>, end: World, t: seq<Event>)
    requires Visits([start], h, {start}) && PlanCarriedOut(cfg, uploadable, start, h, h', end, t)
    ensures PlanCarriedOut(cfg, uploadable, start, [start], h', end, t)
  {
    var worlds := {start, Stocked(uploadable, start), Staged(Stocked(uploadable, start)), end};
    forall i | 1 <= i < |h'| ensures h'[i] in worlds {
      assert i < |h| ==> h'[i] == h[i];
    }
  }

  /** The arguments, the local bundle, and the numeric identity of the release. */
  method Admit(g: Gateway, cfg: Config) returns (id: Result<int, Failure>)
    modifies g
    ensures g.world == old(g.world) && Visits(old(g.history), g.history, {g.world})
    ensures OnlyReads(old(g.trace), g.trace)
    ensures old(g.Cooperative()) ==> g.Cooperative()
    ensures id.Ok? ==> cfg.ArgumentsOk() && cfg.BundleOk() && id.value > 0
    ensures !cfg.ArgumentsOk() || !cfg.bundleValid || cfg.local.Keys != cfg.expectedNames ==> g.trace == old(g.trace)
    ensures id.Ok? && old(g.trace) == [] ==> Named(g.trace, id.value)
    ensures old(g.Cooperative()) && cfg.ArgumentsOk() && cfg.BundleOk() && g.world.id > 0 ==> id == Ok(g.world.id)
  {
    if !cfg.ArgumentsOk() { return Err(BadArguments); }
    if !cfg.BundleOk() { return Err(BadBundle); }
    var initial := g.ReadRelease();
    if initial.None? { return Err(Transport); }
    if initial.value.id.None? || initial.value.id.value <= 0 { return Err(BadRelease); }
    id := Ok(initial.value.id.value);
  }

  /** Nobody interferes, and every step of the plan can be carried out. */
  ghost predicate CanRun(g: Gateway, cfg: Config)
    reads g
  {
    && g.Cooperative() && cfg.ArgumentsOk() && cfg.BundleOk()
    && g.world.id > 0 && Feasible(cfg, g.uploadable, g.world, g.world.id)
  }

  /** From `start` the world went through the states of the plan to its end, changing only what needed changing. */
  predicate PlanCarriedOut(cfg: Config, uploadable: seq<Stored>, start: World, h: seq<World>, h': seq<World>, end: World, t: seq<Event>) {
    var stocked := Stocked(uploadable, start); var staged := Staged(stocked);
    && end == Promoted(cfg, staged)
    && Visits(h, h', {start, stocked, staged, end})
    && (start.assets != [] ==> NoUpload(t))
    && (!stocked.draft && !PromotionNeeded(cfg, View(staged), ViewLatest(staged)) ==> NoPatch(t))
  }

  /**
     A run in the honest world, from any admissible state: it succeeds and reaches
     `goal`, every state it could be killed in is admissible and has the same
     destination `goal`, and a run that starts at `goal` uploads and patches nothing.
   */
  method PublishOrResume(g: Gateway, cfg: Config, ghost goal: World) returns (r: Result<Option<string>, Failure>)
    requires g.Cooperative() && Destination(cfg, g.uploadable, g.world) == Some(goal)
    modifies g
    ensures r.Ok? && g.Cooperative() && g.world == goal
    ensures AllLeadTo(cfg, g.uploadable, g.history, goal)
    ensures old(g.world) == goal ==> NoUpload(g.trace) && NoPatch(g.trace)
  {
    AdmissibleIsFeasible(cfg, g.uploadable, g.world);
    ghost var start := g.world;
    ghost var c;
    r, c := Publish(g, cfg);
    PlanReachesFinal(cfg, g.uploadable, start, [start], g.history);
  }

  /** Every recorded state is admissible, so a new run may start there, and leads to `goal`. */
  predicate AllLeadTo(cfg: Config, uploadable: seq<Stored>, history: seq<World>, goal: World) {
    forall i :: 0 <= i < |history| ==> Destination(cfg, uploadable, history[i]) == Some(goal)
  }

  /** An honest run that carries out the plan passes through states with one destination, and rests if it starts there. */
  lemma PlanReachesFinal(cfg: Config, uploadable: seq<Stored>, start: World, h: seq<World>, h': seq<World>)
    requires Admissible(cfg, uploadable, start) && h == [start]
    requires var stocked := Stocked(uploadable, start); var staged := Staged(stocked);
      Visits(h, h', {start, stocked, staged, Promoted(cfg, staged)})
    ensures Promoted(cfg, Staged(Stocked(uploadable, start))) == Final(cfg, uploadable, start)
    ensures AllLeadTo(cfg, uploadable, h', Final(cfg, uploadable, start))
    ensures start == Final(cfg, uploadable, start) ==>
      var stocked := Stocked(uploadable, start); var staged := Staged(stocked);
      start.assets != [] && !stocked.draft && !PromotionNeeded(cfg, View(staged), ViewLatest(staged))
  {
    PlanLeadsToFinal(cfg, uploadable, start);
    if start == Final(cfg, uploadable, start) { FinalIsAtRest(cfg, uploadable, start); }
    forall i | 0 <= i < |h'| ensures Destination(cfg, uploadable, h'[i]) == Some(Final(cfg, uploadable, start)) {
      assert i < |h| ==> h'[i] == h[i] == start;
    }
  }
}
