/**
 The honest, undisturbed world of a publication: which states of the remote
 release `publish` may start from, and the one state it drives each of them to.
 */
module Recovery {
  import opened Common
  import opened ReleaseModel
  import opened Versions

  /** Stored assets that are exactly the local files; the bytes served are the bytes described. */
  predicate CompleteStored(cfg: Config, assets: seq<Stored>) {
    && UniqueNames(assets)
    && (forall i, j :: 0 <= i < j < |assets| ==> assets[i].id != assets[j].id)
    && (set s | s in assets :: s.name) == cfg.expectedNames
    && (forall s :: s in assets ==> StoredOk(cfg, s))
  }

  predicate StoredOk(cfg: Config, s: Stored) {
    && s.id > 0 && s.name in cfg.local
    && s.size == cfg.local[s.name].size && cfg.normalize(s.digest) == Some(cfg.local[s.name].sha)
    && s.sha == cfg.strip(s.digest)
  }

  /** An empty draft, or the complete assets as a draft, a prerelease or a stable release; and an admissible Latest. */
  predicate Admissible(cfg: Config, uploadable: seq<Stored>, w: World) {
    && cfg.ArgumentsOk() && cfg.BundleOk() && cfg.expectedNames != {}
    && w.id > 0 && w.tagName == cfg.tag && w.targetCommitish == cfg.sourceSha == w.tagSha && Untagged(w.slug)
    && CompleteStored(cfg, uploadable)
    && (w.assets == [] ==> w.draft) && (w.assets != [] ==> CompleteStored(cfg, w.assets))
    && match w.latest
       case NoLatest => cfg.component == Native
       case ThisRelease => cfg.component == Native && !w.draft && !w.prerelease
       case OtherLatest(l) => l.tagName != cfg.tag && LatestAdmissible(cfg, w.id, Some(l))
  }

  /** Stable, complete, and Latest iff native. */
  function Final(cfg: Config, uploadable: seq<Stored>, w: World): World {
    w.(draft := false, prerelease := false, assets := if w.assets == [] then uploadable else w.assets,
       latest := if cfg.component == Native then ThisRelease else w.latest)
  }

  function StoredIdentities(cfg: Config, assets: seq<Stored>): set<Identity> {
    set s | s in assets :: Identity(s.id, s.name, s.size, s.digest, Download(cfg.tag, s.name))
  }

  /** Where an admissible state leads. */
  function Destination(cfg: Config, uploadable: seq<Stored>, w: World): Option<World> {
    if Admissible(cfg, uploadable, w) then Some(Final(cfg, uploadable, w)) else None
  }

  /** The states recorded since `h` are all in `worlds`. */
  predicate Visits(h: seq<World>, h': seq<World>, worlds: set<World>) {
    h <= h' && forall i :: |h| <= i < |h'| ==> h'[i] in worlds
  }

  /** The release as described passes a fresh read, and Latest passes its guard. */
  predicate Passes(cfg: Config, w: World, id: int, frozen: Option<set<Identity>>, complete: bool) {
    && w.tagSha == cfg.sourceSha && FreshOk(cfg, id, frozen, complete, View(w))
    && LatestAdmissible(cfg, id, ViewLatest(w))
  }

  // ---------- the four states of an honest run ----------

  /** After the upload, the staging patch and the promotion patch, where each is needed. */
  function Stocked(uploadable: seq<Stored>, w: World): World {
    if w.assets == [] then w.(assets := uploadable) else w
  }

  function Staged(w: World): World {
    if w.draft then AfterPatch(w, true, false) else w
  }

  function Promoted(cfg: Config, w: World): World {
    if PromotionNeeded(cfg, View(w), ViewLatest(w)) then AfterPatch(w, false, cfg.component == Native) else w
  }

  /** An admissible release passes the checks that come before its assets are looked at. */
  lemma AdmissiblePasses(cfg: Config, uploadable: seq<Stored>, w: World)
    requires Admissible(cfg, uploadable, w)
    ensures Passes(cfg, w, w.id, None, false)
    ensures w.assets != [] ==> Hosts(cfg, w)
  {
    AdmissibleLatest(cfg, uploadable, w);
  }

  /** With its assets in place it passes all of them. */
  lemma StockedPasses(cfg: Config, w: World)
    requires Hosts(cfg, w) && Passes(cfg, w, w.id, None, false)
    ensures Passes(cfg, w, w.id, None, true)
    ensures Passes(cfg, w, w.id, Some(StoredIdentities(cfg, w.assets)), true)
    ensures AssetIdentities(cfg, View(w)) == Some(StoredIdentities(cfg, w.assets))
  {
    ViewContent(cfg, w);
    ViewIdentities(cfg, w);
  }

  /** Each step of the plan stays admissible and keeps the destination, which the last step reaches. */
  lemma PlanLeadsToFinal(cfg: Config, uploadable: seq<Stored>, w: World)
    requires Admissible(cfg, uploadable, w)
    ensures var stocked := Stocked(uploadable, w); var staged := Staged(stocked);
      && Destination(cfg, uploadable, stocked) == Some(Final(cfg, uploadable, w)) && stocked.assets != []
      && Destination(cfg, uploadable, staged) == Some(Final(cfg, uploadable, w))
      && !staged.draft && staged.assets == stocked.assets
      && Promoted(cfg, staged) == Final(cfg, uploadable, w)
      && Destination(cfg, uploadable, Final(cfg, uploadable, w)) == Some(Final(cfg, uploadable, w))
  {
    var staged := Staged(Stocked(uploadable, w));
    AdmissibleLatest(cfg, uploadable, staged);
  }

  /** From the final state the plan needs no step. */
  lemma FinalIsAtRest(cfg: Config, uploadable: seq<Stored>, w: World)
    requires Admissible(cfg, uploadable, w) && w == Final(cfg, uploadable, w)
    ensures w.assets != [] && !w.draft && !PromotionNeeded(cfg, View(w), ViewLatest(w))
  {
    AdmissibleLatest(cfg, uploadable, w);
  }

  lemma FinalIsPublished(cfg: Config, uploadable: seq<Stored>, w: World)
    requires Admissible(cfg, uploadable, w) && w == Final(cfg, uploadable, w)
    ensures Published(cfg, w.id, StoredIdentities(cfg, w.assets), View(w), ViewLatest(w))
  {
    FinalIsAtRest(cfg, uploadable, w);
    AdmissiblePasses(cfg, uploadable, w);
    StockedPasses(cfg, w);
    AdmissibleLatest(cfg, uploadable, w);
  }

  // ---------- views of admissible states ----------

  /** What the release must be for its complete stored assets to be acceptable. */
  predicate Hosts(cfg: Config, w: World) {
    && cfg.BundleOk() && w.id > 0 && w.tagName == cfg.tag && w.targetCommitish == cfg.sourceSha && Untagged(w.slug)
    && CompleteStored(cfg, w.assets)
  }

  /** Complete stored assets pass the content check. */
  lemma ViewContent(cfg: Config, w: World)
    requires Hosts(cfg, w)
    ensures Content(cfg, View(w))
  {
    ViewedAssets(w);
    var m := View(w);
    assert (set a | a in m.assets :: a.name) == (set s | s in w.assets :: s.name);
    forall a | a in m.assets
      ensures a.name in cfg.local && a.state == "uploaded" && a.size == cfg.local[a.name].size
      ensures cfg.normalize(a.digest) == Some(cfg.local[a.name].sha)
    {
      var s :| s in w.assets && a == ViewAsset(w, s);
      assert StoredOk(cfg, s);
    }
  }

  /** Their identities are those of the stored assets, whether or not the release is still a draft. */
  lemma ViewIdentities(cfg: Config, w: World)
    requires Hosts(cfg, w)
    ensures AssetIdentities(cfg, View(w)) == Some(StoredIdentities(cfg, w.assets))
  {
    ViewedAssets(w);
    var m := View(w);
    forall a | a in m.assets ensures AssetOk(cfg, m.isDraft, a) {
      var s :| s in w.assets && a == ViewAsset(w, s);
      assert StoredOk(cfg, s);
    }
    var ids := set a | a in m.assets && a.id.Some? :: IdentityOf(cfg, a);
    forall d | d in StoredIdentities(cfg, w.assets) ensures d in ids {
      var s :| s in w.assets && d == Identity(s.id, s.name, s.size, s.digest, Download(cfg.tag, s.name));
      assert ViewAsset(w, s) in m.assets && d == IdentityOf(cfg, ViewAsset(w, s));
    }
    forall d | d in ids ensures d in StoredIdentities(cfg, w.assets) {
      var a :| a in m.assets && a.id.Some? && d == IdentityOf(cfg, a);
      var s :| s in w.assets && a == ViewAsset(w, s);
    }
    assert ids == StoredIdentities(cfg, w.assets);
  }

  lemma ViewedAssets(w: World)
    ensures |View(w).assets| == |w.assets|
    ensures forall i :: 0 <= i < |w.assets| ==> View(w).assets[i] == ViewAsset(w, w.assets[i])
    ensures forall s :: s in w.assets ==> ViewAsset(w, s) in View(w).assets
    ensures forall a :: a in View(w).assets ==> exists s :: s in w.assets && a == ViewAsset(w, s)
  {
    forall s | s in w.assets ensures ViewAsset(w, s) in View(w).assets {
      var i :| 0 <= i < |w.assets| && w.assets[i] == s;
      assert View(w).assets[i] == ViewAsset(w, s);
    }
  }

  /** The assets of a draft are described at its temporary location, those of a public release at their canonical one. */
  lemma LocationFollowsVisibility(cfg: Config, w: World, i: nat)
    requires Hosts(cfg, w) && i < |w.assets|
    ensures |View(w).assets| == |w.assets|
    ensures View(w).assets[i].url == Some(Download(if w.draft then w.slug else cfg.tag, w.assets[i].name))
  {
    ViewedAssets(w);
  }

  lemma AdmissibleLatest(cfg: Config, uploadable: seq<Stored>, w: World)
    requires Admissible(cfg, uploadable, w)
    ensures LatestAdmissible(cfg, w.id, ViewLatest(w))
    ensures ViewLatest(w).Some? && ViewLatest(w).value.tagName == cfg.tag <==> w.latest == ThisRelease
  {
    if w.latest == ThisRelease { assert ("v" + cfg.version)[1..] == cfg.version; }
  }
}
