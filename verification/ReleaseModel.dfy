/**
 The values `publish` in scripts/publish_verified_release.py works on, its pure
 checks, and the gateway it talks to.

 A gateway answers anything at all, unless it is `honest`: then it describes one
 remote release that only this gateway's own calls change. Every call is logged.
 URLs are structured: `Download(segment, name)` is the release-download address
 of the repository with that path segment and file name.
 */
module ReleaseModel {
  import opened Common
  import opened Versions

  // ---------- arguments ----------

  predicate IsSha(s: string) {
    |s| == 40 && forall i :: 0 <= i < |s| ==> '0' <= s[i] <= '9' || 'a' <= s[i] <= 'f'
  }

  datatype Component = Native | Extension

  datatype LocalFile = LocalFile(size: int, sha: string)

  /**
     The arguments of one publication and the local bundle. `bundleValid` is the part
     of the bundle check that looks at local files only; `normalize` and `strip` are
     the two ways the program reads a digest field (module `DigestFields`).
   */
  datatype Config = Config(
    component: Component, version: string, tag: string, sourceSha: string, workflowHeadSha: string, nativeTag: string,
    local: map<string, LocalFile>, expectedNames: set<string>, bundleValid: bool,
    normalize: string -> Option<string>, strip: string -> string)
  {
    predicate ArgumentsOk() {
      && ParseSemver(version).Some?
      && tag == (if component == Native then "v" else "dcc-cua-browser-extension-v") + version
      && IsSha(sourceSha) && IsSha(workflowHeadSha)
      && TagVersion(nativeTag).Some?
      && (component == Native ==> nativeTag == tag)
    }

    predicate BundleOk() {
      && bundleValid && local.Keys == expectedNames
      && forall name :: name in local ==> normalize("sha256:" + local[name].sha) == Some(local[name].sha)
    }
  }

  // ---------- metadata ----------

  datatype Url = Download(segment: string, name: string) | OtherUrl(text: string)

  /** `None` stands for a field that is missing or of the wrong type. */
  datatype Asset = Asset(id: Option<int>, name: string, size: int, state: string, digest: string, url: Option<Url>)

  datatype Release = Release(
    id: Option<int>, tagName: string, targetCommitish: string,
    isDraft: Option<bool>, isPrerelease: Option<bool>, assets: seq<Asset>)

  datatype Identity = Identity(id: int, name: string, size: int, digest: string, url: Url)

  /** `content`: the metadata lists exactly the local files, fully uploaded, with their sizes and digests. */
  predicate Content(cfg: Config, m: Release) {
    && cfg.BundleOk()
    && m.tagName == cfg.tag && m.targetCommitish == cfg.sourceSha
    && (forall i, j :: 0 <= i < j < |m.assets| ==> m.assets[i].name != m.assets[j].name)
    && (set a | a in m.assets :: a.name) == cfg.expectedNames
    && (forall a :: a in m.assets && a.name in cfg.local ==>
          a.state == "uploaded" && a.size == cfg.local[a.name].size && cfg.normalize(a.digest) == Some(cfg.local[a.name].sha))
  }

  /** A temporary location of a draft asset. */
  predicate Untagged(segment: string) {
    && "untagged-" < segment && |segment| <= 9 + 128
    && forall i :: 9 <= i < |segment| ==>
         'A' <= segment[i] <= 'Z' || 'a' <= segment[i] <= 'z' || '0' <= segment[i] <= '9' || segment[i] == '_' || segment[i] == '-'
  }

  predicate AssetOk(cfg: Config, draft: Option<bool>, a: Asset) {
    && a.id.Some? && a.id.value > 0
    && a.url.Some? && a.url.value.Download? && a.url.value.name == a.name
    && (a.url.value.segment == cfg.tag || (draft == Some(true) && Untagged(a.url.value.segment)))
  }

  function IdentityOf(cfg: Config, a: Asset): Identity
    requires a.id.Some?
  {
    Identity(a.id.value, a.name, a.size, a.digest, Download(cfg.tag, a.name))
  }

  /** `asset_identities`; the sorted list has no repetition, so a set says the same. */
  function AssetIdentities(cfg: Config, m: Release): Option<set<Identity>> {
    if && (forall a :: a in m.assets ==> AssetOk(cfg, m.isDraft, a))
       && (forall i, j :: 0 <= i < j < |m.assets| ==> m.assets[i].id != m.assets[j].id)
    then Some(set a | a in m.assets && a.id.Some? :: IdentityOf(cfg, a))
    else None
  }

  predicate SameRelease(cfg: Config, id: int, m: Release) {
    m.id == Some(id) && m.tagName == cfg.tag && m.targetCommitish == cfg.sourceSha
  }

  /** A fresh read of release `id` that passed all identity checks; `complete` adds the content checks. */
  predicate FreshOk(cfg: Config, id: int, frozen: Option<set<Identity>>, complete: bool, m: Release) {
    && SameRelease(cfg, id, m) && m.isDraft.Some? && m.isPrerelease.Some?
    && (complete ==> Content(cfg, m) && (frozen.Some? ==> AssetIdentities(cfg, m) == frozen))
  }

  /** `latest_guard`. */
  predicate LatestAdmissible(cfg: Config, id: int, latest: Option<Release>) {
    if latest.None? then cfg.component == Native
    else
      var l := latest.value;
      && l.isDraft == Some(false) && l.isPrerelease == Some(false)
      && (cfg.component == Extension ==> l.tagName == cfg.nativeTag)
      && (cfg.component == Native ==> NotNewer(l.tagName, cfg.tag))
      && (l.tagName == cfg.tag ==> l.id == Some(id) && l.targetCommitish == cfg.sourceSha)
  }

  function LatestTag(latest: Option<Release>): Option<string> {
    if latest.None? then None else Some(latest.value.tagName)
  }

  /** The promotion patch is sent unless the release is stable already, and Latest if native. */
  predicate PromotionNeeded(cfg: Config, m: Release, latest: Option<Release>) {
    || m.isDraft != Some(false) || m.isPrerelease != Some(false)
    || (cfg.component == Native && LatestTag(latest) != Some(cfg.tag))
  }

  /** What success reports: a stable release with the frozen assets, and the right Latest. */
  predicate Published(cfg: Config, id: int, frozen: set<Identity>, m: Release, latest: Option<Release>) {
    && FreshOk(cfg, id, Some(frozen), true, m) && m.isDraft == Some(false) && m.isPrerelease == Some(false)
    && LatestAdmissible(cfg, id, latest)
    && LatestTag(latest) == Some(if cfg.component == Native then cfg.tag else cfg.nativeTag)
    && (cfg.component == Extension ==> LatestTag(latest) != Some(cfg.tag))
  }

  // ---------- the remote side ----------

  /** A stored asset; `sha` is what its public bytes hash to. */
  datatype Stored = Stored(id: int, name: string, size: int, digest: string, sha: string)

  datatype LatestState = NoLatest | ThisRelease | OtherLatest(release: Release)

  datatype World = World(
    id: int, tagName: string, targetCommitish: string, tagSha: string,
    draft: bool, prerelease: bool, slug: string, assets: seq<Stored>, latest: LatestState)

  /** How the API describes the release. */
  function View(w: World): Release {
    Release(Some(w.id), w.tagName, w.targetCommitish, Some(w.draft), Some(w.prerelease),
            seq(|w.assets|, (i: int) requires 0 <= i < |w.assets| => ViewAsset(w, w.assets[i])))
  }

  function ViewAsset(w: World, s: Stored): Asset {
    Asset(Some(s.id), s.name, s.size, "uploaded", s.digest, Some(Download(if w.draft then w.slug else w.tagName, s.name)))
  }

  function ViewLatest(w: World): Option<Release> {
    match w.latest
    case NoLatest => None
    case ThisRelease => Some(View(w))
    case OtherLatest(r) => Some(r)
  }

  /** The effect of a PATCH that makes the release public. */
  function AfterPatch(w: World, prerelease: bool, makeLatest: bool): World {
    w.(draft := false, prerelease := prerelease, latest := if makeLatest then ThisRelease else w.latest)
  }

  datatype Event =
    | ReleaseRead(release: Option<Release>)
    | TagRead(sha: Option<string>)
    | LatestRead(latest: Option<Option<Release>>)
    | Uploaded
    | UploadRefused
    | Patched(id: int, prerelease: bool, makeLatest: bool)
    | DigestRead(url: Url, size: int, answer: Option<(int, string)>)

  /** What a `resume` gateway insists on. */
  datatype Resume = Resume(releaseId: int, expectedHash: string)

  type AssetKeys = multiset<(Option<int>, string, int, string)>

  function Keys(assets: seq<Asset>): AssetKeys {
    if assets == [] then multiset{}
    else
      var a := assets[|assets| - 1];
      Keys(assets[..|assets| - 1]) + multiset{(a.id, a.name, a.size, a.digest)}
  }

  function StoredKeys(assets: seq<Stored>): AssetKeys {
    if assets == [] then multiset{}
    else
      var s := assets[|assets| - 1];
      StoredKeys(assets[..|assets| - 1]) + multiset{(Some(s.id), s.name, s.size, s.digest)}
  }

  /** The keys are exactly what id, name, size and digest of the assets say, one for each asset. */
  lemma {:induction false} KeysAreOfAssets(assets: seq<Asset>, key: (Option<int>, string, int, string))
    ensures |Keys(assets)| == |assets|
    ensures key in Keys(assets) <==>
      exists a :: a in assets && a.id == key.0 && a.name == key.1 && a.size == key.2 && a.digest == key.3
  {
    if assets != [] {
      var init, last := assets[..|assets| - 1], assets[|assets| - 1];
      KeysAreOfAssets(init, key);
      assert assets == init + [last];
    }
  }

  /** Draft locations are transient: they do not enter the keys. */
  lemma {:induction false} ViewKeys(w: World)
    ensures Keys(View(w).assets) == StoredKeys(w.assets)
    decreases |w.assets|
  {
    if w.assets != [] {
      var shorter := w.(assets := w.assets[..|w.assets| - 1]);
      ViewKeys(shorter);
      assert View(w).assets[..|w.assets| - 1] == View(shorter).assets;
    }
  }

  /** `GitHub`, and `ExistingAssetsGitHub` when `resume` is set. A `None` or `false` answer is an exception. */
  class Gateway {
    const honest: bool
    const uploadable: seq<Stored>
    const resume: Option<Resume>
    const identityHash: AssetKeys -> string
    var assetIdentities: Option<AssetKeys>
    var world: World
    ghost var trace: seq<Event>
    ghost var history: seq<World>

    /** The honest, undisturbed world; a resuming gateway also recognises the release. */
    ghost predicate Cooperative() reads this {
      && honest
      && (resume.Some? ==>
            && world.id == resume.value.releaseId && world.assets != []
            && identityHash(StoredKeys(world.assets)) == resume.value.expectedHash
            && (assetIdentities.Some? ==> assetIdentities == Some(StoredKeys(world.assets))))
    }

    ghost method StartLog()
      modifies this`trace, this`history
      ensures trace == [] && history == [world]
    {
      trace, history := [], [world];
    }

    method ReadRelease() returns (r: Option<Release>)
      modifies this`assetIdentities, this`trace, this`history
      ensures trace == old(trace) + [ReleaseRead(r)] && history == old(history) + [world]
      ensures old(Cooperative()) ==> Cooperative() && r == Some(View(world))
      ensures resume.Some? && r.Some? ==> r.value.assets != [] && r.value.id == Some(resume.value.releaseId)
      ensures resume.Some? && r.Some? ==> identityHash(Keys(r.value.assets)) == resume.value.expectedHash
      ensures resume.Some? && r.Some? ==> assetIdentities == Some(Keys(r.value.assets))
      ensures old(assetIdentities).Some? ==> assetIdentities == old(assetIdentities)
    {
      r := *;
      if honest {
        r := Some(View(world));
        ViewKeys(world);
      }
      if r.Some? && resume.Some? {
        var keys := Keys(r.value.assets);
        if || r.value.id != Some(resume.value.releaseId) || r.value.assets == []
           || identityHash(keys) != resume.value.expectedHash
           || (assetIdentities.Some? && assetIdentities != Some(keys)) {
          r := None;
        } else {
          assetIdentities := Some(keys);
        }
      }
      trace, history := trace + [ReleaseRead(r)], history + [world];
    }

    method ReadTag() returns (r: Option<string>)
      modifies this`trace, this`history
      ensures trace == old(trace) + [TagRead(r)] && history == old(history) + [world]
      ensures honest ==> r == Some(world.tagSha)
    {
      r := *;
      if honest { r := Some(world.tagSha); }
      trace, history := trace + [TagRead(r)], history + [world];
    }

    method ReadLatest() returns (r: Option<Option<Release>>)
      modifies this`trace, this`history
      ensures trace == old(trace) + [LatestRead(r)] && history == old(history) + [world]
      ensures honest ==> r == Some(ViewLatest(world))
    {
      r := *;
      if honest { r := Some(ViewLatest(world)); }
      trace, history := trace + [LatestRead(r)], history + [world];
    }

    method Upload() returns (ok: bool)
      modifies this`world, this`trace, this`history
      ensures history == old(history) + [world]
      ensures resume.Some? ==> !ok && trace == old(trace) + [UploadRefused] && world == old(world)
      ensures resume.None? ==> trace == old(trace) + [Uploaded]
      ensures resume.None? && honest ==> ok && world == old(world).(assets := uploadable)
    {
      ok := false;
      if resume.Some? {
        trace := trace + [UploadRefused];
      } else {
        ok := *;
        if honest {
          world := world.(assets := uploadable);
          ok := true;
        }
        trace := trace + [Uploaded];
      }
      history := history + [world];
    }

    method Patch(id: int, prerelease: bool, makeLatest: bool) returns (ok: bool)
      modifies this`world, this`trace, this`history
      ensures trace == old(trace) + [Patched(id, prerelease, makeLatest)] && history == old(history) + [world]
      ensures honest && id == old(world).id ==> ok && world == AfterPatch(old(world), prerelease, makeLatest)
      ensures honest && id != old(world).id ==> world == old(world)
    {
      ok := *;
      if honest {
        ok := id == world.id;
        if ok { world := AfterPatch(world, prerelease, makeLatest); }
      }
      trace, history := trace + [Patched(id, prerelease, makeLatest)], history + [world];
    }

    method PublicDigest(url: Url, size: int) returns (r: Option<(int, string)>)
      modifies this`trace, this`history
      ensures trace == old(trace) + [DigestRead(url, size, r)] && history == old(history) + [world]
      ensures honest && !world.draft && UniqueNames(world.assets) ==>
        forall s :: s in world.assets && url == Download(world.tagName, s.name) && size == s.size ==> r == Some((s.size, s.sha))
    {
      r := *;
      if honest && !world.draft {
        if i :| 0 <= i < |world.assets| && url == Download(world.tagName, world.assets[i].name) && size == world.assets[i].size {
          r := Some((world.assets[i].size, world.assets[i].sha));
        }
      }
      trace, history := trace + [DigestRead(url, size, r)], history + [world];
    }
  }

  predicate UniqueNames(assets: seq<Stored>) {
    forall i, j :: 0 <= i < j < |assets| ==> assets[i].name != assets[j].name
  }
}
