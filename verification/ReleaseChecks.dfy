/**
 What the checks of a publication come down to, in terms of the raw metadata and
 the arguments: `publish` in scripts/publish_verified_release.py, lines 139-153
 and 177-234.
 */
module ReleaseChecks {
  import opened Common
  import opened ReleaseModel
  import opened Publication
  import opened Versions

  const HEX_DIGITS := "0123456789abcdef"

  predicate IsCommitName(s: string) {
    |s| == 40 && forall i :: 0 <= i < |s| ==> s[i] in HEX_DIGITS
  }

  lemma ShasAreCommitNames(s: string)
    ensures IsSha(s) <==> IsCommitName(s)
  {
    assert forall c: char :: '0' <= c <= '9' || 'a' <= c <= 'f' <==> c in HEX_DIGITS;
  }

  // ---------- arguments ----------

  /** Accepted arguments speak of one version; the sources are full commit names. */
  lemma ArgumentsNameOneVersion(cfg: Config)
    requires cfg.ArgumentsOk()
    ensures IsCommitName(cfg.sourceSha) && IsCommitName(cfg.workflowHeadSha)
    ensures ParseSemver(cfg.version).Some? && TagVersion(cfg.nativeTag).Some?
    ensures cfg.component == Native ==> TagVersion(cfg.tag) == ParseSemver(cfg.version) == TagVersion(cfg.nativeTag)
    ensures cfg.component == Extension ==> cfg.tag[..27] == "dcc-cua-browser-extension-v" && cfg.tag[27..] == cfg.version
  {
    ShasAreCommitNames(cfg.sourceSha);
    ShasAreCommitNames(cfg.workflowHeadSha);
    if cfg.component == Native {
      assert cfg.tag[1..] == cfg.version;
    } else {
      assert cfg.tag[27..] == cfg.version;
    }
  }

  /** A printed version and tags made from it are accepted. */
  lemma PrintedArgumentsAreAccepted(cfg: Config, version: Version, native: Version)
    requires IsCommitName(cfg.sourceSha) && IsCommitName(cfg.workflowHeadSha)
    requires cfg.version == PrintVersion(version) && cfg.nativeTag == "v" + PrintVersion(native)
    requires cfg.component == Native ==> cfg.tag == "v" + cfg.version && native == version
    requires cfg.component == Extension ==> cfg.tag == "dcc-cua-browser-extension-v" + cfg.version
    ensures cfg.ArgumentsOk()
  {
    ShasAreCommitNames(cfg.sourceSha);
    ShasAreCommitNames(cfg.workflowHeadSha);
    TagVersionUndoesPrinting(version);
    TagVersionUndoesPrinting(native);
    assert ("v" + cfg.version)[1..] == cfg.version;
  }

  // ---------- the reads in front of a mutation ----------

  /** The release of this id, tag and source, its visibility stated, and its tag at the source. */
  predicate ReadsThisRelease(cfg: Config, id: int, release: Event, tag: Event) {
    && release.ReleaseRead? && release.release.Some?
    && var m := release.release.value;
    && m.id == Some(id) && m.tagName == cfg.tag && m.targetCommitish == cfg.sourceSha
    && m.isDraft.Some? && m.isPrerelease.Some? && tag == TagRead(Some(cfg.sourceSha))
  }

  /** Latest is a stable release, the native one if an extension is published; only native publication does without. */
  predicate ReadsStableLatest(cfg: Config, id: int, e: Event) {
    && e.LatestRead? && e.latest.Some?
    && match e.latest.value
       case None => cfg.component == Native
       case Some(l) =>
         && l.isDraft == Some(false) && l.isPrerelease == Some(false)
         && (cfg.component == Extension ==> l.tagName == cfg.nativeTag)
         && (l.tagName == cfg.tag ==> l.id == Some(id) && l.targetCommitish == cfg.sourceSha)
  }

  /** Directly before every mutation: this release, its tag, and a stable Latest. */
  predicate ReadBefore(cfg: Config, id: int, before: seq<Event>) {
    var n := |before|;
    && n >= 3 && ReadsThisRelease(cfg, id, before[n - 3], before[n - 2]) && ReadsStableLatest(cfg, id, before[n - 1])
  }

  lemma GateReads(cfg: Config, before: seq<Event>, q: seq<Event>, m: Release, latest: Option<Release>,
                  id: int, frozen: Option<set<Identity>>, complete: bool)
    requires Gate(cfg, before, q, m, latest, id, frozen, complete)
    ensures ReadBefore(cfg, id, before) && before[|before| - 3] == ReleaseRead(Some(m))
  {
    var n := |q|;
    assert before[n] == GateEvents(cfg, m, latest)[0];
    assert before[n + 1] == GateEvents(cfg, m, latest)[1];
    assert before[n + 2] == GateEvents(cfg, m, latest)[2];
  }

  lemma MutationsFollowReads(cfg: Config, c: Commitment, t: seq<Event>, i: nat)
    requires Safe(cfg, c, t) && i < |t| && IsMutation(t[i])
    ensures ReadBefore(cfg, c.id, t[..i])
    ensures IsUpload(t[i]) ==> t[i - 3].release.value.assets == []
  {
    SafeAt(cfg, c, t, i);
    var before := t[..i];
    if IsUpload(t[i]) {
      var q, m, latest :| Gate(cfg, before, q, m, latest, c.id, None, false) && m.assets == [];
      GateReads(cfg, before, q, m, latest, c.id, None, false);
    } else if t[i].prerelease {
      var q, m, latest :| Gate(cfg, before, q, m, latest, c.id, Some(c.frozen), true) && FrozenAsDraft(cfg, c, q);
      GateReads(cfg, before, q, m, latest, c.id, Some(c.frozen), true);
    } else {
      PromotionFollowsReads(cfg, c, before, t[i].makeLatest);
    }
  }

  lemma PromotionFollowsReads(cfg: Config, c: Commitment, before: seq<Event>, makeLatest: bool)
    requires PromotionJustified(cfg, c, before, makeLatest)
    ensures ReadBefore(cfg, c.id, before)
  {
    var q, m, latest :| Gate(cfg, before, q, m, latest, c.id, Some(c.frozen), true) && VerifiedFrozen(cfg, c, q) && PromotionNeeded(cfg, m, latest);
    GateReads(cfg, before, q, m, latest, c.id, Some(c.frozen), true);
  }

  // ---------- the read that froze the assets ----------

  /** A fully uploaded asset under an id of its own. */
  predicate IsComplete(a: Asset) {
    a.state == "uploaded" && a.id.Some? && a.id.value > 0
  }

  /** At the canonical address, or, as long as the release is a draft, at a temporary one. */
  predicate LocatedAt(cfg: Config, m: Release, a: Asset) {
    && a.url.Some? && a.url.value.Download? && a.url.value.name == a.name
    && var segment := a.url.value.segment;
    || segment == cfg.tag
    || (m.isDraft == Some(true) && 10 <= |segment| <= 137 && segment[..9] == "untagged-")
  }

  lemma ContentIsUploaded(cfg: Config, m: Release, i: nat)
    requires Content(cfg, m) && i < |m.assets|
    ensures m.assets[i].state == "uploaded" && m.assets[i].name in cfg.local
  {
    assert m.assets[i].name in set a | a in m.assets :: a.name;
  }

  lemma IdentifiedIsLocated(cfg: Config, m: Release, i: nat)
    requires AssetIdentities(cfg, m).Some? && i < |m.assets|
    ensures m.assets[i].id.Some? && m.assets[i].id.value > 0 && LocatedAt(cfg, m, m.assets[i])
    ensures IdentityOf(cfg, m.assets[i]) in AssetIdentities(cfg, m).value
  {
    assert AssetOk(cfg, m.isDraft, m.assets[i]);
  }

  /** The frozen identities are those of fully uploaded local files with positive, distinct ids. */
  lemma FreezeIsExact(cfg: Config, c: Commitment, m: Release, i: nat)
    requires Freezes(cfg, c, m) && i < |m.assets|
    ensures var a := m.assets[i];
      && IsComplete(a) && LocatedAt(cfg, m, a) && a.name in cfg.local
      && Identity(a.id.value, a.name, a.size, a.digest, Download(cfg.tag, a.name)) in c.frozen
    ensures forall j :: 0 <= j < |m.assets| && j != i ==> m.assets[j].id != m.assets[i].id
  {
    ContentIsUploaded(cfg, m, i);
    IdentifiedIsLocated(cfg, m, i);
  }

  /** And no others. */
  lemma FrozenIsAnAsset(cfg: Config, c: Commitment, m: Release, d: Identity) returns (i: nat)
    requires Freezes(cfg, c, m) && d in c.frozen
    ensures i < |m.assets| && m.assets[i].name == d.name && m.assets[i].id == Some(d.id)
    ensures m.assets[i].size == d.size && m.assets[i].digest == d.digest
  {
    var a :| a in m.assets && a.id.Some? && IdentityOf(cfg, a) == d;
    i :| 0 <= i < |m.assets| && m.assets[i] == a;
  }
}
