/**
 What a successful run of `publish` means to a user of the release, in terms of
 the raw calls and the local files only.
 */
module Success {
  import opened Common
  import opened ReleaseModel
  import opened Publication
  import opened Publisher
  import DigestFields

  /** A download of the file's size whose bytes hash to a digest that reads as the file's. */
  predicate IsServing(cfg: Config, e: Event, url: Url, file: LocalFile, field: string) {
    e == DigestRead(url, file.size, Some((file.size, cfg.strip(field)))) && cfg.normalize(field) == Some(file.sha)
  }

  ghost predicate ServedAs(cfg: Config, t: seq<Event>, name: string) {
    exists i, field :: 0 <= i < |t| && name in cfg.local && IsServing(cfg, t[i], Download(cfg.tag, name), cfg.local[name], field)
  }

  /** The metadata has one asset for each local file, with its size, and no others. */
  predicate ShowsFiles(cfg: Config, m: Release) {
    && |m.assets| == |cfg.local|
    && (forall i :: 0 <= i < |m.assets| ==> m.assets[i].name in cfg.local && m.assets[i].size == cfg.local[m.assets[i].name].size)
    && (forall name :: name in cfg.local ==> exists i :: 0 <= i < |m.assets| && m.assets[i].name == name)
  }

  /** The three reads show the stable release of this id, tag and source, with the local files; and Latest as it must be. */
  predicate ShowsStable(cfg: Config, id: int, release: Event, tag: Event, latest: Event) {
    && release.ReleaseRead? && release.release.Some?
    && var m := release.release.value;
    && m.id == Some(id) && m.tagName == cfg.tag && m.targetCommitish == cfg.sourceSha
    && m.isDraft == Some(false) && m.isPrerelease == Some(false) && ShowsFiles(cfg, m)
    && tag == TagRead(Some(cfg.sourceSha))
    && latest.LatestRead? && latest.latest.Some? && latest.latest.value.Some?
    && var l := latest.latest.value.value;
    && l.isDraft == Some(false) && l.isPrerelease == Some(false)
    && if cfg.component == Native then l.tagName == cfg.tag && l.id == Some(id) && l.targetCommitish == cfg.sourceSha
       else l.tagName == cfg.nativeTag && l.tagName != cfg.tag
  }

  /**
     The bytes at the public address of every local file were read, and hash to that
     file's digest; and the last three reads show the release of the run stable, with
     exactly the local files as its assets, and the right Latest.
   */
  lemma SuccessMeans(cfg: Config, c: Commitment, t: seq<Event>, tag: Option<string>)
    requires ProvenPublished(cfg, c, t, tag)
    ensures forall name :: name in cfg.local ==> ServedAs(cfg, t, name)
    ensures |t| >= 3 && ShowsStable(cfg, c.id, t[|t| - 3], t[|t| - 2], t[|t| - 1])
  {
    var q, k :| 0 <= k <= |q| && VerifiedFrozen(cfg, c, q[..k]) && EndsPublished(cfg, t, q, c, tag);
    EndShowsStable(cfg, c, t, q, tag);
    forall name | name in cfg.local ensures ServedAs(cfg, t, name) {
      ServedInPrefix(cfg, c, t, q, k, name);
    }
  }

  lemma ServedInPrefix(cfg: Config, c: Commitment, t: seq<Event>, q: seq<Event>, k: nat, name: string)
    requires q <= t && k <= |q| && BytesVerified(cfg, q[..k], c) && name in cfg.local
    ensures ServedAs(cfg, t, name)
  {
    VerifiedIsServed(cfg, c, q[..k], name);
    ServedEarlier(cfg, q[..k], t, name);
  }

  lemma EndShowsStable(cfg: Config, c: Commitment, t: seq<Event>, q: seq<Event>, tag: Option<string>)
    requires EndsPublished(cfg, t, q, c, tag)
    ensures q <= t && |t| == |q| + 3 && ShowsStable(cfg, c.id, t[|t| - 3], t[|t| - 2], t[|t| - 1])
  {
    var m, latest :| t == q + GateEvents(cfg, m, latest) && Published(cfg, c.id, c.frozen, m, latest) && tag == LatestTag(latest);
    ContentShowsFiles(cfg, m);
  }

  lemma ContentShowsFiles(cfg: Config, m: Release)
    requires Content(cfg, m)
    ensures ShowsFiles(cfg, m)
    ensures forall i :: 0 <= i < |m.assets| && m.assets[i].name in cfg.local ==>
      cfg.normalize(m.assets[i].digest) == Some(cfg.local[m.assets[i].name].sha)
  {
    AssetNames(m.assets);
    assert |cfg.local| == |cfg.local.Keys|;
    forall i | 0 <= i < |m.assets| ensures m.assets[i].name in cfg.local && m.assets[i].size == cfg.local[m.assets[i].name].size {
      assert m.assets[i].name in set a | a in m.assets :: a.name;
    }
    forall name | name in cfg.local ensures exists i :: 0 <= i < |m.assets| && m.assets[i].name == name {
      assert name in set a | a in m.assets :: a.name;
    }
  }

  lemma {:induction false} AssetNames(assets: seq<Asset>)
    requires forall i, j :: 0 <= i < j < |assets| ==> assets[i].name != assets[j].name
    ensures |set a | a in assets :: a.name| == |assets|
  {
    if assets != [] {
      var init, last := assets[..|assets| - 1], assets[|assets| - 1];
      AssetNames(init);
      assert (set a | a in assets :: a.name) == (set a | a in init :: a.name) + {last.name};
    }
  }

  /** Verification after the freeze read every local file from its public address. */
  lemma VerifiedIsServed(cfg: Config, c: Commitment, t: seq<Event>, name: string)
    requires BytesVerified(cfg, t, c) && name in cfg.local
    ensures ServedAs(cfg, t, name)
  {
    var q, m, digests :| t == q + FreshEvents(cfg, m) + digests && PublicRead(cfg, c, m) && DigestsMatch(cfg, c.frozen, digests);
    ServedBehind(cfg, c.frozen, t, q, m, digests, name);
  }

  lemma ServedBehind(cfg: Config, frozen: set<Identity>, t: seq<Event>, q: seq<Event>, m: Release, digests: seq<Event>, name: string)
    requires t == q + FreshEvents(cfg, m) + digests && name in cfg.local
    requires Content(cfg, m) && AssetIdentities(cfg, m) == Some(frozen) && DigestsMatch(cfg, frozen, digests)
    ensures ServedAs(cfg, t, name)
  {
    var k := AssetOf(cfg, m, name);
    var i := AssetIsServed(cfg, m, frozen, digests, k);
    var at := |q| + 2 + i;
    assert t[at] == digests[i];
    assert IsServing(cfg, t[at], Download(cfg.tag, name), cfg.local[name], m.assets[k].digest);
  }

  lemma AssetOf(cfg: Config, m: Release, name: string) returns (k: nat)
    requires Content(cfg, m) && name in cfg.local
    ensures k < |m.assets| && m.assets[k].name == name && m.assets[k].size == cfg.local[name].size
    ensures cfg.normalize(m.assets[k].digest) == Some(cfg.local[name].sha)
  {
    ContentShowsFiles(cfg, m);
    k :| 0 <= k < |m.assets| && m.assets[k].name == name;
  }

  lemma AssetIsServed(cfg: Config, m: Release, frozen: set<Identity>, digests: seq<Event>, k: nat) returns (i: nat)
    requires AssetIdentities(cfg, m) == Some(frozen) && DigestsMatch(cfg, frozen, digests) && k < |m.assets|
    ensures var a := m.assets[k];
      i < |digests| && digests[i] == DigestRead(Download(cfg.tag, a.name), a.size, Some((a.size, cfg.strip(a.digest))))
  {
    var a := m.assets[k];
    assert AssetOk(cfg, m.isDraft, a);
    var d := IdentityOf(cfg, a);
    assert d in frozen;
    i :| 0 <= i < |digests| && digests[i] == DigestRead(d.url, d.size, Some((d.size, cfg.strip(d.digest))));
  }

  lemma ServedEarlier(cfg: Config, t: seq<Event>, t': seq<Event>, name: string)
    requires t <= t' && ServedAs(cfg, t, name)
    ensures ServedAs(cfg, t', name)
  {
    var i, field :| 0 <= i < |t| && name in cfg.local && IsServing(cfg, t[i], Download(cfg.tag, name), cfg.local[name], field);
    assert t'[i] == t[i];
  }

  /** A download whose answer is the file's size and, up to letter case, its digest. */
  predicate Serves(e: Event, url: Url, file: LocalFile) {
    e.DigestRead? && e.url == url && e.answer.Some? && e.answer.value.0 == file.size && DigestFields.Lower(e.answer.value.1) == file.sha
  }

  /** With the program's own ways to read a digest field. */
  lemma ServedBytesHash(cfg: Config, t: seq<Event>, name: string)
    requires ServedAs(cfg, t, name) && cfg.normalize == DigestFields.Normalize && cfg.strip == DigestFields.Strip
    ensures exists i :: 0 <= i < |t| && Serves(t[i], Download(cfg.tag, name), cfg.local[name])
  {
    var i, field :| 0 <= i < |t| && IsServing(cfg, t[i], Download(cfg.tag, name), cfg.local[name], field);
    DigestFields.NormalizedIsLowered(field, cfg.local[name].sha);
    assert Serves(t[i], Download(cfg.tag, name), cfg.local[name]);
  }
}
