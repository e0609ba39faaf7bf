/**
 The two ways release checks read a digest field: `_normalize_digest`
 (scripts/release_integrity.py, lines 68-74) and `removeprefix`
 (scripts/publish_verified_release.py, line 261).
 */
module DigestFields {
  import opened Common

  predicate IsDigest(s: string) {
    |s| == 64 && forall i :: 0 <= i < |s| ==> '0' <= s[i] <= '9' || 'a' <= s[i] <= 'f'
  }

  function LowerChar(c: char): char {
    if 'A' <= c <= 'Z' then (c as int - 'A' as int + 'a' as int) as char else c
  }

  function Lower(s: string): string {
    seq(|s|, (i: int) requires 0 <= i < |s| => LowerChar(s[i]))
  }

  /** A digest field without its algorithm. */
  function Strip(s: string): string {
    if "sha256:" <= s then s[7..] else s
  }

  /** Lowercase hexadecimal, or no SHA-256 digest at all. */
  function Normalize(s: string): Option<string> {
    var digest := Lower(Strip(s));
    if IsDigest(digest) then Some(digest) else None
  }

  /** A normalized digest is what is left of the field in lower case. */
  lemma NormalizedIsLowered(s: string, digest: string)
    ensures Normalize(s) == Some(digest) ==> IsDigest(digest) && Lower(Strip(s)) == digest
  {}

  /** A digest as computed locally reads as itself, with and without its algorithm. */
  lemma LocalDigestIsNormal(digest: string)
    requires IsDigest(digest)
    ensures Normalize("sha256:" + digest) == Some(digest) && Normalize(digest) == Some(digest)
    ensures Strip("sha256:" + digest) == digest
  {
    assert ("sha256:" + digest)[7..] == digest;
    assert !("sha256:" <= digest) by { assert digest[0] != 's'; }
    assert Lower(digest) == digest;
  }
}
