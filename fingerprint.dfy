/**
 * `sha256_text` and `stable_source_id`: SHA-256 hex digests of UTF-8 text.
 * The digest function itself is a parameter: the model relies only on its
 * output being 64 lowercase hexadecimal characters.
 */
module Fingerprint {

  predicate IsLowerHex(c: char) {
    '0' <= c <= '9' || 'a' <= c <= 'f'
  }

  /** What `hexdigest()` returns for SHA-256: 64 lowercase hexadecimal characters. */
  type HexDigest = s: string | |s| == 64 && forall i :: 0 <= i < |s| ==> IsLowerHex(s[i])
    witness seq(64, _ => '0')

  /** `hashlib.sha256(s.encode("utf-8")).hexdigest()`, left uninterpreted. */
  type Sha256 = string -> HexDigest

  /** `sha256_text(text)`: the content fingerprint stored as `file_hash`; never empty. */
  function ContentHash(sha: Sha256, text: string): (h: string)
    ensures |h| == 64 && forall i :: 0 <= i < |h| ==> IsLowerHex(h[i])
  {
    sha(text)
  }

  /**
   * `stable_source_id(path)`: the first 16 hex characters of the digest of the
   * path. It takes no content, so editing a file keeps its id.
   */
  function StableSourceId(sha: Sha256, path: string): (id: string)
    ensures |id| == 16 && forall i :: 0 <= i < |id| ==> IsLowerHex(id[i])
    ensures id <= sha(path)
  {
    sha(path)[..16]
  }

  /** Two paths whose digests differ within the first 16 characters get different ids. */
  lemma SourceIdsDiffer(sha: Sha256, p: string, q: string, k: nat)
    requires k < 16 && sha(p)[k] != sha(q)[k]
    ensures StableSourceId(sha, p) != StableSourceId(sha, q)
  {
    assert StableSourceId(sha, p)[k] == sha(p)[k];
  }
}
