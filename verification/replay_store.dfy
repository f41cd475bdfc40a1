/** The replay store: uploaded files kept in the data directory under the name
    `<sha1 hexdigest>.SC2Replay`, written only when that name is absent
    (ahgl_admin.py:671-681), and read back by digest (`get_replay`,
    ahgl_admin.py:721-736). The directory is a map from digest to file bytes;
    SHA-1 itself is a parameter `sha1`, whose only known property is that it
    yields 40 lowercase hexadecimal characters. */
module ReplayStore {

  newtype byte = x: int | 0 <= x < 256

  type Bytes = seq<byte>

  predicate IsLowerHex(c: char) { '0' <= c <= '9' || 'a' <= c <= 'f' }

  /** The text `hashlib.sha1(...).hexdigest()` produces: 40 lowercase hex characters,
      i.e. exactly the strings matching `[0-9a-f]{40}` in full. */
  predicate IsDigestText(s: string) { |s| == 40 && forall i :: 0 <= i < |s| ==> IsLowerHex(s[i]) }

  type Digest = s: string | IsDigestText(s) witness "0000000000000000000000000000000000000000"

  /** The replay files of the data directory, by file-name stem. */
  type Blobs = map<Digest, Bytes>

  /** Every file holds bytes whose digest is its name. */
  predicate ContentAddressed(blobs: Blobs, sha1: Bytes -> Digest) {
    forall k :: k in blobs ==> sha1(blobs[k]) == k
  }

  datatype Stored = Stored(blobs: Blobs, digest: Digest)

  /** Storing one upload: compute the digest; write the file only if no file of
      that name exists yet. */
  function Put(blobs: Blobs, content: Bytes, sha1: Bytes -> Digest): (r: Stored)
    ensures r.digest == sha1(content)
    ensures r.blobs.Keys == blobs.Keys + {r.digest}
    ensures forall k :: k in blobs ==> r.blobs[k] == blobs[k]
    ensures r.digest !in blobs ==> r.blobs[r.digest] == content
  {
    var digest := sha1(content);
    if digest in blobs then Stored(blobs, digest) else Stored(blobs[digest := content], digest)
  }

  /** A store that is content addressed stays so after a put. */
  lemma PutKeepsContentAddressed(blobs: Blobs, content: Bytes, sha1: Bytes -> Digest)
    requires ContentAddressed(blobs, sha1)
    ensures ContentAddressed(Put(blobs, content, sha1).blobs, sha1)
  {
  }

  /** Putting the same bytes again changes nothing and yields the same digest:
      identical uploads are stored once. */
  lemma PutIdempotent(blobs: Blobs, content: Bytes, sha1: Bytes -> Digest)
    ensures var once := Put(blobs, content, sha1);
            Put(once.blobs, content, sha1) == once
  {
  }

  /** What a request for `/replay/<key>/...` gets back. `Malformed` and `Absent`
      are both an HTTP 404 in the application; they are kept apart here so that
      "rejected before any lookup" can be stated. */
  datatype Fetched = Malformed | Absent | Found(content: Bytes)

  /** `get_replay` with the key check the handler means to make: the key must be
      exactly 40 lowercase hex characters before the store is consulted. */
  function Fetch(blobs: Blobs, key: string): (r: Fetched)
    ensures r == Malformed <==> !IsDigestText(key)
    ensures r.Found? ==> key in blobs && blobs[key] == r.content
    ensures IsDigestText(key) && key in blobs ==> r.Found?
  {
    if !IsDigestText(key) then Malformed
    else if key in blobs then Found(blobs[key])
    else Absent
  }

  /** No stored file other than `content` itself has the digest of `content`. */
  predicate NoCollisionWith(blobs: Blobs, content: Bytes, sha1: Bytes -> Digest) {
    sha1(content) in blobs ==> blobs[sha1(content)] == content
  }

  /** Reading back the digest a put returned yields bytes with the same digest and,
      when no other file collides with them, the very bytes that were put. */
  lemma FetchAfterPut(blobs: Blobs, content: Bytes, sha1: Bytes -> Digest)
    requires ContentAddressed(blobs, sha1)
    ensures var s := Put(blobs, content, sha1);
            var got := Fetch(s.blobs, s.digest);
            got.Found? && sha1(got.content) == sha1(content)
            && (NoCollisionWith(blobs, content, sha1) ==> got.content == content)
  {
  }

  // ---------------------------------------------------------------------
  // The key check as written

  /** `re.search(r'^[0-9a-f]{40}$', key)`: in Python `$` also matches just before a
      final newline, so 40 hex characters followed by "\n" pass the check. */
  predicate MatchesAsWritten(key: string) {
    IsDigestText(key) || (|key| == 41 && IsDigestText(key[..40]) && key[40] == '\n')
  }

  /** `get_replay` as written: keys passing the looser check are looked up. */
  function FetchAsWritten(blobs: Blobs, key: string): (r: Fetched)
    ensures r == Malformed <==> !MatchesAsWritten(key)
    ensures r.Found? ==> IsDigestText(key) && key in blobs && blobs[key] == r.content
  {
    if !MatchesAsWritten(key) then Malformed
    else if IsDigestText(key) && key in blobs then Found(blobs[key])
    else Absent
  }

  /** The key `<digest>\n` is not a digest, yet the written check lets it through to
      a lookup of the file `<digest>\n.SC2Replay`; the intended check rejects it. */
  lemma NewlineKeyReachesLookup(d: Digest, blobs: Blobs)
    ensures var key := d + "\n";
            !IsDigestText(key) && FetchAsWritten(blobs, key) == Absent && Fetch(blobs, key) == Malformed
  {
    var key := d + "\n";
    assert key[..40] == d;
  }

  /** Away from that one shape of key, the written check and the intended one agree. */
  lemma FetchAgreesOffNewline(blobs: Blobs, key: string)
    requires !(|key| == 41 && key[40] == '\n')
    ensures FetchAsWritten(blobs, key) == Fetch(blobs, key)
  {
  }
}
