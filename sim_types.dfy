/**
 * The values that package `sim` passes between its samplers and its runner
 * (pkg/sim/runner.go and pkg/sim/samplers.go). Authors, keys and envelopes
 * belong to the libri client library; the model sees them only as opaque
 * identities.
 */
module SimTypes {
  import opened Results

  /** Go's `byte`. */
  newtype byte = x: int | 0 <= x < 256

  /** A simulated author (an `*author.Author`), identified by an opaque number. */
  datatype Author = Author(clientId: nat)

  /** An ECDSA public key, by its curve point. */
  datatype PublicKey = PublicKey(x: nat, y: nat)

  /** An author keychain, by the public halves of the keys it can sample. */
  datatype Keychain = Keychain(keys: seq<PublicKey>)

  /** An uploaded envelope, as returned by the author's Upload. */
  datatype Envelope = Envelope(id: nat)

  /** The key of an envelope created by sharing, as returned by ShareEnvelope. */
  datatype EnvKey = EnvKey(id: nat)

  /** One document to upload and the recipients to share it with. */
  datatype UploadEvent = UploadEvent(content: seq<byte>, from: Author, shareWith: seq<PublicKey>)

  /** One shared envelope to download; `to` is what the directory returned for the recipient, possibly nil. */
  datatype DownloadEvent = DownloadEvent(to: Option<Author>, envKey: EnvKey)

  /** The causes of a Go panic, which aborts the whole simulation. */
  datatype Panic =
    | NonPositiveBound      // rand.Int31n called with a bound <= 0
    | EmptyKeychain         // keychain.Sample on a keychain holding no key
    | ReadFailed            // the random source's Read returned an error
    | ShortReads(size: nat) // three reads each filled fewer than size bytes
}
