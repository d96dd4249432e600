/** What a caller sees who reads the stream of a verified Get to its end (pkg/ossx/blobstore.go,
    pkg/ossx/helpers.go). */
module VerifiedReads {
  import opened Wrappers
  import opened Errors
  import opened Digests
  import opened Keys
  import opened Config
  import opened ChecksumReader
  import Invariants
  import Spec = StoreSpec

  /** In every reachable state, reading what Get with verification returned to its end gives the stored body
      without error, whatever the sizes of the reads and however the stream is cut. ChecksumVerified ends
      true exactly when the stored object has a checksum of a known length. */
  method ReadToEnd(cfg: Config, lib: Library, ghost events: seq<Invariants.Event>, key: string, ghost env: Spec.Env, reader: Spec.Reader,
                   offer: nat -> nat, eager: nat -> bool, stalls: nat, size: nat -> nat)
    returns (content: seq<byte>, err: Option<GoError>, owner: ObjectReader)
    requires Spec.Get(cfg, lib, Invariants.Execute(cfg, lib, Invariants.START, events).store, key, true, env).1 == Ok(Some(reader))
    ensures var objects := Invariants.Execute(cfg, lib, Invariants.START, events).store.mem.objects;
            && key in objects && content == objects[key].body && err.None?
            && (owner.checksumVerified <==> InferAlgorithm(objects[key].checksum) != NoAlgorithm)
  {
    hide Spec.Get, Invariants.Execute, InferAlgorithm, StreamedChecksum;
    Invariants.VerifiedGetMatches(cfg, lib, events, key, env);
    var base := new Stream(reader.content, Eof, offer, eager, stalls);
    owner := new ObjectReader();
    if reader.verifying {
      var wrapped := WrapChecksumVerifier(lib.digests, base, reader.info.checksumAlgo, reader.info.checksumHex, owner);
      content, err := ReadAll(wrapped.value, size);
    } else {
      content, err := ReadPlain(base, size);
    }
  }
}
