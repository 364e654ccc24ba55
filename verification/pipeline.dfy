/** A dump read once: compressed, encrypted, and hashed on both sides of that. */
module Pipelines {
  import opened Text
  import opened Dumps

  /**
   * A streaming transformation, whatever it computes: what it has let out once it has taken some
   * bytes in, and what it has let out in all once it is closed after them.
   */
  datatype Coder = Coder(during: Bytes -> Bytes, final: Bytes -> Bytes)

  ghost predicate IsStreaming(c: Coder) {
    && (forall a, b :: c.during(a) <= c.during(a + b))
    && (forall a :: c.during(a) <= c.final(a))
  }

  datatype Codec = Codec(compress: Coder, encrypt: Coder, hash: Bytes -> string)

  /** The compressor lets nothing out before it is given something; the encryption starts with its header. */
  ghost predicate IsCodec(c: Codec) {
    IsStreaming(c.compress) && IsStreaming(c.encrypt) && c.compress.during("") == ""
  }

  /** What an archive of a whole dump is: compressed, then encrypted. */
  function Seal(c: Codec, raw: Bytes): Bytes {
    c.encrypt.final(c.compress.final(raw))
  }

  datatype Packed = Packed(rawBytes: nat, storedBytes: nat, sha256Raw: string, sha256Stored: string)

  /** What a successful run reports of the bytes it read and the bytes it wrote. */
  predicate Reports(c: Codec, packed: Packed, raw: Bytes, stored: Bytes) {
    packed == Packed(|raw|, |stored|, c.hash(raw), c.hash(stored))
  }

  /** Where the archive goes: a staging file, or the writing end of a pipe. Any write may fail. */
  class Sink {
    const healthy: bool
    var got: Bytes

    constructor (healthy: bool)
      ensures got == "" && this.healthy == healthy
    {
      this.healthy, got := healthy, "";
    }

    method Write(p: Bytes) returns (ok: bool)
      modifies this
      ensures ok ==> got == old(got) + p
      ensures healthy ==> ok
    {
      ok := *;
      ok := ok || healthy;
      var part: Bytes := *;
      got := got + if ok then p else part;
    }
  }

  /** The length and the digest of all that was written. */
  class Counter {
    const codec: Codec
    var bytes: nat
    ghost var all: Bytes
    var digest: Bytes

    ghost predicate Valid()
      reads this
    {
      bytes == |all| && digest == all
    }

    constructor (codec: Codec)
      ensures Valid() && all == "" && this.codec == codec
    {
      this.codec := codec;
      bytes, all, digest := 0, "", "";
    }

    method Write(p: Bytes)
      requires Valid()
      modifies this
      ensures Valid() && all == old(all) + p
    {
      bytes := bytes + |p|;
      digest := digest + p;
      all := all + p;
    }

    method Sum() returns (sum: string)
      requires Valid()
      ensures sum == codec.hash(all)
    {
      sum := codec.hash(digest);
    }
  }

  /** The structure watcher a tee feeds: it sees the plaintext go by, and never refuses a write. */
  class Watcher {
    ghost var seen: Bytes

    constructor ()
      ensures seen == ""
    {
      seen := "";
    }

    method Write(p: Bytes)
      modifies this
      ensures seen == old(seen) + p
    {
      seen := seen + p;
    }
  }

  /** What is still to be let out by a coder that already let out `sent`. */
  function Fresh(total: Bytes, sent: nat): Bytes {
    if sent <= |total| then total[sent..] else ""
  }

  lemma FreshExtends(before: Bytes, total: Bytes)
    requires before <= total
    ensures before + Fresh(total, |before|) == total
  {
  }

  /** The encrypting writer, over the destination and the checksum of what reached it. */
  class Encrypter {
    const codec: Codec
    const into: Sink
    const stored: Counter
    var taken: Bytes
    var sent: nat

    ghost predicate Valid()
      reads this, into, stored
    {
      && IsCodec(codec) && stored.Valid()
      && into.got == stored.all == codec.encrypt.during(taken) && sent == |stored.all|
    }

    constructor (codec: Codec, into: Sink, stored: Counter)
      ensures taken == "" && sent == 0 && this.codec == codec && this.into == into && this.stored == stored
    {
      this.codec, this.into, this.stored, taken, sent := codec, into, stored, "", 0;
    }

    method Emit(total: Bytes) returns (ok: bool)
      requires stored.Valid() && into.got == stored.all && sent == |stored.all| && stored.all <= total
      modifies this`sent, into, stored
      ensures stored.Valid()
      ensures ok ==> into.got == stored.all == total && sent == |total|
      ensures into.healthy ==> ok
    {
      var part := Fresh(total, sent);
      FreshExtends(stored.all, total);
      ok := into.Write(part);
      if ok {
        stored.Write(part);
        sent := sent + |part|;
      }
    }

    /** Writes the header of the archive. */
    method Start() returns (ok: bool)
      requires IsCodec(codec) && stored.Valid() && stored.all == into.got == "" && sent == 0 && taken == ""
      modifies this`sent, into, stored
      ensures stored.Valid()
      ensures ok ==> Valid()
      ensures into.healthy ==> ok
    {
      ok := Emit(codec.encrypt.during(""));
    }

    method Write(p: Bytes) returns (ok: bool)
      requires Valid()
      modifies this, into, stored
      ensures stored.Valid()
      ensures ok ==> Valid() && taken == old(taken) + p
      ensures into.healthy ==> ok
    {
      ghost var was := taken;
      taken := taken + p;
      assert codec.encrypt.during(was) <= codec.encrypt.during(was + p);
      ok := Emit(codec.encrypt.during(taken));
    }

    /** Lets out what the encryption still holds back. */
    method Close() returns (ok: bool)
      requires Valid()
      modifies this, into, stored
      ensures stored.Valid() && taken == old(taken)
      ensures ok ==> into.got == stored.all == codec.encrypt.final(taken)
      ensures into.healthy ==> ok
    {
      ok := Emit(codec.encrypt.final(taken));
    }
  }

  /** The compressing writer, over the encrypting one. */
  class Compressor {
    const codec: Codec
    const encrypt: Encrypter
    var taken: Bytes
    var sent: nat

    ghost predicate Valid()
      reads this, encrypt, encrypt.into, encrypt.stored
    {
      && encrypt.Valid() && encrypt.codec == codec
      && encrypt.taken == codec.compress.during(taken) && sent == |encrypt.taken|
    }

    constructor (codec: Codec, encrypt: Encrypter)
      requires encrypt.Valid() && encrypt.codec == codec && encrypt.taken == ""
      ensures Valid() && taken == "" && this.codec == codec && this.encrypt == encrypt
    {
      this.codec, this.encrypt, taken, sent := codec, encrypt, "", 0;
    }

    method Write(p: Bytes) returns (ok: bool)
      requires Valid()
      modifies this, encrypt, encrypt.into, encrypt.stored
      ensures encrypt.stored.Valid()
      ensures ok ==> Valid() && taken == old(taken) + p
      ensures encrypt.into.healthy ==> ok
    {
      ghost var was := taken;
      taken := taken + p;
      assert codec.compress.during(was) <= codec.compress.during(was + p);
      var total := codec.compress.during(taken);
      FreshExtends(encrypt.taken, total);
      ok := encrypt.Write(Fresh(total, sent));
      sent := |total|;
    }

    /** Flushes the last block into the encryption, which stays open. */
    method Close() returns (ok: bool)
      requires Valid()
      modifies this, encrypt, encrypt.into, encrypt.stored
      ensures encrypt.stored.Valid() && taken == old(taken)
      ensures ok ==> encrypt.Valid() && encrypt.taken == codec.compress.final(taken)
      ensures encrypt.into.healthy ==> ok
    {
      var total := codec.compress.final(taken);
      FreshExtends(encrypt.taken, total);
      ok := encrypt.Write(Fresh(total, sent));
      sent := |total|;
    }
  }

  /** Copies a dump into the compressor and its own checksum, until its end or the first failure. */
  method Copy(compress: Compressor, raw: Counter, from: DumpStream, watcher: Watcher?) returns (ok: bool)
    requires compress.Valid() && compress.taken == "" && raw.Valid() && raw.all == "" && raw != compress.encrypt.stored
    requires from.Valid() && !from.closed && from.delivered == ""
    requires watcher != null ==> watcher.seen == ""
    modifies compress, compress.encrypt, compress.encrypt.into, compress.encrypt.stored, raw, from, watcher
    ensures compress.encrypt.stored.Valid() && from.Valid() && !from.closed
    ensures watcher != null ==> watcher.seen == from.delivered
    ensures ok ==> compress.Valid() && raw.Valid() && from.drained && compress.taken == raw.all == from.delivered
    ensures compress.encrypt.into.healthy && from.healthy ==> ok
  {
    var status := More;
    while status.More?
      invariant from.Valid() && !from.closed && (status.EndOfFile? ==> from.drained)
      invariant raw.Valid() && compress.Valid() && compress.taken == raw.all == from.delivered
      invariant watcher != null ==> watcher.seen == from.delivered
      invariant from.healthy ==> !status.Broken?
      decreases if status.More? then 1 else 0, from.left
    {
      var chunk;
      chunk, status := from.Read();
      if watcher != null {
        watcher.Write(chunk);
      }
      var taken := compress.Write(chunk);
      if !taken {
        return false;
      }
      raw.Write(chunk);
    }
    return status.EndOfFile?;
  }

  /**
   * Packs a dump into a sink, with a watcher looking on if there is one. A result is reported only
   * when the dump was read to its end and every byte of the archive was written, and then it counts
   * and hashes exactly those.
   */
  method Run(codec: Codec, recipients: nat, into: Sink, from: DumpStream, watcher: Watcher?)
    returns (result: Option<Packed>)
    requires IsCodec(codec)
    requires from.Valid() && !from.closed && from.delivered == "" && into.got == ""
    requires watcher != null ==> watcher.seen == ""
    modifies into, from, watcher
    ensures from.Valid() && !from.closed
    ensures recipients == 0 ==> result.None? && into.got == "" && from.delivered == ""
    ensures result.Some? ==>
              && from.drained
              && into.got == Seal(codec, from.delivered)
              && Reports(codec, result.value, from.delivered, into.got)
    ensures watcher != null ==> watcher.seen == from.delivered
    ensures recipients > 0 && into.healthy && from.healthy ==> result.Some?
  {
    if recipients == 0 {
      return None;
    }
    var stored := new Counter(codec);
    var raw := new Counter(codec);
    var encrypt := new Encrypter(codec, into, stored);
    var started := encrypt.Start();
    if !started {
      return None;
    }
    var compress := new Compressor(codec, encrypt);
    var copied := Copy(compress, raw, from, watcher);
    if !copied {
      // What was opened is closed, which may still write, and nothing is said about a result.
      var _ := GiveUp(into);
      return None;
    }
    var compressed := compress.Close();
    if !compressed {
      var _ := GiveUp(into);
      return None;
    }
    var encrypted := encrypt.Close();
    if !encrypted {
      return None;
    }
    var sumRaw := raw.Sum();
    var sumStored := stored.Sum();
    return Some(Packed(raw.bytes, stored.bytes, sumRaw, sumStored));
  }

  /** The last words of writers closed on a failure. */
  method GiveUp(into: Sink) returns (ok: bool)
    modifies into
  {
    var words: Bytes := *;
    ok := into.Write(words);
  }
}
