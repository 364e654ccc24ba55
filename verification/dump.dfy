/** What a process writes while it dumps, and the bounded notes kept of what a tool says. */
module Dumps {
  import opened Text

  /** A byte is a character here: the end marker of a dump is text, and nothing else looks inside. */
  type Bytes = string

  datatype ReadStatus = More | EndOfFile | Broken

  /**
   * A dump being read by its one consumer. The process behind it writes what it likes, a finite
   * number of reads long, and ends with a status of its own.
   */
  class DumpStream {
    const exit: int

    /** Nothing breaks between the process and its reader. */
    const healthy: bool
    var drained: bool
    var closed: bool

    /** How many more reads the process can feed: its output is finite. */
    var left: nat

    ghost var delivered: Bytes
    ghost var waits: nat

    ghost predicate Valid()
      reads this
    {
      waits == if closed then 1 else 0
    }

    constructor (healthy: bool)
      ensures Valid() && !drained && !closed && delivered == "" && this.healthy == healthy
    {
      exit := *;
      this.healthy := healthy;
      drained, closed, delivered, waits := false, false, "", 0;
      left := *;
    }

    /** One read of the pipe: some bytes, and perhaps the end of them or a failure. */
    method Read() returns (chunk: Bytes, status: ReadStatus)
      requires Valid() && !closed
      modifies this
      ensures Valid() && !closed
      ensures delivered == old(delivered) + chunk
      ensures drained == (old(drained) || status.EndOfFile?)
      ensures status.More? ==> left < old(left)
      ensures healthy ==> !status.Broken?
    {
      chunk := *;
      status := *;
      if status.Broken? || (status.More? && left == 0) {
        status := if healthy then EndOfFile else Broken;
      }
      if status.More? {
        left := left - 1;
      }
      delivered := delivered + chunk;
      if status.EndOfFile? {
        drained := true;
      }
    }

    /**
     * Waits for the process, once, however often it is called. Its status is an error exactly
     * when the stream was read to its end; a dump given up before that is stopped in silence.
     */
    method Close() returns (failed: bool)
      requires Valid()
      modifies this
      ensures Valid() && closed && drained == old(drained) && delivered == old(delivered)
      ensures failed <==> !old(closed) && drained && exit != 0
    {
      if closed {
        return false;
      }
      closed := true;
      waits := waits + 1;
      return drained && exit != 0;
    }
  }

  // ------------------------------------------------------------------ a stream, and its ends

  /** A stream from its pieces. */
  function Joined(chunks: seq<Bytes>): Bytes {
    if chunks == [] then "" else chunks[0] + Joined(chunks[1..])
  }

  lemma {:induction false} JoinedLast(chunks: seq<Bytes>)
    requires chunks != []
    ensures Joined(chunks) == Joined(chunks[..|chunks| - 1]) + chunks[|chunks| - 1]
  {
    if |chunks| > 1 {
      var rest := chunks[1..];
      JoinedLast(rest);
      assert rest[..|rest| - 1] == chunks[..|chunks| - 1][1..];
      assert chunks[0] + (Joined(rest[..|rest| - 1]) + rest[|rest| - 1]) == chunks[0] + Joined(rest[..|rest| - 1])
          + rest[|rest| - 1];
    } else {
      assert chunks == [chunks[0]] && chunks[1..] == [];
      assert Joined(chunks[..0]) == "";
    }
  }

  function Min(a: nat, b: nat): nat {
    if a <= b then a else b
  }

  /** The last `limit` bytes, or all of them. */
  function Last(limit: nat, s: Bytes): (end: Bytes)
    ensures |end| == Min(limit, |s|)
  {
    if |s| > limit then s[|s| - limit..] else s
  }

  function First(limit: nat, s: Bytes): (start: Bytes)
    ensures |start| == Min(limit, |s|)
  {
    if |s| > limit then s[..limit] else s
  }

  lemma LastOfLast(limit: nat, a: Bytes, b: Bytes)
    ensures Last(limit, Last(limit, a) + b) == Last(limit, a + b)
  {
    var kept := Last(limit, a) + b;
    if |a| > limit {
      assert kept == (a + b)[|a| - limit..];
    }
  }

  lemma FirstOfFirst(limit: nat, a: Bytes, b: Bytes)
    ensures First(limit, a) + First(limit - |First(limit, a)|, b) == First(limit, a + b)
  {
    if |a| <= limit < |a + b| {
      assert (a + b)[..limit] == a + b[..limit - |a|];
    }
  }

  const KEPT_FROM_STDERR := 4096

  /** What is kept of a tool's words: their end by default, their head when asked. */
  class Tail {
    var kept: Bytes
    const limit: nat
    const head: bool

    ghost var written: Bytes

    ghost function Bound(): nat {
      if limit == 0 then KEPT_FROM_STDERR else limit
    }

    ghost predicate Valid()
      reads this
    {
      kept == if head then First(Bound(), written) else Last(Bound(), written)
    }

    constructor (limit: nat, head: bool)
      ensures Valid() && written == "" && this.limit == limit && this.head == head
    {
      this.limit, this.head := limit, head;
      kept, written := "", "";
    }

    /** However the words are cut into writes, only their end (or head) within the bound is held. */
    method Write(p: Bytes) returns (n: nat)
      requires Valid()
      modifies this
      ensures Valid() && written == old(written) + p && n == |p|
      ensures |kept| <= Bound()
    {
      n := |p|;
      var bound := if limit == 0 then KEPT_FROM_STDERR else limit;
      written := written + p;
      if head {
        FirstOfFirst(bound, old(written), p);
        var room := bound - |kept|;
        if room > 0 {
          kept := kept + p[..Min(room, |p|)];
        }
        return;
      }
      LastOfLast(bound, old(written), p);
      kept := kept + p;
      if |kept| > bound {
        kept := kept[|kept| - bound..];
      }
    }
  }
}
