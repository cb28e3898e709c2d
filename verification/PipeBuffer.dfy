/** The ring buffer of a pipe, with one reader and one writer that may be interrupted between
    testing their guard and moving a byte (user/lib/pipe.c). */
module PipeBuffer {

  const BY2PIPE: nat := 32
  const WORD: nat := 0x1_0000_0000  // positions are unsigned 32-bit

  /** The shared page, the bytes written and read so far, and whether each side has found its
      guard open and not yet moved its byte. */
  datatype Pipe = Pipe(
    rpos: nat,
    wpos: nat,
    buf: seq<nat>,
    written: seq<nat>,
    got: seq<nat>,
    canRead: bool,
    canWrite: bool)

  datatype Event = ReadGuard | ReadByte | WriteGuard | WriteByte(b: nat)

  /** The negations of the two loop conditions; the difference is unsigned. */
  predicate MayRead(rpos: nat, wpos: nat) { !(rpos >= wpos) }
  predicate MayWrite(rpos: nat, wpos: nat) { !((wpos + WORD - rpos) % WORD >= BY2PIPE) }

  predicate Enabled(p: Pipe, ev: Event) {
    (ev.ReadByte? ==> p.canRead) && (ev.WriteByte? ==> p.canWrite)
  }

  function Next(p: Pipe, ev: Event): Pipe
    requires |p.buf| == BY2PIPE && Enabled(p, ev)
  {
    match ev
    case ReadGuard => p.(canRead := MayRead(p.rpos, p.wpos))
    case WriteGuard => p.(canWrite := MayWrite(p.rpos, p.wpos))
    case ReadByte =>
      p.(got := p.got + [p.buf[p.rpos % BY2PIPE]], rpos := (p.rpos + 1) % WORD, canRead := false)
    case WriteByte(b) =>
      p.(written := p.written + [b], buf := p.buf[p.wpos % BY2PIPE := b],
         wpos := (p.wpos + 1) % WORD, canWrite := false)
  }

  /** The buffer holds the bytes written and not yet read, at their places in the ring; an open
      guard stays right whatever the other side does. */
  ghost predicate PipeInv(p: Pipe) {
    && |p.buf| == BY2PIPE
    && p.rpos == |p.got| % WORD && p.wpos == |p.written| % WORD
    && |p.got| <= |p.written| <= |p.got| + BY2PIPE
    && (p.canRead ==> |p.got| < |p.written|)
    && (p.canWrite ==> |p.written| < |p.got| + BY2PIPE)
    && p.got <= p.written
    && (forall i: nat | |p.got| <= i < |p.written| :: AtItsPlace(p.buf, p.written, i))
  }

  /** Byte i of the stream is where the ring keeps it. */
  predicate AtItsPlace(buf: seq<nat>, written: seq<nat>, i: nat)
    requires |buf| == BY2PIPE && i < |written|
  {
    buf[i % BY2PIPE] == written[i]
  }

  lemma RemWord(q: nat, r: nat)
    requires r < WORD
    ensures (q * WORD + r) % WORD == r
  {
  }

  lemma RemRing(q: nat, r: nat)
    ensures (q * BY2PIPE + r) % BY2PIPE == r % BY2PIPE
  {
  }

  lemma RingIndex(n: nat)
    ensures n % WORD % BY2PIPE == n % BY2PIPE
    ensures (n % WORD + 1) % WORD == (n + 1) % WORD
  {
    var q, r := n / WORD, n % WORD;
    assert n == q * 0x800_0000 * BY2PIPE + r;
    RemRing(q * 0x800_0000, r);
    if r + 1 < WORD {
      RemWord(q, r + 1);
    } else {
      RemWord(q + 1, 0);
      RemWord(1, 0);
    }
  }

  /** Two places in the ring that fewer than BY2PIPE positions separate are different. */
  lemma RingDistinct(i: nat, j: nat)
    requires i < j < i + BY2PIPE
    ensures i % BY2PIPE != j % BY2PIPE
  {
  }

  /** What the guards find, in terms of the numbers of bytes: the writer's is exact, and the
      reader's is exact unless the two positions lie on different sides of a wrap-around. */
  lemma GuardsMeasure(p: Pipe)
    requires PipeInv(p)
    ensures MayWrite(p.rpos, p.wpos) <==> |p.written| - |p.got| < BY2PIPE
    ensures MayRead(p.rpos, p.wpos) <==> |p.got| < |p.written| && |p.got| / WORD == |p.written| / WORD
  {
    var g, w := |p.got|, |p.written|;
    assert g == g / WORD * WORD + p.rpos && w == w / WORD * WORD + p.wpos;
    if g / WORD == w / WORD {
      assert (p.wpos + WORD - p.rpos) % WORD == w - g;
    } else {
      assert w / WORD == g / WORD + 1;
      assert p.wpos + WORD - p.rpos == w - g;
    }
  }

  /** So below 2^32 bytes the reader's guard tells an empty pipe exactly. */
  lemma ReadGuardExact(p: Pipe)
    requires PipeInv(p) && |p.written| < WORD
    ensures MayRead(p.rpos, p.wpos) <==> |p.got| < |p.written|
  {
    GuardsMeasure(p);
    assert |p.got| / WORD == 0 && |p.written| / WORD == 0;
  }

  /** Each guard asks whether there is a byte or room for one, and each move takes the oldest byte
      not yet read or adds one; neither touches what is the other side's. */
  lemma NextMoves(p: Pipe, ev: Event)
    requires PipeInv(p) && Enabled(p, ev)
    ensures var p' := Next(p, ev);
      && (!ev.ReadByte? ==> p'.got == p.got) && (!ev.WriteByte? ==> p'.written == p.written)
      && match ev
         case ReadGuard =>
           && p'.canWrite == p.canWrite
           && (p'.canRead <==> |p.got| < |p.written| && |p.got| / WORD == |p.written| / WORD)
         case WriteGuard =>
           p'.canRead == p.canRead && (p'.canWrite <==> |p.written| - |p.got| < BY2PIPE)
         case ReadByte =>
           && |p.got| < |p.written| && p'.got == p.got + [p.written[|p.got|]]
           && !p'.canRead && p'.canWrite == p.canWrite
         case WriteByte(b) =>
           && |p.written| < |p.got| + BY2PIPE && p'.written == p.written + [b]
           && !p'.canWrite && p'.canRead == p.canRead
  {
    GuardsMeasure(p);
    if ev.ReadByte? {
      RingIndex(|p.got|);
      assert AtItsPlace(p.buf, p.written, |p.got|);
    }
  }

  lemma NextKeepsInv(p: Pipe, ev: Event)
    requires PipeInv(p) && Enabled(p, ev)
    ensures PipeInv(Next(p, ev))
  {
    GuardsMeasure(p);
    RingIndex(|p.got|);
    RingIndex(|p.written|);
    var p' := Next(p, ev);
    if ev.ReadByte? {
      assert AtItsPlace(p.buf, p.written, |p.got|);
    }
    forall i: nat | |p'.got| <= i < |p'.written| ensures AtItsPlace(p'.buf, p'.written, i) {
      if i < |p.written| {
        assert AtItsPlace(p.buf, p.written, i);
      }
      if ev.WriteByte? && i < |p.written| {
        RingDistinct(i, |p.written|);
      }
    }
  }

  ghost predicate Runs(p: Pipe, evs: seq<Event>)
    decreases |evs|
  {
    evs == [] || (|p.buf| == BY2PIPE && Enabled(p, evs[0]) && Runs(Next(p, evs[0]), evs[1..]))
  }

  ghost function After(p: Pipe, evs: seq<Event>): Pipe
    requires Runs(p, evs)
    decreases |evs|
  {
    if evs == [] then p else After(Next(p, evs[0]), evs[1..])
  }

  /** FIFO: in every interleaving the bytes read are the first of the bytes written, and the
      buffer never holds more than BY2PIPE; no bound on the number of bytes is needed. */
  lemma {:induction false} ReadsArePrefix(p: Pipe, evs: seq<Event>)
    requires PipeInv(p) && Runs(p, evs)
    ensures var p' := After(p, evs);
      PipeInv(p') && p'.got <= p'.written && |p'.written| <= |p'.got| + BY2PIPE
    decreases |evs|
  {
    if evs != [] {
      NextKeepsInv(p, evs[0]);
      ReadsArePrefix(Next(p, evs[0]), evs[1..]);
    }
  }

  /** Across a wrap-around of the write position the reader takes a pipe that holds data for
      an empty one. */
  lemma WrapHidesData(p: Pipe)
    requires PipeInv(p) && |p.got| == WORD - 1 && |p.written| == WORD
    ensures !MayRead(p.rpos, p.wpos)
  {
    GuardsMeasure(p);
  }

  // ---------- the loops ----------

  /** What a reader finds each time it has looked at an empty pipe: that the test says closed, or
      that the writer has put in some bytes when the reader runs again. */
  datatype ReadTurn = ReadTurn(closed: bool, put: Chunk)

  /** The same for a writer at a full buffer. */
  datatype WriteTurn = WriteTurn(closed: bool, take: Amount)

  type Chunk = s: seq<nat> | |s| <= BY2PIPE
  type Amount = n: nat | n <= BY2PIPE

  /** All the bytes put in; nobody waits once the pipe looks closed. */
  function Puts(turns: seq<ReadTurn>): seq<nat> {
    if turns == [] then []
    else Puts(turns[..|turns| - 1]) + if turns[|turns| - 1].closed then [] else turns[|turns| - 1].put
  }

  function Takes(turns: seq<WriteTurn>): nat {
    if turns == [] then 0
    else Takes(turns[..|turns| - 1]) + if turns[|turns| - 1].closed then 0 else turns[|turns| - 1].take
  }

  /** The pipe has looked closed at the last turn at most. */
  predicate OpenBefore(turns: seq<ReadTurn>, asked: nat)
    requires asked <= |turns|
  {
    forall k | 0 <= k < asked - 1 :: !turns[k].closed
  }

  predicate OpenUpTo(turns: seq<WriteTurn>, k: int)
    requires k <= |turns|
  {
    forall i | 0 <= i < k :: !turns[i].closed
  }

  lemma PutsNext(turns: seq<ReadTurn>, k: nat)
    requires k < |turns|
    ensures Puts(turns[..k + 1]) == Puts(turns[..k]) + if turns[k].closed then [] else turns[k].put
  {
    assert turns[..k + 1][..k] == turns[..k];
  }

  lemma TakesNext(turns: seq<WriteTurn>, k: nat)
    requires k < |turns|
    ensures Takes(turns[..k + 1]) == Takes(turns[..k]) + if turns[k].closed then 0 else turns[k].take
  {
    assert turns[..k + 1][..k] == turns[..k];
  }

  lemma {:induction false} PutsUpTo(turns: seq<ReadTurn>, k: nat)
    requires k <= |turns|
    ensures |Puts(turns[..k])| <= |Puts(turns)|
    decreases |turns|
  {
    if k == |turns| {
      assert turns[..k] == turns;
    } else {
      assert turns[..|turns| - 1][..k] == turns[..k];
      PutsUpTo(turns[..|turns| - 1], k);
    }
  }

  /** A pipe's page, updated in place, and the bytes that have gone through it. */
  class PipePage {
    var rpos: nat
    var wpos: nat
    const buf: array<nat>
    ghost var written: seq<nat>
    ghost var got: seq<nat>

    ghost function State(): Pipe
      reads this, buf
    {
      Pipe(rpos, wpos, buf[..], written, got, false, false)
    }

    ghost predicate Valid()
      reads this, buf
    {
      PipeInv(State())
    }

    /** The bytes in the buffer. */
    ghost function Contents(): seq<nat>
      reads this, buf
      requires Valid()
    {
      written[|got|..]
    }

    constructor ()
      ensures Valid() && Contents() == [] && fresh(buf) && written == []
    {
      rpos, wpos, written, got := 0, 0, [], [];
      buf := new nat[BY2PIPE](_ => 0);
    }

    method TakeByte() returns (b: nat)
      requires Valid() && MayRead(rpos, wpos)
      modifies this
      ensures Valid() && written == old(written) && buf[..] == old(buf[..])
      ensures old(Contents()) != [] && b == old(Contents())[0] && Contents() == old(Contents())[1..]
      ensures got == old(got) + [b]
    {
      ghost var p := State().(canRead := true);
      GuardsMeasure(State());
      NextKeepsInv(p, ReadByte);
      RingIndex(|got|);
      b := buf[rpos % BY2PIPE];
      assert AtItsPlace(buf[..], written, |got|);
      got := got + [b];
      rpos := (rpos + 1) % WORD;
      assert State() == Next(p, ReadByte).(canRead := false);
    }

    method PutByte(b: nat)
      requires Valid() && MayWrite(rpos, wpos)
      modifies this, buf
      ensures Valid() && got == old(got) && Contents() == old(Contents()) + [b]
    {
      ghost var p := State().(canWrite := true);
      GuardsMeasure(State());
      NextKeepsInv(p, WriteByte(b));
      buf[wpos % BY2PIPE] := b;
      written := written + [b];
      wpos := (wpos + 1) % WORD;
      assert State() == Next(p, WriteByte(b));
    }

    /** The reader's guard. */
    method HasByte() returns (more: bool)
      requires Valid() && |written| < WORD
      ensures more <==> Contents() != []
      ensures more ==> MayRead(rpos, wpos)
    {
      ReadGuardExact(State());
      more := rpos < wpos;
    }

    /** What the other end does while this one yields. */
    method Put(bytes: seq<nat>)
      requires Valid() && |Contents()| + |bytes| <= BY2PIPE
      modifies this, buf
      ensures Valid() && got == old(got) && written == old(written) + bytes
    {
      var i := 0;
      while i < |bytes|
        invariant i <= |bytes| && Valid() && got == old(got) && written == old(written) + bytes[..i]
      {
        GuardsMeasure(State());
        PutByte(bytes[i]);
        i := i + 1;
      }
    }

    method Take(n: nat)
      requires Valid() && n <= |Contents()| && |written| < WORD
      modifies this
      ensures Valid() && written == old(written) && |got| == |old(got)| + n && old(got) <= got
    {
      var i := 0;
      while i < n
        invariant i <= n && Valid() && written == old(written) && |got| == |old(got)| + i && old(got) <= got
      {
        ReadGuardExact(State());
        var b := TakeByte();
        i := i + 1;
      }
    }

    /** The inner loop of pipe_read, when nothing has been read yet. */
    method AwaitByte(turns: seq<ReadTurn>) returns (asked: nat, found: bool)
      requires Valid() && Contents() == [] && |written| + |Puts(turns)| < WORD
      modifies this, buf
      ensures Valid() && asked <= |turns| && got == old(got) && written == old(written) + Puts(turns[..asked])
      ensures OpenBefore(turns, asked) && (asked > 0 ==> Puts(turns[..asked - 1]) == [])
      ensures found <==> Contents() != []
      ensures !found ==> asked == |turns| || (asked > 0 && turns[asked - 1].closed)
    {
      asked, found := 0, false;
      while !found && asked < |turns|
        invariant Valid() && asked <= |turns| && got == old(got) && written == old(written) + Puts(turns[..asked])
        invariant OpenBefore(turns, asked) && (asked > 0 ==> !turns[asked - 1].closed && Puts(turns[..asked - 1]) == [])
        invariant found <==> Contents() != []
      {
        PutsNext(turns, asked);
        PutsUpTo(turns, asked + 1);
        asked := asked + 1;
        if turns[asked - 1].closed {
          return asked, false;
        }
        Put(turns[asked - 1].put);
        found := HasByte();
      }
    }

    /** The outer loop of pipe_read from the first byte on: the next empty buffer ends it. */
    method TakeUpTo(n: nat) returns (bytes: seq<nat>)
      requires Valid() && |written| < WORD
      modifies this
      ensures Valid() && written == old(written) && got == old(got) + bytes
      ensures |bytes| == if n < |old(Contents())| then n else |old(Contents())|
    {
      bytes := [];
      var more := HasByte();
      while |bytes| < n && more
        invariant Valid() && written == old(written) && got == old(got) + bytes && |bytes| <= n
        invariant (more <==> Contents() != []) && (more ==> MayRead(rpos, wpos))
        decreases n - |bytes|
      {
        var b := TakeByte();
        bytes := bytes + [b];
        more := HasByte();
      }
    }

    /** pipe_read.  `turns` says, for every time it finds the buffer empty with nothing read,
        whether the pipe looks closed and if not what the writer puts in while the reader
        yields; `asked` is how often that happens.  What has been read, in order, is what there
        is when the wait is over, up to n bytes.  It is over at once unless there was nothing,
        and otherwise as soon as there is something or the pipe looks closed; if neither ever
        happens, asked is |turns| and the call has not returned. */
    method Read(n: nat, turns: seq<ReadTurn>) returns (bytes: seq<nat>, asked: nat)
      requires Valid() && |written| + |Puts(turns)| < WORD
      modifies this, buf
      ensures Valid() && asked <= |turns| && OpenBefore(turns, asked)
      ensures got == old(got) + bytes && written == old(written) + Puts(turns[..asked])
      ensures |bytes| == if n < |written| - |old(got)| then n else |written| - |old(got)|
      ensures asked > 0 ==> n > 0 && old(Contents()) == [] && Puts(turns[..asked - 1]) == []
      ensures n > 0 && bytes == [] ==> asked == |turns| || (asked > 0 && turns[asked - 1].closed)
    {
      asked := 0;
      PutsUpTo(turns, 0);
      if n > 0 {
        var more := HasByte();
        if !more {
          asked, more := AwaitByte(turns);
          PutsUpTo(turns, asked);
        }
      }
      bytes := TakeUpTo(n);
    }

    /** The inner loop of pipe_write, after `from` looks at a full buffer. */
    method AwaitRoom(turns: seq<WriteTurn>, from: nat) returns (asked: nat, found: bool)
      requires Valid() && from <= |turns| && |written| < WORD && OpenUpTo(turns, from)
      modifies this
      ensures Valid() && from <= asked <= |turns| && written == old(written)
      ensures old(got) <= got && |got| + Takes(turns[..from]) == |old(got)| + Takes(turns[..asked])
      ensures found <==> MayWrite(rpos, wpos)
      ensures if found then OpenUpTo(turns, asked)
              else OpenUpTo(turns, asked - 1) && (asked == |turns| || (asked > 0 && turns[asked - 1].closed))
    {
      asked := from;
      found := (wpos + WORD - rpos) % WORD < BY2PIPE;
      while !found && asked < |turns|
        invariant Valid() && from <= asked <= |turns| && written == old(written) && OpenUpTo(turns, asked)
        invariant old(got) <= got && |got| + Takes(turns[..from]) == |old(got)| + Takes(turns[..asked])
        invariant found <==> MayWrite(rpos, wpos)
      {
        TakesNext(turns, asked);
        GuardsMeasure(State());
        asked := asked + 1;
        if turns[asked - 1].closed {
          return asked, false;
        }
        Take(turns[asked - 1].take);
        found := (wpos + WORD - rpos) % WORD < BY2PIPE;
      }
    }

    /** pipe_write, likewise: whenever the buffer is full, the pipe looks closed or the reader
        takes some bytes.  The bytes go in in order, all of them unless the pipe looks closed
        while the buffer is full; or asked is |turns|, and the call has not returned. */
    method Write(bytes: seq<nat>, turns: seq<WriteTurn>) returns (n: nat, asked: nat)
      requires Valid() && |written| + |bytes| < WORD
      modifies this, buf
      ensures Valid() && n <= |bytes| && asked <= |turns| && OpenUpTo(turns, asked - 1)
      ensures written == old(written) + bytes[..n]
      ensures old(got) <= got && |got| == |old(got)| + Takes(turns[..asked])
      ensures n < |bytes| ==> |Contents()| == BY2PIPE && (asked == |turns| || (asked > 0 && turns[asked - 1].closed))
    {
      n, asked := 0, 0;
      while n < |bytes|
        invariant n <= |bytes| && Valid() && asked <= |turns| && OpenUpTo(turns, asked)
        invariant written == old(written) + bytes[..n]
        invariant old(got) <= got && |got| == |old(got)| + Takes(turns[..asked])
      {
        var room;
        asked, room := AwaitRoom(turns, asked);
        GuardsMeasure(State());
        if !room {
          return n, asked;
        }
        PutByte(bytes[n]);
        n := n + 1;
      }
    }
  }
}
