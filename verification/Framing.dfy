/** The receive framing loop of tinynet's epoll processor (detail/epollnet.hpp):
    bytes arrive in arbitrary chunks, a session's read_packet names the length of
    the first packet, whole packets are delivered and the tail is kept. */
module Framing {

  newtype byte = x: int | 0 <= x < 256

  /** read_packet on the bytes available: a packet length, or <= 0 for "more". */
  type Reader = seq<byte> -> int

  /** Packets delivered and bytes kept. */
  datatype Framed = Framed(packets: seq<seq<byte>>, rest: seq<byte>)

  /** Somewhere while framing `bytes` the reader names a length beyond the bytes
      it was given. */
  predicate Overlong(read: Reader, bytes: seq<byte>)
    decreases |bytes|
  {
    |bytes| > 0 && read(bytes) > 0 &&
    (read(bytes) > |bytes| || Overlong(read, bytes[read(bytes)..]))
  }

  /** The reference: cut packets off the front while there is one. */
  function Frames(read: Reader, bytes: seq<byte>): (f: Framed)
    requires !Overlong(read, bytes)
    decreases |bytes|
  {
    if |bytes| == 0 || read(bytes) <= 0 then Framed([], bytes)
    else
      var n := read(bytes);
      var f := Frames(read, bytes[n..]);
      Framed([bytes[..n]] + f.packets, f.rest)
  }

  function Flatten(chunks: seq<seq<byte>>): seq<byte> {
    if |chunks| == 0 then [] else chunks[0] + Flatten(chunks[1..])
  }

  /** Framing loses, invents and reorders nothing. */
  lemma {:induction false} FramesConserve(read: Reader, bytes: seq<byte>)
    requires !Overlong(read, bytes)
    ensures Flatten(Frames(read, bytes).packets) + Frames(read, bytes).rest == bytes
    ensures forall p :: p in Frames(read, bytes).packets ==> |p| > 0
    decreases |bytes|
  {
    hide Frames, Overlong;
    if |bytes| > 0 && read(bytes) > 0 {
      var n := read(bytes);
      FirstPacket(read, bytes);
      FramesConserve(read, bytes[n..]);
      assert Frames(read, bytes).packets[1..] == Frames(read, bytes[n..]).packets;
      assert bytes == bytes[..n] + bytes[n..];
    } else {
      NoPacket(read, bytes);
    }
  }

  /** Nothing kept could have been delivered. */
  lemma {:induction false} RestIsIncomplete(read: Reader, bytes: seq<byte>)
    requires !Overlong(read, bytes)
    ensures var rest := Frames(read, bytes).rest; |rest| <= |bytes| && (|rest| == 0 || read(rest) <= 0)
    decreases |bytes|
  {
    if |bytes| > 0 && read(bytes) > 0 {
      RestIsIncomplete(read, bytes[read(bytes)..]);
    }
  }

  /** One turn of the loop. */
  lemma FirstPacket(read: Reader, bytes: seq<byte>)
    requires !Overlong(read, bytes) && |bytes| > 0 && read(bytes) > 0
    ensures var n := read(bytes);
      && n <= |bytes| && !Overlong(read, bytes[n..])
      && Frames(read, bytes).packets == [bytes[..n]] + Frames(read, bytes[n..]).packets
      && Frames(read, bytes).rest == Frames(read, bytes[n..]).rest
  {
  }

  lemma NoPacket(read: Reader, bytes: seq<byte>)
    requires |bytes| == 0 || read(bytes) <= 0
    ensures !Overlong(read, bytes) && Frames(read, bytes) == Framed([], bytes)
  {
  }

  /** Every packet is as long as the reader says of the bytes from its beginning on. */
  lemma {:induction false} PacketsAreRead(read: Reader, bytes: seq<byte>, i: nat)
    requires !Overlong(read, bytes) && i < |Frames(read, bytes).packets|
    ensures var packets := Frames(read, bytes).packets; var pos := |Flatten(packets[..i])|;
      && pos + |packets[i]| <= |bytes| && packets[i] == bytes[pos..pos + |packets[i]|]
      && |packets[i]| == read(bytes[pos..])
    decreases |bytes|
  {
    hide Frames, Overlong;
    var packets := Frames(read, bytes).packets;
    if |bytes| == 0 || read(bytes) <= 0 {
      NoPacket(read, bytes);
    } else {
      var n := read(bytes);
      FirstPacket(read, bytes);
      var later := Frames(read, bytes[n..]).packets;
      if i == 0 {
        assert packets[..0] == [] && bytes[0..] == bytes;
      } else {
        PacketsAreRead(read, bytes[n..], i - 1);
        var pos := |Flatten(later[..i - 1])|;
        assert packets[..i][0] == bytes[..n] && packets[..i][1..] == later[..i - 1];
        assert bytes[n..][pos..] == bytes[n + pos..];
        assert bytes[n..][pos..pos + |packets[i]|] == bytes[n + pos..n + pos + |packets[i]|];
      }
    }
  }

  /** `packets` are those of the first `pos` bytes. */
  ghost predicate SoFar(read: Reader, all: seq<byte>, packets: seq<seq<byte>>, pos: nat) {
    && pos <= |all| && !Overlong(read, all) && !Overlong(read, all[pos..])
    && Frames(read, all).packets == packets + Frames(read, all[pos..]).packets
    && Frames(read, all).rest == Frames(read, all[pos..]).rest
  }

  lemma NothingYet(read: Reader, all: seq<byte>)
    requires !Overlong(read, all)
    ensures SoFar(read, all, [], 0)
  {
    assert all[0..] == all;
  }

  lemma OnePacket(read: Reader, all: seq<byte>, packets: seq<seq<byte>>, pos: nat)
    requires SoFar(read, all, packets, pos) && pos < |all| && read(all[pos..]) > 0
    ensures var n := read(all[pos..]);
      pos + n <= |all| && SoFar(read, all, packets + [all[pos..pos + n]], pos + n)
  {
    hide Overlong, Frames;
    var here := all[pos..];
    FirstPacket(read, here);
    var n := read(here);
    assert here[..n] == all[pos..pos + n] && here[n..] == all[pos + n..];
  }

  lemma NoMorePackets(read: Reader, all: seq<byte>, packets: seq<seq<byte>>, pos: nat)
    requires SoFar(read, all, packets, pos) && (pos == |all| || read(all[pos..]) <= 0)
    ensures !Overlong(read, all) && Frames(read, all) == Framed(packets, all[pos..])
  {
    NoPacket(read, all[pos..]);
  }

  // ----- The loop of Processor::run -----

  class Session {
    const recvBuf: array<byte>
    var recvBufPos: nat

    constructor (size: nat)
      ensures recvBuf.Length == size && Valid() && Pending() == [] && fresh(recvBuf)
    {
      recvBuf := new byte[size];
      recvBufPos := 0;
    }

    ghost predicate Valid()
      reads this
    {
      recvBufPos <= recvBuf.Length
    }

    /** Bytes received and not yet delivered. */
    ghost function Pending(): seq<byte>
      requires Valid()
      reads this, recvBuf
    {
      recvBuf[..recvBufPos]
    }

    function RecvSize(): int
      reads this
    {
      recvBuf.Length - recvBufPos
    }

    /** recv() stores a chunk behind the pending bytes. */
    method Store(chunk: seq<byte>)
      requires Valid() && |chunk| <= RecvSize()
      modifies this, recvBuf
      ensures Valid() && Pending() == old(Pending()) + chunk
    {
      for k := 0 to |chunk|
        invariant Valid() && recvBufPos == old(recvBufPos)
        invariant recvBuf[..recvBufPos + k] == old(recvBuf[..recvBufPos]) + chunk[..k]
      {
        recvBuf[recvBufPos + k] := chunk[k];
      }
      recvBufPos := recvBufPos + |chunk|;
    }

    /** memmove to the front of the buffer, the ranges overlapping or not. */
    method MoveDown(from: nat, len: nat)
      requires from + len <= recvBuf.Length
      modifies recvBuf
      ensures recvBuf[..len] == old(recvBuf[from..from + len])
    {
      for k := 0 to len
        invariant recvBuf[..k] == old(recvBuf[from..from + k])
        invariant forall m :: k <= m < recvBuf.Length ==> recvBuf[m] == old(recvBuf[m])
      {
        recvBuf[k] := recvBuf[from + k];
      }
    }

    /** The bytes from `readPos` on stay, moved to the front. */
    method KeepTail(readPos: nat)
      requires Valid() && 0 < readPos <= recvBufPos
      modifies this, recvBuf
      ensures Valid() && Pending() == old(Pending())[readPos..]
    {
      MoveDown(readPos, recvBufPos - readPos);
      recvBufPos := recvBufPos - readPos;
      recvBuf[recvBufPos] := 0;
    }

    /** The "normal data" branch: `chunk` is what recv() returned. It delivers
        exactly the packets of the pending bytes followed by the chunk, and keeps
        exactly the incomplete tail; if a full buffer always holds a packet then
        there is room for the next recv(). */
    method OnReadable(read: Reader, chunk: seq<byte>) returns (packets: seq<seq<byte>>)
      requires Valid() && 0 < |chunk| <= RecvSize()
      requires !Overlong(read, Pending() + chunk)
      modifies this, recvBuf
      ensures Valid()
      ensures Framed(packets, Pending()) == Frames(read, old(Pending()) + chunk)
      ensures (forall b: seq<byte> :: |b| == recvBuf.Length ==> read(b) > 0) ==> RecvSize() > 0
    {
      hide Overlong, Frames, SoFar;
      Store(chunk);
      ghost var all := Pending();
      assert all == old(Pending()) + chunk;
      packets := [];
      var readPos := 0;
      var pkgLen := read(recvBuf[..recvBufPos]);
      assert all[0..] == all;
      NothingYet(read, all);
      while pkgLen > 0
        invariant Valid() && recvBuf[..recvBufPos] == all
        invariant readPos < |all| && pkgLen == read(all[readPos..]) && SoFar(read, all, packets, readPos)
        invariant pkgLen <= 0 ==> readPos == 0
        decreases |all| - readPos
      {
        OnePacket(read, all, packets, readPos);
        if readPos + pkgLen <= recvBufPos {
          assert recvBuf[readPos..readPos + pkgLen] == all[readPos..readPos + pkgLen];
          packets := packets + [recvBuf[readPos..readPos + pkgLen]];
          readPos := readPos + pkgLen;
        }
        if readPos < recvBufPos {
          assert recvBuf[readPos..recvBufPos] == all[readPos..];
          pkgLen := read(recvBuf[readPos..recvBufPos]);
          if pkgLen <= 0 {
            KeepTail(readPos);
            break;
          }
        } else {
          recvBufPos := 0;
          break;
        }
      }
      assert Pending() == all[readPos..];
      NoMorePackets(read, all, packets, readPos);
    }

    /** A run of recv() results, each as long as the free space allows. On a new
        session and a prefix-stable reader the packets are those of the stream. */
    method ReceiveAll(read: Reader, chunks: seq<seq<byte>>) returns (packets: seq<seq<byte>>)
      requires Valid() && Bounded(read) && Fits(read, Pending(), chunks, recvBuf.Length)
      modifies this, recvBuf
      ensures Valid()
      ensures Framed(packets, Pending()) == Receive(read, old(Pending()), chunks)
      ensures old(Pending()) == [] && PrefixStable(read) ==>
        !Overlong(read, Flatten(chunks)) && Framed(packets, Pending()) == Frames(read, Flatten(chunks))
    {
      hide Bounded, PrefixStable, Overlong, Frames, Receive, Fits;
      packets := [];
      assert chunks[0..] == chunks;
      for i := 0 to |chunks|
        invariant Valid() && Fits(read, Pending(), chunks[i..], recvBuf.Length)
        invariant Receive(read, old(Pending()), chunks).packets
          == packets + Receive(read, Pending(), chunks[i..]).packets
        invariant Receive(read, old(Pending()), chunks).rest == Receive(read, Pending(), chunks[i..]).rest
      {
        ReceiveStep(read, Pending(), chunks, i, recvBuf.Length);
        var more := OnReadable(read, chunks[i]);
        packets := packets + more;
      }
      ReceiveNothing(read, Pending(), chunks[|chunks|..]);
      if old(Pending()) == [] && PrefixStable(read) {
        assert [] + Flatten(chunks) == Flatten(chunks);
        BoundedIsNeverOverlong(read, Flatten(chunks));
        ReceiveIsFrames(read, [], chunks);
      }
    }
  }

  // ----- When the loop ends -----

  /** The loop's locals between two turns. */
  datatype Loop = Running(readPos: nat, pkgLen: int) | Stopped

  /** The loop after `k` turns over the bytes `all`. */
  function Turns(read: Reader, all: seq<byte>, k: nat): Loop {
    if k == 0 then (if read(all) > 0 then Running(0, read(all)) else Stopped)
    else
      match Turns(read, all, k - 1)
      case Stopped => Stopped
      case Running(readPos, pkgLen) =>
        var r := if readPos + pkgLen <= |all| then readPos + pkgLen else readPos;
        if 0 <= r < |all| && read(all[r..]) > 0 then Running(r, read(all[r..])) else Stopped
  }

  lemma {:induction false} OverlongNeverStops(read: Reader, all: seq<byte>, k: nat)
    requires Overlong(read, all)
    ensures var l := Turns(read, all, k);
      l.Running? && l.readPos < |all| && l.pkgLen == read(all[l.readPos..]) > 0 && Overlong(read, all[l.readPos..])
  {
    assert all[0..] == all;
    if k > 0 {
      OverlongNeverStops(read, all, k - 1);
      var Running(readPos, pkgLen) := Turns(read, all, k - 1);
      var rest := all[readPos..];
      if pkgLen <= |rest| {
        assert all[readPos + pkgLen..] == rest[pkgLen..];
      }
    }
  }

  lemma {:induction false} BoundedStops(read: Reader, all: seq<byte>, k: nat) returns (m: nat)
    requires var l := Turns(read, all, k);
      l.Running? ==> l.readPos < |all| && l.pkgLen == read(all[l.readPos..]) > 0 && !Overlong(read, all[l.readPos..])
    ensures Turns(read, all, m).Stopped?
    decreases if Turns(read, all, k).Running? then |all| - Turns(read, all, k).readPos else 0
  {
    if Turns(read, all, k).Stopped? {
      m := k;
    } else {
      var Running(readPos, pkgLen) := Turns(read, all, k);
      var rest := all[readPos..];
      assert all[readPos + pkgLen..] == rest[pkgLen..];
      m := BoundedStops(read, all, k + 1);
    }
  }

  /** The loop ends if and only if the reader never names a length beyond the
      bytes it is given; otherwise it repeats the same call for ever. */
  lemma LoopEndsIff(read: Reader, all: seq<byte>)
    requires |all| > 0
    ensures (exists k: nat :: Turns(read, all, k).Stopped?) <==> !Overlong(read, all)
  {
    assert all[0..] == all;
    if !Overlong(read, all) {
      var m := BoundedStops(read, all, 0);
    } else if k: nat :| Turns(read, all, k).Stopped? {
      OverlongNeverStops(read, all, k);
    }
  }

  /** A reader that always names one byte more than there is. */
  function GreedyReader(): Reader { (b: seq<byte>) => |b| + 1 }

  /** One byte is enough for it to keep the loop going for ever. */
  lemma GreedyReaderSpins(b: byte, k: nat)
    ensures !Turns(GreedyReader(), [b], k).Stopped?
  {
    assert Overlong(GreedyReader(), [b]);
    OverlongNeverStops(GreedyReader(), [b], k);
  }

  // ----- How the stream is cut does not matter -----

  ghost predicate Bounded(read: Reader) {
    forall b: seq<byte> :: |b| > 0 ==> read(b) <= |b|
  }

  /** More bytes never change the answer once there is a packet. */
  ghost predicate PrefixStable(read: Reader) {
    forall b: seq<byte>, more: seq<byte> :: |b| > 0 && read(b) > 0 ==> read(b + more) == read(b)
  }

  lemma {:induction false} BoundedIsNeverOverlong(read: Reader, bytes: seq<byte>)
    requires Bounded(read)
    ensures !Overlong(read, bytes)
    decreases |bytes|
  {
    if |bytes| > 0 && read(bytes) > 0 {
      BoundedIsNeverOverlong(read, bytes[read(bytes)..]);
    }
  }

  /** What a session delivers and keeps over a sequence of chunks. */
  ghost function Receive(read: Reader, pending: seq<byte>, chunks: seq<seq<byte>>): Framed
    requires Bounded(read)
    decreases |chunks|
  {
    if |chunks| == 0 then Framed([], pending)
    else
      BoundedIsNeverOverlong(read, pending + chunks[0]);
      var f := Frames(read, pending + chunks[0]);
      var g := Receive(read, f.rest, chunks[1..]);
      Framed(f.packets + g.packets, g.rest)
  }

  /** Each chunk is non-empty and fits behind what is pending when it arrives. */
  ghost predicate Fits(read: Reader, pending: seq<byte>, chunks: seq<seq<byte>>, capacity: nat)
    requires Bounded(read)
    decreases |chunks|
  {
    |chunks| == 0 ||
    (&& 0 < |chunks[0]| && |pending| + |chunks[0]| <= capacity
     && (BoundedIsNeverOverlong(read, pending + chunks[0]);
         Fits(read, Frames(read, pending + chunks[0]).rest, chunks[1..], capacity)))
  }

  lemma ReceiveStep(read: Reader, pending: seq<byte>, chunks: seq<seq<byte>>, i: nat, capacity: nat)
    requires Bounded(read) && i < |chunks| && Fits(read, pending, chunks[i..], capacity)
    ensures 0 < |chunks[i]| && |pending| + |chunks[i]| <= capacity
    ensures !Overlong(read, pending + chunks[i])
    ensures var f := Frames(read, pending + chunks[i]);
      && Fits(read, f.rest, chunks[i + 1..], capacity)
      && Receive(read, pending, chunks[i..]).packets == f.packets + Receive(read, f.rest, chunks[i + 1..]).packets
      && Receive(read, pending, chunks[i..]).rest == Receive(read, f.rest, chunks[i + 1..]).rest
  {
    BoundedIsNeverOverlong(read, pending + chunks[i]);
    assert chunks[i..][1..] == chunks[i + 1..];
  }

  lemma ReceiveNothing(read: Reader, pending: seq<byte>, chunks: seq<seq<byte>>)
    requires Bounded(read) && |chunks| == 0
    ensures Receive(read, pending, chunks) == Framed([], pending)
  {
  }

  lemma StableAnswer(read: Reader, b: seq<byte>, more: seq<byte>)
    requires PrefixStable(read) && |b| > 0 && read(b) > 0
    ensures read(b + more) == read(b)
  {
  }

  /** Framing a prefix first, then the kept tail with the remainder, is framing
      the whole. */
  lemma {:induction false} FramesAppend(read: Reader, a: seq<byte>, b: seq<byte>)
    requires Bounded(read) && PrefixStable(read)
    requires !Overlong(read, a) && !Overlong(read, a + b) && !Overlong(read, Frames(read, a).rest + b)
    ensures var f := Frames(read, a); var g := Frames(read, f.rest + b);
      Frames(read, a + b) == Framed(f.packets + g.packets, g.rest)
    decreases |a|
  {
    hide PrefixStable, Bounded, Frames, Overlong;
    if |a| > 0 && read(a) > 0 {
      var n := read(a);
      StableAnswer(read, a, b);
      FirstPacket(read, a);
      FirstPacket(read, a + b);
      assert (a + b)[n..] == a[n..] + b && (a + b)[..n] == a[..n];
      FramesAppend(read, a[n..], b);
    } else {
      NoPacket(read, a);
    }
  }

  lemma {:induction false} ReceiveIsFrames(read: Reader, pending: seq<byte>, chunks: seq<seq<byte>>)
    requires Bounded(read) && PrefixStable(read) && (|pending| == 0 || read(pending) <= 0)
    requires !Overlong(read, pending + Flatten(chunks))
    ensures Receive(read, pending, chunks) == Frames(read, pending + Flatten(chunks))
    decreases |chunks|
  {
    hide PrefixStable, Bounded, Frames, Overlong;
    if |chunks| == 0 {
      assert pending + Flatten(chunks) == pending;
      NoPacket(read, pending);
    } else {
      var c, more := chunks[0], Flatten(chunks[1..]);
      BoundedIsNeverOverlong(read, pending + c);
      RestIsIncomplete(read, pending + c);
      var rest := Frames(read, pending + c).rest;
      BoundedIsNeverOverlong(read, rest + more);
      ReceiveIsFrames(read, rest, chunks[1..]);
      assert pending + Flatten(chunks) == (pending + c) + more;
      FramesAppend(read, pending + c, more);
    }
  }

  /** Two ways of cutting the same stream always give the same packets and tail. */
  ghost predicate ChunkIndependent(read: Reader)
    requires Bounded(read)
  {
    forall one: seq<seq<byte>>, two: seq<seq<byte>> {:trigger Receive(read, [], one), Receive(read, [], two)} ::
      Flatten(one) == Flatten(two) ==> Receive(read, [], one) == Receive(read, [], two)
  }

  /** The packet sequence is independent of how recv() cuts the stream if and only
      if the reader is prefix-stable. */
  lemma ChunkIndependentIffStable(read: Reader)
    requires Bounded(read)
    ensures ChunkIndependent(read) <==> PrefixStable(read)
  {
    if PrefixStable(read) {
      forall one: seq<seq<byte>>, two: seq<seq<byte>> | Flatten(one) == Flatten(two)
        ensures Receive(read, [], one) == Receive(read, [], two)
      {
        BoundedIsNeverOverlong(read, [] + Flatten(one));
        BoundedIsNeverOverlong(read, [] + Flatten(two));
        ReceiveIsFrames(read, [], one);
        ReceiveIsFrames(read, [], two);
      }
    }
    if ChunkIndependent(read) {
      forall b: seq<byte>, more: seq<byte> | |b| > 0 && read(b) > 0
        ensures read(b + more) == read(b)
      {
        FirstPacketsAgree(read, b, more);
      }
    }
  }

  lemma FirstPacketsAgree(read: Reader, b: seq<byte>, more: seq<byte>)
    requires Bounded(read) && ChunkIndependent(read) && |b| > 0 && read(b) > 0
    ensures read(b + more) == read(b)
  {
    var one, two := [b, more], [b + more];
    assert one[1..] == [more] && one[1..][1..] == [] && two[1..] == [];
    assert Flatten([more]) == more + [] == more;
    assert Flatten(one) == b + more && Flatten(two) == b + more + [] == b + more;
    assert [] + b == b && [] + (b + more) == b + more;
    BoundedIsNeverOverlong(read, b);
    BoundedIsNeverOverlong(read, b + more);
    FirstPacket(read, b);
    assert Receive(read, [], one).packets[0] == b[..read(b)];
    assert Receive(read, [], two).packets == Frames(read, b + more).packets + [];
    assert Receive(read, [], one) == Receive(read, [], two);
    if read(b + more) > 0 {
      FirstPacket(read, b + more);
    } else {
      NoPacket(read, b + more);
    }
  }

  /** The read_packet that EventHandler provides by default answers "everything
      there is", which is not prefix-stable: the packets are then the chunks. */
  function DefaultReader(): Reader { (b: seq<byte>) => |b| }

  lemma DefaultReaderFollowsChunks(b: byte)
    ensures Bounded(DefaultReader()) && !ChunkIndependent(DefaultReader())
  {
    var read := DefaultReader();
    assert read([b]) == 1 && read([b] + [b]) == 2;
    ChunkIndependentIffStable(read);
  }
}
