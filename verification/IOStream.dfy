/**
 A stream over a non-blocking socket: reads of several kinds are served from a buffer of received bytes, writes
 go through a buffer of bytes to be sent. What the socket answers is given to each operation as a list; where the
 list ends the socket would block.
 */
module IOStream {

  import opened Machine
  import opened Buffers

  /** What receiving and sending come to. */
  datatype Recv = Empty | Eof | Data(chunk: Bytes) | RecvError
  datatype Send = Blocked | Sent(n: nat) | SendError

  /** A callback put off to the next turn of the loop, with its data. */
  datatype Call = Call(callback: nat, data: Bytes)

  datatype Outcome = Done | Waiting | Spinning | Closed | Failed

  datatype Search = Found(pos: nat) | Stop | Running

  const MERGE: nat := 1048576

  function Delivered(calls: seq<Call>): Bytes {
    if calls == [] then "" else calls[0].data + Delivered(calls[1..])
  }

  lemma {:induction false} DeliveredMore(calls: seq<Call>, c: Call)
    ensures Delivered(calls + [c]) == Delivered(calls) + c.data
  {
    if calls == [] {
      assert [c][1..] == [];
    } else {
      DeliveredMore(calls[1..], c);
      assert (calls + [c])[1..] == calls[1..] + [c];
    }
  }

  // ----- receiving -----

  /** The bytes that so many turns of receiving bring. */
  function DataOf(incoming: seq<Recv>): Bytes {
    if incoming == [] then "" else
      var last := incoming[|incoming| - 1];
      DataOf(incoming[..|incoming| - 1]) + if last.Data? then last.chunk else ""
  }

  lemma NoData(incoming: seq<Recv>)
    requires incoming == []
    ensures DataOf(incoming) == ""
  {
  }

  lemma DataNext(incoming: seq<Recv>, n: nat)
    requires n < |incoming|
    ensures DataOf(incoming[..n + 1]) == DataOf(incoming[..n]) + if incoming[n].Data? then incoming[n].chunk else ""
  {
    assert incoming[..n + 1][..n] == incoming[..n];
  }

  /** Receiving goes on after so many turns: the last brought bytes, and the buffer stays below its maximum. */
  ghost predicate GoesOn(incoming: seq<Recv>, n: nat, had: nat, max: nat) {
    0 < n <= |incoming| && incoming[n - 1].Data? && had + |DataOf(incoming[..n])| < max
  }

  /** Receiving stops after so many turns, and not before. */
  ghost predicate Stops(incoming: seq<Recv>, n: nat, had: nat, max: nat) {
    && n <= |incoming| && (forall k: nat :: 0 < k < n ==> GoesOn(incoming, k, had, max))
    && (n < |incoming| ==> n > 0 && !GoesOn(incoming, n, had, max))
  }

  /** The last of so many turns brought an error, or more than the buffer may hold. */
  ghost predicate Fails(incoming: seq<Recv>, n: nat, had: nat, max: nat) {
    0 < n <= |incoming|
    && (incoming[n - 1] == RecvError || (incoming[n - 1].Data? && had + |DataOf(incoming[..n])| >= max))
  }

  /** The last of so many turns brought the end of the stream. */
  ghost predicate Ends(incoming: seq<Recv>, n: nat) {
    0 < n <= |incoming| && incoming[n - 1] == Eof
  }

  /** How much of the buffered bytes a streaming callback gets; no bound is written as 0. */
  ghost function Share(bound: nat, c: Bytes): (k: nat)
    ensures k <= |c|
  {
    if bound != 0 then Min(bound, |c|) else |c|
  }

  /** The calls by which a streaming callback gets them. */
  ghost function Streamed(callback: nat, bound: nat, c: Bytes): seq<Call> {
    if c == "" then [] else [Call(callback, c[..Share(bound, c)])]
  }

  // ----- finding a delimiter -----

  predicate At(s: Bytes, d: Bytes, i: nat) {
    i + |d| <= |s| && s[i..i + |d|] == d
  }

  /** The first place of d in s from i on, if there is one. */
  function FindFrom(s: Bytes, d: Bytes, i: nat): (r: int)
    requires i <= |s|
    ensures r >= 0 ==> i <= r && At(s, d, r) && forall j: nat :: i <= j < r ==> !At(s, d, j)
    ensures r < 0 ==> r == -1 && forall j: nat :: i <= j ==> !At(s, d, j)
    decreases |s| - i
  {
    if At(s, d, i) then i else if i == |s| then -1 else FindFrom(s, d, i + 1)
  }

  function Find(s: Bytes, d: Bytes): (r: int)
    ensures r >= 0 ==> At(s, d, r) && forall j: nat :: j < r ==> !At(s, d, j)
    ensures r < 0 ==> r == -1 && forall j: nat :: !At(s, d, j)
  {
    FindFrom(s, d, 0)
  }

  /** What is found in the beginning of the bytes is the first in all of them. */
  lemma FindInPrefix(s: Bytes, n: nat, d: Bytes)
    requires n <= |s|
    ensures Find(s[..n], d) >= 0 ==> Find(s, d) == Find(s[..n], d)
  {
    hide Find;
    forall j: nat ensures At(s[..n], d, j) <==> At(s, d, j) && j + |d| <= n {
      if j + |d| <= n {
        assert s[..n][j..j + |d|] == s[j..j + |d|];
      }
    }
  }

  /** The bytes end with the delimiter, and it is nowhere before. */
  ghost predicate EndsWith(s: Bytes, d: Bytes) {
    |d| <= |s| && At(s, d, |s| - |d|) && forall j: nat :: At(s, d, j) ==> j == |s| - |d|
  }

  lemma ShortestEndsWith(c: Bytes, d: Bytes)
    requires Find(c, d) >= 0
    ensures EndsWith(c[..Find(c, d) + |d|], d)
  {
    var p := Find(c, d);
    var s := c[..p + |d|];
    forall j: nat | At(s, d, j) ensures j == p {
      assert s[j..j + |d|] == c[j..j + |d|];
      assert At(c, d, j);
    }
    assert s[p..p + |d|] == c[p..p + |d|];
  }

  class Stream {
    const readBuffer: Buffer
    const writeBuffer: Buffer
    const maxBufferSize: nat
    var open: bool
    var frozen: bool
    var readBytes: nat
    var readDelimiter: Option<Bytes>
    var readUntilClose: bool
    var readCallback: Option<nat>
    var streamingCallback: Option<nat>
    var writeCallback: Option<nat>
    var scheduled: seq<Call>
    /** All bytes received from the socket, accepted by write, and sent; and the chunk last offered in vain. */
    ghost var received: Bytes
    ghost var written: Bytes
    ghost var sent: Bytes
    ghost var blocked: Bytes

    ghost predicate Buffered()
      reads this, readBuffer, writeBuffer
    {
      && readBuffer != writeBuffer
      && readBuffer.Valid() && Solid(readBuffer.chunks)
      && writeBuffer.Valid() && Solid(writeBuffer.chunks)
    }

    /** Nothing is lost, doubled or out of order in either direction. */
    ghost predicate Conserved()
      reads this, readBuffer, writeBuffer
    {
      && received == Delivered(scheduled) + readBuffer.Contents()
      && written == sent + writeBuffer.Contents()
    }

    /** A chunk that the socket did not take is the next one to be offered. */
    ghost predicate Frozen()
      reads this, writeBuffer
    {
      frozen ==> writeBuffer.chunks != [] && writeBuffer.chunks[0] == blocked
    }

    /** There is at most one read in progress, of one kind. */
    ghost predicate OneRead()
      reads this
    {
      && (readBytes > 0 || readDelimiter.Some? || readUntilClose ==> readCallback.Some?)
      && (readDelimiter.Some? ==> readBytes == 0)
      && (readUntilClose ==> readBytes == 0 && readDelimiter == None)
    }

    ghost predicate Valid()
      reads this, readBuffer, writeBuffer
    {
      Buffered() && Conserved() && Frozen() && OneRead()
    }

    constructor (maxBufferSize: nat)
      ensures Valid() && open && !frozen && received == written == sent == "" && scheduled == []
      ensures readCallback == None && streamingCallback == None
      ensures readDelimiter == None && readBytes == 0 && !readUntilClose
      ensures fresh(readBuffer) && fresh(writeBuffer) && this.maxBufferSize == maxBufferSize
    {
      readBuffer := new Buffer();
      writeBuffer := new Buffer();
      this.maxBufferSize := maxBufferSize;
      open, frozen, readBytes, readDelimiter, readUntilClose := true, false, 0, None, false;
      readCallback, streamingCallback, writeCallback, scheduled := None, None, None, [];
      received, written, sent, blocked := "", "", "", "";
    }

    // ----- reading -----

    /** Takes bytes from the front of the read buffer and puts off a callback with them. */
    method Deliver(callback: nat, loc: nat)
      requires Valid() && loc <= |readBuffer.Contents()|
      modifies `scheduled, readBuffer
      ensures Valid() && scheduled == old(scheduled) + [Call(callback, old(readBuffer.Contents())[..loc])]
      ensures readBuffer.Contents() == old(readBuffer.Contents())[loc..]
    {
      hide Delivered, Concat;
      ghost var c := readBuffer.Contents();
      var data := "";
      if loc != 0 {
        readBuffer.MergePrefix(loc);
        data := readBuffer.Pop();
      }
      assert c[..loc] == data && c[loc..] == readBuffer.Contents();
      DeliveredMore(scheduled, Call(callback, data));
      scheduled := scheduled + [Call(callback, data)];
    }

    /** close: a read until close is completed with all that there is. */
    method Close()
      requires Valid()
      modifies `open, `readUntilClose, `readCallback, `scheduled, readBuffer
      ensures Valid() && !open
      ensures old(open && readUntilClose)
          ==> readCallback == None && !readUntilClose && readBuffer.Contents() == ""
              && scheduled == old(scheduled) + [Call(old(readCallback.value), old(readBuffer.Contents()))]
      ensures !old(open && readUntilClose)
          ==> readCallback == old(readCallback) && readUntilClose == old(readUntilClose)
              && readBuffer.Contents() == old(readBuffer.Contents()) && scheduled == old(scheduled)
    {
      if open {
        if readUntilClose {
          var callback := readCallback.value;
          readCallback := None;
          readUntilClose := false;
          ghost var c := readBuffer.Contents();
          assert c[..|c|] == c && c[|c|..] == "";
          Deliver(callback, readBuffer.size);
        }
        open := false;
      }
    }

    /**
     The bytes wait in the buffer, or, if a read until close has just ended, all of them are put off to its callback.
     */
    ghost predicate Settled(before: seq<Call>, callback: Option<nat>, waiting: bool, c: Bytes, ended: bool)
      reads this, readBuffer
    {
      if ended then
        && callback.Some? && scheduled == before + [Call(callback.value, c)]
        && readBuffer.Contents() == "" && readCallback == None && !readUntilClose
      else
        && scheduled == before && readBuffer.Contents() == c && readCallback == callback && readUntilClose == waiting
    }

    /** read_to_buffer: one attempt to receive. */
    method ReadToBuffer(r: Recv) returns (n: nat, failed: bool)
      requires Valid() && (r.Data? ==> r.chunk != "")
      modifies `open, `readUntilClose, `readCallback, `scheduled, `received, readBuffer
      ensures Valid()
      ensures var data := if r.Data? then r.chunk else "";
        var c := old(readBuffer.Contents()) + data;
        && received == old(received) + data
        && (failed <==> r == RecvError || (r.Data? && |c| >= maxBufferSize)) && n == (if failed then 0 else |data|)
        && open == (old(open) && !failed && r != Eof)
        && Settled(old(scheduled), old(readCallback), old(readUntilClose), c, old(open && readUntilClose) && !open)
    {
      hide Delivered, Concat;
      n, failed := 0, false;
      ghost var was := readBuffer.Contents();
      assert was + "" == was && received + "" == received;
      match r
      case Empty =>
      case Eof =>
        Close();
      case RecvError =>
        Close();
        failed := true;
      case Data(chunk) =>
        Join(Delivered(scheduled), readBuffer.Contents(), chunk);
        readBuffer.Push(chunk);
        received := received + chunk;
        if readBuffer.size >= maxBufferSize {
          Close();
          failed := true;
        } else {
          n := |chunk|;
        }
    }

    /**
     The search for a delimiter, with a bound on its steps. It ends only if the delimiter is in the buffer or the buffer
     holds a single byte: the test made is of the number of bytes, not of chunks.
     */
    method FindDelimiter(d: Bytes, fuel: nat) returns (r: Search)
      requires Valid() && readBuffer.Contents() != ""
      modifies readBuffer`chunks
      ensures Valid() && readBuffer.Contents() == old(readBuffer.Contents())
      ensures r.Found? ==> r.pos == Find(readBuffer.Contents(), d)
      ensures r == Stop ==> Find(readBuffer.Contents(), d) < 0 && |readBuffer.Contents()| == 1
      ensures r == Running && fuel > |readBuffer.Contents()|
          ==> Find(readBuffer.Contents(), d) < 0 && |readBuffer.Contents()| > 1
    {
      hide Delivered, Concat, Find;
      ghost var c := readBuffer.Contents();
      var i := 0;
      TopIsPrefix(readBuffer.chunks);
      while i < fuel
        invariant Valid() && readBuffer.Contents() == c && readBuffer.chunks != []
        invariant |readBuffer.chunks[0]| <= |c| && readBuffer.chunks[0] == c[..|readBuffer.chunks[0]|]
        invariant i <= fuel
        invariant i < |readBuffer.chunks[0]|
            || (i >= |c| && readBuffer.chunks[0] == c && i > 0 && Find(c, d) < 0 && |c| > 1)
        decreases fuel - i
      {
        var str := readBuffer.chunks[0];
        var pos := Find(str, d);
        assert c[..|str|] == str;
        FindInPrefix(c, |str|, d);
        OneChunk(readBuffer.chunks);
        if pos != -1 {
          return Found(pos);
        }
        if readBuffer.size == 1 {
          return Stop;
        }
        readBuffer.DoublePrefix();
        TopIsPrefix(readBuffer.chunks);
        i := i + 1;
      }
      r := Running;
    }

    /** A streaming callback got its share of the bytes. */
    ghost predicate Shared(before: seq<Call>, bound: nat, callback: nat, c: Bytes)
      reads this, readBuffer
    {
      && scheduled == before + Streamed(callback, bound, c) && readBuffer.Contents() == c[Share(bound, c)..]
      && readBytes == if bound != 0 then bound - Share(bound, c) else 0
    }

    /** The streaming part of read_from_buffer: what there is goes out at once, up to the count. */
    method StreamOut()
      requires Valid()
      modifies `scheduled, `readBytes, readBuffer
      ensures Valid()
      ensures streamingCallback == None
          ==> readBuffer.Contents() == old(readBuffer.Contents()) && scheduled == old(scheduled)
              && readBytes == old(readBytes)
      ensures streamingCallback.Some?
          ==> Shared(old(scheduled), old(readBytes), streamingCallback.value, old(readBuffer.Contents()))
    {
      hide Delivered, Concat;
      if streamingCallback != None && readBuffer.size > 0 {
        var n := readBuffer.size;
        if readBytes != 0 {
          n := Min(readBytes, n);
          readBytes := readBytes - n;
        }
        Deliver(streamingCallback.value, n);
      }
    }

    /** A read of a count of bytes, or up to a delimiter, without streaming. */
    ghost predicate Counting()
      reads this
    {
      streamingCallback == None && readBytes > 0
    }

    ghost predicate Delimiting()
      reads this
    {
      streamingCallback == None && readDelimiter.Some?
    }

    /** One more call than before has been put off, with so many of the bytes, and the others stay in the buffer. */
    ghost predicate Completed(before: seq<Call>, callback: nat, c: Bytes, n: int)
      reads this, readBuffer
    {
      0 <= n <= |c| && scheduled == before + [Call(callback, c[..n])] && readBuffer.Contents() == c[n..]
    }

    /** One more call than before has been put off. */
    ghost predicate OneCall(before: seq<Call>, callback: nat)
      reads this
    {
      |scheduled| == |before| + 1 && scheduled[..|before|] == before && scheduled[|before|].callback == callback
    }

    /** read_from_buffer: completes the read in progress if the buffer has enough. */
    method ReadFromBuffer(fuel: nat) returns (r: Outcome)
      requires Valid()
      modifies `scheduled, `readBytes, `readDelimiter, `readCallback, `streamingCallback, readBuffer
      ensures Valid() && (r == Done || r == Waiting || r == Spinning) && old(scheduled) <= scheduled
      ensures r != Done
          ==> readCallback == old(readCallback) && readDelimiter == old(readDelimiter)
              && streamingCallback == old(streamingCallback)
      ensures old(readBytes == 0 && readDelimiter == None) ==> r == Waiting && readBytes == 0
      ensures r == Done ==> readCallback == None && streamingCallback == None && readDelimiter == None && readBytes == 0
      // A count is completed by that many bytes, as soon as they are there.
      ensures old(Counting()) ==> (r == Done <==> |old(readBuffer.Contents())| >= old(readBytes))
      ensures old(Counting()) && r == Done
          ==> Completed(old(scheduled), old(readCallback.value), old(readBuffer.Contents()), old(readBytes))
      // A delimiter is completed by the shortest beginning that ends with it.
      ensures old(Delimiting()) && r == Done
          ==> var c, d := old(readBuffer.Contents()), old(readDelimiter.value);
              Find(c, d) >= 0 && Completed(old(scheduled), old(readCallback.value), c, Find(c, d) + |d|)
      ensures old(Delimiting()) && old(readBuffer.Contents()) != "" && fuel > |old(readBuffer.Contents())|
          ==> (r == Done <==> Find(old(readBuffer.Contents()), old(readDelimiter.value)) >= 0)
      ensures old(Delimiting()) && |old(readBuffer.Contents())| > 1 && r != Done ==> r == Spinning
      ensures old(Delimiting()) && |old(readBuffer.Contents())| <= 1 && fuel > 1 ==> r != Spinning
      // Nothing is taken before that, unless there is streaming; and a streaming read never comes to its end.
      ensures old(streamingCallback) == None && r != Done
          ==> scheduled == old(scheduled) && readBuffer.Contents() == old(readBuffer.Contents())
              && readBytes == old(readBytes)
      ensures old(readDelimiter) == None || old(readBuffer.Contents()) == "" ==> r != Spinning
      ensures old(Delimiting()) && old(readBuffer.Contents()) == "" ==> r == Waiting
      ensures old(streamingCallback.Some?)
          ==> r == Waiting
              && Shared(old(scheduled), old(readBytes), old(streamingCallback.value), old(readBuffer.Contents()))
    {
      hide Delivered, Concat, Find;
      StreamOut();
      r := Waiting;
      if readBytes != 0 && readBuffer.size >= readBytes {
        var n, callback := readBytes, readCallback.value;
        readCallback, streamingCallback, readBytes := None, None, 0;
        Deliver(callback, n);
        r := Done;
      } else if readDelimiter != None {
        if readBuffer.size > 0 {
          var d := readDelimiter.value;
          var s := FindDelimiter(d, fuel);
          match s
          case Found(pos) =>
            var callback := readCallback.value;
            readCallback, streamingCallback, readDelimiter := None, None, None;
            Deliver(callback, pos + |d|);
            r := Done;
          case Stop =>
          case Running =>
            r := Spinning;
        }
      }
    }

    /** The loop of handle_read and try_inline_read: receive until there is nothing to receive. */
    method Receive(incoming: seq<Recv>) returns (failed: bool, ghost n: nat)
      requires Valid() && forall k :: 0 <= k < |incoming| && incoming[k].Data? ==> incoming[k].chunk != ""
      modifies `open, `readUntilClose, `readCallback, `scheduled, `received, readBuffer
      ensures Valid() && n <= |incoming| && Stops(incoming, n, |old(readBuffer.Contents())|, maxBufferSize)
      ensures received == old(received) + DataOf(incoming[..n])
      ensures failed <==> Fails(incoming, n, |old(readBuffer.Contents())|, maxBufferSize)
      ensures open == (old(open) && !failed && !Ends(incoming, n))
      ensures var c := old(readBuffer.Contents()) + DataOf(incoming[..n]);
        Settled(old(scheduled), old(readCallback), old(readUntilClose), c, old(open && readUntilClose) && !open)
    {
      hide Delivered, Concat, DataOf;
      failed, n := false, 0;
      ghost var was, had := readBuffer.Contents(), |readBuffer.Contents()|;
      assert DataOf(incoming[..0]) == "" by {
        NoData(incoming[..0]);
      }
      var i := 0;
      while i < |incoming|
        invariant Valid() && i == n <= |incoming| && !failed && open == old(open)
        invariant n == 0 || GoesOn(incoming, n, had, maxBufferSize)
        invariant forall k: nat :: 0 < k < n ==> GoesOn(incoming, k, had, maxBufferSize)
        invariant received == old(received) + DataOf(incoming[..n])
        invariant Settled(old(scheduled), old(readCallback), old(readUntilClose), was + DataOf(incoming[..n]), false)
        decreases |incoming| - i
      {
        var got;
        got, failed := ReadToBuffer(incoming[i]);
        DataNext(incoming, i);
        ghost var data := if incoming[i].Data? then incoming[i].chunk else "";
        Join(was, DataOf(incoming[..i]), data);
        Join(old(received), DataOf(incoming[..i]), data);
        i, n := i + 1, n + 1;
        if failed || got == 0 {
          break;
        }
      }
    }

    /** How many bytes a streaming callback gets at once. */
    ghost function Streams(): (k: nat)
      reads this, readBuffer
      ensures k <= |readBuffer.Contents()|
    {
      if streamingCallback.Some? then Share(readBytes, readBuffer.Contents()) else 0
    }

    /** What receiving for n turns and then serving the read in progress comes to. */
    twostate predicate Served(incoming: seq<Recv>, fuel: nat, r: Outcome, n: nat)
      requires old(Valid()) && Valid() && n <= |incoming|
      reads this, readBuffer, writeBuffer
    {
      var c := old(readBuffer.Contents()) + DataOf(incoming[..n]);
      && Stops(incoming, n, |old(readBuffer.Contents())|, maxBufferSize)
      && received == old(received) + DataOf(incoming[..n]) && old(scheduled) <= scheduled
      && r != Closed && (old(readBytes == 0 && readDelimiter == None) ==> r != Done)
      && (r == Failed <==> Fails(incoming, n, |old(readBuffer.Contents())|, maxBufferSize))
      && open == (old(open) && r != Failed && !Ends(incoming, n))
      // The read in progress is completed as soon as there is enough for it, and without streaming not a byte is taken
      // before.
      && (old(Counting()) && r == Done ==> Completed(old(scheduled), old(readCallback.value), c, old(readBytes)))
      && (old(Counting()) && r != Failed ==> (r == Done <==> |c| >= old(readBytes)))
      && (old(Delimiting()) && r == Done ==>
            var p, d := Find(c, old(readDelimiter.value)), old(readDelimiter.value);
            p >= 0 && Completed(old(scheduled), old(readCallback.value), c, p + |d|))
      && (old(Delimiting()) && r != Failed && c != "" && fuel > |c| ==>
            (r == Done <==> Find(c, old(readDelimiter.value)) >= 0))
      && (old(streamingCallback) == None && !old(readUntilClose) && r != Done ==>
            scheduled == old(scheduled) && readBuffer.Contents() == c)
      // The end of the stream completes a read until close with all that was received.
      && (old(open && readUntilClose) && !open ==> Settled(old(scheduled), old(readCallback), true, c, true))
      // A streaming callback gets its share of what is buffered then, and the read never comes to its end.
      && (old(streamingCallback.Some? && !readUntilClose) ==>
            var b, f := old(readBytes), old(streamingCallback.value);
            && (r == Failed || r == Waiting)
            && scheduled == old(scheduled) + (if r == Waiting then Streamed(f, b, c) else [])
            && readBytes == if r == Waiting && b != 0 then b - Share(b, c) else b)
      && (r == Done ==> NoRead())
      && (r != Done && !(old(open && readUntilClose) && !open) ==> SameRead())
    }

    /** Nothing has happened to what is being written. */
    twostate predicate NotWritten()
      reads this
    {
      && written == old(written) && sent == old(sent) && blocked == old(blocked) && frozen == old(frozen)
      && writeCallback == old(writeCallback)
    }

    /** No read is in progress any more. */
    ghost predicate NoRead()
      reads this
    {
      readCallback == None && streamingCallback == None && readDelimiter == None && readBytes == 0
    }

    /** The read in progress is the same as before; only what was streamed comes off the count. */
    twostate predicate SameRead()
      reads this
    {
      && readCallback == old(readCallback) && readDelimiter == old(readDelimiter)
      && streamingCallback == old(streamingCallback) && readUntilClose == old(readUntilClose)
      && (streamingCallback == None ==> readBytes == old(readBytes))
    }

    /** What handle_read and try_inline_read share: receive, and then serve the read in progress. */
    method ReceiveAndServe(incoming: seq<Recv>, fuel: nat) returns (r: Outcome, ghost n: nat)
      requires Valid()
      requires forall k :: 0 <= k < |incoming| && incoming[k].Data? ==> incoming[k].chunk != ""
      modifies this, readBuffer
      ensures Valid() && NotWritten()
      ensures n <= |incoming| && Served(incoming, fuel, r, n)
    {
      hide Delivered, Concat, Find, DataOf, Stops, Fails, Ends, At, Completed, Conserved, Frozen;
      var failed;
      failed, n := Receive(incoming);
      if failed {
        return Failed, n;
      }
      r := ReadFromBuffer(fuel);
    }

    /** handle_read */
    method HandleRead(incoming: seq<Recv>, fuel: nat) returns (r: Outcome, ghost n: nat)
      requires Valid()
      requires forall k :: 0 <= k < |incoming| && incoming[k].Data? ==> incoming[k].chunk != ""
      modifies this, readBuffer
      ensures Valid() && NotWritten()
      ensures n <= |incoming| && Served(incoming, fuel, r, n)
    {
      hide Delivered, Concat, Find, DataOf, Stops, Fails, Ends;
      r, n := ReceiveAndServe(incoming, fuel);
      if r == Failed {
        Close();
      }
    }

    /** try_inline_read: from the buffer if it has enough, and else after receiving. */
    method TryInlineRead(incoming: seq<Recv>, fuel: nat) returns (r: Outcome, ghost n: nat, ghost direct: bool)
      requires Valid() && readCallback.Some? && !readUntilClose
      requires forall k :: 0 <= k < |incoming| && incoming[k].Data? ==> incoming[k].chunk != ""
      modifies this, readBuffer
      ensures Valid() && NotWritten()
      ensures n <= |incoming| && received == old(received) + DataOf(incoming[..n]) && old(scheduled) <= scheduled
      // The first look at the buffer ends the call, or the stream is closed, or it receives for as long as it goes on.
      ensures direct ==> n == 0 && (r == Done || r == Spinning) && open == old(open)
      ensures !direct && !old(open) ==> r == Closed && n == 0 && !open
      ensures !direct && old(open)
          ==> var had := old(|readBuffer.Contents()| - Streams());
              Stops(incoming, n, had, maxBufferSize) && (r == Failed <==> Fails(incoming, n, had, maxBufferSize))
              && r != Closed && open == (r != Failed && !Ends(incoming, n))
      ensures old(Counting()) ==> (direct <==> |old(readBuffer.Contents())| >= old(readBytes))
      ensures old(Delimiting()) && fuel > |old(readBuffer.Contents())| && fuel > 1
          ==> var c := old(readBuffer.Contents());
              (direct <==> |c| > 1 || (c != "" && Find(c, old(readDelimiter.value)) >= 0))
              && (direct ==> (r == Done <==> Find(c, old(readDelimiter.value)) >= 0))
      ensures old(streamingCallback.Some?) || old(readDelimiter == None && readBytes == 0) ==> !direct
      ensures if r == Done then NoRead() else SameRead()
      // A count is completed by that many bytes, as soon as they are there.
      ensures old(Counting()) && r == Done
          ==> Completed(old(scheduled), old(readCallback.value), old(readBuffer.Contents()) + DataOf(incoming[..n]),
              old(readBytes))
      ensures old(Counting()) && r != Failed
          ==> (r == Done <==> |old(readBuffer.Contents()) + DataOf(incoming[..n])| >= old(readBytes))
      // A delimiter is completed by the shortest beginning that ends with it.
      ensures old(Delimiting()) && r == Done
          ==> var c, d := old(readBuffer.Contents()) + DataOf(incoming[..n]), old(readDelimiter.value);
              Find(c, d) >= 0 && Completed(old(scheduled), old(readCallback.value), c, Find(c, d) + |d|)
      ensures old(Delimiting()) && r != Failed
          ==> var c := old(readBuffer.Contents()) + DataOf(incoming[..n]);
              c != "" && fuel > |c| ==> (r == Done <==> Find(c, old(readDelimiter.value)) >= 0)
      // Nothing is taken before that, unless there is streaming.
      ensures old(streamingCallback) == None && r != Done
          ==> scheduled == old(scheduled) && readBuffer.Contents() == old(readBuffer.Contents()) + DataOf(incoming[..n])
      // A streaming read never comes to its end: its callback gets its share of what was buffered and of what came
      // then.
      ensures old(streamingCallback.Some?) || old(readDelimiter == None && readBytes == 0) ==> r != Done
      ensures old(streamingCallback.Some?) ==>
        var b, c, f := old(readBytes), old(readBuffer.Contents()), old(streamingCallback.value);
        var b', c' := if b != 0 then b - Share(b, c) else 0, c[Share(b, c)..] + DataOf(incoming[..n]);
        && scheduled == old(scheduled) + Streamed(f, b, c) + (if r == Waiting then Streamed(f, b', c') else [])
        && readBytes == if r == Waiting && b' != 0 then b' - Share(b', c') else b'
    {
      hide Delivered, Concat, Find, DataOf, Stops, Fails, Ends, At, Completed, Streamed, Settled;
      n := 0;
      ghost var was := readBuffer.Contents();
      assert was + DataOf(incoming[..0]) == was && old(received) + DataOf(incoming[..0]) == old(received) by {
        NoData(incoming[..0]);
      }
      r := ReadFromBuffer(fuel);
      direct := r != Waiting;
      if r != Waiting {
        return;
      }
      if !open {
        return Closed, 0, false;
      }
      r, n := ReceiveAndServe(incoming, fuel);
    }

    /** read_bytes */
    method ReadBytes(n: nat, callback: nat, streaming: Option<nat>, incoming: seq<Recv>, fuel: nat)
      returns (r: Outcome, ghost turns: nat)
      requires Valid() && readCallback == None
      requires forall k :: 0 <= k < |incoming| && incoming[k].Data? ==> incoming[k].chunk != ""
      modifies this, readBuffer
      ensures Valid() && NotWritten()
      ensures turns <= |incoming| && received == old(received) + DataOf(incoming[..turns])
      ensures streaming == None && n > 0 && r == Done
          ==> Completed(old(scheduled), callback, old(readBuffer.Contents()) + DataOf(incoming[..turns]), n)
              && OneCall(old(scheduled), callback) && |scheduled[|old(scheduled)|].data| == n
      ensures streaming == None && n > 0 && r != Failed
          ==> (r == Done <==> |old(readBuffer.Contents()) + DataOf(incoming[..turns])| >= n)
      ensures streaming == None && r != Done ==> scheduled == old(scheduled)
      ensures streaming.Some? || n == 0 ==> r != Done
      ensures streaming.Some? ==>
        var c := old(readBuffer.Contents());
        var n', c' := if n != 0 then n - Share(n, c) else 0, c[Share(n, c)..] + DataOf(incoming[..turns]);
        scheduled == old(scheduled) + Streamed(streaming.value, n, c)
            + if r == Waiting then Streamed(streaming.value, n', c') else []
      // It waits only on an open stream from which nothing more can be received now, and stays registered.
      ensures r == Done ==> NoRead()
      ensures r != Done ==> readCallback == Some(callback) && streamingCallback == streaming && readDelimiter == None
      ensures streaming == None && r != Done ==> readBytes == n
      ensures open == (old(open) && r != Failed && !Ends(incoming, turns))
      ensures streaming == None && n > 0
          ==> var had := |old(readBuffer.Contents())|;
              if had >= n then r == Done && turns == 0
              else if !old(open) then r == Closed && turns == 0
              else
                && r != Closed && Stops(incoming, turns, had, maxBufferSize)
                && (r == Failed <==> Fails(incoming, turns, had, maxBufferSize))
    {
      hide Delivered, Concat, Find, DataOf, At;
      readCallback := Some(callback);
      readBytes := n;
      streamingCallback := streaming;
      ghost var direct;
      r, turns, direct := TryInlineRead(incoming, fuel);
    }

    /** read_until */
    method ReadUntil(delimiter: Bytes, callback: nat, incoming: seq<Recv>, fuel: nat)
      returns (r: Outcome, ghost turns: nat)
      requires Valid() && readCallback == None
      requires forall k :: 0 <= k < |incoming| && incoming[k].Data? ==> incoming[k].chunk != ""
      modifies this, readBuffer
      ensures Valid() && NotWritten()
      ensures turns <= |incoming| && received == old(received) + DataOf(incoming[..turns])
      ensures r == Done ==> OneCall(old(scheduled), callback) && EndsWith(scheduled[|old(scheduled)|].data, delimiter)
      ensures old(streamingCallback) == None && r != Failed
          ==> var c := old(readBuffer.Contents()) + DataOf(incoming[..turns]);
              c != "" && fuel > |c| ==> (r == Done <==> Find(c, delimiter) >= 0)
      ensures old(streamingCallback) == None && r != Done ==> scheduled == old(scheduled)
      ensures r == Done ==> NoRead()
      ensures r != Done ==> readCallback == Some(callback) && readDelimiter == Some(delimiter)
      ensures r != Done ==> streamingCallback == old(streamingCallback)
      ensures open == (old(open) && r != Failed && !Ends(incoming, turns))
      ensures old(streamingCallback.Some?) ==> r != Done
      ensures old(streamingCallback) == None && fuel > |old(readBuffer.Contents())| && fuel > 1
          ==> var c := old(readBuffer.Contents());
              if c != "" && Find(c, delimiter) >= 0 then r == Done && turns == 0
              else if |c| > 1 then r == Spinning && turns == 0
              else if !old(open) then r == Closed && turns == 0
              else
                && r != Closed && Stops(incoming, turns, |c|, maxBufferSize)
                && (r == Failed <==> Fails(incoming, turns, |c|, maxBufferSize))
    {
      hide Delivered, Concat, Find, DataOf, Stops, Fails, At, Streamed, Settled, EndsWith;
      readCallback := Some(callback);
      readDelimiter := Some(delimiter);
      ghost var was := readBuffer.Contents();
      ghost var direct;
      r, turns, direct := TryInlineRead(incoming, fuel);
      if r == Done {
        ShortestEndsWith(was + DataOf(incoming[..turns]), delimiter);
      }
    }

    /** read_until_close: at once if the stream is closed. */
    method ReadUntilClose(callback: nat, streaming: Option<nat>)
      requires Valid() && readCallback == None
      modifies this, readBuffer
      ensures Valid() && NotWritten() && received == old(received) && open == old(open)
      ensures readDelimiter == old(readDelimiter) && readBytes == old(readBytes)
      ensures old(open)
          ==> readUntilClose && scheduled == old(scheduled) && readBuffer.Contents() == old(readBuffer.Contents())
              && readCallback == Some(callback) && streamingCallback == streaming
      ensures !old(open)
          ==> readBuffer.Contents() == "" && Delivered(scheduled) == received
              && readCallback == None && streamingCallback == None
      // The streaming callback gets the bytes, if there is one, and then the other one none.
      ensures !old(open)
          ==> var c := old(readBuffer.Contents());
              scheduled == old(scheduled)
                  + if streaming.Some? then [Call(streaming.value, c), Call(callback, "")] else [Call(callback, c)]
    {
      hide Delivered, Concat;
      readCallback := Some(callback);
      streamingCallback := streaming;
      if !open {
        ghost var c := readBuffer.Contents();
        assert c[..|c|] == c && c[|c|..] == "" && c[|c|..][..0] == "";
        if streaming != None {
          Deliver(streaming.value, readBuffer.size);
        }
        Deliver(callback, readBuffer.size);
        streamingCallback := None;
        readCallback := None;
        return;
      }
      readUntilClose := true;
    }

    // ----- writing -----

    /** One turn of the loop of handle_write: the first chunk is offered. */
    method Offer(answer: Send) returns (ghost chunk: Bytes)
      requires Valid() && writeBuffer.Contents() != ""
      modifies `frozen, `sent, `blocked, writeBuffer
      ensures Valid() && chunk != "" && chunk <= old(writeBuffer.Contents())
      ensures old(frozen) ==> chunk == old(blocked)
      ensures !old(frozen) ==> chunk == old(writeBuffer.Contents())[..Min(1048576, |old(writeBuffer.Contents())|)]
      ensures old(writeBuffer.Contents()) == chunk[..Taken(answer, |chunk|)] + writeBuffer.Contents()
      ensures sent == old(sent) + chunk[..Taken(answer, |chunk|)]
      ensures answer != SendError ==> (frozen <==> Taken(answer, |chunk|) == 0)
      ensures answer == SendError ==> frozen == old(frozen) && blocked == old(blocked)
      ensures frozen && answer != SendError ==> blocked == chunk
    {
      hide Concat, Delivered;
      TopIsPrefix(writeBuffer.chunks);
      if !frozen {
        writeBuffer.MergePrefix(MERGE);
        TopIsPrefix(writeBuffer.chunks);
      }
      var top := writeBuffer.chunks[0];
      chunk := top;
      if answer == SendError {
        return;
      }
      var n := Taken(answer, |top|);
      if n == 0 {
        frozen := true;
        blocked := top;
      } else {
        frozen := false;
        ghost var c := writeBuffer.Contents();
        writeBuffer.RemovePrefix(n);
        sent := sent + top[..n];
        assert c == top[..n] + c[n..];
        Join(old(sent), top[..n], c[n..]);
      }
    }

    /** What offering the bytes in the write buffer to the socket came to. */
    twostate predicate Offered(pending: Bytes, offers: seq<Bytes>, answers: seq<Send>)
      requires Valid()
      reads this, readBuffer, writeBuffer
    {
      && sent == old(sent) + Accepted(offers, answers) && pending == Accepted(offers, answers) + writeBuffer.Contents()
      && InTurn(pending, if old(frozen) then Some(old(blocked)) else None, offers, answers)
      // Offering begins if there is anything, and ends with an empty buffer, an answer that takes nothing, or an error.
      // An error closes the stream, and nothing else does.
      && (offers == [] <==> pending == "")
      && (offers != [] && writeBuffer.Contents() != ""
          ==> Taken(LastAnswer(offers, answers), |offers[|offers| - 1]|) == 0)
      && (open <==> old(open) && !(offers != [] && LastAnswer(offers, answers) == SendError))
      && (open ==> (frozen <==> writeBuffer.Contents() != ""))
      && (open && frozen ==> offers != [] && blocked == offers[|offers| - 1])
    }

    /** Nothing has happened to what is being read. */
    twostate predicate NotRead()
      reads this, readBuffer
    {
      && readBuffer.Contents() == old(readBuffer.Contents()) && SameRead() && readBytes == old(readBytes)
      && received == old(received)
    }

    /** What close does: a read until close is completed. */
    twostate predicate Shut()
      reads this, readBuffer
    {
      && streamingCallback == old(streamingCallback) && readDelimiter == old(readDelimiter)
      && readBytes == old(readBytes)
      && if old(open && readUntilClose && readCallback.Some?) then
        && readCallback == None && !readUntilClose && readBuffer.Contents() == ""
        && scheduled == old(scheduled) + [Call(old(readCallback.value), old(readBuffer.Contents()))]
      else
        && readCallback == old(readCallback) && readUntilClose == old(readUntilClose)
        && readBuffer.Contents() == old(readBuffer.Contents()) && scheduled == old(scheduled)
    }

    /** So far, from the bytes that were pending, these offers were made. */
    ghost predicate Offering(pending: Bytes, first: Option<Bytes>, before: Bytes, offers: seq<Bytes>,
        answers: seq<Send>)
      reads this, writeBuffer
    {
      && sent == before + Accepted(offers, answers) && pending == Accepted(offers, answers) + writeBuffer.Contents()
      && InTurn(pending, first, offers, answers) && (pending == "" ==> offers == [])
    }

    /** One more offer. */
    method OfferNext(answers: seq<Send>, i: nat, ghost pending: Bytes, ghost first: Option<Bytes>, ghost before: Bytes,
        ghost offers: seq<Bytes>)
      returns (ghost chunk: Bytes)
      requires Valid() && writeBuffer.Contents() != "" && |offers| == i
      requires Offering(pending, first, before, offers, answers)
      requires if offers == [] then first == (if frozen then Some(blocked) else None)
               else !frozen && Taken(LastAnswer(offers, answers), |offers[i - 1]|) > 0
      modifies `frozen, `sent, `blocked, writeBuffer
      ensures Valid() && Offering(pending, first, before, offers + [chunk], answers)
      ensures AnswerAt(answers, i) != SendError ==> (frozen <==> Taken(AnswerAt(answers, i), |chunk|) == 0)
      ensures frozen && AnswerAt(answers, i) != SendError ==> blocked == chunk
    {
      hide Delivered, Concat, Taken, InTurn, Accepted;
      var answer := AnswerAt(answers, i);
      ghost var c := writeBuffer.Contents();
      chunk := Offer(answer);
      AcceptedMore(offers, chunk, answers);
      ghost var taken := chunk[..Taken(answer, |chunk|)];
      Join(before, Accepted(offers, answers), taken);
      Join(Accepted(offers, answers), taken, writeBuffer.Contents());
      InTurnMore(pending, first, offers, answers, c, chunk);
    }

    /** The loop of handle_write. */
    method OfferAll(answers: seq<Send>) returns (failed: bool, ghost offers: seq<Bytes>)
      requires Valid()
      modifies `open, `frozen, `sent, `blocked, `readUntilClose, `readCallback, `scheduled, readBuffer, writeBuffer
      ensures Valid() && Offered(old(writeBuffer.Contents()), offers, answers)
      ensures failed <==> offers != [] && LastAnswer(offers, answers) == SendError
      ensures if failed && old(open) then Shut() else NotRead() && scheduled == old(scheduled)
    {
      hide Delivered, Concat, Taken, InTurn, Accepted;
      offers := [];
      ghost var pending := writeBuffer.Contents();
      ghost var first := if frozen then Some(blocked) else None;
      InTurnNone(pending, first, answers);
      assert sent + "" == sent;
      var i := 0;
      while writeBuffer.size > 0
        invariant Valid() && NotRead() && open == old(open) && scheduled == old(scheduled)
        invariant |offers| == i && i <= |answers| && Offering(pending, first, old(sent), offers, answers)
        invariant if offers == [] then frozen == old(frozen) && blocked == old(blocked)
                  else !frozen && Taken(LastAnswer(offers, answers), |offers[|offers| - 1]|) > 0
        decreases |answers| - i
      {
        ghost var chunk := OfferNext(answers, i, pending, first, old(sent), offers);
        offers := offers + [chunk];
        NothingTaken(|chunk|);
        if AnswerAt(answers, i) == SendError {
          Close();
          return true, offers;
        }
        if frozen {
          break;
        }
        TakenSome(answers, i, |chunk|);
        i := i + 1;
      }
      SomeChunk(writeBuffer.chunks);
      NothingTaken(if offers == [] then 0 else |offers[|offers| - 1]|);
      failed := false;
    }

    /** handle_write: chunks are offered until everything is sent or the socket takes nothing. */
    method HandleWrite(answers: seq<Send>) returns (ghost offers: seq<Bytes>)
      requires Valid()
      modifies this, readBuffer, writeBuffer
      ensures Valid() && written == old(written) && received == old(received)
      ensures Offered(old(writeBuffer.Contents()), offers, answers)
      ensures open ==> NotRead()
      ensures open && writeBuffer.Contents() == "" && old(writeCallback).Some?
          ==> scheduled == old(scheduled) + [Call(old(writeCallback).value, "")] && writeCallback == None
      ensures open && (writeBuffer.Contents() != "" || old(writeCallback) == None)
          ==> scheduled == old(scheduled) && writeCallback == old(writeCallback)
      ensures old(open) && !open ==> Shut() && writeCallback == old(writeCallback)
    {
      hide Delivered, Concat, Taken, InTurn, Accepted;
      var failed;
      failed, offers := OfferAll(answers);
      if failed {
        return;
      }
      if writeBuffer.size == 0 && writeCallback != None {
        var callback := writeCallback.value;
        writeCallback := None;
        DeliveredMore(scheduled, Call(callback, ""));
        scheduled := scheduled + [Call(callback, "")];
        assert Delivered(old(scheduled)) + "" == Delivered(old(scheduled));
      }
    }

    /** write */
    method Write(data: Bytes, callback: Option<nat>, answers: seq<Send>) returns (ok: bool, ghost offers: seq<Bytes>)
      requires Valid()
      modifies this, readBuffer, writeBuffer
      ensures Valid() && ok == old(open)
      ensures written == old(written) + (if ok then data else "") && received == old(received)
      ensures if !ok then offers == [] && unchanged(this) else if open then NotRead() else Shut()
      ensures ok ==> Offered(old(writeBuffer.Contents()) + data, offers, answers)
      ensures open && writeBuffer.Contents() == "" && callback.Some?
          ==> scheduled == old(scheduled) + [Call(callback.value, "")] && writeCallback == None
      ensures open && (writeBuffer.Contents() != "" || callback == None)
          ==> scheduled == old(scheduled) && writeCallback == callback
    {
      hide Delivered, Concat, Accepted;
      ok, offers := open, [];
      if !open {
        return;
      }
      assert writeBuffer.Contents() + "" == writeBuffer.Contents() && written + "" == written;
      if |data| > 0 {
        Join(sent, writeBuffer.Contents(), data);
        writeBuffer.Push(data);
        written := written + data;
      }
      writeCallback := callback;
      offers := HandleWrite(answers);
    }
  }

  /** What the socket takes of an offered chunk. */
  function Taken(s: Send, n: nat): (t: nat)
    ensures t <= n
  {
    if s.Sent? then Min(s.n, n) else 0
  }

  /** Where the list of answers ends the socket would block. */
  function AnswerAt(answers: seq<Send>, i: nat): Send {
    if i < |answers| then answers[i] else Blocked
  }

  function LastAnswer(offers: seq<Bytes>, answers: seq<Send>): Send
    requires offers != []
  {
    AnswerAt(answers, |offers| - 1)
  }

  /** Offer k is what comes next, as much of it as goes into one chunk. */
  predicate Whole(pending: Bytes, offers: seq<Bytes>, answers: seq<Send>, k: nat)
    requires k < |offers|
  {
    var t := |Accepted(offers[..k], answers)|;
    t <= |pending| && offers[k] == pending[t..][..Min(1048576, |pending| - t)]
  }

  /**
   Of every chunk but the last something was taken. A chunk that was offered in vain before is offered again, the same,
   before any other, and each other one is what comes next.
   */
  ghost predicate InTurn(pending: Bytes, first: Option<Bytes>, offers: seq<Bytes>, answers: seq<Send>) {
    && (forall k :: 0 <= k < |offers| - 1 ==> Taken(AnswerAt(answers, k), |offers[k]|) > 0)
    && (first.Some? && offers != [] ==> offers[0] == first.value)
    && (forall k :: (if first.Some? then 1 else 0) <= k < |offers| ==> Whole(pending, offers, answers, k))
  }

  lemma InTurnNone(pending: Bytes, first: Option<Bytes>, answers: seq<Send>)
    ensures InTurn(pending, first, [], answers) && Accepted([], answers) == ""
    ensures pending == "" + pending
  {
  }

  lemma InTurnMore(pending: Bytes, first: Option<Bytes>, offers: seq<Bytes>, answers: seq<Send>, c: Bytes, chunk: Bytes)
    requires InTurn(pending, first, offers, answers) && pending == Accepted(offers, answers) + c
    requires offers != [] ==> Taken(LastAnswer(offers, answers), |offers[|offers| - 1]|) > 0
    requires if offers == [] && first.Some? then chunk == first.value else chunk == c[..Min(1048576, |c|)]
    ensures InTurn(pending, first, offers + [chunk], answers)
  {
    hide Taken, Accepted;
    var more := offers + [chunk];
    assert more[..|offers|] == offers;
    forall k | (if first.Some? then 1 else 0) <= k < |more| ensures Whole(pending, more, answers, k) {
      if k < |offers| {
        assert Whole(pending, offers, answers, k) && more[..k] == offers[..k];
      }
    }
  }

  lemma NothingTaken(n: nat)
    ensures Taken(SendError, n) == 0
  {
  }

  lemma TakenSome(answers: seq<Send>, i: nat, n: nat)
    requires Taken(AnswerAt(answers, i), n) > 0
    ensures i < |answers|
  {
  }

  /** The bytes taken of a number of offers. */
  function Accepted(offers: seq<Bytes>, answers: seq<Send>): Bytes {
    if offers == [] then "" else
      var k := |offers| - 1;
      Accepted(offers[..k], answers) + offers[k][..Taken(AnswerAt(answers, k), |offers[k]|)]
  }

  lemma AcceptedMore(offers: seq<Bytes>, chunk: Bytes, answers: seq<Send>)
    ensures Accepted(offers + [chunk], answers)
         == Accepted(offers, answers) + chunk[..Taken(AnswerAt(answers, |offers|), |chunk|)]
  {
    assert (offers + [chunk])[..|offers|] == offers;
  }

  lemma SomeChunk(chunks: seq<Bytes>)
    requires Solid(chunks)
    ensures chunks != [] ==> |Concat(chunks)| > 0
  {
  }

  lemma Join(a: Bytes, b: Bytes, c: Bytes)
    ensures a + b + c == a + (b + c)
  {
  }

  lemma TopIsPrefix(chunks: seq<Bytes>)
    requires Concat(chunks) != "" && Solid(chunks)
    ensures chunks != [] && chunks[0] <= Concat(chunks) && 0 < |chunks[0]|
  {
  }

  /** The first of several chunks is not everything. */
  lemma OneChunk(chunks: seq<Bytes>)
    requires Solid(chunks) && chunks != []
    ensures |chunks| >= 2 ==> |chunks[0]| < |Concat(chunks)|
    ensures |chunks| == 1 ==> chunks[0] == Concat(chunks)
  {
    if |chunks| >= 2 {
      SolidNonempty(chunks[1..]);
    }
  }
}
