/**
 A queue of chunks of bytes that is used as one sequence of bytes: chunks are joined or split only as far as a
 reader needs them.
 */
module Buffers {

  import opened Machine

  type Bytes = string

  /** No chunk is empty. */
  predicate Solid(chunks: seq<Bytes>) {
    forall k :: 0 <= k < |chunks| ==> chunks[k] != ""
  }

  lemma ConcatFirst(chunks: seq<Bytes>)
    requires chunks != []
    ensures Concat(chunks) == chunks[0] + Concat(chunks[1..])
  {
  }

  lemma ConcatPush(first: Bytes, chunks: seq<Bytes>)
    ensures Concat([first] + chunks) == first + Concat(chunks)
  {
    assert ([first] + chunks)[1..] == chunks;
  }

  lemma SolidNonempty(chunks: seq<Bytes>)
    requires Solid(chunks) && chunks != []
    ensures Concat(chunks) != ""
  {
  }

  class Buffer {
    var chunks: seq<Bytes>
    var size: nat

    ghost predicate Valid()
      reads this
    {
      size == |Contents()|
    }

    ghost function Contents(): Bytes
      reads this
    {
      Concat(chunks)
    }

    constructor ()
      ensures Valid() && Contents() == "" && chunks == []
    {
      chunks, size := [], 0;
    }

    /** Joins or splits chunks so that the first has the length asked for, or everything if that is less. */
    method MergePrefix(length: nat)
      requires Valid()
      modifies `chunks
      ensures Valid() && Contents() == old(Contents())
      ensures chunks != [] && (length > 0 ==> chunks[0] == Contents()[..Min(length, |Contents()|)])
      ensures old(Solid(chunks)) && Contents() != "" ==> Solid(chunks)
    {
      hide Concat;
      if |chunks| == 1 && |chunks[0]| <= length {
        Single(chunks);
        return;
      }
      if |chunks| > 0 && length > 0 {
        ConcatFirst(chunks);
        if |chunks[0]| == length {
          return;
        }
        if |chunks[0]| > length {
          var chunk := chunks[0];
          SplitFirst(chunks, length);
          chunks := [chunk[..length], chunk[length..]] + chunks[1..];
          return;
        }
        Gather(Min(length, size));
      }
      if |chunks| == 0 {
        NoChunks();
        Single([""]);
        chunks := [""];
      }
    }

    /** The first so many bytes become one chunk. */
    method Gather(length: nat)
      requires Valid() && length <= size
      modifies `chunks
      ensures Valid() && Contents() == old(Contents()) && chunks != [] && chunks[0] == Contents()[..length]
      ensures old(Solid(chunks)) && length > 0 ==> Solid(chunks)
    {
      hide Concat;
      ghost var all := Contents();
      var prefix := "";
      var remaining: nat := length;
      while remaining > 0
        invariant |prefix| + remaining == length && prefix + Contents() == all
        invariant old(Solid(chunks)) ==> Solid(chunks)
        decreases |chunks|, remaining
      {
        if chunks == [] {
          NoChunks();
        }
        ConcatFirst(chunks);
        var chunk := chunks[0];
        assert prefix + (chunk + Concat(chunks[1..])) == prefix + chunk + Concat(chunks[1..]);
        chunks := chunks[1..];
        if |chunk| > remaining {
          ConcatPush(chunk[remaining..], chunks);
          assert prefix + chunk + Concat(chunks) == prefix + chunk[..remaining] + (chunk[remaining..] + Concat(chunks));
          chunks := [chunk[remaining..]] + chunks;
          prefix := prefix + chunk[..remaining];
          remaining := 0;
        } else {
          prefix := prefix + chunk;
          remaining := remaining - |chunk|;
        }
      }
      ConcatPush(prefix, chunks);
      assert all[..length] == prefix;
      chunks := [prefix] + chunks;
    }

    /** Makes the first chunk at least twice as long, if there is so much. */
    method DoublePrefix()
      requires Valid()
      modifies `chunks
      ensures Valid() && Contents() == old(Contents())
      ensures |old(chunks)| < 2 ==> chunks == old(chunks)
      ensures |old(chunks)| >= 2 && old(Solid(chunks))
          ==> chunks != [] && Solid(chunks) && |chunks[0]| > |old(chunks)[0]| && chunks[0] == Contents()[..|chunks[0]|]
      // It takes in the next chunk, and more if that does not double it.
      ensures |old(chunks)| >= 2 && old(Solid(chunks))
          ==> var k, next := |old(chunks)[0]|, |old(chunks)[1]|;
              |chunks[0]| == if next > k then k + next else Min(2 * k, |Contents()|)
    {
      hide Concat;
      if |chunks| < 2 {
        return;
      }
      var a, b := 2 * |chunks[0]|, |chunks[0]| + |chunks[1]|;
      ConcatFirst(chunks);
      ConcatFirst(chunks[1..]);
      MergePrefix(if a > b then a else b);
    }

    /** Drops so many bytes, or all if there are fewer. */
    method RemovePrefix(length: nat)
      requires Valid()
      modifies this
      ensures Valid() && Contents() == old(Contents())[Min(length, |old(Contents())|)..]
      ensures old(Solid(chunks)) ==> Solid(chunks)
    {
      hide Concat;
      ghost var all := Contents();
      var remaining: nat := length;
      ghost var done: nat := 0;
      while |chunks| > 0 && remaining > 0
        invariant done + remaining == length && done <= |all| && Valid() && Contents() == all[done..]
        invariant old(Solid(chunks)) ==> Solid(chunks)
        decreases |chunks|, remaining
      {
        ConcatFirst(chunks);
        var chunk := chunks[0];
        assert all[done..] == chunk + Concat(chunks[1..]);
        assert forall k :: 0 <= k <= |all| - done ==> all[done..][k..] == all[done + k..];
        chunks := chunks[1..];
        if |chunk| > remaining {
          ConcatPush(chunk[remaining..], chunks);
          chunks := [chunk[remaining..]] + chunks;
          size := size - remaining;
          done := done + remaining;
          remaining := 0;
        } else {
          size := size - |chunk|;
          remaining := remaining - |chunk|;
          done := done + |chunk|;
        }
      }
      if |chunks| == 0 {
        NoChunks();
      }
    }

    method Push(chunk: Bytes)
      requires Valid()
      modifies this
      ensures Valid() && Contents() == old(Contents()) + chunk && chunks == old(chunks) + [chunk]
    {
      ConcatAppend(chunks, chunk);
      size := size + |chunk|;
      chunks := chunks + [chunk];
    }

    method Pop() returns (chunk: Bytes)
      requires Valid() && chunks != []
      modifies this
      ensures Valid() && chunk == old(chunks)[0] && chunks == old(chunks)[1..]
      ensures old(Contents()) == chunk + Contents()
    {
      chunk := chunks[0];
      chunks := chunks[1..];
      size := size - |chunk|;
    }

    /** Moves everything to the end of this buffer. */
    method Merge(buffer: Buffer)
      requires Valid() && buffer.Valid() && buffer != this
      modifies this, buffer
      ensures Valid() && buffer.Valid() && buffer.Contents() == "" && Contents() == old(Contents() + buffer.Contents())
    {
      hide Concat;
      ghost var all := Contents() + buffer.Contents();
      while buffer.size > 0
        invariant Valid() && buffer.Valid() && Contents() + buffer.Contents() == all
        decreases |buffer.chunks|
      {
        if buffer.chunks == [] {
          NoChunks();
        }
        var chunk := buffer.Pop();
        Push(chunk);
      }
    }
  }

  lemma NoChunks()
    ensures Concat<char>([]) == ""
  {
  }

  lemma Single(chunks: seq<Bytes>)
    requires |chunks| == 1
    ensures Concat(chunks) == chunks[0]
  {
  }

  lemma SplitFirst(chunks: seq<Bytes>, n: nat)
    requires chunks != [] && n <= |chunks[0]|
    ensures Concat([chunks[0][..n], chunks[0][n..]] + chunks[1..]) == Concat(chunks)
  {
    hide Concat;
    var a, b := chunks[0][..n], chunks[0][n..];
    assert [a, b] + chunks[1..] == [a] + ([b] + chunks[1..]);
    ConcatPush(a, [b] + chunks[1..]);
    ConcatPush(b, chunks[1..]);
    ConcatFirst(chunks);
  }
}
