/** AsyncReaderWriter.writeChunks (src/async-reader-writer.ts:10-26): the composition of the slicer
    and the yielding loop. EndToEnd says what every later state of the writer it returns satisfies. */
module ReaderWriter {
  import opened Wire
  import opened Protocol
  import opened Invariant
  import opened Guarantees
  import opened Tools
  import opened WriteModes
  import opened WriteModesGuarantees
  import opened EndToEnd
  import opened AsyncApi
  import opened BurstWriter

  /** The identity of the ArrayBuffers: the number under which messages refer to each. */
  class BufferTable {
    var ids: map<array<byte>, nat>
    var next: nat

    ghost predicate Valid()
      reads this
    {
      && (forall a :: a in ids ==> ids[a] < next)
      && (forall a, b :: a in ids && b in ids && ids[a] == ids[b] ==> a == b)
    }

    constructor ()
      ensures Valid() && ids == map[]
    {
      ids, next := map[], 0;
    }

    method IdOf(a: array<byte>) returns (id: nat)
      requires Valid()
      modifies this
      ensures Valid() && a in ids && id == ids[a]
      ensures if a in old(ids) then ids == old(ids) && next == old(next)
              else ids == old(ids)[a := old(next)] && next == old(next) + 1
    {
      if a !in ids {
        ids := ids[a := next];
        next := next + 1;
      }
      id := ids[a];
    }
  }

  /** The numbers of n arrays that the table has, each its own. */
  lemma NumbersDistinct(ids: map<array<byte>, nat>, arrays: seq<array<byte>>, numbers: seq<nat>, source: array<byte>)
    requires |numbers| == |arrays| && source in ids && source !in arrays
    requires forall a, b :: a in ids && b in ids && ids[a] == ids[b] ==> a == b
    requires forall i, j :: 0 <= i < j < |arrays| ==> arrays[i] != arrays[j]
    requires forall i :: 0 <= i < |arrays| ==> arrays[i] in ids && numbers[i] == ids[arrays[i]]
    ensures Distinct(numbers) && ids[source] !in numbers
  {
  }

  /** What `writeChunks` hands to the yielding loop. */
  function Sliced(fd: int, buffer: seq<byte>, w: nat, mtu: nat, buffers: seq<nat>): WriteModes.Config
    requires |buffers| == SliceCount(mtu, |buffer|)
  {
    Config(fd, Views(Slices(buffer, mtu, |buffer|, 0), buffers), w, false)
  }

  /** Freshly allocated chunks may be written on any handle on which no post threw. */
  lemma FreshChunksFit(fd: int, buffer: seq<byte>, w: nat, mtu: nat, buffers: seq<nat>, rpc: State)
    requires w >= 1 && Reachable(rpc) && NoThrow(rpc.calls)
    requires |buffers| == SliceCount(mtu, |buffer|) && Distinct(buffers) && forall b :: b in buffers ==>
               b !in rpc.detached
    ensures Fit(Sliced(fd, buffer, w, mtu, buffers), rpc)
  {
  }

  class AsyncReaderWriter {
    const asyncSrt: AsyncSRT
    const fd: int

    constructor (asyncSrt: AsyncSRT, fd: int)
      ensures this.asyncSrt == asyncSrt && this.fd == fd
    {
      this.asyncSrt, this.fd := asyncSrt, fd;
    }

    /** The arguments of the writes, for arrays that the table does not have yet. */
    method ViewsFor(chunks: seq<array<byte>>, table: BufferTable) returns (views: seq<Value>, ghost buffers: seq<nat>)
      requires table.Valid() && forall i :: 0 <= i < |chunks| ==> chunks[i] !in table.ids
      requires forall i, j :: 0 <= i < j < |chunks| ==> chunks[i] != chunks[j]
      modifies table
      ensures table.Valid() && |buffers| == |chunks| && views == Views(Contents(chunks), buffers)
      ensures forall a :: a in old(table.ids) ==> a in table.ids && table.ids[a] == old(table.ids[a])
      ensures forall i :: 0 <= i < |chunks| ==>
                chunks[i] in table.ids && buffers[i] == table.ids[chunks[i]] && buffers[i] >= old(table.next)
    {
      views, buffers := [], [];
      for i := 0 to |chunks|
        invariant table.Valid() && table.next >= old(table.next) && |views| == |buffers| == i
        invariant forall a :: a in old(table.ids) ==> a in table.ids && table.ids[a] == old(table.ids[a])
        invariant forall k :: 0 <= k < i ==>
          && chunks[k] in table.ids && buffers[k] == table.ids[chunks[k]] && buffers[k] >= old(table.next)
          && views[k] == View(buffers[k], chunks[k][..])
        invariant forall k :: i <= k < |chunks| ==> chunks[k] !in table.ids
      {
        var id := table.IdOf(chunks[i]);
        views := views + [View(id, chunks[i][..])];
        buffers := buffers + [id];
      }
    }

    /** `writeChunks` up to its first await. The chunks are arrays of their own, and the number of the
        source's is not among theirs; every number transferred so far is one of the table. */
    method WriteChunks(buffer: array<byte>, writesPerTick: nat, mtuSize: nat, table: BufferTable)
      returns (writer: Burst, ghost buffers: seq<nat>)
      requires asyncSrt.Valid() && writesPerTick >= 1
      requires Reachable(asyncSrt.Abs()) && NoThrow(asyncSrt.Abs().calls)
      requires table.Valid() && buffer in table.ids && forall b :: b in asyncSrt.Abs().detached ==> b < table.next
      modifies table, asyncSrt, asyncSrt.thread`inbox
      ensures table.Valid() && buffer in table.ids && table.ids[buffer] == old(table.ids[buffer])
      ensures |buffers| == SliceCount(mtuSize, buffer.Length) && Distinct(buffers) && table.ids[buffer] !in buffers
      ensures writer.Valid() && writer.config == Sliced(fd, buffer[..], writesPerTick, mtuSize, buffers)
      ensures YieldingReachable(writer.config, writer.Abs())
    {
      hide Reachable, SliceCount, Slices, YieldingReachable, Fit, WriteModes.Start, NoThrow, Untouched, AsyncSRT.Abs;
      assert forall a :: a in table.ids ==> allocated(a);
      var chunks := SliceBufferToChunks(buffer, mtuSize, buffer.Length, 0);
      forall i | 0 <= i < |chunks| ensures chunks[i] !in table.ids {
        assert chunks[i] in chunks;
      }
      var views;
      views, buffers := ViewsFor(chunks, table);
      NumbersDistinct(table.ids, chunks, buffers, buffer);
      var config := WriteModes.Config(fd, views, writesPerTick, false);
      FreshChunksFit(fd, buffer[..], writesPerTick, mtuSize, buffers, asyncSrt.Abs());
      writer := new Burst(config, asyncSrt);
      writer.Start();
      StartReached(config, old(asyncSrt.Abs()));
    }
  }

  lemma StartReached(c: WriteModes.Config, rpc: State)
    requires Fit(c, rpc) && !c.explicit
    ensures YieldingReachable(c, WriteModes.Start(c, rpc))
  {
    hide Fit, WriteModes.Start;
    assert WriteModes.ValidRun(c, WriteModes.Start(c, rpc), []);
    assert WriteModes.Run(c, WriteModes.Start(c, rpc), []) == WriteModes.Start(c, rpc);
  }
}
