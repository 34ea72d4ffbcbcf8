/** Slicing a buffer into chunks and merging chunks back (src/tools.ts:9-67). */
module Tools {
  import opened Wire

  /** A bound given to `slice` of a typed array of length n: a negative one counts from the end, and
      one out of range is clamped. */
  function Bound(x: int, n: nat): (b: nat)
    ensures b <= n
  {
    if x < 0 then (if n + x < 0 then 0 else n + x) else if x <= n then x else n
  }

  /** `slice` of a typed array. */
  function JsSlice(src: seq<byte>, start: int, end: int): seq<byte> {
    var a, e := Bound(start, |src|), Bound(end, |src|);
    if a < e then src[a..e] else []
  }

  /** How many chunks `sliceBufferToChunks` makes. When the size does not divide the length, the
      loop makes one more pass with a negative size, which yields an empty chunk. */
  function SliceCount(chunkMaxSize: nat, byteLength: int): nat {
    if byteLength <= 0 || chunkMaxSize == 0 then 0
    else if byteLength % chunkMaxSize == 0 then byteLength / chunkMaxSize
    else byteLength / chunkMaxSize + 2
  }

  function Min(a: int, b: int): int { if a <= b then a else b }

  /** k * m by repeated addition, which keeps the arithmetic of the loops linear. */
  function Steps(k: nat, m: nat): nat {
    if k == 0 then 0 else Steps(k - 1, m) + m
  }

  /** The k-th chunk: the part of the window between multiples k and k + 1 of the chunk size. */
  function Piece(src: seq<byte>, chunkMaxSize: nat, byteLength: nat, initialOffset: int, k: nat): seq<byte> {
    JsSlice(src, initialOffset + Steps(k, chunkMaxSize), initialOffset + Min(Steps(k + 1, chunkMaxSize), byteLength))
  }

  function Slices(src: seq<byte>, chunkMaxSize: nat, byteLength: int, initialOffset: int): (chunks: seq<seq<byte>>)
    ensures |chunks| == SliceCount(chunkMaxSize, byteLength)
  {
    seq(SliceCount(chunkMaxSize, byteLength),
        k requires 0 <= k && byteLength > 0 => Piece(src, chunkMaxSize, byteLength, initialOffset, k))
  }

  function Concat(chunks: seq<seq<byte>>): seq<byte> {
    if chunks == [] then [] else Concat(chunks[..|chunks| - 1]) + chunks[|chunks| - 1]
  }

  ghost function Contents(chunks: seq<array<byte>>): (c: seq<seq<byte>>)
    reads chunks
    ensures |c| == |chunks| && forall i :: 0 <= i < |c| ==> c[i] == chunks[i][..]
  {
    seq(|chunks|, i requires 0 <= i < |chunks| reads chunks => chunks[i][..])
  }

  lemma {:induction false} StepsIsProduct(k: nat, m: nat)
    ensures Steps(k, m) == k * m
  {
    if k > 0 {
      StepsIsProduct(k - 1, m);
    }
  }

  lemma {:induction false} StepsGrow(j: nat, k: nat, m: nat)
    requires j < k
    ensures Steps(j, m) + m <= Steps(k, m)
  {
    if j < k - 1 {
      StepsGrow(j, k - 1, m);
    }
  }

  /** The quotient is the number of whole steps that fit. */
  lemma DivSteps(n: nat, m: nat)
    requires m > 0
    ensures n == Steps(n / m, m) + n % m
  {
    StepsIsProduct(n / m, m);
  }

  lemma DivUnique(n: nat, m: nat, q: nat)
    requires m > 0 && Steps(q, m) <= n < Steps(q, m) + m
    ensures n / m == q && n % m == n - Steps(q, m)
  {
    DivSteps(n, m);
    if n / m < q {
      StepsGrow(n / m, q, m);
    } else if n / m > q {
      StepsGrow(q, n / m, m);
    }
  }

  // ----- the slicer

  method SliceArray(src: array<byte>, start: int, end: int) returns (chunk: array<byte>)
    ensures fresh(chunk) && chunk[..] == JsSlice(src[..], start, end)
  {
    var a, e := Bound(start, src.Length), Bound(end, src.Length);
    if a < e {
      chunk := new byte[e - a](i requires 0 <= i < e - a reads src => src[a + i]);
      assert chunk[..] == src[a..e];
    } else {
      chunk := new byte[0];
    }
  }

  /** The loop of the slicer makes no pass when there is nothing to do, and otherwise ends after
      k passes in two ways: at the end of the window, or one pass after the first that crossed it. */
  lemma CountPasses(m: nat, len: int, k: nat)
    requires (len > 0 && m > 0) || k == 0
    requires len <= 0 || m == 0 || Steps(k, m) == len || (k >= 2 && Steps(k - 2, m) < len < Steps(k - 1, m))
    ensures SliceCount(m, len) == k
  {
    if len <= 0 || m == 0 {
    } else if Steps(k, m) == len {
      DivUnique(len, m, k);
    } else {
      DivUnique(len, m, k - 2);
    }
  }

  /** A negative chunk size is the one case in which the loop of the source does not end. */
  method SliceBufferToChunks(srcData: array<byte>, chunkMaxSize: nat, byteLength: int, initialOffset: int)
    returns (chunks: seq<array<byte>>)
    ensures forall c :: c in chunks ==> fresh(c)
    ensures forall i, j :: 0 <= i < j < |chunks| ==> chunks[i] != chunks[j]
    ensures Contents(chunks) == Slices(srcData[..], chunkMaxSize, byteLength, initialOffset)
  {
    hide SliceCount, JsSlice;
    chunks := [];
    var relativeOffset := 0;
    var offset := initialOffset;
    ghost var k, src := 0 as nat, srcData[..];
    while relativeOffset < byteLength
      invariant |chunks| == k && offset == initialOffset + Steps(k, chunkMaxSize)
      invariant relativeOffset == if k == 0 then 0 else Steps(k - 1, chunkMaxSize)
      invariant k > 0 ==> chunkMaxSize > 0 && relativeOffset != byteLength && byteLength > 0
      invariant k > 1 ==> Steps(k - 2, chunkMaxSize) < byteLength
      invariant forall c :: c in chunks ==> fresh(c)
      invariant forall i, j :: 0 <= i < j < |chunks| ==> chunks[i] != chunks[j]
      invariant forall i :: 0 <= i < k ==>
        byteLength > 0 && chunks[i][..] == Piece(src, chunkMaxSize, byteLength, initialOffset, i)
      decreases byteLength + chunkMaxSize + initialOffset - offset
    {
      relativeOffset := offset - initialOffset;
      var size := Min(chunkMaxSize, byteLength - relativeOffset);
      if size == 0 {
        break;
      }
      var chunkBuf := SliceArray(srcData, offset, offset + size);
      assert chunkBuf[..] == Piece(src, chunkMaxSize, byteLength, initialOffset, k);
      chunks := chunks + [chunkBuf];
      offset := offset + chunkMaxSize;
      k := k + 1;
    }
    CountPasses(chunkMaxSize, byteLength, k);
    assert |chunks| == SliceCount(chunkMaxSize, byteLength);
  }

  lemma SliceOfSlice<T>(xs: seq<T>, lo: nat, hi: nat, a: nat, e: nat)
    requires lo <= hi <= |xs| && a <= e <= hi - lo
    ensures xs[lo..hi][a..e] == xs[lo + a..lo + e]
  {
    forall i | 0 <= i < e - a ensures xs[lo..hi][a..e][i] == xs[lo + a..lo + e][i] {
      assert xs[lo..hi][a..e][i] == xs[lo..hi][a + i] == xs[lo + a + i];
    }
  }

  lemma PieceOfWindow(src: seq<byte>, m: nat, len: nat, off: nat, k: nat)
    requires off + len <= |src|
    ensures Piece(src, m, len, off, k) == JsSlice(src[off..off + len], Steps(k, m), Steps(k + 1, m))
  {
    hide Steps;
    var a, e := Steps(k, m), Min(Steps(k + 1, m), len);
    if a < e {
      SliceOfSlice(src, off, off + len, a, e);
    }
  }

  function Upto(w: seq<byte>, n: nat): seq<byte> {
    if n >= |w| then w else w[..n]
  }

  lemma UptoStep(w: seq<byte>, n: nat, m: nat)
    ensures Upto(w, n) + JsSlice(w, n, n + m) == Upto(w, n + m)
  {
  }

  lemma ConcatTake(chunks: seq<seq<byte>>, k: nat)
    requires k < |chunks|
    ensures Concat(chunks[..k + 1]) == Concat(chunks[..k]) + chunks[k]
  {
    assert chunks[..k + 1][..k] == chunks[..k];
  }

  /** In an in-range window the first k chunks are the first k steps of the window. */
  lemma {:induction false} SlicesPrefix(src: seq<byte>, m: nat, len: nat, off: nat, k: nat)
    requires off + len <= |src| && k <= SliceCount(m, len)
    ensures Concat(Slices(src, m, len, off)[..k]) == Upto(src[off..off + len], Steps(k, m))
  {
    hide SliceCount, Piece, JsSlice;
    if k > 0 {
      hide Upto, Concat;
      SlicesPrefix(src, m, len, off, k - 1);
      ConcatTake(Slices(src, m, len, off), k - 1);
      PieceOfWindow(src, m, len, off, k - 1);
      UptoStep(src[off..off + len], Steps(k - 1, m), m);
    }
  }

  lemma SliceSizes(src: seq<byte>, m: nat, len: nat, off: nat, k: nat)
    requires m > 0 && off + len <= |src| && k < SliceCount(m, len)
    ensures var n := |Slices(src, m, len, off)[k]|;
            n == if k < len / m then m else if k == len / m then len % m else 0
  {
    DivSteps(len, m);
    PieceOfWindow(src, m, len, off, k);
    if k < len / m {
      StepsGrow(k, len / m, m);
    } else if k > len / m {
      StepsGrow(len / m, k, m);
    }
    hide Piece;
  }

  /** In an in-range window: the chunks concatenate to the window, none exceeds the maximum, the
      first floor(len / m) are full; when m does not divide len they are followed by the rest
      and by an empty chunk, and otherwise by nothing. */
  lemma SlicesExact(src: seq<byte>, m: nat, len: nat, off: nat)
    requires m > 0 && off + len <= |src|
    ensures var c := Slices(src, m, len, off);
            && Concat(c) == src[off..off + len]
            && (forall k :: 0 <= k < |c| ==> |c[k]| <= m)
            && len / m <= |c| && (forall k :: 0 <= k < len / m ==> |c[k]| == m)
            && (len % m == 0 ==> |c| == len / m)
            && (len % m != 0 ==> |c| == len / m + 2 && |c[len / m]| == len % m && c[len / m + 1] == [])
  {
    hide Slices, Concat, Steps, SliceCount;
    var c, w := Slices(src, m, len, off), src[off..off + len];
    CountCovers(m, len);
    SlicesPrefix(src, m, len, off, |c|);
    assert c[..|c|] == c && Upto(w, Steps(|c|, m)) == w;
    forall k | 0 <= k < |c|
      ensures |c[k]| == if k < len / m then m else if k == len / m then len % m else 0
    {
      SliceSizes(src, m, len, off, k);
    }
  }

  lemma CountCovers(m: nat, len: nat)
    requires m > 0
    ensures Steps(SliceCount(m, len), m) >= len
    ensures SliceCount(m, len) == if len % m == 0 then len / m else len / m + 2
  {
    DivSteps(len, m);
  }

  // ----- the merger

  function GetChunksTotalByteLength(chunks: seq<seq<byte>>): (total: nat)
    ensures total == |Concat(chunks)|
  {
    if chunks == [] then 0
    else GetChunksTotalByteLength(chunks[..|chunks| - 1]) + |chunks[|chunks| - 1]|
  }

  /** The target after the concatenation `data` was copied to its start and cut at its length. */
  function Overwritten(target: seq<byte>, data: seq<byte>): seq<byte> {
    if |data| >= |target| then data[..|target|] else data + target[|data|..]
  }

  /** All chunks but the last already fill the target. */
  predicate TooSmall(chunks: seq<seq<byte>>, targetLength: nat) {
    chunks != [] && |Concat(chunks[..|chunks| - 1])| >= targetLength
  }

  lemma {:induction false} ConcatPrefix(chunks: seq<seq<byte>>, k: nat)
    requires k <= |chunks|
    ensures Concat(chunks[..k]) <= Concat(chunks)
  {
    if k == |chunks| {
      assert chunks[..k] == chunks;
    } else {
      var n := |chunks| - 1;
      ConcatPrefix(chunks[..n], k);
      assert chunks[..n][..k] == chunks[..k];
    }
  }

  /** `copy` of a whole chunk to `offset`, cut at the end of the target. */
  function Spliced(target: seq<byte>, chunk: seq<byte>, offset: nat): (r: seq<byte>)
    requires offset <= |target|
    ensures |r| == |target|
  {
    var n := Min(|chunk|, |target| - offset);
    target[..offset] + chunk[..n] + target[offset + n..]
  }

  lemma OverwrittenStep(before: seq<byte>, data: seq<byte>, chunk: seq<byte>)
    requires |data| <= |before|
    ensures Overwritten(before, data + chunk) == Spliced(Overwritten(before, data), chunk, |data|)
  {
  }

  method Copy(chunk: array<byte>, target: array<byte>, offset: nat)
    requires chunk != target && offset <= target.Length
    modifies target
    ensures target[..] == Spliced(old(target[..]), chunk[..], offset)
  {
    var n := Min(chunk.Length, target.Length - offset);
    forall j | 0 <= j < n {
      target[offset + j] := chunk[j];
    }
  }

  method AllocFor(chunks: seq<array<byte>>) returns (target: array<byte>)
    ensures fresh(target) && target.Length == |Concat(Contents(chunks))|
  {
    ghost var data := Contents(chunks);
    var totalSize := 0;
    for i := 0 to |chunks|
      invariant totalSize == |Concat(data[..i])|
    {
      assert data[..i + 1][..i] == data[..i];
      totalSize := totalSize + chunks[i].Length;
    }
    assert data[..|chunks|] == data;
    target := new byte[totalSize](_ => 0);
  }

  lemma FullBeforeLast(data: seq<seq<byte>>, i: nat, length: nat)
    requires i < |data| && |Concat(data[..i])| >= length
    ensures TooSmall(data, length)
  {
    ConcatPrefix(data, i);
    ConcatPrefix(data[..|data| - 1], i);
    assert data[..|data| - 1][..i] == data[..i];
  }

  lemma NothingCopied(before: seq<byte>, data: seq<seq<byte>>)
    ensures Concat(data[..0]) == [] && Overwritten(before, []) == before
  {
  }

  lemma RestIsCut(before: seq<byte>, data: seq<seq<byte>>, i: nat)
    requires i <= |data| && |Concat(data[..i])| >= |before|
    ensures Overwritten(before, Concat(data)) == Overwritten(before, Concat(data[..i]))
  {
    ConcatPrefix(data, i);
  }

  lemma OverwrittenAt(target: seq<byte>, data: seq<byte>)
    ensures |Overwritten(target, data)| == |target|
    ensures forall j :: 0 <= j < |target| ==> Overwritten(target, data)[j] == if j < |data| then data[j] else target[j]
  {
  }

  lemma NotTooSmall(data: seq<seq<byte>>, length: nat)
    requires |data| > 0 ==> |Concat(data[..|data| - 1])| < length
    ensures !TooSmall(data, length)
  {
  }

  /** The loop of `copyChunksIntoBuffer`. Whether or not it throws, the target then holds the
      concatenation cut at its length. */
  method CopyAll(chunks: seq<array<byte>>, target: array<byte>) returns (threw: bool)
    requires target !in chunks
    modifies target
    ensures threw <==> TooSmall(Contents(chunks), target.Length)
    ensures var data := Concat(Contents(chunks));
            forall j :: 0 <= j < target.Length ==> target[j] == if j < |data| then data[j] else old(target[j])
    ensures target[..] == Overwritten(old(target[..]), Concat(Contents(chunks)))
  {
    hide Overwritten, Spliced, Concat, TooSmall;
    ghost var data, before := Contents(chunks), target[..];
    var offset := 0;
    NothingCopied(before, data);
    for i := 0 to |chunks|
      invariant offset == |Concat(data[..i])|
      invariant i > 0 ==> |Concat(data[..i - 1])| < target.Length
      invariant target[..] == Overwritten(before, Concat(data[..i]))
    {
      if offset >= target.Length {
        FullBeforeLast(data, i, target.Length);
        RestIsCut(before, data, i);
        OverwrittenAt(before, Concat(data));
        return true;
      }
      OverwrittenStep(before, Concat(data[..i]), data[i]);
      ConcatTake(data, i);
      Copy(chunks[i], target, offset);
      offset := offset + chunks[i].Length;
    }
    assert data[..|chunks|] == data;
    NotTooSmall(data, target.Length);
    OverwrittenAt(before, Concat(data));
    threw := false;
  }

  method CopyChunksIntoBuffer(chunks: seq<array<byte>>, targetBuffer: array?<byte>)
    returns (threw: bool, result: array<byte>)
    requires targetBuffer !in chunks
    modifies if targetBuffer == null then {} else {targetBuffer}
    ensures targetBuffer != null ==>
              result == targetBuffer &&
              result[..] == Overwritten(old(targetBuffer[..]), Concat(old(Contents(chunks))))
    ensures targetBuffer != null ==>
              var data := Concat(old(Contents(chunks)));
              forall j :: 0 <= j < result.Length ==>
                result[j] == if j < |data| then data[j] else old(targetBuffer[j])
    ensures targetBuffer == null ==> fresh(result) && result[..] == Concat(old(Contents(chunks)))
    ensures threw <==> TooSmall(old(Contents(chunks)), result.Length)
  {
    if targetBuffer == null {
      result := AllocFor(chunks);
    } else {
      result := targetBuffer;
    }
    threw := CopyAll(chunks, result);
  }

  /** Slicing a whole buffer and merging the chunks into a target of any length: the merge throws
      exactly when there are chunks and the target is no longer than those before the last, which
      are the whole source when the size does not divide its length. */
  lemma SliceThenMerge(src: seq<byte>, m: nat, targetLength: nat)
    requires m > 0
    ensures var c := Slices(src, m, |src|, 0);
            && Concat(c) == src
            && (TooSmall(c, |src|) <==> |src| % m != 0)
            && (targetLength > |src| ==> !TooSmall(c, targetLength))
            && (TooSmall(c, targetLength) <==> src != [] && targetLength <= if |src| % m == 0 then |src| - m else |src|)
  {
    var c := Slices(src, m, |src|, 0);
    SlicesExact(src, m, |src|, 0);
    if c != [] {
      assert |Concat(c)| == |Concat(c[..|c| - 1])| + |c[|c| - 1]|;
    }
  }

  /** From a to e: what lies beyond the source is cut off, and a bound below zero counts from the end of the
      source, also when the other one does not. */
  predicate CutAt(src: seq<byte>, a: int, e: int, chunk: seq<byte>) {
    var n := |src|;
    && (0 <= a <= e <= n ==> chunk == src[a..e])
    && (0 <= a <= n < e ==> chunk == src[a..])
    && (-n <= a <= e < 0 ==> chunk == src[n + a..n + e])
    && (a < -n <= e < 0 ==> chunk == src[..n + e])
    && (a < -n && 0 <= e <= n ==> chunk == src[..e])
    && (a < -n && n < e ==> chunk == src)
    && (-n <= a < 0 <= e ==> chunk == if e <= n + a then [] else if e <= n then src[n + a..e] else src[n + a..])
    && (e < 0 <= a ==> chunk == if a <= n + e then src[a..n + e] else [])
    && (e < a && (0 <= e || a < 0) ==> chunk == [])
    && (n <= a || e < -n ==> chunk == [])
  }

  lemma SliceCut(src: seq<byte>, a: int, e: int)
    ensures CutAt(src, a, e, JsSlice(src, a, e))
  {
    var lo, hi := Bound(a, |src|), Bound(e, |src|);
    if lo < hi {
      assert src[lo..hi] != [];
    } else {
      assert src[lo..lo] == [];
    }
  }

  lemma Times(q: nat, m: nat)
    ensures (q + 1) * m == q * m + m
  {
  }

  /** Chunk k of any window. */
  lemma AnyWindow(src: seq<byte>, m: nat, len: int, off: int, k: nat)
    requires k < |Slices(src, m, len, off)|
    ensures CutAt(src, off + k * m, off + (if k * m + m <= len then k * m + m else len), Slices(src, m, len, off)[k])
  {
    hide CutAt, JsSlice, Steps;
    StepsIsProduct(k, m);
    StepsIsProduct(k + 1, m);
    Times(k, m);
    var a, e := off + k * m, off + (if k * m + m <= len then k * m + m else len);
    assert Slices(src, m, len, off)[k] == JsSlice(src, a, e);
    SliceCut(src, a, e);
  }

  /** The chunk of the extra pass is empty, unless it starts in the source and the window ends before it:
      then it is what lies between, counting the end from the end of the source. */
  lemma ExtraChunk(src: seq<byte>, m: nat, len: int, off: int)
    requires len > 0 && m > 0 && len % m != 0
    ensures var chunks, a := Slices(src, m, len, off), off + (len / m + 1) * m;
            && |chunks| == len / m + 2
            && chunks[len / m + 1] == if 0 <= a < |src| + off + len < |src| then src[a..|src| + off + len] else []
  {
    hide Slices, CutAt;
    var k := len / m + 1;
    PastTheEnd(len, m);
    AnyWindow(src, m, len, off, k);
    ReversedCut(src, off + k * m, off + len, Slices(src, m, len, off)[k]);
  }

  lemma PastTheEnd(len: nat, m: nat)
    requires m > 0
    ensures len < (len / m + 1) * m
  {
    DivSteps(len, m);
    StepsIsProduct(len / m, m);
    Times(len / m, m);
  }

  lemma ReversedCut(src: seq<byte>, a: int, e: int, chunk: seq<byte>)
    requires CutAt(src, a, e, chunk) && e < a
    ensures chunk == if 0 <= a < |src| + e < |src| then src[a..|src| + e] else []
  {
  }

  /** Three bytes in chunks of two: the merge into a buffer of three bytes throws at the empty chunk. */
  lemma ThreeInTwos(src: seq<byte>)
    requires |src| == 3
    ensures |Slices(src, 2, 3, 0)| == 3 && Slices(src, 2, 3, 0)[2] == [] && TooSmall(Slices(src, 2, 3, 0), 3)
  {
    SlicesExact(src, 2, 3, 0);
    SliceThenMerge(src, 2, 3);
  }
}
