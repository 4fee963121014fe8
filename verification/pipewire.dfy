/** The audio-capture buffers behind the bar's waveform: a fixed-length
    sliding window per channel, a per-channel matrix of fresh samples with a
    lock-step chunk iterator, and the split of one interleaved PipeWire
    buffer into per-channel 80-sample chunks. The sample type is generic. */
module Pipewire {
  import opened Wrappers
  import Ordering

  /** The next piece `slice::chunks(size)` yields from `s`: at most `size` elements. */
  function Chunk<T>(s: seq<T>, size: nat): (r: seq<T>)
    requires size > 0
    ensures |r| == Ordering.MinOf(size, |s|)
  {
    s[..Ordering.MinOf(size, |s|)]
  }

  /** What is left of `s` after that piece. */
  function Advance<T>(s: seq<T>, size: nat): (r: seq<T>)
    requires size > 0
    ensures Chunk(s, size) + r == s
    ensures s != [] ==> |r| < |s|
  {
    s[Ordering.MinOf(size, |s|)..]
  }

  /** Index of the first channel with nothing left, or the channel count. */
  function FirstEmpty<T>(rest: seq<seq<T>>): (e: nat)
    ensures e <= |rest|
    ensures forall c :: 0 <= c < e ==> rest[c] != []
    ensures e < |rest| ==> rest[e] == []
  {
    if rest == [] then 0 else if rest[0] == [] then 0 else 1 + FirstEmpty(rest[1..])
  }

  /** A block of samples, one sequence per channel. */
  datatype Matrix<T> = Matrix(inner: seq<seq<T>>) {
    function Channel(): nat { |inner| }
  }

  /** The channels' iterators after one `next`: those before the first
      exhausted channel have given up a chunk, the others are untouched. */
  function NextRest<T>(rest: seq<seq<T>>, size: nat): (r: seq<seq<T>>)
    requires size > 0
    ensures |r| == |rest|
    ensures forall c :: 0 <= c < |rest| && c < FirstEmpty(rest) ==> r[c] == Advance(rest[c], size)
    ensures forall c :: FirstEmpty(rest) <= c < |rest| ==> r[c] == rest[c]
  {
    var e := FirstEmpty(rest);
    seq(|rest|, c requires 0 <= c < |rest| => if c < e then Advance(rest[c], size) else rest[c])
  }

  /** The item one `next` yields: a chunk from every channel, or `None`
      as soon as one channel is exhausted. */
  function NextItem<T>(rest: seq<seq<T>>, size: nat): (r: Option<seq<seq<T>>>)
    requires size > 0
    ensures r.Some? <==> forall c :: 0 <= c < |rest| ==> rest[c] != []
    ensures r.Some? ==> |r.value| == |rest| && forall c :: 0 <= c < |rest| ==> r.value[c] == Chunk(rest[c], size)
  {
    if FirstEmpty(rest) == |rest| then Some(seq(|rest|, c requires 0 <= c < |rest| => Chunk(rest[c], size)))
    else None
  }

  /** `MatrixChunks`: one `slice::Chunks` iterator per channel; `rest[c]` is
      what channel `c`'s iterator has not yielded yet. */
  class MatrixChunks<T> {
    var rest: seq<seq<T>>
    const size: nat

    /** `Matrix::chunks(size)`; `slice::chunks` panics on a zero size. */
    constructor (m: Matrix<T>, size: nat)
      requires size > 0
      ensures rest == m.inner && this.size == size
    {
      rest := m.inner;
      this.size := size;
    }

    /** `next`: advances the channels in order and yields one chunk per
        channel; at the first exhausted channel it stops with `None`, the
        channels before it having already been advanced. A matrix with no
        channel yields an empty item forever. */
    method Next() returns (r: Option<seq<seq<T>>>)
      requires size > 0
      modifies this
      ensures rest == NextRest(old(rest), size) && r == NextItem(old(rest), size)
    {
      var outputs: seq<seq<T>> := [];
      var c := 0;
      ghost var start := rest;
      while c < |rest|
        invariant 0 <= c <= |rest| == |start|
        invariant c <= FirstEmpty(start)
        invariant |outputs| == c
        invariant forall k :: 0 <= k < c ==> rest[k] == Advance(start[k], size) && outputs[k] == Chunk(start[k], size)
        invariant forall k :: c <= k < |rest| ==> rest[k] == start[k]
      {
        if rest[c] == [] {
          return None;
        }
        outputs := outputs + [Chunk(rest[c], size)];
        rest := rest[c := Advance(rest[c], size)];
        c := c + 1;
      }
      assert outputs == seq(|start|, k requires 0 <= k < |start| => Chunk(start[k], size));
      assert rest == NextRest(start, size);
      r := Some(outputs);
    }
  }

  /** The items the chunk iterator of a matrix yields, up to its first `None`. */
  function ChunkItems<T>(rest: seq<seq<T>>, size: nat): (items: seq<seq<seq<T>>>)
    requires size > 0 && |rest| > 0
    ensures forall i :: 0 <= i < |items| ==> |items[i]| == |rest|
    decreases |rest[0]|
  {
    match NextItem(rest, size)
    case None => []
    case Some(item) => [item] + ChunkItems(NextRest(rest, size), size)
  }

  /** Channel `c`'s pieces of a list of items, glued back together. */
  function Concat<T>(items: seq<seq<seq<T>>>, c: nat): seq<T>
    requires forall i :: 0 <= i < |items| ==> c < |items[i]|
  {
    if items == [] then [] else items[0][c] + Concat(items[1..], c)
  }

  /** Every channel of the same length: then chunking loses nothing and
      reorders nothing. */
  lemma {:induction false} ChunkItemsConcat<T>(rest: seq<seq<T>>, size: nat, c: nat)
    requires size > 0 && c < |rest|
    requires forall k :: 0 <= k < |rest| ==> |rest[k]| == |rest[0]|
    ensures Concat(ChunkItems(rest, size), c) == rest[c]
    decreases |rest[0]|
  {
    if NextItem(rest, size).None? {
      assert rest[0] == [];
    } else {
      ChunkItemsConcat(NextRest(rest, size), size, c);
    }
  }

  /** Each channel with its first `i` samples consumed. */
  function DropEach<T>(inner: seq<seq<T>>, i: nat): (r: seq<seq<T>>)
    requires i <= MinLen(inner)
    ensures |r| == |inner| && forall c :: 0 <= c < |inner| ==> r[c] == inner[c][i..]
  {
    seq(|inner|, c requires 0 <= c < |inner| => inner[c][i..])
  }

  /** While samples remain in every channel, no channel of `DropEach` is exhausted. */
  lemma NoneExhausted<T>(inner: seq<seq<T>>, i: nat)
    requires i < MinLen(inner)
    ensures FirstEmpty(DropEach(inner, i)) == |inner|
  {
  }

  /** Once the shortest channel is consumed, the iterator yields `None`. */
  lemma ShortestExhausted<T>(inner: seq<seq<T>>)
    requires |inner| > 0
    ensures NextItem(DropEach(inner, MinLen(inner)), 1).None?
  {
    var d := DropEach(inner, MinLen(inner));
    var c :| 0 <= c < |inner| && MinLen(inner) == |inner[c]|;
    assert d[c] == [];
  }

  /** Chunks of one sample walk the channels in lock-step: the `i`-th item
      is sample `i` of every channel, and the iterators move on by one. */
  lemma OneSampleStep<T>(inner: seq<seq<T>>, i: nat)
    requires i < MinLen(inner)
    ensures NextItem(DropEach(inner, i), 1).Some?
    ensures |NextItem(DropEach(inner, i), 1).value| == |inner|
    ensures forall c :: 0 <= c < |inner| ==> NextItem(DropEach(inner, i), 1).value[c] == [inner[c][i]]
    ensures NextRest(DropEach(inner, i), 1) == DropEach(inner, i + 1)
  {
    var d := DropEach(inner, i);
    NoneExhausted(inner, i);
    var n := NextRest(d, 1);
    forall c | 0 <= c < |inner|
      ensures n[c] == inner[c][i + 1..]
      ensures Chunk(d[c], 1) == [inner[c][i]]
    {
      assert d[c] == inner[c][i..];
    }
  }

  lemma StepOrStop<T>(inner: seq<seq<T>>, i: nat)
    requires |inner| > 0 && i <= MinLen(inner)
    ensures NextItem(DropEach(inner, i), 1).Some? <==> i < MinLen(inner)
    ensures i < MinLen(inner) ==> |NextItem(DropEach(inner, i), 1).value| == |inner|
    ensures i < MinLen(inner) ==> forall c :: 0 <= c < |inner| ==> NextItem(DropEach(inner, i), 1).value[c] == [inner[c][i]]
    ensures i < MinLen(inner) ==> NextRest(DropEach(inner, i), 1) == DropEach(inner, i + 1)
  {
    if i < MinLen(inner) {
      OneSampleStep(inner, i);
    } else {
      ShortestExhausted(inner);
    }
  }

  /** The per-channel sliding window of the waveform: `channel` deques, each
      holding exactly `len` samples. */
  class MatrixFixed<T> {
    var inner: seq<seq<T>>
    const len: nat
    const channel: nat

    ghost predicate Valid()
      reads this
    {
      |inner| == channel && forall c :: 0 <= c < channel ==> |inner[c]| == len
    }

    /** `MatrixFixed::new`: `channel` deques of `len` default samples. */
    constructor (len: nat, channel: nat, default: T)
      ensures Valid() && this.len == len && this.channel == channel
      ensures forall c :: 0 <= c < channel ==> inner[c] == seq(len, _ => default)
    {
      inner := seq(channel, _ => seq(len, _ => default));
      this.len := len;
      this.channel := channel;
    }

    /** `append`: each sample does one `push_back` and one `pop_front`, in
        lock-step over the channels and up to the shortest one; the channel
        counts must agree (the Rust code asserts it). */
    method Append(m: Matrix<T>)
      requires Valid() && m.Channel() == channel && channel >= 1
      modifies this
      ensures Valid()
      ensures forall c :: 0 <= c < channel ==> inner[c] == Slide(old(inner)[c], m.inner[c][..MinLen(m.inner)])
    {
      inner := SlideAll(inner, m);
    }
  }

  /** The body of `append` on the deques' contents: the chunk loop over
      `m.chunks(1)`, one lock-step push/pop per item. */
  method SlideAll<T>(inner: seq<seq<T>>, m: Matrix<T>) returns (r: seq<seq<T>>)
    requires |inner| == |m.inner| >= 1
    ensures |r| == |inner|
    ensures forall c :: 0 <= c < |inner| ==> r[c] == Slide(inner[c], m.inner[c][..MinLen(m.inner)])
  {
    var chunks := new MatrixChunks(m, 1);
    ghost var i := 0;
    r := inner;
    assert DropEach(m.inner, 0) == m.inner;
    var done := false;
    while !done
      invariant chunks.size == 1 && |r| == |inner| && i <= MinLen(m.inner)
      invariant !done ==> chunks.rest == DropEach(m.inner, i)
      invariant done ==> i == MinLen(m.inner)
      invariant forall c :: 0 <= c < |inner| ==> r[c] == Slide(inner[c], m.inner[c][..i])
      decreases MinLen(m.inner) - i, !done
    {
      done, r := SlideOnce(chunks, r, inner, m.inner, i);
      if !done {
        i := i + 1;
      }
    }
  }

  /** One turn of the chunk loop of `append`: take the next item and, unless
      the iterator is exhausted, push/pop it through the deques. */
  method SlideOnce<T>(chunks: MatrixChunks<T>, r: seq<seq<T>>, ghost start: seq<seq<T>>, ghost samples: seq<seq<T>>, ghost i: nat)
      returns (done: bool, r2: seq<seq<T>>)
    requires chunks.size == 1 && |samples| >= 1 && i <= MinLen(samples)
    requires |r| == |start| == |samples| && chunks.rest == DropEach(samples, i)
    requires forall c :: 0 <= c < |r| ==> r[c] == Slide(start[c], samples[c][..i])
    modifies chunks
    ensures done <==> i == MinLen(samples)
    ensures done ==> r2 == r
    ensures !done ==> chunks.rest == DropEach(samples, i + 1) && |r2| == |r|
    ensures !done ==> forall c :: 0 <= c < |r| ==> r2[c] == Slide(start[c], samples[c][..i + 1])
  {
    StepOrStop(samples, i);
    var chunk := chunks.Next();
    if chunk.None? {
      return true, r;
    }
    r2 := PushPop(r, chunk.value);
    SlideColumn(start, r, r2, samples, i);
    done := false;
  }

  /** One item of the chunk loop: each channel's deque gets the sample at
      its back and loses one at its front. */
  method PushPop<T>(inner: seq<seq<T>>, item: seq<seq<T>>) returns (r: seq<seq<T>>)
    requires |item| == |inner| && forall c :: 0 <= c < |item| ==> |item[c]| >= 1
    ensures |r| == |inner|
    ensures forall c :: 0 <= c < |inner| ==> r[c] == (inner[c] + [item[c][0]])[1..]
  {
    r := inner;
    var c := 0;
    while c < |r|
      invariant 0 <= c <= |r| == |inner|
      invariant forall d :: 0 <= d < c ==> r[d] == (inner[d] + [item[d][0]])[1..]
      invariant forall d :: c <= d < |r| ==> r[d] == inner[d]
    {
      r := r[c := (r[c] + [item[c][0]])[1..]];
      c := c + 1;
    }
  }

  /** Length of the shortest channel (0 for no channel). */
  function MinLen<T>(inner: seq<seq<T>>): (k: nat)
    ensures forall c :: 0 <= c < |inner| ==> k <= |inner[c]|
    ensures |inner| > 0 ==> exists c :: 0 <= c < |inner| && k == |inner[c]|
    decreases |inner|
  {
    if inner == [] then 0
    else if |inner| == 1 then |inner[0]|
    else Ordering.MinOf(|inner[0]|, MinLen(inner[1..]))
  }

  /** The window `d` after the samples `xs` went through it: its last `|d|`
      elements of `d + xs`. */
  function Slide<T>(d: seq<T>, xs: seq<T>): (r: seq<T>)
    ensures |r| == |d|
  {
    (d + xs)[|xs|..]
  }

  /** One lock-step push/pop extends every channel's slide by one sample. */
  lemma SlideColumn<T>(start: seq<seq<T>>, before: seq<seq<T>>, after: seq<seq<T>>, samples: seq<seq<T>>, i: nat)
    requires |start| == |before| == |after| == |samples|
    requires forall c :: 0 <= c < |samples| ==> i < |samples[c]|
    requires forall c :: 0 <= c < |before| ==> before[c] == Slide(start[c], samples[c][..i])
    requires forall c :: 0 <= c < |after| ==> after[c] == (before[c] + [samples[c][i]])[1..]
    ensures forall c :: 0 <= c < |after| ==> after[c] == Slide(start[c], samples[c][..i + 1])
  {
    forall c | 0 <= c < |after|
      ensures after[c] == Slide(start[c], samples[c][..i + 1])
    {
      SlideStep(start[c], samples[c][..i], samples[c][i]);
      assert samples[c][..i] + [samples[c][i]] == samples[c][..i + 1];
    }
  }

  lemma SlideStep<T>(d: seq<T>, xs: seq<T>, x: T)
    ensures Slide(d, xs + [x]) == (Slide(d, xs) + [x])[1..]
  {
    assert d + (xs + [x]) == (d + xs) + [x];
  }

  /** The per-channel sequences of an interleaved buffer of `nChannels`
      channels: sample `i` of channel `c` sits at `c + i * nChannels`. */
  function Deinterleaved<T>(samples: seq<T>, nChannels: nat): (m: seq<seq<T>>)
    requires nChannels > 0 && |samples| % nChannels == 0
    ensures |m| == nChannels
    ensures forall c :: 0 <= c < nChannels ==> |m[c]| == |samples| / nChannels
  {
    seq(nChannels, c requires 0 <= c < nChannels =>
      seq(|samples| / nChannels, i requires 0 <= i < |samples| / nChannels => samples[Pos(c, i, nChannels, |samples|)]))
  }

  /** Where sample `i` of channel `c` sits in an interleaved buffer. */
  function Pos(c: nat, i: nat, nChannels: nat, total: nat): (k: nat)
    requires c < nChannels && i < total / nChannels
    ensures k < total && k % nChannels == c && k / nChannels == i
  {
    PosBounds(c, i, nChannels, total);
    c + i * nChannels
  }

  lemma PosBounds(c: nat, i: nat, nChannels: nat, total: nat)
    requires c < nChannels && i < total / nChannels
    ensures c + i * nChannels < total
    ensures (c + i * nChannels) % nChannels == c && (c + i * nChannels) / nChannels == i
  {
    MulLe(i + 1, total / nChannels, nChannels);
    DivModOf(c, i, nChannels);
  }

  lemma MulLe(a: nat, b: nat, k: nat)
    requires a <= b
    ensures a * k <= b * k
  {
  }

  /** Euclidean division recovers the frame and the channel. */
  lemma DivModOf(c: nat, i: nat, n: nat)
    requires c < n
    ensures (c + i * n) % n == c && (c + i * n) / n == i
  {
    var x := c + i * n;
    var q := x / n;
    if q > i {
      MulLe(i + 1, q, n);
      assert false;
    }
    if q < i {
      MulLe(q + 1, i, n);
      assert false;
    }
  }

  /** The inverse: channel-major samples written back frame by frame. */
  function Interleave<T>(m: seq<seq<T>>, len: nat): (s: seq<T>)
    requires |m| > 0 && forall c :: 0 <= c < |m| ==> |m[c]| == len
    ensures |s| == |m| * len
  {
    seq(|m| * len, k requires 0 <= k < |m| * len => FrameBound(k, |m|, len); m[k % |m|][k / |m|])
  }

  lemma FrameBound(k: nat, n: nat, len: nat)
    requires n > 0 && k < n * len
    ensures k / n < len
  {
    if k / n >= len {
      MulLe(len, k / n, n);
      assert false;
    }
  }

  /** Splitting then re-interleaving gives the buffer back. */
  lemma DeinterleaveInterleave<T>(samples: seq<T>, nChannels: nat)
    requires nChannels > 0 && |samples| % nChannels == 0
    ensures Interleave(Deinterleaved(samples, nChannels), |samples| / nChannels) == samples
  {
    var m := Deinterleaved(samples, nChannels);
    var len := |samples| / nChannels;
    var s := Interleave(m, len);
    assert |s| == |samples|;
    forall k | 0 <= k < |samples|
      ensures s[k] == samples[k]
    {
      var c, i := k % nChannels, k / nChannels;
      assert k == c + i * nChannels;
      assert Pos(c, i, nChannels, |samples|) == k;
    }
  }

  /** Interleaving then splitting gives the channels back. */
  lemma InterleaveDeinterleave<T>(m: seq<seq<T>>, len: nat)
    requires |m| > 0 && forall c :: 0 <= c < |m| ==> |m[c]| == len
    ensures |Interleave(m, len)| % |m| == 0
    ensures Deinterleaved(Interleave(m, len), |m|) == m
  {
    var s := Interleave(m, len);
    DivModOf(0, len, |m|);
    var d := Deinterleaved(s, |m|);
    forall c | 0 <= c < |m|
      ensures d[c] == m[c]
    {
      forall i | 0 <= i < len
        ensures d[c][i] == m[c][i]
      {
        PosBounds(c, i, |m|, |s|);
      }
    }
  }

  /** The split in the capture callback: a matrix of `nChannels` rows of
      `|samples| / nChannels` zeros, filled channel by channel. `None` is a
      panic: division by a zero channel count, or a write past the end of
      a row, which happens exactly when the buffer is not a whole number of
      frames. */
  method Deinterleave<T>(samples: seq<T>, nChannels: nat, zero: T) returns (r: Option<seq<seq<T>>>)
    ensures r.None? <==> nChannels == 0 || |samples| % nChannels != 0
    ensures r.Some? ==> r.value == Deinterleaved(samples, nChannels)
  {
    if nChannels == 0 {
      return None;
    }
    var per := |samples| / nChannels;
    var inner: seq<seq<T>> := seq(nChannels, _ => seq(per, _ => zero));
    var c := 0;
    while c < nChannels
      invariant c <= nChannels && |inner| == nChannels
      invariant c > 0 ==> |samples| % nChannels == 0
      invariant forall d :: 0 <= d < nChannels ==> |inner[d]| == per
      invariant forall d :: 0 <= d < c ==> inner[d] == Deinterleaved(samples, nChannels)[d]
    {
      var row := FillRow(inner[c], samples, c, nChannels);
      if row.None? {
        return None;
      }
      inner := inner[c := row.value];
      c := c + 1;
    }
    r := Some(inner);
  }

  /** One channel's walk: from offset `c` in steps of `nChannels`, each
      sample goes to the next index of `row`. `None` is the write past the
      end of the row, which happens exactly for the channels whose offset
      falls in the partial last frame. */
  method FillRow<T>(row: seq<T>, samples: seq<T>, c: nat, nChannels: nat) returns (r: Option<seq<T>>)
    requires c < nChannels && |row| == |samples| / nChannels
    ensures r.None? <==> c < |samples| % nChannels
    ensures r.Some? ==> |r.value| == |row|
    ensures r.Some? ==> |samples| % nChannels == 0 ==> r.value == Deinterleaved(samples, nChannels)[c]
  {
    var per := |row|;
    var out := row;
    var index := 0;
    var n := c;
    while n < |samples|
      invariant n == c + index * nChannels && index <= per && |out| == per
      invariant forall j :: 0 <= j < index ==> c + j * nChannels < |samples| && out[j] == samples[c + j * nChannels]
      decreases |samples| - n
    {
      if index >= per {
        PastLastFrame(c, per, nChannels, |samples|);
        return None;
      }
      out := out[index := samples[n]];
      index := index + 1;
      n := n + nChannels;
    }
    WalkCoversRow(c, index, per, nChannels, |samples|);
    r := Some(out);
    if |samples| % nChannels == 0 {
      forall j | 0 <= j < per
        ensures out[j] == Deinterleaved(samples, nChannels)[c][j]
      {
        assert Pos(c, j, nChannels, |samples|) == c + j * nChannels;
      }
    }
  }

  /** A write at index `per` of channel `c` only happens when the offset
      `c` lies in the partial last frame. */
  lemma PastLastFrame(c: nat, per: nat, n: nat, total: nat)
    requires c < n && per == total / n && c + per * n < total
    ensures c < total % n
  {
  }

  /** Otherwise the walk leaves the buffer after exactly `per` samples. */
  lemma WalkCoversRow(c: nat, index: nat, per: nat, n: nat, total: nat)
    requires c < n && per == total / n && index <= per && c + index * n >= total
    ensures index == per && c >= total % n
  {
    if index < per {
      MulLe(index + 1, per, n);
      assert false;
    }
  }

  /** The matrices one capture callback sends, one per 80-sample chunk. */
  const FrameChunk: nat := 80

  /** The capture callback's processing of one buffer: deinterleave, then
      send every item of `chunks(80)` as a matrix of its own (the sent
      matrices are the result). `None` is the deinterleaving panic. */
  method Process<T>(samples: seq<T>, nChannels: nat, zero: T) returns (r: Option<seq<Matrix<T>>>)
    ensures r.None? <==> nChannels == 0 || |samples| % nChannels != 0
    ensures r.Some? ==> |r.value| == |ChunkItems(Deinterleaved(samples, nChannels), FrameChunk)|
    ensures r.Some? ==> forall k :: 0 <= k < |r.value| ==>
              r.value[k].inner == ChunkItems(Deinterleaved(samples, nChannels), FrameChunk)[k]
  {
    var inner := Deinterleave(samples, nChannels, zero);
    if inner.None? {
      return None;
    }
    var sent := SendChunks(Matrix(inner.value), FrameChunk);
    r := Some(sent);
  }

  /** `for data in matrix.chunks(size)`: every item becomes a matrix of its
      own and is sent, in order (the sent matrices are the result). */
  method SendChunks<T>(m: Matrix<T>, size: nat) returns (sent: seq<Matrix<T>>)
    requires size > 0 && m.Channel() > 0
    ensures |sent| == |ChunkItems(m.inner, size)|
    ensures forall k :: 0 <= k < |sent| ==> sent[k].inner == ChunkItems(m.inner, size)[k]
  {
    var chunks := new MatrixChunks(m, size);
    ghost var all := ChunkItems(m.inner, size);
    sent := [];
    var done := false;
    while !done
      invariant chunks.size == size && |chunks.rest| == |m.inner| && |sent| <= |all|
      invariant !done ==> all[|sent|..] == ChunkItems(chunks.rest, size)
      invariant done ==> |sent| == |all|
      invariant forall k :: 0 <= k < |sent| ==> sent[k].inner == all[k]
      decreases |all| - |sent|, !done
    {
      done, sent := SendOnce(chunks, sent, all);
    }
  }

  /** One turn of the loop of `SendChunks`: take the next item and, unless
      the iterator is exhausted, send it as a matrix. */
  method SendOnce<T>(chunks: MatrixChunks<T>, sent: seq<Matrix<T>>, ghost all: seq<seq<seq<T>>>)
      returns (done: bool, sent2: seq<Matrix<T>>)
    requires chunks.size > 0 && |chunks.rest| > 0 && |sent| <= |all|
    requires all[|sent|..] == ChunkItems(chunks.rest, chunks.size)
    requires forall k :: 0 <= k < |sent| ==> sent[k].inner == all[k]
    modifies chunks
    ensures |chunks.rest| == |old(chunks.rest)|
    ensures done ==> sent2 == sent && |sent| == |all|
    ensures !done ==> |sent2| == |sent| + 1 <= |all| && all[|sent2|..] == ChunkItems(chunks.rest, chunks.size)
    ensures forall k :: 0 <= k < |sent2| ==> sent2[k].inner == all[k]
  {
    var item := chunks.Next();
    if item.None? {
      return true, sent;
    }
    sent2 := sent + [Matrix(item.value)];
    assert all[|sent2|..] == all[|sent|..][1..];
    done := false;
  }

  /** Each item of `chunks(size)` holds between one and `size` samples per channel. */
  lemma {:induction false} ChunkItemsSizes<T>(rest: seq<seq<T>>, size: nat)
    requires size > 0 && |rest| > 0
    ensures forall i, c :: 0 <= i < |ChunkItems(rest, size)| && 0 <= c < |rest| ==>
              1 <= |ChunkItems(rest, size)[i][c]| <= size
    decreases |rest[0]|
  {
    match NextItem(rest, size)
    case None =>
    case Some(item) =>
      ChunkItemsSizes(NextRest(rest, size), size);
  }

  /** Across the matrices one buffer produces, every channel's samples
      appear once each and in order. */
  lemma ProcessKeepsEverySample<T>(samples: seq<T>, nChannels: nat, c: nat)
    requires nChannels > 0 && |samples| % nChannels == 0 && c < nChannels
    ensures Concat(ChunkItems(Deinterleaved(samples, nChannels), FrameChunk), c) == Deinterleaved(samples, nChannels)[c]
  {
    ChunkItemsConcat(Deinterleaved(samples, nChannels), FrameChunk, c);
  }
}
