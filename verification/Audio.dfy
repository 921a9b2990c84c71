/** Cutting an audio file into chunks that are small enough to upload. */
module Audio {
  import opened Prelude

  /** Milliseconds from `start` up to but not including `end`. */
  datatype Chunk = Chunk(start: nat, end: nat)

  /** Size in bytes of an exported stretch of audio: any function, in no way monotone. */
  type Size = (nat, nat) -> nat

  datatype Split = Original
                 | Chunks(chunks: seq<Chunk>)
                 | TooLarge(done: seq<Chunk>, culprit: Chunk)

  const STEP_MIN := 1000
  const HALVE_ABOVE := 5000

  /** The length to try first, guessed from the ratio of the limit to the file size. */
  function FirstGuess(duration: nat, maxBytes: nat, fileSize: nat): nat
    requires fileSize > 0
  {
    Max(duration * maxBytes / fileSize - 1000, STEP_MIN)
  }

  /** End to end from 0, nothing empty. */
  ghost predicate Contiguous(chunks: seq<Chunk>, end: nat) {
    && (forall i :: 0 <= i < |chunks| ==> chunks[i].start < chunks[i].end)
    && (forall i :: 0 < i < |chunks| ==> chunks[i].start == chunks[i - 1].end)
    && (if chunks == [] then end == 0 else chunks[0].start == 0 && chunks[|chunks| - 1].end == end)
  }

  /** Every millisecond before `end` lies in exactly one chunk, and none after it in any. */
  ghost predicate Covers(chunks: seq<Chunk>, end: nat) {
    && (forall t: nat :: t < end <==> Heard(chunks, t))
    && (forall t: nat, i, j :: Holds(chunks, i, t) && Holds(chunks, j, t) ==> i == j)
  }

  ghost predicate Heard(chunks: seq<Chunk>, t: nat) {
    exists i :: Holds(chunks, i, t)
  }

  ghost predicate Holds(chunks: seq<Chunk>, i: int, t: nat) {
    0 <= i < |chunks| && chunks[i].start <= t < chunks[i].end
  }

  /** A chunk is as long as first tried, or half of a stretch that was too large and long enough to halve. */
  ghost predicate Needed(c: Chunk, guess: nat, duration: nat, size: Size, maxBytes: nat) {
    || c.end == Min(c.start + guess, duration)
    || exists e: nat :: e <= c.start + guess && HalvedFrom(c, e, duration, size, maxBytes)
  }

  ghost predicate HalvedFrom(c: Chunk, e: nat, duration: nat, size: Size, maxBytes: nat) {
    c.start + HALVE_ABOVE < e <= duration && size(c.start, e) > maxBytes && c.end == c.start + (e - c.start) / 2
  }

  ghost predicate Good(chunks: seq<Chunk>, guess: nat, duration: nat, size: Size, maxBytes: nat) {
    forall i :: 0 <= i < |chunks| ==> GoodAt(chunks[i], guess, duration, size, maxBytes)
  }

  ghost predicate GoodAt(c: Chunk, guess: nat, duration: nat, size: Size, maxBytes: nat) {
    size(c.start, c.end) <= maxBytes && Needed(c, guess, duration, size, maxBytes)
  }

  /** What the outer loop has cut so far, up to `start`. */
  ghost predicate CutSoFar(chunks: seq<Chunk>, start: nat, guess: nat, duration: nat, size: Size, maxBytes: nat) {
    && Contiguous(chunks, start) && Good(chunks, guess, duration, size, maxBytes)
    && forall i :: 0 <= i < |chunks| ==> chunks[i].start + STEP_MIN <= chunks[i].end || chunks[i].end == duration
  }

  lemma CutOneMore(chunks: seq<Chunk>, c: Chunk, guess: nat, duration: nat, size: Size, maxBytes: nat)
    requires CutSoFar(chunks, c.start, guess, duration, size, maxBytes) && GoodAt(c, guess, duration, size, maxBytes)
    requires c.start < c.end && (c.start + STEP_MIN <= c.end || c.end == duration)
    ensures CutSoFar(chunks + [c], c.end, guess, duration, size, maxBytes)
  {
  }

  /** All chunks but the last are at least a second long. */
  ghost predicate LongEnough(chunks: seq<Chunk>) {
    forall i :: 0 <= i < |chunks| - 1 ==> chunks[i].start + STEP_MIN <= chunks[i].end
  }

  /** `split_audio`. A file that fits, or that cannot be taken apart, comes back whole. Otherwise it is cut end
      to end into chunks within the limit, or the first stretch of at most five seconds that is still too large
      ends the attempt. */
  method SplitAudio(fileSize: nat, maxBytes: nat, canSplit: bool, duration: nat, size: Size) returns (r: Split)
    ensures r.Original? <==> fileSize <= maxBytes || !canSplit
    ensures r.Chunks? ==> Contiguous(r.chunks, duration)
    ensures r.Chunks? ==> Good(r.chunks, FirstGuess(duration, maxBytes, fileSize), duration, size, maxBytes)
    ensures r.Chunks? ==> LongEnough(r.chunks)
    ensures r.TooLarge? ==> Contiguous(r.done, r.culprit.start)
    ensures r.TooLarge? ==> Good(r.done, FirstGuess(duration, maxBytes, fileSize), duration, size, maxBytes)
    ensures r.TooLarge? ==> Needed(r.culprit, FirstGuess(duration, maxBytes, fileSize), duration, size, maxBytes)
    ensures r.TooLarge? ==> size(r.culprit.start, r.culprit.end) > maxBytes
    ensures r.TooLarge? ==> r.culprit.start < r.culprit.end <= Min(r.culprit.start + HALVE_ABOVE, duration)
  {
    if fileSize <= maxBytes || !canSplit {
      return Original;
    }
    var guess := FirstGuess(duration, maxBytes, fileSize);
    var chunks := [];
    var start := 0;
    while start < duration
      invariant start <= duration && CutSoFar(chunks, start, guess, duration, size, maxBytes)
    {
      var end := Min(start + guess, duration);
      while size(start, end) > maxBytes && end - start > HALVE_ABOVE
        invariant start < end <= Min(start + guess, duration)
        invariant end - start >= STEP_MIN || end == duration
        invariant Needed(Chunk(start, end), guess, duration, size, maxBytes)
        decreases end - start
      {
        assert HalvedFrom(Chunk(start, start + (end - start) / 2), end, duration, size, maxBytes);
        end := start + (end - start) / 2;
      }
      if size(start, end) > maxBytes {
        return TooLarge(chunks, Chunk(start, end));
      }
      CutOneMore(chunks, Chunk(start, end), guess, duration, size, maxBytes);
      chunks := chunks + [Chunk(start, end)];
      start := end;
    }
    r := Chunks(chunks);
    forall i | 0 <= i < |chunks| - 1 ensures chunks[i].start + STEP_MIN <= chunks[i].end {
      EndsIncrease(chunks, duration, i, |chunks| - 1);
    }
  }

  lemma {:induction false} EndsIncrease(chunks: seq<Chunk>, end: nat, i: nat, j: nat)
    requires Contiguous(chunks, end) && i < j < |chunks|
    ensures chunks[i].end <= chunks[j].start
  {
    if i < j - 1 { EndsIncrease(chunks, end, i, j - 1); }
  }

  /** Chunks that lie end to end hold every instant exactly once. */
  lemma ContiguousCovers(chunks: seq<Chunk>, end: nat)
    requires Contiguous(chunks, end)
    ensures Covers(chunks, end)
  {
    forall t: nat, i, j | Holds(chunks, i, t) && Holds(chunks, j, t) ensures i == j {
      if i < j { EndsIncrease(chunks, end, i, j); }
      if j < i { EndsIncrease(chunks, end, j, i); }
    }
    forall t: nat ensures t < end <==> Heard(chunks, t) {
      if t < end {
        var i := Locate(chunks, end, t);
      } else if i :| Holds(chunks, i, t) {
        if i < |chunks| - 1 { EndsIncrease(chunks, end, i, |chunks| - 1); }
      }
    }
  }

  lemma {:induction false} Locate(chunks: seq<Chunk>, end: nat, t: nat) returns (i: int)
    requires Contiguous(chunks, end) && t < end
    ensures Holds(chunks, i, t)
    decreases |chunks|
  {
    var n := |chunks| - 1;
    if chunks[n].start <= t {
      i := n;
    } else {
      i := Locate(chunks[..n], chunks[n].start, t);
    }
  }

  lemma {:induction false} FullChunks(chunks: seq<Chunk>, end: nat, n: nat)
    requires Contiguous(chunks, end) && LongEnough(chunks) && n < |chunks|
    ensures chunks[n].start >= STEP_MIN * n
  {
    if n > 0 { FullChunks(chunks, end, n - 1); }
  }

  /** There are few chunks: no more than whole seconds in the recording, and one. */
  lemma FewChunks(chunks: seq<Chunk>, end: nat)
    requires Contiguous(chunks, end) && LongEnough(chunks)
    ensures chunks != [] ==> STEP_MIN * (|chunks| - 1) < end
  {
    if chunks != [] { FullChunks(chunks, end, |chunks| - 1); }
  }

  // ---------------------------------------------------------------- sizes in proportion

  /** No stretch takes more than its share of the file. */
  ghost predicate InProportion(size: Size, duration: nat, fileSize: nat) {
    forall s: nat, e: nat :: s < e <= duration ==> ShareOf(size, s, e, duration, fileSize)
  }

  predicate ShareOf(size: Size, s: nat, e: nat, duration: nat, fileSize: nat)
    requires s < e
  {
    size(s, e) * duration <= fileSize * (e - s)
  }

  /** A stretch of the guessed length fits. */
  lemma GuessFits(duration: nat, maxBytes: nat, fileSize: nat, bytes: nat, n: nat)
    requires fileSize > 0 && duration > 0 && duration * maxBytes / fileSize >= 2000
    requires bytes * duration <= fileSize * n && n <= FirstGuess(duration, maxBytes, fileSize)
    ensures bytes <= maxBytes
  {
    var q := duration * maxBytes / fileSize;
    QuotientFits(duration * maxBytes, fileSize);
    ScaleUp(fileSize, n, q);
    CancelFactor(bytes, maxBytes, duration);
  }

  lemma QuotientFits(x: nat, y: nat)
    requires y > 0
    ensures y * (x / y) <= x
  {
  }

  lemma ScaleUp(k: nat, x: nat, y: nat)
    requires x <= y
    ensures k * x <= k * y
  {
  }

  lemma CancelFactor(x: nat, y: nat, k: nat)
    requires k > 0 && x * k <= k * y
    ensures x <= y
  {
    assert (y - x) * k == k * y - x * k;
    SignOfFactor(y - x, k);
  }

  lemma SignOfFactor(x: int, k: nat)
    requires k > 0 && x * k >= 0
    ensures x >= 0
  {
  }

  lemma NothingTooLarge(c: Chunk, duration: nat, maxBytes: nat, fileSize: nat, size: Size)
    requires fileSize > 0 && duration * maxBytes / fileSize >= 2000 && InProportion(size, duration, fileSize)
    requires c.start < c.end <= duration && c.end <= c.start + FirstGuess(duration, maxBytes, fileSize)
    ensures size(c.start, c.end) <= maxBytes
  {
    assert ShareOf(size, c.start, c.end, duration, fileSize);
    GuessFits(duration, maxBytes, fileSize, size(c.start, c.end), c.end - c.start);
  }

  lemma NeededIsGuess(c: Chunk, duration: nat, maxBytes: nat, fileSize: nat, size: Size)
    requires fileSize > 0 && duration * maxBytes / fileSize >= 2000 && InProportion(size, duration, fileSize)
    requires c.start < c.end <= duration
    requires Needed(c, FirstGuess(duration, maxBytes, fileSize), duration, size, maxBytes)
    ensures c.end == Min(c.start + duration * maxBytes / fileSize - 1000, duration)
  {
    var guess := FirstGuess(duration, maxBytes, fileSize);
    if e: nat :| e <= c.start + guess && HalvedFrom(c, e, duration, size, maxBytes) {
      NothingTooLarge(Chunk(c.start, e), duration, maxBytes, fileSize, size);
    }
  }

  lemma {:induction false} EqualChunks(chunks: seq<Chunk>, end: nat, n: nat, length: nat)
    requires Contiguous(chunks, end) && n < |chunks|
    requires forall i :: 0 <= i < |chunks| - 1 ==> chunks[i].end == chunks[i].start + length
    ensures chunks[n].start == n * length
  {
    if n > 0 { EqualChunks(chunks, end, n - 1, length); }
  }

  /** When no stretch takes more than its share and the limit allows at least two seconds, nothing is ever halved or
      too large: all chunks but the last are as long as the share of the limit less a second, and there are
      no more of them than that takes. */
  lemma ProportionalSplit(r: Split, duration: nat, maxBytes: nat, fileSize: nat, size: Size)
    requires fileSize > 0 && duration * maxBytes / fileSize >= 2000 && InProportion(size, duration, fileSize)
    requires r.Chunks? ==>
      Contiguous(r.chunks, duration) &&
      Good(r.chunks, FirstGuess(duration, maxBytes, fileSize), duration, size, maxBytes)
    requires r.TooLarge? ==>
      r.culprit.start < r.culprit.end <= duration && size(r.culprit.start, r.culprit.end) > maxBytes &&
      Needed(r.culprit, FirstGuess(duration, maxBytes, fileSize), duration, size, maxBytes)
    ensures !r.TooLarge?
    ensures var length := duration * maxBytes / fileSize - 1000;
      r.Chunks? ==>
        (forall i :: 0 <= i < |r.chunks| - 1 ==> r.chunks[i].end == r.chunks[i].start + length) &&
        (r.chunks != [] ==> (|r.chunks| - 1) * length < duration)
  {
    var length := duration * maxBytes / fileSize - 1000;
    if r.TooLarge? {
      NeededIsGuess(r.culprit, duration, maxBytes, fileSize, size);
      NothingTooLarge(r.culprit, duration, maxBytes, fileSize, size);
    } else if r.Chunks? && r.chunks != [] {
      var chunks, last := r.chunks, |r.chunks| - 1;
      forall i | 0 <= i < last ensures chunks[i].end == chunks[i].start + length {
        EndsIncrease(chunks, duration, i, last);
        assert GoodAt(chunks[i], FirstGuess(duration, maxBytes, fileSize), duration, size, maxBytes);
        NeededIsGuess(chunks[i], duration, maxBytes, fileSize, size);
      }
      EqualChunks(chunks, duration, last, length);
    }
  }
}
