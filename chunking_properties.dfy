/** What the windows of `chunk_text` look like, proved from their definition. */
module ChunkingProperties {
  import Text
  import opened Chunking

  /**
   * The windows `w` cover `[start, n)`: the first starts at `start`, every
   * window but the last is exactly `size` long and ends before `n`, and the
   * last one ends at `n`.
   */
  ghost predicate Covers(w: seq<(int, int)>, n: int, start: int, size: int, overlap: int)
  {
    && |w| >= 1
    && w[0].0 == start
    && w[|w| - 1].1 == n
    && 0 < w[|w| - 1].1 - w[|w| - 1].0 <= size
    && (forall i :: 0 <= i < |w| ==> start <= w[i].0 < w[i].1 <= n)
    && (forall i :: 0 <= i < |w| - 1 ==> w[i].1 == w[i].0 + size < n)
  }

  /** Window `i` starts `i * step` after `start`. */
  ghost predicate StartsAt(w: seq<(int, int)>, start: int, step: int)
  {
    forall i {:trigger w[i]} :: 0 <= i < |w| ==> w[i].0 == start + i * step
  }

  /**
   * With `0 <= overlap < size`, the windows from `start` cover the rest of a
   * text of length `n` and advance by `size - overlap` each.
   */
  lemma {:induction false} WindowsShape(n: nat, start: int, size: int, overlap: int)
    requires 0 <= overlap < size && 0 <= start < n
    ensures Covers(Windows(n, start, size, overlap), n, start, size, overlap)
    ensures StartsAt(Windows(n, start, size, overlap), start, size - overlap)
    decreases n - start
  {
    var w := Windows(n, start, size, overlap);
    var end := Text.Min(start + size, n);
    if end != n {
      var next := end - overlap;
      WindowsShape(n, next, size, overlap);
      var v := Windows(n, next, size, overlap);
      assert w == [(start, end)] + v;
      forall i | 1 <= i < |w|
        ensures w[i].0 == start + i * (size - overlap)
      {
        assert w[i] == v[i - 1];
        assert v[i - 1].0 == next + (i - 1) * (size - overlap);
        assert (i - 1) * (size - overlap) + (size - overlap) == i * (size - overlap);
      }
    }
  }

  /**
   * How the chunks `cs` cut the text `t`: there is at least one, every chunk
   * but the last has exactly `size` characters, and the last is non-empty and
   * ends the text.
   */
  ghost predicate CutsText(t: string, cs: seq<string>, size: int, overlap: int)
    requires 0 <= overlap < size
  {
    && |cs| >= 1
    && (forall i :: 0 <= i < |cs| - 1 ==> |cs[i]| == size)
    && 0 < |cs[|cs| - 1]| <= size && |cs[|cs| - 1]| <= |t|
    && cs[|cs| - 1] == t[|t| - |cs[|cs| - 1]|..]
  }

  /** `c` is the part of `t` that starts at offset `s`. */
  ghost predicate PartAt(t: string, c: string, s: int)
  {
    0 <= s && s + |c| <= |t| && c == t[s..s + |c|]
  }

  /** Chunk `i` is the part of `t` that starts at offset `i * step`. */
  ghost predicate ChunksStartAt(t: string, cs: seq<string>, step: int)
  {
    forall i {:trigger cs[i]} :: 0 <= i < |cs| ==> PartAt(t, cs[i], i * step)
  }

  /** Two slices of `t` that meet across `[e - overlap, e)` share exactly those characters. */
  lemma SharedPart(t: string, x: string, y: string, a: int, e: int, b: int, overlap: int)
    requires 0 <= a <= e - overlap && 0 <= overlap && e <= b <= |t|
    requires x == t[a..e] && y == t[e - overlap..b]
    ensures x[|x| - overlap..] == y[..overlap]
  {
    assert x[|x| - overlap..] == t[e - overlap..e];
    assert y[..overlap] == t[e - overlap..e];
  }

  /** The slices of `t` at windows that cover it cut it as `CutsText` says. */
  lemma SlicesCutText(t: string, w: seq<(int, int)>, size: int, overlap: int)
    requires 0 <= overlap < size && Covers(w, |t|, 0, size, overlap)
    ensures CutsText(t, SliceAll(t, w), size, overlap)
  {
    var cs := SliceAll(t, w);
    forall i | 0 <= i < |cs| - 1
      ensures |cs[i]| == size
    {
      SliceIsPart(t, cs[i], w[i].0, w[i].1);
    }
    var last := |cs| - 1;
    SliceIsPart(t, cs[last], w[last].0, w[last].1);
  }

  /** The slices of `t` at windows that start at `i * step` start there too. */
  lemma SlicesStartAt(t: string, w: seq<(int, int)>, step: int)
    requires StartsAt(w, 0, step)
    requires forall i :: 0 <= i < |w| ==> 0 <= w[i].0 <= w[i].1 <= |t|
    ensures ChunksStartAt(t, SliceAll(t, w), step)
  {
    var cs := SliceAll(t, w);
    forall i {:trigger cs[i]} | 0 <= i < |cs|
      ensures PartAt(t, cs[i], i * step)
    {
      SliceIsPart(t, cs[i], w[i].0, w[i].1);
    }
  }

  lemma SliceIsPart(t: string, c: string, s: int, e: int)
    requires 0 <= s <= e <= |t| && c == Slice(t, s, e)
    ensures |c| == e - s && PartAt(t, c, s)
    ensures e == |t| ==> c == t[s..]
  {
  }

  /**
   * For non-empty normalised text and `0 <= overlap < chunk_size`,
   * `chunk_text` returns chunks that cut the normalised text as `CutsText` says.
   */
  lemma ChunkShape(text: string, size: int, overlap: int)
    requires 0 <= overlap < size && Normalize(text) != []
    ensures ChunkSpec(text, size, overlap).Chunks?
    ensures CutsText(Normalize(text), ChunkSpec(text, size, overlap).chunks, size, overlap)
    ensures ChunksStartAt(Normalize(text), ChunkSpec(text, size, overlap).chunks, size - overlap)
  {
    var t := Normalize(text);
    WindowSlicesCut(t, size, overlap);
    WindowSlicesStart(t, size, overlap);
  }

  /** The slices of a non-empty text at its windows cut it as `CutsText` says. */
  lemma WindowSlicesCut(t: string, size: int, overlap: int)
    requires 0 <= overlap < size && t != []
    ensures CutsText(t, SliceAll(t, Windows(|t|, 0, size, overlap)), size, overlap)
  {
    WindowsShape(|t|, 0, size, overlap);
    SlicesCutText(t, Windows(|t|, 0, size, overlap), size, overlap);
  }

  /** The slices of a non-empty text at its windows start where the windows do. */
  lemma WindowSlicesStart(t: string, size: int, overlap: int)
    requires 0 <= overlap < size && t != []
    ensures ChunksStartAt(t, SliceAll(t, Windows(|t|, 0, size, overlap)), size - overlap)
  {
    WindowsShape(|t|, 0, size, overlap);
    SlicesStartAt(t, Windows(|t|, 0, size, overlap), size - overlap);
  }

  /**
   * In windows that cover a text and advance by `size - overlap`, window
   * `i + 1` starts `overlap` before window `i` ends, and ends no earlier.
   */
  lemma WindowsAdjacent(w: seq<(int, int)>, n: int, size: int, overlap: int, i: nat)
    requires 0 <= overlap < size && Covers(w, n, 0, size, overlap)
    requires StartsAt(w, 0, size - overlap) && i + 1 < |w|
    ensures 0 <= w[i].0 && w[i].1 == w[i].0 + size
    ensures w[i + 1].0 == w[i].1 - overlap && w[i].1 <= w[i + 1].1 <= n
  {
    assert w[i + 1].0 == (i + 1) * (size - overlap) == i * (size - overlap) + (size - overlap);
  }

  /** Two slices of `t` whose windows meet across `overlap` characters share them. */
  lemma SlicesOverlapAt(t: string, w: seq<(int, int)>, size: int, overlap: int, i: nat)
    requires 0 <= overlap < size && i + 1 < |w|
    requires 0 <= w[i].0 && w[i].1 == w[i].0 + size
    requires w[i + 1].0 == w[i].1 - overlap && w[i].1 <= w[i + 1].1 <= |t|
    ensures var cs := SliceAll(t, w);
      |cs[i]| == size && overlap <= |cs[i + 1]|
      && cs[i][size - overlap..] == cs[i + 1][..overlap]
  {
    var cs := SliceAll(t, w);
    SharedPart(t, cs[i], cs[i + 1], w[i].0, w[i].1, w[i + 1].1, overlap);
  }

  /**
   * Adjacent chunks of `chunk_text` overlap by exactly `overlap` characters:
   * the last `overlap` characters of chunk `i` open chunk `i + 1`.
   */
  lemma ChunkOverlap(text: string, size: int, overlap: int, i: nat)
    requires 0 <= overlap < size && Normalize(text) != []
    requires i + 1 < |ChunkSpec(text, size, overlap).chunks|
    ensures var cs := ChunkSpec(text, size, overlap).chunks;
      |cs[i]| == size && overlap <= |cs[i + 1]|
      && cs[i][size - overlap..] == cs[i + 1][..overlap]
  {
    var t := Normalize(text);
    var w := Windows(|t|, 0, size, overlap);
    WindowsShape(|t|, 0, size, overlap);
    WindowsAdjacent(w, |t|, size, overlap, i);
    SlicesOverlapAt(t, w, size, overlap, i);
  }

  /**
   * Without overlap there are `k = ceil((n - start) / size)` windows:
   * `(k - 1) * size < n - start <= k * size`.
   */
  lemma {:induction false} WindowCountWithoutOverlap(n: nat, start: int, size: int)
    requires 0 < size && 0 <= start < n
    ensures var k := |Windows(n, start, size, 0)|;
      k >= 1 && (k - 1) * size < n - start <= k * size
    decreases n - start
  {
    if start + size < n {
      WindowCountWithoutOverlap(n, start + size, size);
      var k := |Windows(n, start + size, size, 0)|;
      assert |Windows(n, start, size, 0)| == k + 1;
      assert (k - 1) * size + size == k * size;
    }
  }

  /** Without overlap the windows' slices, put back together, give the rest of the text. */
  lemma {:induction false} SlicesRejoinWithoutOverlap(t: string, start: int, size: int)
    requires 0 < size && 0 <= start < |t|
    ensures Text.Join(SliceAll(t, Windows(|t|, start, size, 0)), "") == t[start..]
    decreases |t| - start
  {
    var end := Text.Min(start + size, |t|);
    var cs := SliceAll(t, Windows(|t|, start, size, 0));
    if end != |t| {
      SlicesRejoinWithoutOverlap(t, end, size);
      var rest := SliceAll(t, Windows(|t|, end, size, 0));
      assert cs == [t[start..end]] + rest;
      assert |rest| >= 1 by { WindowsShape(|t|, end, size, 0); }
      assert Text.Join(cs, "") == t[start..end] + "" + Text.Join(rest, "");
      assert t[start..] == t[start..end] + t[end..];
    }
  }

  /**
   * With `overlap = 0`, concatenating the chunks gives back the normalised
   * text, and there are `ceil(len / chunk_size)` of them.
   */
  lemma ChunksRejoinWithoutOverlap(text: string, size: int)
    requires 0 < size && Normalize(text) != []
    ensures var t := Normalize(text);
      var r := ChunkSpec(text, size, 0);
      && r.Chunks?
      && Text.Join(r.chunks, "") == t
      && (|r.chunks| - 1) * size < |t| <= |r.chunks| * size
  {
    WindowSlicesRejoin(Normalize(text), size);
  }

  lemma WindowSlicesRejoin(t: string, size: int)
    requires 0 < size && t != []
    ensures var cs := SliceAll(t, Windows(|t|, 0, size, 0));
      && Text.Join(cs, "") == t
      && (|cs| - 1) * size < |t| <= |cs| * size
  {
    SlicesRejoinWithoutOverlap(t, 0, size);
    WindowCountWithoutOverlap(|t|, 0, size);
    assert t[0..] == t;
  }

  /** 1000 characters, size 400, overlap 50: windows [0,400), [350,750), [700,1000). */
  lemma ThousandCharacterExample()
    ensures Windows(1000, 0, 400, 50) == [(0, 400), (350, 750), (700, 1000)]
  {
    assert Windows(1000, 700, 400, 50) == [(700, 1000)];
    assert Windows(1000, 350, 400, 50) == [(350, 750), (700, 1000)];
  }
}
