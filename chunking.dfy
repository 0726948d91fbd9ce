/**
 * `chunk_text`: normalise line endings, strip the text, then cut it into
 * fixed-size character windows that overlap by `overlap` characters.
 */
module Chunking {
  import Text

  datatype ChunkResult =
    | Chunks(chunks: seq<string>)
      /** The `ValueError` raised for `overlap >= chunk_size`. */
    | InvalidConfiguration(message: string)

  const OverlapMessage := "overlap must be < chunk_size"

  /** `text.replace("\r\n", "\n").strip()` */
  function Normalize(text: string): string {
    Text.Strip(Text.ReplaceCrlf(text))
  }

  /** Python's clamping of a slice bound `i` against a length `n` (negative counts from the end). */
  function SliceBound(i: int, n: nat): (k: nat)
    ensures k <= n
    ensures 0 <= i <= n ==> k == i
  {
    if i < 0 then (if i + n < 0 then 0 else i + n)
    else if i > n then n
    else i
  }

  /** `s[i:j]` with Python's slice semantics. */
  function Slice(s: string, i: int, j: int): (r: string)
    ensures 0 <= i <= j <= |s| ==> r == s[i..j]
  {
    var a := SliceBound(i, |s|);
    var b := SliceBound(j, |s|);
    if a < b then s[a..b] else []
  }

  /**
   * The `(start, end)` windows the loop of `chunk_text` visits on a text of
   * length `n`, from the offset `start` on.
   */
  function Windows(n: nat, start: int, size: int, overlap: int): seq<(int, int)>
    requires overlap < size
    decreases n - start
  {
    if start >= n then []
    else
      var end := Text.Min(start + size, n);
      if end == n then [(start, end)]
      else [(start, end)] + Windows(n, end - overlap, size, overlap)
  }

  /** The slices of `t` the windows select, in order. */
  function SliceAll(t: string, ws: seq<(int, int)>): (r: seq<string>)
    ensures |r| == |ws|
    ensures forall i {:trigger r[i]} :: 0 <= i < |ws| ==> r[i] == Slice(t, ws[i].0, ws[i].1)
  {
    if ws == [] then [] else [Slice(t, ws[0].0, ws[0].1)] + SliceAll(t, ws[1..])
  }

  /** What `chunk_text(text, chunk_size=size, overlap=overlap)` returns or raises. */
  function ChunkSpec(text: string, size: int, overlap: int): ChunkResult {
    var t := Normalize(text);
    if t == [] then Chunks([])
    else if overlap >= size then InvalidConfiguration(OverlapMessage)
    else Chunks(SliceAll(t, Windows(|t|, 0, size, overlap)))
  }

  /** `chunk_text`: validate, then cut the normalised text with the loop of `SlideWindows`. */
  method ChunkText(text: string, size: int, overlap: int) returns (r: ChunkResult)
    ensures r == ChunkSpec(text, size, overlap)
    ensures r.InvalidConfiguration? ==> r.message == OverlapMessage
    ensures r.InvalidConfiguration? <==> Normalize(text) != [] && overlap >= size
    ensures Normalize(text) == [] ==> r == Chunks([])
    ensures r.Chunks? && Normalize(text) != [] ==>
      r.chunks == SliceAll(Normalize(text), Windows(|Normalize(text)|, 0, size, overlap))
  {
    var t := Normalize(text);
    if t == [] {
      return Chunks([]);
    }
    if overlap >= size {
      return InvalidConfiguration(OverlapMessage);
    }
    var chunks := SlideWindows(t, size, overlap);
    return Chunks(chunks);
  }

  /** The `while start < len(text)` loop of `chunk_text`: one slice per window. */
  method SlideWindows(t: string, size: int, overlap: int) returns (chunks: seq<string>)
    requires overlap < size
    ensures chunks == SliceAll(t, Windows(|t|, 0, size, overlap))
  {
    chunks := [];
    var start := 0;
    ghost var rest := SliceAll(t, Windows(|t|, 0, size, overlap));
    while start < |t|
      invariant rest == SliceAll(t, Windows(|t|, start, size, overlap))
      invariant chunks + rest == SliceAll(t, Windows(|t|, 0, size, overlap))
      decreases |t| - start
    {
      var end := Text.Min(start + size, |t|);
      SliceAllFrom(t, start, size, overlap);
      MoveFirst(chunks, rest);
      chunks := chunks + [Slice(t, start, end)];
      rest := rest[1..];
      if end == |t| {
        break;
      }
      start := end - overlap;
    }
  }

  /** The slices from a window on: the window's own slice, then those from the next window. */
  lemma SliceAllFrom(t: string, start: int, size: int, overlap: int)
    requires overlap < size && start < |t|
    ensures var end := Text.Min(start + size, |t|);
      var rest := SliceAll(t, Windows(|t|, start, size, overlap));
      && rest != [] && rest[0] == Slice(t, start, end)
      && rest[1..] == (if end == |t| then [] else SliceAll(t, Windows(|t|, end - overlap, size, overlap)))
  {
    var end := Text.Min(start + size, |t|);
    if end != |t| {
      assert Windows(|t|, start, size, overlap)[1..] == Windows(|t|, end - overlap, size, overlap);
    }
  }

  /** Moving the first element of `b` to the end of `a` keeps `a + b`. */
  lemma MoveFirst<T>(a: seq<T>, b: seq<T>)
    requires b != []
    ensures (a + [b[0]]) + b[1..] == a + b
  {
    assert b == [b[0]] + b[1..];
  }
}
