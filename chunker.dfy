/** `chunk_text`: fixed-size windows over the page text, each starting
    `chunkSize - overlap` characters after the previous one. */
module Chunker {

  const DefaultChunkSize: int := 1000
  const DefaultOverlap: int := 200

  function Min(a: int, b: int): int { if a <= b then a else b }

  /** Python's `s[lo:hi]` for non-negative bounds: both are clipped to `|s|`. */
  function PySlice(s: string, lo: nat, hi: nat): (r: string)
    ensures lo <= hi && lo <= |s| ==> r == s[lo..Min(hi, |s|)]
    ensures hi <= lo || |s| <= lo ==> r == ""
  {
    var l := Min(lo, |s|);
    var h := Min(hi, |s|);
    if h <= l then "" else s[l..h]
  }

  /** Where window `i` starts: `i` steps from the beginning of the text. */
  function Start(i: nat, step: nat): nat
  {
    if i == 0 then 0 else Start(i - 1, step) + step
  }

  /** Number of windows over `n` characters when windows start every `step`
      characters: one more window for as long as text remains. */
  function ChunkCount(n: nat, step: nat): nat
    requires step > 0
    decreases n
  {
    if n == 0 then 0 else if n <= step then 1 else 1 + ChunkCount(n - step, step)
  }

  /** Window `i`: the `chunkSize` characters from `Start(i, step)`, clipped to the text. */
  function Window(text: string, chunkSize: nat, step: nat, i: nat): string
  {
    PySlice(text, Start(i, step), Start(i, step) + chunkSize)
  }

  /** The closed form of what `chunk_text(text, chunkSize, overlap)` returns. */
  function Windows(text: string, chunkSize: int, overlap: int): seq<string>
    requires 0 <= chunkSize && overlap < chunkSize
  {
    var step := chunkSize - overlap;
    var count := ChunkCount(|text|, step);
    seq(count, i requires 0 <= i < count => Window(text, chunkSize, step, i))
  }

  /** Window `i` starts `i * step` characters into the text. */
  lemma {:induction false} StartIsProduct(i: nat, step: nat)
    ensures Start(i, step) == i * step
  {
    if i > 0 {
      StartIsProduct(i - 1, step);
      assert (i - 1) * step + step == i * step;
    }
  }

  /** Later windows start no earlier. */
  lemma {:induction false} StartMonotone(i: nat, k: nat, step: nat)
    requires i <= k
    ensures Start(i, step) <= Start(k, step)
    decreases k - i
  {
    if i < k { StartMonotone(i, k - 1, step); }
  }

  /** The next window starts one step later. */
  lemma {:induction false} StartShift(i: nat, step: nat)
    ensures Start(i + 1, step) == Start(i, step) + step
  {
  }

  /** The windows just cover the text: the last one starts inside it and the
      one after would start at or past its end. */
  lemma {:induction false} CountCovers(n: nat, step: nat)
    requires step > 0
    ensures Start(ChunkCount(n, step), step) >= n
    ensures ChunkCount(n, step) == 0 || Start(ChunkCount(n, step) - 1, step) < n
    ensures ChunkCount(n, step) == 0 <==> n == 0
    decreases n
  {
    if n > step {
      var c := ChunkCount(n - step, step);
      CountCovers(n - step, step);
      StartShift(c, step);
      StartShift(c - 1, step);
    }
  }

  /** The count is the ceiling of `n / step`: the least number of steps
      that reaches `n`. */
  lemma {:induction false} CountIsCeiling(n: nat, step: nat)
    requires step > 0
    ensures ChunkCount(n, step) * step >= n
    ensures ChunkCount(n, step) == 0 || (ChunkCount(n, step) - 1) * step < n
  {
    var c := ChunkCount(n, step);
    CountCovers(n, step);
    StartIsProduct(c, step);
    if c > 0 { StartIsProduct(c - 1, step); }
  }

  /** Window `i` of a text, for `i` below the count: it starts inside the text,
      is the contiguous text from `Start(i, step)`, and holds between 1 and
      `chunkSize` characters. */
  lemma WindowShape(text: string, chunkSize: int, overlap: int, i: nat)
    requires 0 < chunkSize && overlap < chunkSize
    requires i < ChunkCount(|text|, chunkSize - overlap)
    ensures Start(i, chunkSize - overlap) < |text|
    ensures Windows(text, chunkSize, overlap)[i]
         == text[Start(i, chunkSize - overlap)..Min(Start(i, chunkSize - overlap) + chunkSize, |text|)]
    ensures 0 < |Windows(text, chunkSize, overlap)[i]| <= chunkSize
  {
    var step := chunkSize - overlap;
    var c := ChunkCount(|text|, step);
    CountCovers(|text|, step);
    StartMonotone(i, c - 1, step);
  }

  /** The loop of `chunk_text`: the cursor `start` moves forward by
      `chunkSize - overlap` and each turn appends `text[start:start + chunkSize]`.
      What it returns is `Windows`, whose elements `WindowShape` describes. */
  method ChunkText(text: string, chunkSize: int, overlap: int) returns (chunks: seq<string>)
    requires |text| == 0 || (0 <= chunkSize && overlap < chunkSize)
    // an empty text gives no chunks, whatever the sizes
    ensures |text| == 0 ==> chunks == []
    ensures 0 <= chunkSize && overlap < chunkSize ==>
              |chunks| == ChunkCount(|text|, chunkSize - overlap) && chunks == Windows(text, chunkSize, overlap)
  {
    var step := chunkSize - overlap;
    ghost var count := if |text| == 0 then 0 else ChunkCount(|text|, step);
    if |text| > 0 { CountCovers(|text|, step); }
    chunks := [];
    var start := 0;
    while start < |text|
      invariant |text| == 0 ==> chunks == [] && start == 0
      invariant |text| > 0 ==> start == Start(|chunks|, step)
      invariant |chunks| <= count
      invariant |text| > 0 ==> forall i :: 0 <= i < |chunks| ==> chunks[i] == Window(text, chunkSize, step, i)
      decreases |text| - start
    {
      var end := start + chunkSize;
      StartShift(|chunks|, step);
      chunks := chunks + [PySlice(text, start, end)];
      start := start + step;
    }
    if |chunks| < count {
      StartMonotone(|chunks|, count - 1, step);
    }
  }


  /** Empty text has no chunks, and a text no longer than one step is a single
      chunk equal to the whole text. */
  lemma ShortText(text: string, chunkSize: int, overlap: int)
    requires 0 <= overlap < chunkSize
    requires |text| <= chunkSize - overlap
    ensures Windows(text, chunkSize, overlap) == if |text| == 0 then [] else [text]
  {
    if |text| > 0 {
      assert Windows(text, chunkSize, overlap)[0] == text;
    }
  }

  /** A text longer than one step is split into at least two chunks even when
      it fits in one window: the first chunk is then the whole text and the
      second repeats its tail. */
  lemma OverlapTailRepeats(text: string, chunkSize: int, overlap: int)
    requires 0 <= overlap < chunkSize
    requires chunkSize - overlap < |text| <= chunkSize
    ensures |Windows(text, chunkSize, overlap)| >= 2
    ensures Windows(text, chunkSize, overlap)[0] == text
    ensures Windows(text, chunkSize, overlap)[1] == text[chunkSize - overlap..]
  {
    var step := chunkSize - overlap;
    CountCovers(|text| - step, step);
    StartShift(0, step);
    WindowShape(text, chunkSize, overlap, 1);
  }

  /** With the defaults, a 900-character page gives two chunks, the second
      being its last 100 characters. */
  lemma NineHundredCharacters(text: string)
    requires |text| == 900
    ensures Windows(text, DefaultChunkSize, DefaultOverlap) == [text, text[800..]]
  {
    OverlapTailRepeats(text, DefaultChunkSize, DefaultOverlap);
    var ws := Windows(text, DefaultChunkSize, DefaultOverlap);
    assert |ws| == 2 by {
      assert ChunkCount(100, 800) == 1;
    }
  }

  /** Neighbouring chunks overlap: what chunk `i` holds past its first
      `chunkSize - overlap` characters is where chunk `i + 1` begins. */
  lemma NeighboursOverlap(text: string, chunkSize: int, overlap: int, i: nat)
    requires 0 <= overlap < chunkSize
    requires i + 1 < |Windows(text, chunkSize, overlap)|
    ensures |Windows(text, chunkSize, overlap)[i]| >= chunkSize - overlap
    ensures Windows(text, chunkSize, overlap)[i][chunkSize - overlap..]
         <= Windows(text, chunkSize, overlap)[i + 1]
  {
    var step := chunkSize - overlap;
    WindowShape(text, chunkSize, overlap, i);
    WindowShape(text, chunkSize, overlap, i + 1);
    var a := Start(i, step);
    StartShift(i, step);
    var w := Windows(text, chunkSize, overlap)[i];
    var nxt := Windows(text, chunkSize, overlap)[i + 1];
    assert w == text[a..Min(a + chunkSize, |text|)];
    assert nxt == text[a + step..Min(a + step + chunkSize, |text|)];
    assert a + step < |text|;
    assert |w| == Min(a + chunkSize, |text|) - a;
    assert |w| >= step;
    assert w[step..] == text[a + step..Min(a + chunkSize, |text|)];
  }

  /** The first `step` characters of every chunk but the last, followed by the
      whole last chunk. */
  function Reassemble(chunks: seq<string>, step: nat): string
  {
    if |chunks| == 0 then ""
    else if |chunks| == 1 then chunks[0]
    else chunks[0][..Min(step, |chunks[0]|)] + Reassemble(chunks[1..], step)
  }

  /** One unfolding of `Reassemble` on the suffix from `k`. */
  lemma ReassembleSuffix(chunks: seq<string>, step: nat, k: nat)
    requires k < |chunks|
    ensures Reassemble(chunks[k..], step)
         == if k == |chunks| - 1 then chunks[k]
            else chunks[k][..Min(step, |chunks[k]|)] + Reassemble(chunks[k + 1..], step)
  {
    assert chunks[k..][1..] == chunks[k + 1..];
  }

  /** `w` is the window of `text` that starts at `a`. */
  predicate IsWindowAt(text: string, chunkSize: nat, a: nat, w: string)
  {
    a < |text| && w == text[a..Min(a + chunkSize, |text|)]
  }

  /** Every element of `ws` from position `k` on is the window that starts at
      `Start` of its position. */
  predicate WindowsFrom(text: string, chunkSize: nat, step: nat, ws: seq<string>, k: nat)
    decreases |ws| - k
  {
    k >= |ws| || (IsWindowAt(text, chunkSize, Start(k, step), ws[k]) && WindowsFrom(text, chunkSize, step, ws, k + 1))
  }

  /** `Windows` has the window shape at every position from `k` on. */
  lemma {:induction false} WindowsHaveShape(text: string, chunkSize: int, overlap: int, k: nat)
    requires 0 <= overlap < chunkSize
    ensures WindowsFrom(text, chunkSize, chunkSize - overlap, Windows(text, chunkSize, overlap), k)
    decreases |Windows(text, chunkSize, overlap)| - k
  {
    if k < |Windows(text, chunkSize, overlap)| {
      WindowShape(text, chunkSize, overlap, k);
      WindowsHaveShape(text, chunkSize, overlap, k + 1);
    }
  }

  /** Reassembling windows from window `k` on gives the text from `Start(k, step)` on,
      for any list of windows that starts one every `step` characters and just covers the text. */
  lemma {:induction false} ReassembleFrom(text: string, chunkSize: nat, step: nat, ws: seq<string>, k: nat)
    requires 0 < step <= chunkSize
    requires k < |ws|
    requires |text| <= Start(|ws|, step)
    requires WindowsFrom(text, chunkSize, step, ws, k)
    ensures Start(k, step) < |text|
    ensures Reassemble(ws[k..], step) == text[Start(k, step)..]
    decreases |ws| - k
  {
    var a := Start(k, step);
    var w := ws[k];
    var b := Min(a + chunkSize, |text|);
    assert w == text[a..b];
    ReassembleSuffix(ws, step, k);
    StartShift(k, step);
    if k < |ws| - 1 {
      var rest := Reassemble(ws[k + 1..], step);
      ReassembleFrom(text, chunkSize, step, ws, k + 1);
      assert IsWindowAt(text, chunkSize, a + step, ws[k + 1]);
      SliceOfSlice(text, a, b, step);
      SplitSuffix(text, a, a + step);
    } else {
      assert b == |text|;
      SplitSuffix(text, a, |text|);
    }
  }

  /** A prefix of a slice is a slice. */
  lemma SliceOfSlice(s: string, a: nat, b: nat, c: nat)
    requires a + c <= b <= |s|
    ensures s[a..b][..c] == s[a..a + c]
  {
  }

  /** A suffix of a string is a slice followed by the suffix where the slice ends. */
  lemma SplitSuffix(s: string, a: nat, b: nat)
    requires a <= b <= |s|
    ensures s[a..] == s[a..b] + s[b..]
  {
  }

  /** The chunks reconstruct the text exactly once their overlaps are dropped. */
  lemma ReassembleChunks(text: string, chunkSize: int, overlap: int)
    requires 0 <= overlap < chunkSize
    ensures Reassemble(Windows(text, chunkSize, overlap), chunkSize - overlap) == text
  {
    var step := chunkSize - overlap;
    var ws := Windows(text, chunkSize, overlap);
    CountCovers(|text|, step);
    if |ws| > 0 {
      WindowsHaveShape(text, chunkSize, overlap, 0);
      ReassembleFrom(text, chunkSize, step, ws, 0);
      assert ws[0..] == ws;
    }
  }

  /** The last chunk always runs to the end of the text. */
  lemma LastChunkEndsText(text: string, chunkSize: int, overlap: int)
    requires 0 <= overlap < chunkSize
    requires |text| > 0
    ensures |Windows(text, chunkSize, overlap)| > 0
    ensures Start(|Windows(text, chunkSize, overlap)| - 1, chunkSize - overlap) < |text|
    ensures var ws := Windows(text, chunkSize, overlap);
            ws[|ws| - 1] == text[Start(|ws| - 1, chunkSize - overlap)..]
  {
    var step := chunkSize - overlap;
    CountCovers(|text|, step);
    var ws := Windows(text, chunkSize, overlap);
    WindowShape(text, chunkSize, overlap, |ws| - 1);
    StartShift(|ws| - 1, step);
  }
}
