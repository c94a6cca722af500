/** The per-pixel and per-cell features of procesamiento_imagen.cpp: the café colour test,
    the coarse 4-bucket histogram, the "all café" test, the 3x3 key points, the copy of
    one grid cell out of the screenshot, and the integer parts of the cell-vs-template
    comparison (histogram L1 distance and the central window). */
module ImageFeatures {
  import opened Pixels

  // ---------------------------------------------------------------- colours

  /** es_color_cafe: the café background brown; every bound is inclusive. */
  predicate IsBrown(r: byte, g: byte, b: byte)
  {
    40 <= r <= 90 && 25 <= g <= 65 && 20 <= b <= 50
  }

  /** Near black: every channel below 40. */
  predicate IsBlack(r: byte, g: byte, b: byte)
  {
    r < 40 && g < 40 && b < 40
  }

  /** Near white: every channel above 220. */
  predicate IsNearWhite(r: byte, g: byte, b: byte)
  {
    r > 220 && g > 220 && b > 220
  }

  datatype Bucket = Black | Brown | White | Other

  /** The bucket `histograma` counts a pixel in.  The tests run black, café, white,
      other; the ensures show that the three colour classes are pairwise disjoint, so a
      pixel's bucket does not depend on that order. */
  function BucketOf(r: byte, g: byte, b: byte): (k: Bucket)
    ensures k == Black <==> IsBlack(r, g, b)
    ensures k == Brown <==> IsBrown(r, g, b)
    ensures k == White <==> IsNearWhite(r, g, b)
    ensures k == Other <==> !IsBlack(r, g, b) && !IsBrown(r, g, b) && !IsNearWhite(r, g, b)
  {
    if IsBlack(r, g, b) then Black
    else if IsBrown(r, g, b) then Brown
    else if IsNearWhite(r, g, b) then White
    else Other
  }

  // ---------------------------------------------------------------- coarse histogram

  /** The four counters `negros, cafes, blancos, otros`. */
  datatype Hist = Hist(black: nat, brown: nat, white: nat, other: nat)

  function Total(h: Hist): nat
  {
    h.black + h.brown + h.white + h.other
  }

  function Tally(h: Hist, k: Bucket): Hist
  {
    match k
    case Black => h.(black := h.black + 1)
    case Brown => h.(brown := h.brown + 1)
    case White => h.(white := h.white + 1)
    case Other => h.(other := h.other + 1)
  }

  /** Bucket of pixel `p`, whose channels are bytes 3p, 3p+1, 3p+2. */
  function PixelBucket(img: seq<byte>, p: nat): Bucket
    requires 3 * p + 3 <= |img|
  {
    BucketOf(img[3 * p], img[3 * p + 1], img[3 * p + 2])
  }

  /** The histogram of the first `n` pixels of `img`. */
  function HistUpTo(img: seq<byte>, n: nat): Hist
    requires 3 * n <= |img|
  {
    if n == 0 then Hist(0, 0, 0, 0) else Tally(HistUpTo(img, n - 1), PixelBucket(img, n - 1))
  }

  /** The coarse histogram of a whole RGB buffer. */
  function CoarseHist(img: seq<byte>): Hist
    requires |img| % 3 == 0
  {
    HistUpTo(img, |img| / 3)
  }

  /** Every pixel lands in exactly one bucket, so the counters add up to the pixel count. */
  lemma {:induction false} HistUpToTotal(img: seq<byte>, n: nat)
    requires 3 * n <= |img|
    ensures Total(HistUpTo(img, n)) == n
  {
    if n > 0 {
      HistUpToTotal(img, n - 1);
    }
  }

  /** histograma: one pass over the pixels, bumping one counter per pixel.  The C++ loop
      steps by 3 while `i < size`, so a buffer whose length is not a multiple of 3 would
      read past its end; such buffers are excluded. */
  method Histogram(img: seq<byte>) returns (negros: nat, cafes: nat, blancos: nat, otros: nat)
    requires |img| % 3 == 0
    ensures Hist(negros, cafes, blancos, otros) == CoarseHist(img)
    ensures negros + cafes + blancos + otros == |img| / 3
  {
    negros, cafes, blancos, otros := 0, 0, 0, 0;
    var i := 0;
    while i < |img|
      invariant 0 <= i <= |img| && i % 3 == 0
      invariant Hist(negros, cafes, blancos, otros) == HistUpTo(img, i / 3)
    {
      var r, g, b := img[i], img[i + 1], img[i + 2];
      if IsBlack(r, g, b) {
        negros := negros + 1;
      } else if IsBrown(r, g, b) {
        cafes := cafes + 1;
      } else if IsNearWhite(r, g, b) {
        blancos := blancos + 1;
      } else {
        otros := otros + 1;
      }
      i := i + 3;
    }
    HistUpToTotal(img, |img| / 3);
  }

  /** The `diff_hist` term: L1 distance between two coarse histograms. */
  function HistDistance(a: Hist, b: Hist): nat
  {
    Abs(a.black as int - b.black as int) + Abs(a.brown as int - b.brown as int) + Abs(a.white as int - b.white as int) + Abs(a.other as int - b.other as int)
  }

  /** `diff_hist` does not depend on which histogram is the cell's... */
  lemma HistDistanceSymmetric(a: Hist, b: Hist)
    ensures HistDistance(a, b) == HistDistance(b, a)
  {
    AbsSymmetric(a.black, b.black);
    AbsSymmetric(a.brown, b.brown);
    AbsSymmetric(a.white, b.white);
    AbsSymmetric(a.other, b.other);
  }

  /** ...and it vanishes exactly when the two histograms agree in every bucket. */
  lemma HistDistanceZero(a: Hist, b: Hist)
    ensures HistDistance(a, b) == 0 <==> a == b
  {
  }

  lemma AbsSymmetric(x: int, y: int)
    ensures Abs(x - y) == Abs(y - x)
    ensures Abs(x - y) == 0 <==> x == y
  {
  }

  // ---------------------------------------------------------------- "all café"

  /** Number of café pixels among the first `n` pixels. */
  function BrownCount(cell: seq<byte>, n: nat): nat
    requires 3 * n <= |cell|
  {
    if n == 0 then 0
    else BrownCount(cell, n - 1) + (if IsBrown(cell[3 * (n - 1)], cell[3 * (n - 1) + 1], cell[3 * (n - 1) + 2]) then 1 else 0)
  }

  /** Black needs r < 40 and café needs r >= 40, so the café count of a buffer is exactly
      its histogram's café bucket. */
  lemma {:induction false} BrownCountIsBrownBucket(cell: seq<byte>, n: nat)
    requires 3 * n <= |cell|
    ensures BrownCount(cell, n) == HistUpTo(cell, n).brown
  {
    if n > 0 {
      BrownCountIsBrownBucket(cell, n - 1);
    }
  }

  /** es_tile_todo_cafe: more than 85% of the pixels are café.  (The comment in the
      source says 95%; the code compares with `total * 0.85`.)  `cafe > total * 0.85`
      is restated over the integers as `20 * cafe > 17 * total`. */
  method IsAllBrown(cell: seq<byte>) returns (allBrown: bool)
    ensures allBrown <==> 20 * BrownCount(cell, |cell| / 3) > 17 * (|cell| / 3)
  {
    var total := |cell| / 3;
    var cafe := 0;
    var i := 0;
    while i < total
      invariant 0 <= i <= total
      invariant cafe == BrownCount(cell, i)
    {
      if IsBrown(cell[i * 3], cell[i * 3 + 1], cell[i * 3 + 2]) {
        cafe := cafe + 1;
      }
      i := i + 1;
    }
    allBrown := 20 * cafe > 17 * total;
  }

  /** A cell made only of café pixels is "all café" as soon as it has one pixel, and a
      cell whose histogram has no café bucket never is. */
  lemma AllBrownExtremes(cell: seq<byte>)
    requires |cell| % 3 == 0
    ensures BrownCount(cell, |cell| / 3) == |cell| / 3 && |cell| > 0 ==> 20 * BrownCount(cell, |cell| / 3) > 17 * (|cell| / 3)
    ensures CoarseHist(cell).brown == 0 && |cell| > 0 ==> !(20 * BrownCount(cell, |cell| / 3) > 17 * (|cell| / 3))
  {
    BrownCountIsBrownBucket(cell, |cell| / 3);
  }

  // ---------------------------------------------------------------- key points

  /** The quarter, half and three-quarter points of a side of length w: ordered, and
      inside the side when it is not empty. */
  function Quarters(w: nat): (q: seq<nat>)
    ensures |q| == 3 && q[1] == w / 2
    ensures q[0] <= q[1] <= q[2]
    ensures w > 0 ==> q[2] < w
  {
    [w / 4, w / 2, 3 * w / 4]
  }

  /** puntos_clave: the 3x3 lattice of the quarter points of a w x h tile, row by row.
      Widths are non-negative here, where C's truncating division equals Dafny's. */
  function KeyPoints(w: nat, h: nat): (pts: seq<(nat, nat)>)
    ensures |pts| == 9
    ensures pts[4] == (w / 2, h / 2)
    ensures forall r, c | 0 <= r < 3 && 0 <= c < 3 :: pts[3 * r + c] == (Quarters(w)[c], Quarters(h)[r])
  {
    var xs, ys := Quarters(w), Quarters(h);
    [(xs[0], ys[0]), (xs[1], ys[0]), (xs[2], ys[0]),
     (xs[0], ys[1]), (xs[1], ys[1]), (xs[2], ys[1]),
     (xs[0], ys[2]), (xs[1], ys[2]), (xs[2], ys[2])]
  }

  // ---------------------------------------------------------------- index arithmetic

  lemma MulMono(a: nat, b: nat, c: nat)
    requires a <= b
    ensures a * c <= b * c
  {
  }

  lemma MulSucc(a: nat, c: nat)
    ensures (a + 1) * c == a * c + c
  {
  }

  lemma MulZeroIff(a: nat, b: nat)
    ensures a * b == 0 <==> a == 0 || b == 0
  {
  }

  /** Byte `(y * w + x) * 3 + k` of a w x h RGB buffer is inside it. */
  lemma PixelInBuffer(w: nat, h: nat, y: nat, x: nat)
    requires y < h && x < w
    ensures (y * w + x) * 3 + 3 <= w * h * 3
  {
    MulMono(y + 1, h, w);
    assert (y * w + x) * 3 + 3 <= (y + 1) * w * 3;
  }

  // ---------------------------------------------------------------- cell extraction

  /** Where row `y` of grid cell (i, j) starts in the screenshot buffer. */
  function RowStart(imgW: nat, bw: nat, bh: nat, i: nat, j: nat, y: nat): nat
  {
    ((i * bh + y) * imgW + j * bw) * 3
  }

  /** The cell rectangle lies inside the image. */
  predicate CellInImage(imgW: nat, imgH: nat, bw: nat, bh: nat, i: nat, j: nat)
  {
    (i + 1) * bh <= imgH && (j + 1) * bw <= imgW
  }

  lemma RowInImage(imgW: nat, imgH: nat, bw: nat, bh: nat, i: nat, j: nat, y: nat)
    requires CellInImage(imgW, imgH, bw, bh, i, j) && y < bh
    ensures RowStart(imgW, bw, bh, i, j, y) + bw * 3 <= imgW * imgH * 3
  {
    var row := i * bh + y;
    assert row + 1 <= (i + 1) * bh;
    assert j * bw + bw <= imgW;
    MulMono(row + 1, imgH, imgW);
    assert (row * imgW + j * bw + bw) * 3 <= (row * imgW + imgW) * 3;
    assert (row + 1) * imgW == row * imgW + imgW;
  }

  /** The first `n` rows of cell (i, j), each `bw` pixels copied from the screenshot. */
  function CellRows(img: seq<byte>, imgW: nat, imgH: nat, bw: nat, bh: nat, i: nat, j: nat, n: nat): seq<byte>
    requires |img| == imgW * imgH * 3 && CellInImage(imgW, imgH, bw, bh, i, j) && n <= bh
  {
    if n == 0 then []
    else
      RowInImage(imgW, imgH, bw, bh, i, j, n - 1);
      var s := RowStart(imgW, bw, bh, i, j, n - 1);
      CellRows(img, imgW, imgH, bw, bh, i, j, n - 1) + img[s .. s + bw * 3]
  }

  /** The pixels of grid cell (i, j) as `extraer_celda` copies them. */
  function CellOf(img: seq<byte>, imgW: nat, imgH: nat, bw: nat, bh: nat, i: nat, j: nat): seq<byte>
    requires |img| == imgW * imgH * 3 && CellInImage(imgW, imgH, bw, bh, i, j)
  {
    CellRows(img, imgW, imgH, bw, bh, i, j, bh)
  }

  /** Index of channel k of pixel (x, y) inside a bw-wide cell buffer. */
  function CellIndex(bw: nat, bh: nat, y: nat, x: nat, k: nat): (n: nat)
    requires y < bh && x < bw && k < 3
    ensures n < bw * bh * 3
  {
    PixelInBuffer(bw, bh, y, x);
    (y * bw + x) * 3 + k
  }

  /** Index of the same channel in the screenshot buffer. */
  function ImageIndex(imgW: nat, imgH: nat, bw: nat, bh: nat, i: nat, j: nat, y: nat, x: nat, k: nat): (n: nat)
    requires CellInImage(imgW, imgH, bw, bh, i, j) && y < bh && x < bw && k < 3
    ensures n < imgW * imgH * 3
    ensures n == RowStart(imgW, bw, bh, i, j, y) + x * 3 + k
  {
    RowInImage(imgW, imgH, bw, bh, i, j, y);
    ((i * bh + y) * imgW + (j * bw + x)) * 3 + k
  }

  lemma Assoc3(n: nat, bw: nat)
    ensures n * bw * 3 == n * (bw * 3)
  {
  }

  lemma {:induction false} CellRowsLen(img: seq<byte>, imgW: nat, imgH: nat, bw: nat, bh: nat, i: nat, j: nat, n: nat)
    requires |img| == imgW * imgH * 3 && CellInImage(imgW, imgH, bw, bh, i, j) && n <= bh
    ensures |CellRows(img, imgW, imgH, bw, bh, i, j, n)| == n * (bw * 3)
  {
    if n > 0 {
      CellRowsLen(img, imgW, imgH, bw, bh, i, j, n - 1);
      RowInImage(imgW, imgH, bw, bh, i, j, n - 1);
      MulSucc(n - 1, bw * 3);
    }
  }

  lemma CellRowsLength(img: seq<byte>, imgW: nat, imgH: nat, bw: nat, bh: nat, i: nat, j: nat, n: nat)
    requires |img| == imgW * imgH * 3 && CellInImage(imgW, imgH, bw, bh, i, j) && n <= bh
    ensures |CellRows(img, imgW, imgH, bw, bh, i, j, n)| == n * bw * 3
  {
    CellRowsLen(img, imgW, imgH, bw, bh, i, j, n);
    Assoc3(n, bw);
  }

  /** Where byte `(y * bw + x) * 3 + k` falls among the first `n` rows of `bw * 3` bytes. */
  lemma CellIndexSplit(bw: nat, n: nat, y: nat, x: nat, k: nat)
    requires y < n && x < bw && k < 3
    ensures (y * bw + x) * 3 + k < n * (bw * 3)
    ensures y < n - 1 ==> (y * bw + x) * 3 + k < (n - 1) * (bw * 3)
    ensures y == n - 1 ==> (y * bw + x) * 3 + k == (n - 1) * (bw * 3) + x * 3 + k
  {
    var w := bw * 3;
    assert (y * bw + x) * 3 + k == y * w + (x * 3 + k);
    assert x * 3 + k < w;
    MulSucc(y, w);
    MulMono(y + 1, n, w);
    if y < n - 1 {
      MulMono(y + 1, n - 1, w);
    }
  }

  /** Channel k of pixel (x, y) of the rows built so far is the screenshot's channel k
      of pixel (j * bw + x, i * bh + y). */
  lemma {:induction false} CellRowsAt(img: seq<byte>, imgW: nat, imgH: nat, bw: nat, bh: nat, i: nat, j: nat, n: nat, y: nat, x: nat, k: nat)
    requires |img| == imgW * imgH * 3 && CellInImage(imgW, imgH, bw, bh, i, j) && n <= bh
    requires y < n && x < bw && k < 3
    ensures |CellRows(img, imgW, imgH, bw, bh, i, j, n)| == n * bw * 3
    ensures CellIndex(bw, bh, y, x, k) < n * bw * 3
    ensures CellRows(img, imgW, imgH, bw, bh, i, j, n)[CellIndex(bw, bh, y, x, k)] == img[ImageIndex(imgW, imgH, bw, bh, i, j, y, x, k)]
  {
    CellRowsLength(img, imgW, imgH, bw, bh, i, j, n);
    CellRowsLen(img, imgW, imgH, bw, bh, i, j, n);
    CellRowsLen(img, imgW, imgH, bw, bh, i, j, n - 1);
    Assoc3(n, bw);
    RowInImage(imgW, imgH, bw, bh, i, j, n - 1);
    var idx := CellIndex(bw, bh, y, x, k);
    CellIndexSplit(bw, n, y, x, k);
    var prev := CellRows(img, imgW, imgH, bw, bh, i, j, n - 1);
    var st := RowStart(imgW, bw, bh, i, j, n - 1);
    assert CellRows(img, imgW, imgH, bw, bh, i, j, n) == prev + img[st .. st + bw * 3];
    if y < n - 1 {
      CellRowsAt(img, imgW, imgH, bw, bh, i, j, n - 1, y, x, k);
    } else {
      assert idx - |prev| == x * 3 + k;
    }
  }

  /** The cell read out at pixel level: what `extraer_celda` promises. */
  lemma CellOfAt(img: seq<byte>, imgW: nat, imgH: nat, bw: nat, bh: nat, i: nat, j: nat)
    requires |img| == imgW * imgH * 3 && CellInImage(imgW, imgH, bw, bh, i, j)
    ensures |CellOf(img, imgW, imgH, bw, bh, i, j)| == bw * bh * 3
    ensures forall y, x, k | 0 <= y < bh && 0 <= x < bw && 0 <= k < 3 ::
      CellOf(img, imgW, imgH, bw, bh, i, j)[CellIndex(bw, bh, y, x, k)] == img[ImageIndex(imgW, imgH, bw, bh, i, j, y, x, k)]
  {
    CellRowsLength(img, imgW, imgH, bw, bh, i, j, bh);
    forall y, x, k | 0 <= y < bh && 0 <= x < bw && 0 <= k < 3
      ensures CellOf(img, imgW, imgH, bw, bh, i, j)[CellIndex(bw, bh, y, x, k)] == img[ImageIndex(imgW, imgH, bw, bh, i, j, y, x, k)]
    {
      CellRowsAt(img, imgW, imgH, bw, bh, i, j, bh, y, x, k);
    }
  }

  /** Row y of cell (i, j) fits both in the cell buffer and in the screenshot. */
  lemma RowFits(imgW: nat, imgH: nat, bw: nat, bh: nat, i: nat, j: nat, y: nat)
    requires CellInImage(imgW, imgH, bw, bh, i, j) && y < bh
    ensures (y + 1) * bw * 3 == y * bw * 3 + bw * 3 <= bw * bh * 3
    ensures RowStart(imgW, bw, bh, i, j, y) + bw * 3 <= imgW * imgH * 3
  {
    MulMono(y + 1, bh, bw);
    MulSucc(y, bw);
    RowInImage(imgW, imgH, bw, bh, i, j, y);
  }

  /** Row y of cell (i, j): the inner two loops of `extraer_celda`, with its index
      arithmetic, copying `bw` pixels into row y of the cell buffer. */
  method CopyCellRow(buf: array<byte>, img: seq<byte>, imgW: nat, imgH: nat, bw: nat, bh: nat, i: nat, j: nat, y: nat)
    requires |img| == imgW * imgH * 3 && CellInImage(imgW, imgH, bw, bh, i, j) && y < bh
    requires buf.Length == bw * bh * 3
    requires (y + 1) * bw * 3 == y * bw * 3 + bw * 3 <= buf.Length
    requires RowStart(imgW, bw, bh, i, j, y) + bw * 3 <= |img|
    modifies buf
    ensures buf[..y * bw * 3] == old(buf[..y * bw * 3])
    ensures buf[..(y + 1) * bw * 3]
      == old(buf[..y * bw * 3]) + img[RowStart(imgW, bw, bh, i, j, y) .. RowStart(imgW, bw, bh, i, j, y) + bw * 3]
  {
    ghost var base := y * bw * 3;
    ghost var srcRow := RowStart(imgW, bw, bh, i, j, y);
    ghost var done := buf[..base];
    for x := 0 to bw
      invariant buf[..base] == done
      invariant forall m :: base <= m < base + x * 3 ==> buf[m] == img[srcRow + (m - base)]
    {
      var srcIdx := ((i * bh + y) * imgW + (j * bw + x)) * 3;
      var dstIdx := (y * bw + x) * 3;
      assert srcIdx == srcRow + x * 3;
      assert dstIdx == base + x * 3;
      for k := 0 to 3
        invariant buf[..base] == done
        invariant forall m :: base <= m < base + x * 3 + k ==> buf[m] == img[srcRow + (m - base)]
      {
        buf[dstIdx + k] := img[srcIdx + k];
      }
    }
    assert buf[..base + bw * 3] == done + img[srcRow .. srcRow + bw * 3];
  }

  /** extraer_celda: copy grid cell (i, j) of a row-major RGB screenshot into its own
      `bw * bh * 3` buffer.  Nothing is clamped and `imgH` is never read, so the cell
      rectangle must lie inside the image. */
  method ExtractCell(img: seq<byte>, imgW: nat, imgH: nat, bw: nat, bh: nat, i: nat, j: nat) returns (cell: seq<byte>)
    requires |img| == imgW * imgH * 3
    requires CellInImage(imgW, imgH, bw, bh, i, j)
    ensures cell == CellOf(img, imgW, imgH, bw, bh, i, j)
  {
    var buf := new byte[bw * bh * 3];
    for y := 0 to bh
      invariant y * bw * 3 <= buf.Length
      invariant buf[..y * bw * 3] == CellRows(img, imgW, imgH, bw, bh, i, j, y)
    {
      RowFits(imgW, imgH, bw, bh, i, j, y);
      CopyCellRow(buf, img, imgW, imgH, bw, bh, i, j, y);
    }
    MulCommTriple(bh, bw);
    assert buf[..] == buf[..bh * bw * 3];
    cell := buf[..];
  }

  // ---------------------------------------------------------------- central window

  /** The rectangle [x0, x1) x [y0, y1) of the central comparison. */
  datatype Window = Window(x0: nat, x1: nat, y0: nat, y1: nat)

  function Area(win: Window): nat
    requires win.x0 <= win.x1 && win.y0 <= win.y1
  {
    (win.x1 - win.x0) * (win.y1 - win.y0)
  }

  /** The central window of a w x h tile: the middle half in both directions, or, when
      `lowerQuarter` is set, only the band between one half and three quarters of the
      height.  It always lies inside the tile, and it is empty exactly for tiles at most
      one pixel wide or high, or two high when the band is requested. */
  function CentralWindow(w: nat, h: nat, lowerQuarter: bool): (win: Window)
    ensures win.x0 <= win.x1 <= w && win.y0 <= win.y1 <= h
    ensures Area(win) == 0 <==> w <= 1 || h <= 1 || (lowerQuarter && h <= 2)
  {
    var x0, x1 := w / 4, 3 * w / 4;
    var y0, y1 := if lowerQuarter then h / 2 else h / 4, h * 3 / 4;
    assert x1 - x0 == 0 <==> w <= 1;
    assert y1 - y0 == 0 <==> h <= 1 || (lowerQuarter && h <= 2);
    MulZeroIff(x1 - x0, y1 - y0);
    Window(x0, x1, y0, y1)
  }

  /** Channels 0..k-1 of the pixel whose channels start at `idx`, summed |a - b|. */
  function ChannelDiff(a: seq<byte>, b: seq<byte>, idx: nat, k: nat): nat
    requires k <= 3 && idx + 3 <= |a| && idx + 3 <= |b|
  {
    if k == 0 then 0 else ChannelDiff(a, b, idx, k - 1) + Abs(a[idx + k - 1] as int - b[idx + k - 1] as int)
  }

  lemma {:induction false} ChannelDiffFacts(a: seq<byte>, b: seq<byte>, idx: nat, k: nat)
    requires k <= 3 && idx + 3 <= |a| && idx + 3 <= |b|
    ensures ChannelDiff(a, b, idx, k) == ChannelDiff(b, a, idx, k)
    ensures ChannelDiff(a, a, idx, k) == 0
    ensures ChannelDiff(a, b, idx, k) <= 255 * k
  {
    if k > 0 {
      ChannelDiffFacts(a, b, idx, k - 1);
    }
  }

  /** Summed channel differences of `n` consecutive pixels starting at byte `start`. */
  function RunDiff(a: seq<byte>, b: seq<byte>, start: nat, n: nat): nat
    requires start + 3 * n <= |a| && start + 3 * n <= |b|
  {
    if n == 0 then 0 else RunDiff(a, b, start, n - 1) + ChannelDiff(a, b, start + 3 * (n - 1), 3)
  }

  lemma MulCommTriple(a: int, b: int)
    ensures a * b * 3 == b * a * 3
  {
  }

  lemma MulSuccRight(a: int, c: int)
    ensures a * (c + 1) == a * c + a
  {
  }

  /** Pixels x0..x1-1 of row y of a w x h buffer lie inside it. */
  lemma RowRunInBuffer(w: nat, h: nat, y: nat, x0: nat, x1: nat)
    requires y < h && x0 <= x1 <= w
    ensures (y * w + x0) * 3 + 3 * (x1 - x0) <= w * h * 3
  {
    MulMono(y + 1, h, w);
    MulSucc(y, w);
  }

  /** Summed channel differences over rows win.y0..y-1 of the window. */
  function WindowDiffUpTo(a: seq<byte>, b: seq<byte>, w: nat, h: nat, win: Window, y: nat): nat
    requires |a| == w * h * 3 && |b| == w * h * 3
    requires win.x0 <= win.x1 <= w && win.y0 <= y <= win.y1 <= h
    decreases y - win.y0
  {
    if y == win.y0 then 0
    else
      RowRunInBuffer(w, h, y - 1, win.x0, win.x1);
      WindowDiffUpTo(a, b, w, h, win, y - 1) + RunDiff(a, b, ((y - 1) * w + win.x0) * 3, win.x1 - win.x0)
  }

  /** The `diff_central` sum: |cell - template| over every channel of the window. */
  function WindowDiff(a: seq<byte>, b: seq<byte>, w: nat, h: nat, win: Window): nat
    requires |a| == w * h * 3 && |b| == w * h * 3 && win.x0 <= win.x1 <= w && win.y0 <= win.y1 <= h
  {
    WindowDiffUpTo(a, b, w, h, win, win.y1)
  }

  lemma {:induction false} RunDiffSymmetricZero(a: seq<byte>, b: seq<byte>, start: nat, n: nat)
    requires start + 3 * n <= |a| && start + 3 * n <= |b|
    ensures RunDiff(a, b, start, n) == RunDiff(b, a, start, n)
    ensures RunDiff(a, a, start, n) == 0
  {
    if n > 0 {
      RunDiffSymmetricZero(a, b, start, n - 1);
      ChannelDiffFacts(a, b, start + 3 * (n - 1), 3);
    }
  }

  lemma {:induction false} WindowDiffUpToSymmetricZero(a: seq<byte>, b: seq<byte>, w: nat, h: nat, win: Window, y: nat)
    requires |a| == w * h * 3 && |b| == w * h * 3
    requires win.x0 <= win.x1 <= w && win.y0 <= y <= win.y1 <= h
    ensures WindowDiffUpTo(a, b, w, h, win, y) == WindowDiffUpTo(b, a, w, h, win, y)
    ensures WindowDiffUpTo(a, a, w, h, win, y) == 0
    decreases y - win.y0
  {
    if y > win.y0 {
      WindowDiffUpToSymmetricZero(a, b, w, h, win, y - 1);
      RowRunInBuffer(w, h, y - 1, win.x0, win.x1);
      RunDiffSymmetricZero(a, b, ((y - 1) * w + win.x0) * 3, win.x1 - win.x0);
    }
  }

  /** The summed central difference is symmetric and vanishes on identical buffers. */
  lemma WindowDiffSymmetricZero(a: seq<byte>, b: seq<byte>, w: nat, h: nat, win: Window)
    requires |a| == w * h * 3 && |b| == w * h * 3 && win.x0 <= win.x1 <= w && win.y0 <= win.y1 <= h
    ensures WindowDiff(a, b, w, h, win) == WindowDiff(b, a, w, h, win)
    ensures WindowDiff(a, a, w, h, win) == 0
  {
    WindowDiffUpToSymmetricZero(a, b, w, h, win, win.y1);
  }

  lemma {:induction false} RunDiffBound(a: seq<byte>, b: seq<byte>, start: nat, n: nat)
    requires start + 3 * n <= |a| && start + 3 * n <= |b|
    ensures RunDiff(a, b, start, n) <= 765 * n
  {
    if n > 0 {
      RunDiffBound(a, b, start, n - 1);
      ChannelDiffFacts(a, b, start + 3 * (n - 1), 3);
    }
  }

  lemma {:induction false} WindowDiffUpToBound(a: seq<byte>, b: seq<byte>, w: nat, h: nat, win: Window, y: nat)
    requires |a| == w * h * 3 && |b| == w * h * 3
    requires win.x0 <= win.x1 <= w && win.y0 <= y <= win.y1 <= h
    ensures WindowDiffUpTo(a, b, w, h, win, y) <= 765 * ((win.x1 - win.x0) * (y - win.y0))
    decreases y - win.y0
  {
    if y > win.y0 {
      WindowDiffUpToBound(a, b, w, h, win, y - 1);
      RowRunInBuffer(w, h, y - 1, win.x0, win.x1);
      RunDiffBound(a, b, ((y - 1) * w + win.x0) * 3, win.x1 - win.x0);
      MulSucc(y - 1 - win.y0, win.x1 - win.x0);
      assert (win.x1 - win.x0) * (y - win.y0) == (y - win.y0) * (win.x1 - win.x0);
      assert (win.x1 - win.x0) * (y - 1 - win.y0) == (y - 1 - win.y0) * (win.x1 - win.x0);
    }
  }

  /** Every pixel of the window contributes at most 3 * 255, so an empty window sums to 0
      (and the later division is 0.0 / 0.0). */
  lemma WindowDiffBound(a: seq<byte>, b: seq<byte>, w: nat, h: nat, win: Window)
    requires |a| == w * h * 3 && |b| == w * h * 3 && win.x0 <= win.x1 <= w && win.y0 <= win.y1 <= h
    ensures WindowDiff(a, b, w, h, win) <= 765 * Area(win)
  {
    WindowDiffUpToBound(a, b, w, h, win, win.y1);
  }

  /** The window scan of comparar_celda_template: `|cell - template|` summed channel by
      channel over the window, and the number of pixels visited.  Every index
      `(y * w + x) * 3 + k` it reads lies inside both w x h buffers. */
  method CentralScan(cell: seq<byte>, tmpl: seq<byte>, w: nat, h: nat, win: Window) returns (diffCentral: nat, cuenta: nat)
    requires |cell| == w * h * 3 && |tmpl| == w * h * 3
    requires win.x0 <= win.x1 <= w && win.y0 <= win.y1 <= h
    ensures diffCentral == WindowDiff(cell, tmpl, w, h, win)
    ensures cuenta == Area(win)
  {
    diffCentral, cuenta := 0, 0;
    ghost var winW := win.x1 - win.x0;
    for y := win.y0 to win.y1
      invariant diffCentral == WindowDiffUpTo(cell, tmpl, w, h, win, y)
      invariant cuenta == winW * (y - win.y0)
    {
      RowRunInBuffer(w, h, y, win.x0, win.x1);
      ghost var rowStart := diffCentral;
      ghost var run := (y * w + win.x0) * 3;
      for x := win.x0 to win.x1
        invariant diffCentral == rowStart + RunDiff(cell, tmpl, run, x - win.x0)
        invariant cuenta == winW * (y - win.y0) + (x - win.x0)
      {
        var idx := (y * w + x) * 3;
        assert idx == run + 3 * (x - win.x0);
        ghost var pixStart := diffCentral;
        for k := 0 to 3
          invariant diffCentral == pixStart + ChannelDiff(cell, tmpl, idx, k)
        {
          diffCentral := diffCentral + Abs(cell[idx + k] as int - tmpl[idx + k] as int);
        }
        cuenta := cuenta + 1;
      }
      MulSuccRight(winW, y - win.y0);
    }
  }
}
