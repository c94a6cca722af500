/** The classifier of procesamiento_imagen.cpp: the score of a cell against a template,
    the nearest-template choice, the `tile_to_tipo` table, the grid classification
    (`clasificar_celdas`) and the template list `cargar_plantillas` builds from the
    decoded tile files. */
module TileClassifier {
  import opened Wrappers
  import opened Pixels
  import opened ImageFeatures

  // ---------------------------------------------------------------- templates

  /** A loaded template.  `file` is the number i of the file `tiles/tile<i>.png` it was
      read from (the C++ keeps the file name). */
  datatype TileTemplate = TileTemplate(file: nat, data: seq<byte>, w: nat, h: nat, c: nat)

  /** What `cargar_plantillas` guarantees of every template it keeps: the size of the grid
      cells and one RGB triple per pixel. */
  predicate Fits(t: TileTemplate, bw: nat, bh: nat)
  {
    t.w == bw && t.h == bh && t.c == 3 && |t.data| == bw * bh * 3
  }

  predicate AllFit(templates: seq<TileTemplate>, bw: nat, bh: nat)
  {
    forall t | t in templates :: Fits(t, bw, bh)
  }

  // ---------------------------------------------------------------- score

  /** A double score of comparar_celda_template.  An empty central window makes the C++
      divide 0.0 by 0.0, and the NaN propagates into the returned score. */
  datatype Score = NaN | Finite(value: real)

  /** The weighted score `0.079 * diff_hist + 3 * diff_central / (cuenta * 3.0)`, read over
      the reals. */
  function Weighted(diffHist: nat, diffCentral: nat, count: nat): (s: Score)
    ensures s.Finite? <==> count > 0
    ensures s.Finite? ==> s.value >= 0.0
  {
    if count == 0 then NaN
    else
      var mean := diffCentral as real / (count as real * 3.0);
      assert mean >= 0.0;
      Finite(0.079 * diffHist as real + 3.0 * mean)
  }

  /** The score comparar_celda_template gives cell `cell` against template `t`. */
  function TemplateScore(cell: seq<byte>, t: TileTemplate, lowerQuarter: bool): Score
    requires |cell| == t.w * t.h * 3 && |t.data| == t.w * t.h * 3
  {
    var win := CentralWindow(t.w, t.h, lowerQuarter);
    Weighted(HistDistance(CoarseHist(cell), CoarseHist(t.data)), WindowDiff(cell, t.data, t.w, t.h, win), Area(win))
  }

  /** comparar_celda_template: histograms, L1 distance, central window scan, weighting.
      The template's own width and height drive the window; the cell must have the
      template's size. */
  method CompareCellTemplate(cell: seq<byte>, t: TileTemplate, lowerQuarter: bool) returns (score: Score)
    requires |cell| == t.w * t.h * 3 && |t.data| == t.w * t.h * 3
    ensures score == TemplateScore(cell, t, lowerQuarter)
  {
    var w, h := t.w, t.h;
    var n1, c1, b1, o1 := Histogram(cell);
    var n2, c2, b2, o2 := Histogram(t.data);
    var diffHist := Abs(n1 as int - n2 as int) + Abs(c1 as int - c2 as int) + Abs(b1 as int - b2 as int) + Abs(o1 as int - o2 as int);
    var win := CentralWindow(w, h, lowerQuarter);
    var diffCentral, cuenta := CentralScan(cell, t.data, w, h, win);
    assert diffHist == HistDistance(CoarseHist(cell), CoarseHist(t.data));
    score := Weighted(diffHist, diffCentral, cuenta);
  }

  /** The score is a number exactly when the central window is non-empty, and then it is
      never negative. */
  lemma ScoreFiniteIff(cell: seq<byte>, t: TileTemplate, lowerQuarter: bool)
    requires |cell| == t.w * t.h * 3 && |t.data| == t.w * t.h * 3
    ensures TemplateScore(cell, t, lowerQuarter).Finite?
      <==> !(t.w <= 1 || t.h <= 1 || (lowerQuarter && t.h <= 2))
    ensures TemplateScore(cell, t, lowerQuarter).Finite? ==> TemplateScore(cell, t, lowerQuarter).value >= 0.0
  {
  }

  /** A cell identical to the template's own pixels scores 0.0 whenever the window is not
      empty: both the histogram distance and the central difference vanish. */
  lemma IdenticalCellScoresZero(t: TileTemplate, lowerQuarter: bool)
    requires |t.data| == t.w * t.h * 3
    requires !(t.w <= 1 || t.h <= 1 || (lowerQuarter && t.h <= 2))
    ensures TemplateScore(t.data, t, lowerQuarter) == Finite(0.0)
  {
    var win := CentralWindow(t.w, t.h, lowerQuarter);
    HistDistanceZero(CoarseHist(t.data), CoarseHist(t.data));
    WindowDiffSymmetricZero(t.data, t.data, t.w, t.h, win);
  }

  /** Swapping the cell and the template's pixels leaves the score unchanged. */
  lemma ScoreSymmetric(cell: seq<byte>, t: TileTemplate, lowerQuarter: bool)
    requires |cell| == t.w * t.h * 3 && |t.data| == t.w * t.h * 3
    ensures TemplateScore(t.data, t.(data := cell), lowerQuarter) == TemplateScore(cell, t, lowerQuarter)
  {
    var win := CentralWindow(t.w, t.h, lowerQuarter);
    HistDistanceSymmetric(CoarseHist(cell), CoarseHist(t.data));
    WindowDiffSymmetricZero(cell, t.data, t.w, t.h, win);
  }

  // ---------------------------------------------------------------- nearest template

  /** The running minimum `min_diff`: it starts at DBL_MAX, above every finite score. */
  datatype Bound = Top | At(v: real)

  /** `diff < min_diff`: false for NaN, true for any number against the start value. */
  predicate Below(s: Score, m: Bound)
  {
    s.Finite? && (m.Top? || s.value < m.v)
  }

  /** `best_idx` is the first position holding the least score, or -1 when no score is a
      number. */
  predicate IsFirstMinimum(scores: seq<Score>, best: int)
  {
    if forall k | 0 <= k < |scores| :: scores[k].NaN? then best == -1
    else
      0 <= best < |scores| && scores[best].Finite?
      && (forall k | 0 <= k < |scores| && scores[k].Finite? :: scores[best].value <= scores[k].value)
      && (forall k | 0 <= k < best && scores[k].Finite? :: scores[best].value < scores[k].value)
  }

  /** `(min_diff, best_idx)` after the first `n` templates were compared. */
  function Scan(scores: seq<Score>, n: nat): (r: (Bound, int))
    requires n <= |scores|
    ensures -1 <= r.1 < n
    ensures r.1 == -1 <==> r.0 == Top
    ensures r.1 >= 0 ==> scores[r.1].Finite? && r.0 == At(scores[r.1].value)
  {
    if n == 0 then (Top, -1)
    else
      var prev := Scan(scores, n - 1);
      if Below(scores[n - 1], prev.0) then (At(scores[n - 1].value), n - 1) else prev
  }

  /** The scan keeps the first minimum of what it has seen. */
  lemma {:induction false} ScanIsFirstMinimum(scores: seq<Score>, n: nat)
    requires n <= |scores|
    ensures IsFirstMinimum(scores[..n], Scan(scores, n).1)
  {
    if n > 0 {
      ScanIsFirstMinimum(scores, n - 1);
      assert scores[..n - 1] == scores[..n][..n - 1];
      var prev := Scan(scores, n - 1);
      if prev.1 == -1 {
        assert forall k | 0 <= k < n - 1 :: scores[..n][k].NaN? by {
          forall k | 0 <= k < n - 1
            ensures scores[..n][k].NaN?
          {
            assert scores[..n - 1][k] == scores[..n][k];
          }
        }
      } else {
        forall k | 0 <= k < n - 1 && scores[k].Finite?
          ensures scores[prev.1].value <= scores[k].value
        {
          assert scores[..n - 1][k] == scores[k];
        }
        forall k | 0 <= k < prev.1 && scores[k].Finite?
          ensures scores[prev.1].value < scores[k].value
        {
          assert scores[..n - 1][k] == scores[k];
        }
        if !scores[..n - 1][prev.1].Finite? {
          assert false;
        }
      }
    }
  }

  /** There is only one first minimum, so the scan is the reference definition. */
  lemma FirstMinimumUnique(scores: seq<Score>, a: int, b: int)
    requires IsFirstMinimum(scores, a) && IsFirstMinimum(scores, b)
    ensures a == b
  {
  }

  /** The scores of one cell against every template, in list order. */
  function Scores(cell: seq<byte>, templates: seq<TileTemplate>, lowerQuarter: bool): (s: seq<Score>)
    requires forall t | t in templates :: |cell| == t.w * t.h * 3 && |t.data| == t.w * t.h * 3
    ensures |s| == |templates|
    ensures forall k | 0 <= k < |templates| :: s[k] == TemplateScore(cell, templates[k], lowerQuarter)
  {
    seq(|templates|, k requires 0 <= k < |templates| => TemplateScore(cell, templates[k], lowerQuarter))
  }

  /** The template position `clasificar_celdas` picks for a cell. */
  function Nearest(cell: seq<byte>, templates: seq<TileTemplate>, lowerQuarter: bool): (best: int)
    requires forall t | t in templates :: |cell| == t.w * t.h * 3 && |t.data| == t.w * t.h * 3
    ensures IsFirstMinimum(Scores(cell, templates, lowerQuarter), best)
  {
    var s := Scores(cell, templates, lowerQuarter);
    ScanIsFirstMinimum(s, |s|);
    assert s[..|s|] == s;
    Scan(s, |s|).1
  }

  /** The template loop of clasificar_celdas: strict `<` keeps the first of equal scores,
      and a NaN score never wins. */
  method NearestTemplate(cell: seq<byte>, templates: seq<TileTemplate>, lowerQuarter: bool) returns (bestIdx: int)
    requires forall t | t in templates :: |cell| == t.w * t.h * 3 && |t.data| == t.w * t.h * 3
    ensures bestIdx == Nearest(cell, templates, lowerQuarter)
    ensures IsFirstMinimum(Scores(cell, templates, lowerQuarter), bestIdx)
  {
    ghost var s := Scores(cell, templates, lowerQuarter);
    var minDiff := Top;
    bestIdx := -1;
    for t := 0 to |templates|
      invariant (minDiff, bestIdx) == Scan(s, t)
    {
      var diff := CompareCellTemplate(cell, templates[t], lowerQuarter);
      if Below(diff, minDiff) {
        minDiff := At(diff.value);
        bestIdx := t;
      }
    }
  }

  /** When a cell equals the pixels of some template and the window is not empty, the
      winner scores 0.0 and lies at or before that template. */
  lemma ExactTemplateWins(cell: seq<byte>, templates: seq<TileTemplate>, lowerQuarter: bool, k: nat)
    requires forall t | t in templates :: |cell| == t.w * t.h * 3 && |t.data| == t.w * t.h * 3
    requires k < |templates| && templates[k].data == cell
    requires !(templates[k].w <= 1 || templates[k].h <= 1 || (lowerQuarter && templates[k].h <= 2))
    ensures 0 <= Nearest(cell, templates, lowerQuarter) <= k
    ensures Scores(cell, templates, lowerQuarter)[Nearest(cell, templates, lowerQuarter)] == Finite(0.0)
  {
    var s := Scores(cell, templates, lowerQuarter);
    IdenticalCellScoresZero(templates[k], lowerQuarter);
    assert s[k] == Finite(0.0);
    var b := Nearest(cell, templates, lowerQuarter);
    assert s[b].value <= 0.0;
    ScoreFiniteIff(cell, templates[b], lowerQuarter);
  }

  // ---------------------------------------------------------------- tile_to_tipo

  /** tile_to_tipo: template position to level code (0 floor, 1 wall, 2 diamond, 3 key,
      4 player, 5 door, 6 stone, 7 spikes, 8 exit, 9 hole, 10 lava, 11 gate, 12 button,
      13 statue). */
  const TileToType: map<int, int> := map[
    3 := 1, 4 := 1, 11 := 1, 12 := 1, 13 := 1, 14 := 1, 15 := 1, 16 := 1,
    7 := 0,
    0 := 2,
    2 := 3,
    5 := 4,
    8 := 5,
    6 := 6,
    9 := 7, 25 := 7, 17 := 7,
    10 := 8,
    1 := 9,
    18 := 10, 19 := 10, 20 := 10, 21 := 10, 22 := 10, 23 := 10, 24 := 10,
    26 := 11,
    27 := 12,
    28 := 13]

  /** The table maps exactly the positions 0..28, and every value is a level code. */
  lemma TileToTypeShape()
    ensures forall k :: k in TileToType <==> 0 <= k < 29
    ensures forall k | k in TileToType :: 0 <= TileToType[k] <= 13
  {
    forall k | 0 <= k < 29
      ensures k in TileToType
    {
    }
  }

  /** A table position whose level code is `c`. */
  function CodeWitness(c: int): int
  {
    match c
    case 0 => 7 case 1 => 3 case 2 => 0 case 3 => 2 case 4 => 5 case 5 => 8 case 6 => 6
    case 7 => 9 case 8 => 10 case 9 => 1 case 10 => 18 case 11 => 26 case 12 => 27 case _ => 28
  }

  /** Every level code is the image of some table position. */
  lemma TileToTypeOnto()
    ensures forall c | 0 <= c <= 13 :: c in TileToType.Values
  {
    forall c | 0 <= c <= 13
      ensures c in TileToType.Values
    {
      var k := CodeWitness(c);
      assert k in TileToType && TileToType[k] == c;
    }
  }

  /** `tile_to_tipo.count(best_idx) ? tile_to_tipo[best_idx] : best_idx`: a mapped
      position gives its level code, any other value (-1 included) passes through. */
  function MapTile(best: int): (tipo: int)
    ensures 0 <= best < 29 ==> 0 <= tipo <= 13
    ensures !(0 <= best < 29) ==> tipo == best
  {
    TileToTypeShape();
    if best in TileToType then TileToType[best] else best
  }

  // ---------------------------------------------------------------- clasificar_celdas

  /** What clasificar_celdas needs of its caller: the row-major RGB screenshot, and all
      cells from row 2 on inside it (an empty grid, or one with only the two wall rows,
      extracts nothing). */
  predicate GridFits(imgLen: nat, width: nat, height: nat, filas: nat, columnas: nat, bw: nat, bh: nat)
  {
    imgLen == width * height * 3
    && (filas <= 2 || columnas == 0 || (filas * bh <= height && columnas * bw <= width))
  }

  lemma CellInGrid(width: nat, height: nat, filas: nat, columnas: nat, bw: nat, bh: nat, i: nat, j: nat)
    requires filas * bh <= height && columnas * bw <= width && i < filas && j < columnas
    ensures CellInImage(width, height, bw, bh, i, j)
  {
    MulMono(i + 1, filas, bh);
    MulMono(j + 1, columnas, bw);
  }

  /** The label clasificar_celdas writes at (i, j). */
  function CellLabel(img: seq<byte>, width: nat, height: nat, filas: nat, columnas: nat, bw: nat, bh: nat,
                     templates: seq<TileTemplate>, i: nat, j: nat): int
    requires GridFits(|img|, width, height, filas, columnas, bw, bh) && AllFit(templates, bw, bh)
    requires i < filas && j < columnas
  {
    if i < 2 then 1
    else
      CellInGrid(width, height, filas, columnas, bw, bh, i, j);
      var cell := CellOf(img, width, height, bw, bh, i, j);
      CellRowsLength(img, width, height, bw, bh, i, j, bh);
      MulCommTriple(bh, bw);
      MapTile(Nearest(cell, templates, i == 2))
  }

  /** With templates of the cell size, no template wins exactly when there is none or
      the cell is too small for a central window. */
  lemma NearestNone(cell: seq<byte>, templates: seq<TileTemplate>, bw: nat, bh: nat, lowerQuarter: bool)
    requires AllFit(templates, bw, bh) && |cell| == bw * bh * 3
    ensures -1 <= Nearest(cell, templates, lowerQuarter) < |templates|
    ensures Nearest(cell, templates, lowerQuarter) == -1
      <==> |templates| == 0 || bw <= 1 || bh <= 1 || (lowerQuarter && bh <= 2)
  {
    var s := Scores(cell, templates, lowerQuarter);
    forall k | 0 <= k < |templates|
      ensures s[k].Finite? <==> !(bw <= 1 || bh <= 1 || (lowerQuarter && bh <= 2))
    {
      assert templates[k] in templates;
      ScoreFiniteIff(cell, templates[k], lowerQuarter);
    }
    if |templates| > 0 {
      assert s[0].Finite? <==> !(bw <= 1 || bh <= 1 || (lowerQuarter && bh <= 2));
    }
  }

  /** The labels of rows 0 and 1 are wall; with at most the 29 table positions every
      label is -1 or a level code, and it is -1 exactly when no template gives the cell a
      numeric score: there are none, or the cells are too small for a central window. */
  lemma LabelRange(img: seq<byte>, width: nat, height: nat, filas: nat, columnas: nat, bw: nat, bh: nat,
                   templates: seq<TileTemplate>, i: nat, j: nat)
    requires GridFits(|img|, width, height, filas, columnas, bw, bh) && AllFit(templates, bw, bh)
    requires i < filas && j < columnas
    ensures i < 2 ==> CellLabel(img, width, height, filas, columnas, bw, bh, templates, i, j) == 1
    ensures |templates| <= 29 ==> -1 <= CellLabel(img, width, height, filas, columnas, bw, bh, templates, i, j) <= 13
    ensures i >= 2 ==>
      (CellLabel(img, width, height, filas, columnas, bw, bh, templates, i, j) == -1
       <==> |templates| == 0 || bw <= 1 || bh <= 1 || (i == 2 && bh <= 2))
  {
    if i >= 2 {
      CellInGrid(width, height, filas, columnas, bw, bh, i, j);
      var cell := CellOf(img, width, height, bw, bh, i, j);
      CellRowsLength(img, width, height, bw, bh, i, j, bh);
      MulCommTriple(bh, bw);
      NearestNone(cell, templates, bw, bh, i == 2);
    }
  }

  /** clasificar_celdas: a `filas` x `columnas` matrix started at -1; rows 0 and 1 become
      wall without looking at the image, every other cell is extracted, matched against
      the templates and mapped through tile_to_tipo. */
  method ClassifyCells(img: seq<byte>, width: nat, height: nat, filas: nat, columnas: nat, bw: nat, bh: nat,
                       templates: seq<TileTemplate>) returns (etiquetas: seq<seq<int>>)
    requires GridFits(|img|, width, height, filas, columnas, bw, bh) && AllFit(templates, bw, bh)
    ensures |etiquetas| == filas
    ensures forall i | 0 <= i < filas :: |etiquetas[i]| == columnas
    ensures forall i, j | 0 <= i < filas && 0 <= j < columnas ::
      etiquetas[i][j] == CellLabel(img, width, height, filas, columnas, bw, bh, templates, i, j)
  {
    etiquetas := seq(filas, _ => seq(columnas, _ => -1));
    for i := 0 to filas
      invariant |etiquetas| == filas
      invariant forall r | 0 <= r < filas :: |etiquetas[r]| == columnas
      invariant forall r, c | 0 <= r < i && 0 <= c < columnas ::
        etiquetas[r][c] == CellLabel(img, width, height, filas, columnas, bw, bh, templates, r, c)
    {
      for j := 0 to columnas
        invariant |etiquetas| == filas
        invariant forall r | 0 <= r < filas :: |etiquetas[r]| == columnas
        invariant forall r, c | 0 <= r < i && 0 <= c < columnas ::
          etiquetas[r][c] == CellLabel(img, width, height, filas, columnas, bw, bh, templates, r, c)
        invariant forall c | 0 <= c < j ::
          etiquetas[i][c] == CellLabel(img, width, height, filas, columnas, bw, bh, templates, i, c)
      {
        var tipo := LabelAt(img, width, height, filas, columnas, bw, bh, templates, i, j);
        etiquetas := etiquetas[i := etiquetas[i][j := tipo]];
      }
    }
  }

  /** The body of the inner loop of clasificar_celdas for cell (i, j). */
  method LabelAt(img: seq<byte>, width: nat, height: nat, filas: nat, columnas: nat, bw: nat, bh: nat,
                 templates: seq<TileTemplate>, i: nat, j: nat) returns (tipo: int)
    requires GridFits(|img|, width, height, filas, columnas, bw, bh) && AllFit(templates, bw, bh)
    requires i < filas && j < columnas
    ensures tipo == CellLabel(img, width, height, filas, columnas, bw, bh, templates, i, j)
  {
    if i < 2 {
      return 1;
    }
    CellInGrid(width, height, filas, columnas, bw, bh, i, j);
    var cell := ExtractCell(img, width, height, bw, bh, i, j);
    CellRowsLength(img, width, height, bw, bh, i, j, bh);
    MulCommTriple(bh, bw);
    var bestIdx := NearestTemplate(cell, templates, i == 2);
    tipo := MapTile(bestIdx);
  }

  // ---------------------------------------------------------------- cargar_plantillas

  /** The templates kept from the first `n` decoded files: a file is kept when it
      decoded and has exactly the cell size; the survivors are packed in file order. */
  function Loaded(files: seq<Option<Image>>, bw: nat, bh: nat, n: nat): seq<TileTemplate>
    requires n <= |files|
  {
    if n == 0 then []
    else
      var prev := Loaded(files, bw, bh, n - 1);
      match files[n - 1]
      case None => prev
      case Some(im) =>
        if im.w != bw || im.h != bh then prev
        else prev + [TileTemplate(n - 1, im.data, im.w, im.h, 3)]
  }

  /** A file that decoded at the cell size, read as a template. */
  predicate Accepted(files: seq<Option<Image>>, bw: nat, bh: nat, i: nat)
    requires i < |files|
  {
    files[i].Some? && files[i].value.w == bw && files[i].value.h == bh
  }

  /** cargar_plantillas after decoding: `files[i]` is the stb_image result for
      `tiles/tile<i>.png` (None when it failed), and `cantidad` is `|files|`. */
  method LoadTemplates(files: seq<Option<Image>>, bw: nat, bh: nat) returns (templates: seq<TileTemplate>)
    ensures templates == Loaded(files, bw, bh, |files|)
  {
    templates := [];
    for i := 0 to |files|
      invariant templates == Loaded(files, bw, bh, i)
    {
      if files[i].None? || files[i].value.w != bw || files[i].value.h != bh {
        continue;
      }
      var im := files[i].value;
      templates := templates + [TileTemplate(i, im.data, im.w, im.h, 3)];
    }
  }

  /** Every kept template is an accepted file, read as it decoded. */
  lemma {:induction false} LoadedSound(files: seq<Option<Image>>, bw: nat, bh: nat, n: nat)
    requires n <= |files|
    ensures forall t | t in Loaded(files, bw, bh, n) ::
      t.file < n && Accepted(files, bw, bh, t.file) && t == TileTemplate(t.file, files[t.file].value.data, bw, bh, 3)
  {
    if n > 0 {
      LoadedSound(files, bw, bh, n - 1);
    }
  }

  /** Kept templates are in strictly increasing file order, so a template's position in
      the list never exceeds its file number. */
  lemma {:induction false} LoadedOrdered(files: seq<Option<Image>>, bw: nat, bh: nat, n: nat)
    requires n <= |files|
    ensures var ts := Loaded(files, bw, bh, n);
      (forall p, q | 0 <= p < q < |ts| :: ts[p].file < ts[q].file)
      && (forall p | 0 <= p < |ts| :: p <= ts[p].file)
      && |ts| <= n
  {
    if n > 0 {
      LoadedOrdered(files, bw, bh, n - 1);
      LoadedSound(files, bw, bh, n - 1);
      var prev := Loaded(files, bw, bh, n - 1);
      if Accepted(files, bw, bh, n - 1) {
        var ts := Loaded(files, bw, bh, n);
        assert ts == prev + [TileTemplate(n - 1, files[n - 1].value.data, bw, bh, 3)];
        forall p | 0 <= p < |prev|
          ensures ts[p].file < n - 1
        {
          assert prev[p] in prev;
        }
      }
    }
  }

  /** Every accepted file is kept. */
  lemma {:induction false} LoadedComplete(files: seq<Option<Image>>, bw: nat, bh: nat, n: nat)
    requires n <= |files|
    ensures forall i | 0 <= i < n && Accepted(files, bw, bh, i) ::
      TileTemplate(i, files[i].value.data, bw, bh, 3) in Loaded(files, bw, bh, n)
  {
    if n > 0 {
      LoadedComplete(files, bw, bh, n - 1);
    }
  }

  /** Decoded templates of well-formed images fit the cell size. */
  lemma {:induction false} LoadedFit(files: seq<Option<Image>>, bw: nat, bh: nat, n: nat)
    requires n <= |files|
    requires forall i | 0 <= i < |files| && files[i].Some? :: WellFormed(files[i].value)
    ensures AllFit(Loaded(files, bw, bh, n), bw, bh)
  {
    if n > 0 {
      LoadedFit(files, bw, bh, n - 1);
    }
  }

  /** The compaction in action: when tile0.png fails to load, position 0 holds tile 1 (a
      hole), yet a best match at position 0 is labelled through `tile_to_tipo[0]`, the
      diamond code. */
  lemma MissingFileShiftsLabels()
    ensures var files := [None, Some(Image(1, 1, [0, 0, 0]))];
      var ts := Loaded(files, 1, 1, 2);
      |ts| == 1 && ts[0].file == 1 && MapTile(0) == 2 && MapTile(ts[0].file) == 9
  {
    var files: seq<Option<Image>> := [None, Some(Image(1, 1, [0, 0, 0]))];
    assert Loaded(files, 1, 1, 1) == [];
  }
}
