/** preprocesar_plantillas.cpp: for each of the 45 tile files that decodes, one manifest
    line with the file, its size and a 3-bucket histogram (black, café, other; the white
    counter is declared but never bumped). */
module TemplatePreprocessor {
  import opened Wrappers
  import opened Pixels
  import ImageFeatures

  /** This program's own copy of es_color_cafe. */
  predicate IsBrown(r: byte, g: byte, b: byte)
  {
    40 <= r <= 90 && 25 <= g <= 65 && 20 <= b <= 50
  }

  /** Both copies of es_color_cafe accept the same inclusive ranges. */
  lemma SameBrownRanges(r: byte, g: byte, b: byte)
    ensures IsBrown(r, g, b) <==> ImageFeatures.IsBrown(r, g, b)
  {
  }

  /** The bucket this histogram counts a pixel in: black first, then café, else other. */
  function PreBucket(r: byte, g: byte, b: byte): (k: ImageFeatures.Bucket)
    ensures k != ImageFeatures.White
    ensures k == ImageFeatures.Black <==> ImageFeatures.IsBlack(r, g, b)
    ensures k == ImageFeatures.Brown <==> IsBrown(r, g, b) && !ImageFeatures.IsBlack(r, g, b)
  {
    if ImageFeatures.IsBlack(r, g, b) then ImageFeatures.Black
    else if IsBrown(r, g, b) then ImageFeatures.Brown
    else ImageFeatures.Other
  }

  /** Black needs r < 40 and café needs r >= 40: no pixel satisfies both tests, so the
      black-first order decides nothing. */
  lemma BlackBrownDisjoint(r: byte, g: byte, b: byte)
    ensures !(ImageFeatures.IsBlack(r, g, b) && IsBrown(r, g, b))
  {
  }

  /** This program's bucket is the classifier's, with near white folded into other. */
  lemma PreBucketIsFoldedBucket(r: byte, g: byte, b: byte)
    ensures PreBucket(r, g, b)
      == (if ImageFeatures.BucketOf(r, g, b) == ImageFeatures.White then ImageFeatures.Other
          else ImageFeatures.BucketOf(r, g, b))
  {
  }

  /** The 3-bucket histogram of the first `n` pixels. */
  function PreHistUpTo(img: seq<byte>, n: nat): ImageFeatures.Hist
    requires 3 * n <= |img|
  {
    if n == 0 then ImageFeatures.Hist(0, 0, 0, 0)
    else ImageFeatures.Tally(PreHistUpTo(img, n - 1), PreBucket(img[3 * (n - 1)], img[3 * (n - 1) + 1], img[3 * (n - 1) + 2]))
  }

  function PreHist(img: seq<byte>): ImageFeatures.Hist
    requires |img| % 3 == 0
  {
    PreHistUpTo(img, |img| / 3)
  }

  /** The white counter stays 0 and the other three add up to the pixel count. */
  lemma {:induction false} PreHistUpToShape(img: seq<byte>, n: nat)
    requires 3 * n <= |img|
    ensures PreHistUpTo(img, n).white == 0
    ensures ImageFeatures.Total(PreHistUpTo(img, n)) == n
  {
    if n > 0 {
      PreHistUpToShape(img, n - 1);
    }
  }

  /** Against the classifier's coarse histogram: black and café agree, and the near-white
      pixels the classifier counts as white are counted as other here. */
  lemma {:induction false} PreHistFoldsWhite(img: seq<byte>, n: nat)
    requires 3 * n <= |img|
    ensures var cls := ImageFeatures.HistUpTo(img, n);
      PreHistUpTo(img, n) == ImageFeatures.Hist(cls.black, cls.brown, 0, cls.white + cls.other)
  {
    if n > 0 {
      PreHistFoldsWhite(img, n - 1);
      var p := n - 1;
      PreBucketIsFoldedBucket(img[3 * p], img[3 * p + 1], img[3 * p + 2]);
    }
  }

  /** No near-white pixel among the first `n`. */
  predicate NoNearWhite(img: seq<byte>, n: nat)
    requires 3 * n <= |img|
  {
    forall p | 0 <= p < n :: !ImageFeatures.IsNearWhite(img[3 * p], img[3 * p + 1], img[3 * p + 2])
  }

  /** With no near-white pixel the two histograms coincide; otherwise they differ. */
  lemma {:induction false} PreHistEqualsCoarseIff(img: seq<byte>, n: nat)
    requires 3 * n <= |img|
    ensures PreHistUpTo(img, n) == ImageFeatures.HistUpTo(img, n) <==> NoNearWhite(img, n)
  {
    PreHistFoldsWhite(img, n);
    WhiteCountZeroIff(img, n);
  }

  /** The classifier's white counter is 0 exactly when no pixel is near white. */
  lemma {:induction false} WhiteCountZeroIff(img: seq<byte>, n: nat)
    requires 3 * n <= |img|
    ensures ImageFeatures.HistUpTo(img, n).white == 0 <==> NoNearWhite(img, n)
  {
    if n > 0 {
      WhiteCountZeroIff(img, n - 1);
      var p := n - 1;
      if ImageFeatures.IsNearWhite(img[3 * p], img[3 * p + 1], img[3 * p + 2]) {
        assert !NoNearWhite(img, n);
      }
    }
  }

  /** histograma of this program: one pass bumping negros, cafes or otros. */
  method Histogram(img: seq<byte>) returns (negros: nat, cafes: nat, blancos: nat, otros: nat)
    requires |img| % 3 == 0
    ensures ImageFeatures.Hist(negros, cafes, blancos, otros) == PreHist(img)
    ensures blancos == 0
    ensures negros + cafes + otros == |img| / 3
  {
    negros, cafes, blancos, otros := 0, 0, 0, 0;
    var i := 0;
    while i < |img|
      invariant 0 <= i <= |img| && i % 3 == 0
      invariant ImageFeatures.Hist(negros, cafes, blancos, otros) == PreHistUpTo(img, i / 3)
    {
      var r, g, b := img[i], img[i + 1], img[i + 2];
      if r < 40 && g < 40 && b < 40 {
        negros := negros + 1;
      } else if IsBrown(r, g, b) {
        cafes := cafes + 1;
      } else {
        otros := otros + 1;
      }
      i := i + 3;
    }
    PreHistUpToShape(img, |img| / 3);
  }

  // ---------------------------------------------------------------- manifest

  /** cant_tiles */
  const CantTiles: nat := 45

  /** One line `tiles/tile<file>.png w h n caf bla o` of plantillas_preprocesadas.txt. */
  datatype ManifestLine = ManifestLine(file: nat, w: nat, h: nat, n: nat, caf: nat, bla: nat, o: nat)

  function LineOf(file: nat, im: Image): (line: ManifestLine)
    requires WellFormed(im)
  {
    var hist := PreHist(im.data);
    ManifestLine(file, im.w, im.h, hist.black, hist.brown, hist.white, hist.other)
  }

  /** The lines written for the first `k` files: decoded files only, in file order. */
  function Manifest(files: seq<Option<Image>>, k: nat): seq<ManifestLine>
    requires k <= |files|
    requires forall i | 0 <= i < |files| && files[i].Some? :: WellFormed(files[i].value)
  {
    if k == 0 then []
    else
      match files[k - 1]
      case None => Manifest(files, k - 1)
      case Some(im) => Manifest(files, k - 1) + [LineOf(k - 1, im)]
  }

  /** main: `outputOpens` says whether plantillas_preprocesadas.txt could be opened, and
      `files[i]` is the stb_image result for `tiles/tile<i>.png` (None when it failed).
      Returns the exit code and the lines written. */
  method Preprocess(outputOpens: bool, files: seq<Option<Image>>) returns (exitCode: int, lines: seq<ManifestLine>)
    requires |files| == CantTiles
    requires forall i | 0 <= i < |files| && files[i].Some? :: WellFormed(files[i].value)
    ensures !outputOpens ==> exitCode == 1 && lines == []
    ensures outputOpens ==> exitCode == 0 && lines == Manifest(files, CantTiles)
  {
    lines := [];
    if !outputOpens {
      return 1, lines;
    }
    for i := 0 to CantTiles
      invariant lines == Manifest(files, i)
    {
      if files[i].None? {
        continue;
      }
      var im := files[i].value;
      var n, caf, bla, o := Histogram(im.data);
      lines := lines + [ManifestLine(i, im.w, im.h, n, caf, bla, o)];
    }
    exitCode := 0;
  }

  /** A manifest line's counts cover every pixel of its image, and its white count is 0. */
  lemma LineCounts(file: nat, im: Image)
    requires WellFormed(im)
    ensures LineOf(file, im).bla == 0
    ensures LineOf(file, im).n + LineOf(file, im).caf + LineOf(file, im).o == im.w * im.h
  {
    PreHistUpToShape(im.data, |im.data| / 3);
  }

  /** The number of files among the first `k` that decoded. */
  function Decoded(files: seq<Option<Image>>, k: nat): nat
    requires k <= |files|
  {
    if k == 0 then 0 else Decoded(files, k - 1) + (if files[k - 1].Some? then 1 else 0)
  }

  /** Every line is the line of a decoded file, and files appear in increasing order;
      there is one line per decoded file. */
  lemma {:induction false} ManifestSound(files: seq<Option<Image>>, k: nat)
    requires k <= |files|
    requires forall i | 0 <= i < |files| && files[i].Some? :: WellFormed(files[i].value)
    ensures |Manifest(files, k)| == Decoded(files, k)
    ensures forall l | l in Manifest(files, k) ::
      l.file < k && files[l.file].Some? && l == LineOf(l.file, files[l.file].value)
  {
    if k > 0 {
      ManifestSound(files, k - 1);
    }
  }

  /** Lines come in strictly increasing file order. */
  lemma {:induction false} ManifestOrdered(files: seq<Option<Image>>, k: nat)
    requires k <= |files|
    requires forall i | 0 <= i < |files| && files[i].Some? :: WellFormed(files[i].value)
    ensures forall p, q | 0 <= p < q < |Manifest(files, k)| :: Manifest(files, k)[p].file < Manifest(files, k)[q].file
  {
    if k > 0 {
      ManifestOrdered(files, k - 1);
      ManifestSound(files, k - 1);
      var prev := Manifest(files, k - 1);
      if files[k - 1].Some? {
        var ls := Manifest(files, k);
        assert ls == prev + [LineOf(k - 1, files[k - 1].value)];
        forall p | 0 <= p < |prev|
          ensures ls[p].file < k - 1
        {
          assert prev[p] in prev;
        }
      }
    }
  }

  /** Every decoded file has its line; a failed load writes none (ManifestSound). */
  lemma {:induction false} ManifestComplete(files: seq<Option<Image>>, k: nat)
    requires k <= |files|
    requires forall i | 0 <= i < |files| && files[i].Some? :: WellFormed(files[i].value)
    ensures forall i | 0 <= i < k && files[i].Some? :: LineOf(i, files[i].value) in Manifest(files, k)
  {
    if k > 0 {
      ManifestComplete(files, k - 1);
    }
  }
}
