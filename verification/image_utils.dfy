/** The pure parts of images/ImageUtils.java (earlier plugin generation):
    export-name prefixes, target paths, the nine-patch border rules on ARGB
    pixels, and the size arithmetic around resizing. Pixels are 32-bit ARGB
    words; the resampling itself is a parameter. */
module ImageUtils {
  import opened Wrappers
  import opened Strings
  import opened LegacyDensities

  /** `getExportName(prefix, name)`: `prefix_name` when the trimmed prefix is
      non-empty, otherwise the name itself (a null name stays null in the
      second case and prints as "null" in the first). */
  function GetExportName(prefix: string, name: Option<string>): (r: Option<string>)
    ensures Trim(prefix) != "" ==> r == Some(prefix + "_" + Text(name))
    ensures Trim(prefix) == "" ==> r == name
  {
    if Trim(prefix) != "" then Some(prefix + "_" + Text(name)) else name
  }

  /** A blank prefix (spaces, tabs, line breaks only) leaves the name alone;
      any other prefix is prepended with an underscore. */
  lemma GetExportNameBlankPrefix(prefix: string, name: Option<string>)
    ensures (forall i :: 0 <= i < |prefix| ==> prefix[i] <= ' ') ==> GetExportName(prefix, name) == name
    ensures (exists i :: 0 <= i < |prefix| && prefix[i] > ' ') ==>
      GetExportName(prefix, name).Some? && StartsWith(GetExportName(prefix, name).value, prefix + "_")
  {
    TrimEmpty(prefix);
  }

  /** `getTargetFile(path, resolution, exportName)`: `TARGET_FILE_PATTERN`
      "%s/drawable-%s/%s.png" filled with the path, the density label and the name. */
  function TargetFile(path: Option<string>, resolution: Density, exportName: Option<string>): (r: string)
    ensures StartsWith(r, Text(path) + "/drawable-" + Id(resolution) + "/")
    ensures EndsWith(r, "/" + Text(exportName) + ".png")
  {
    Text(path) + "/drawable-" + Id(resolution) + "/" + Text(exportName) + ".png"
  }

  /** Within one export path, the target file determines both the density
      folder and the name, so two images of one import never share a file. */
  lemma TargetFileInjective(path: Option<string>, r1: Density, n1: Option<string>, r2: Density, n2: Option<string>)
    requires TargetFile(path, r1, n1) == TargetFile(path, r2, n2)
    ensures r1 == r2 && Text(n1) == Text(n2)
  {
    FramedSegmentsEqual(Text(path) + "/drawable-", Id(r1), Text(n1), Id(r2), Text(n2), ".png", '/');
    IdIsLower(r1);
  }

  // ---- Nine-patch border pixels -------------------------------------------

  /** `0xff000000`: opaque black, the only colour a stretch/padding mark may
      have besides opaque red. */
  const Black: bv32 := 0xff00_0000
  /** `0xffff0000`: opaque red (layout bounds). */
  const Red: bv32 := 0xffff_0000

  /** `(0xff000000 & argb) != 0`: the pixel is not fully transparent. */
  predicate Marked(argb: bv32) {
    argb & 0xff00_0000 != 0
  }

  /** `verifyBorderImage`: throws Wrong9PatchException at the first marked
      pixel that is neither black nor red. */
  function VerifyBorder(pixels: seq<bv32>): (r: Result<()>)
    ensures r.Ok? <==> forall i :: 0 <= i < |pixels| && Marked(pixels[i]) ==> pixels[i] == Black || pixels[i] == Red
    ensures r.Err? ==> r.error == WrongNinePatch
    decreases |pixels|
  {
    if |pixels| == 0 then Ok(())
    else if Marked(pixels[0]) && pixels[0] != Black && pixels[0] != Red then Err(WrongNinePatch)
    else
      var rest := VerifyBorder(pixels[1..]);
      assert forall i :: 1 <= i < |pixels| ==> pixels[i] == pixels[1..][i - 1];
      rest
  }

  /** The colour step of `enforceBorderColors`: every marked pixel becomes
      opaque black; transparent ones are left as they are. */
  function EnforceColors(pixels: seq<bv32>): (r: seq<bv32>)
    ensures |r| == |pixels|
    ensures forall i :: 0 <= i < |pixels| ==> (Marked(pixels[i]) ==> r[i] == Black)
    ensures forall i :: 0 <= i < |pixels| ==> (!Marked(pixels[i]) ==> r[i] == pixels[i])
  {
    seq(|pixels|, i requires 0 <= i < |pixels| => if Marked(pixels[i]) then Black else pixels[i])
  }

  /** Enforcing twice is enforcing once, and an enforced border always passes
      `verifyBorderImage`. */
  lemma EnforceColorsIdempotent(pixels: seq<bv32>)
    ensures EnforceColors(EnforceColors(pixels)) == EnforceColors(pixels)
    ensures VerifyBorder(EnforceColors(pixels)).Ok?
  {
    var e := EnforceColors(pixels);
    assert Marked(Black);
    forall i | 0 <= i < |e| ensures EnforceColors(e)[i] == e[i] {
    }
  }

  // ---- Run detection of `rescaleBorder` ----------------------------------

  /** `starts`/`ends` list the maximal runs of marked pixels of `row`, in order. */
  predicate IsRunList(row: seq<bv32>, starts: seq<int>, ends: seq<int>) {
    |starts| == |ends| &&
    (forall i :: 0 <= i < |starts| ==> 0 <= starts[i] <= ends[i] < |row|) &&
    (forall i :: 0 <= i < |starts| - 1 ==> ends[i] + 1 < starts[i + 1]) &&
    (forall i, x :: 0 <= i < |starts| && starts[i] <= x <= ends[i] ==> Marked(row[x])) &&
    (forall i :: 0 <= i < |starts| && 0 < starts[i] ==> !Marked(row[starts[i] - 1])) &&
    (forall i :: 0 <= i < |starts| && ends[i] < |row| - 1 ==> !Marked(row[ends[i] + 1])) &&
    (forall x :: 0 <= x < |row| && Marked(row[x]) ==>
       exists i :: 0 <= i < |starts| && starts[i] <= x <= ends[i])
  }

  /** What the scan has established after looking at `row[..x]`: the closed
      runs are maximal runs of that prefix, and when `inBlock` holds the last
      start opens a run that reaches `x - 1`. */
  predicate ScannedUpTo(row: seq<bv32>, x: int, starts: seq<int>, ends: seq<int>, inBlock: bool) {
    ScanBounds(row, x, starts, ends, inBlock) &&
    ScanMarks(row, x, starts, ends, inBlock) &&
    ScanCovers(row, x, starts, ends, inBlock)
  }

  /** The positions seen so far, in order and separated by gaps. */
  predicate ScanBounds(row: seq<bv32>, x: int, starts: seq<int>, ends: seq<int>, inBlock: bool) {
    0 <= x <= |row| &&
    |starts| == |ends| + (if inBlock then 1 else 0) &&
    (inBlock <==> x > 0 && Marked(row[x - 1])) &&
    (forall i :: 0 <= i < |starts| ==> 0 <= starts[i] < x) &&
    (forall i :: 0 <= i < |ends| ==> starts[i] <= ends[i] && ends[i] + 1 < x) &&
    (forall i :: 0 <= i < |ends| && i + 1 < |starts| ==> ends[i] + 1 < starts[i + 1])
  }

  /** The runs found are marked and bounded by unmarked pixels. */
  predicate ScanMarks(row: seq<bv32>, x: int, starts: seq<int>, ends: seq<int>, inBlock: bool)
    requires ScanBounds(row, x, starts, ends, inBlock)
  {
    (forall i, y :: 0 <= i < |ends| && starts[i] <= y <= ends[i] ==> Marked(row[y])) &&
    (inBlock ==> forall y :: starts[|starts| - 1] <= y < x ==> Marked(row[y])) &&
    (forall i :: 0 <= i < |starts| && 0 < starts[i] ==> !Marked(row[starts[i] - 1])) &&
    (forall i :: 0 <= i < |ends| ==> !Marked(row[ends[i] + 1]))
  }

  /** Every marked pixel seen so far lies in a run found. */
  predicate ScanCovers(row: seq<bv32>, x: int, starts: seq<int>, ends: seq<int>, inBlock: bool)
    requires ScanBounds(row, x, starts, ends, inBlock)
  {
    forall y :: 0 <= y < x && Marked(row[y]) ==>
      (exists i :: 0 <= i < |ends| && starts[i] <= y <= ends[i]) ||
      (inBlock && starts[|starts| - 1] <= y)
  }

  /** A marked pixel after an unmarked one opens a run. */
  lemma OpenRun(row: seq<bv32>, x: int, starts: seq<int>, ends: seq<int>)
    requires ScannedUpTo(row, x, starts, ends, false) && x < |row| && Marked(row[x])
    ensures ScannedUpTo(row, x + 1, starts + [x], ends, true)
  {
    OpenRunBounds(row, x, starts, ends);
    OpenRunMarks(row, x, starts, ends);
    OpenRunCovers(row, x, starts, ends);
  }

  lemma OpenRunBounds(row: seq<bv32>, x: int, starts: seq<int>, ends: seq<int>)
    requires ScanBounds(row, x, starts, ends, false) && x < |row| && Marked(row[x])
    ensures ScanBounds(row, x + 1, starts + [x], ends, true)
  {
    var s := starts + [x];
    assert forall i :: 0 <= i < |starts| ==> s[i] == starts[i];
  }

  lemma OpenRunMarks(row: seq<bv32>, x: int, starts: seq<int>, ends: seq<int>)
    requires ScanBounds(row, x, starts, ends, false) && x < |row| && Marked(row[x])
    requires ScanMarks(row, x, starts, ends, false)
    ensures ScanBounds(row, x + 1, starts + [x], ends, true)
    ensures ScanMarks(row, x + 1, starts + [x], ends, true)
  {
    OpenRunBounds(row, x, starts, ends);
    var s := starts + [x];
    assert forall i :: 0 <= i < |starts| ==> s[i] == starts[i];
  }

  lemma OpenRunCovers(row: seq<bv32>, x: int, starts: seq<int>, ends: seq<int>)
    requires ScanBounds(row, x, starts, ends, false) && x < |row| && Marked(row[x])
    requires ScanCovers(row, x, starts, ends, false)
    ensures ScanBounds(row, x + 1, starts + [x], ends, true)
    ensures ScanCovers(row, x + 1, starts + [x], ends, true)
  {
    OpenRunBounds(row, x, starts, ends);
    var s := starts + [x];
    forall y | 0 <= y < x + 1 && Marked(row[y])
      ensures (exists i :: 0 <= i < |ends| && s[i] <= y <= ends[i]) || s[|s| - 1] <= y
    {
      if y < x {
        var i :| 0 <= i < |ends| && starts[i] <= y <= ends[i];
        assert s[i] == starts[i];
      }
    }
  }

  /** A marked pixel inside a run extends it. */
  lemma ExtendRun(row: seq<bv32>, x: int, starts: seq<int>, ends: seq<int>)
    requires ScannedUpTo(row, x, starts, ends, true) && x < |row| && Marked(row[x])
    ensures ScannedUpTo(row, x + 1, starts, ends, true)
  {
  }

  /** An unmarked pixel closes the open run one position earlier. */
  lemma CloseRun(row: seq<bv32>, x: int, starts: seq<int>, ends: seq<int>)
    requires ScannedUpTo(row, x, starts, ends, true) && x < |row| && !Marked(row[x])
    ensures ScannedUpTo(row, x + 1, starts, ends + [x - 1], false)
  {
    CloseRunBounds(row, x, starts, ends);
    CloseRunMarks(row, x, starts, ends);
    CloseRunCovers(row, x, starts, ends);
  }

  lemma CloseRunBounds(row: seq<bv32>, x: int, starts: seq<int>, ends: seq<int>)
    requires ScanBounds(row, x, starts, ends, true) && x < |row| && !Marked(row[x])
    ensures ScanBounds(row, x + 1, starts, ends + [x - 1], false)
  {
    var e := ends + [x - 1];
    assert forall i :: 0 <= i < |ends| ==> e[i] == ends[i];
  }

  lemma CloseRunMarks(row: seq<bv32>, x: int, starts: seq<int>, ends: seq<int>)
    requires ScanBounds(row, x, starts, ends, true) && x < |row| && !Marked(row[x])
    requires ScanMarks(row, x, starts, ends, true)
    ensures ScanBounds(row, x + 1, starts, ends + [x - 1], false)
    ensures ScanMarks(row, x + 1, starts, ends + [x - 1], false)
  {
    CloseRunBounds(row, x, starts, ends);
    var e := ends + [x - 1];
    assert forall i :: 0 <= i < |ends| ==> e[i] == ends[i];
  }

  lemma CloseRunCovers(row: seq<bv32>, x: int, starts: seq<int>, ends: seq<int>)
    requires ScanBounds(row, x, starts, ends, true) && x < |row| && !Marked(row[x])
    requires ScanCovers(row, x, starts, ends, true)
    ensures ScanBounds(row, x + 1, starts, ends + [x - 1], false)
    ensures ScanCovers(row, x + 1, starts, ends + [x - 1], false)
  {
    CloseRunBounds(row, x, starts, ends);
    var e := ends + [x - 1];
    forall y | 0 <= y < x + 1 && Marked(row[y])
      ensures exists i :: 0 <= i < |e| && starts[i] <= y <= e[i]
    {
      if y < x && !(starts[|starts| - 1] <= y) {
        var i :| 0 <= i < |ends| && starts[i] <= y <= ends[i];
        assert e[i] == ends[i];
      } else {
        assert starts[|e| - 1] <= y <= e[|e| - 1];
      }
    }
  }

  /** An unmarked pixel outside any run changes nothing. */
  lemma StayOutside(row: seq<bv32>, x: int, starts: seq<int>, ends: seq<int>)
    requires ScannedUpTo(row, x, starts, ends, false) && x < |row| && !Marked(row[x])
    ensures ScannedUpTo(row, x + 1, starts, ends, false)
  {
  }

  /** After the last pixel, an open run closes at the last index. */
  lemma FinishScan(row: seq<bv32>, starts: seq<int>, ends: seq<int>, inBlock: bool)
    requires ScannedUpTo(row, |row|, starts, ends, inBlock)
    ensures IsRunList(row, starts, if inBlock then ends + [|row| - 1] else ends)
  {
    if inBlock {
      FinishOpen(row, starts, ends);
    } else {
      FinishClosed(row, starts, ends);
    }
  }

  /** A scan that ends outside a run has found the run list. */
  lemma FinishClosed(row: seq<bv32>, starts: seq<int>, ends: seq<int>)
    requires ScannedUpTo(row, |row|, starts, ends, false)
    ensures IsRunList(row, starts, ends)
  {
  }

  /** A scan that ends inside a run closes it at the last index. */
  lemma FinishOpen(row: seq<bv32>, starts: seq<int>, ends: seq<int>)
    requires ScannedUpTo(row, |row|, starts, ends, true)
    ensures IsRunList(row, starts, ends + [|row| - 1])
  {
    var e := ends + [|row| - 1];
    assert forall i :: 0 <= i < |ends| ==> e[i] == ends[i];
    assert e[|starts| - 1] == |row| - 1;
    FinishOpenMarks(row, starts, ends);
    FinishOpenCovers(row, starts, ends);
  }

  lemma FinishOpenMarks(row: seq<bv32>, starts: seq<int>, ends: seq<int>)
    requires ScannedUpTo(row, |row|, starts, ends, true)
    ensures var e := ends + [|row| - 1];
      forall i, y :: 0 <= i < |starts| && starts[i] <= y <= e[i] ==> Marked(row[y])
  {
    var e := ends + [|row| - 1];
    var last := |starts| - 1;
    forall i, y | 0 <= i < |starts| && starts[i] <= y <= e[i] ensures Marked(row[y]) {
      if i < last {
        assert e[i] == ends[i];
      } else {
        assert e[i] == |row| - 1;
      }
    }
  }

  lemma FinishOpenCovers(row: seq<bv32>, starts: seq<int>, ends: seq<int>)
    requires ScannedUpTo(row, |row|, starts, ends, true)
    ensures var e := ends + [|row| - 1];
      forall y :: 0 <= y < |row| && Marked(row[y]) ==> exists i :: 0 <= i < |starts| && starts[i] <= y <= e[i]
  {
    var e := ends + [|row| - 1];
    var last := |starts| - 1;
    assert e[last] == |row| - 1;
    forall y | 0 <= y < |row| && Marked(row[y])
      ensures exists i :: 0 <= i < |starts| && starts[i] <= y <= e[i]
    {
      if starts[last] <= y {
        assert starts[last] <= y <= e[last];
      } else {
        var i :| 0 <= i < |ends| && starts[i] <= y <= ends[i];
        assert e[i] == ends[i];
      }
    }
  }

  /** One iteration of the scan: looks at `row[x]`. */
  method ScanPixel(row: seq<bv32>, x: int, starts: seq<int>, ends: seq<int>, inBlock: bool)
    returns (starts': seq<int>, ends': seq<int>, inBlock': bool)
    requires ScannedUpTo(row, x, starts, ends, inBlock) && x < |row|
    ensures ScannedUpTo(row, x + 1, starts', ends', inBlock')
  {
    starts', ends', inBlock' := starts, ends, inBlock;
    if Marked(row[x]) {
      if !inBlock {
        OpenRun(row, x, starts, ends);
        inBlock' := true;
        starts' := starts + [x];
      } else {
        ExtendRun(row, x, starts, ends);
      }
    } else if inBlock {
      CloseRun(row, x, starts, ends);
      ends' := ends + [x - 1];
      inBlock' := false;
    } else {
      StayOutside(row, x, starts, ends);
    }
  }

  /** The scan of `rescaleBorder` over one border row (or column): a run opens
      at a marked pixel after an unmarked one and closes before the next
      unmarked pixel; a run still open at the end closes at the last pixel. */
  method DetectRuns(row: seq<bv32>) returns (starts: seq<int>, ends: seq<int>)
    ensures IsRunList(row, starts, ends)
  {
    starts, ends := [], [];
    var inBlock := false;
    var x := 0;
    while x < |row|
      invariant ScannedUpTo(row, x, starts, ends, inBlock)
      decreases |row| - x
    {
      starts, ends, inBlock := ScanPixel(row, x, starts, ends, inBlock);
      x := x + 1;
    }
    FinishScan(row, starts, ends, inBlock);
    if inBlock {
      ends := ends + [|row| - 1];
    }
  }

  /** The first step of `rescaleBorder`: a zero target dimension becomes 1,
      and a target more than one pixel wide and high is not a border and
      throws Wrong9PatchException. */
  function RescaleTarget(targetWidth: int, targetHeight: int): (r: Result<(int, int)>)
    ensures r.Ok? <==> targetWidth <= 1 || targetHeight <= 1
    ensures r.Ok? ==> r.value.0 == (if targetWidth == 0 then 1 else targetWidth)
    ensures r.Ok? ==> r.value.1 == (if targetHeight == 0 then 1 else targetHeight)
    ensures r.Ok? ==> r.value.0 != 0 && r.value.1 != 0
    ensures r.Err? ==> r.error == WrongNinePatch
  {
    var w := if targetWidth == 0 then 1 else targetWidth;
    var h := if targetHeight == 0 then 1 else targetHeight;
    if h > 1 && w > 1 then Err(WrongNinePatch) else Ok((w, h))
  }

  // ---- Resizing ----------------------------------------------------------

  /** The size `resizeNormalImage` and `resizeNinePatchImage` aim for: the
      recorded image size, or the decoded size when either recorded side is
      not positive, multiplied by a non-negative factor and truncated. */
  function NewSize(imageWidth: int, imageHeight: int, decodedWidth: nat, decodedHeight: nat, factor: real): (r: (int, int))
    ensures factor >= 0.0 ==> r.0 >= 0 && r.1 >= 0
    ensures factor >= 0.0 ==>
      var (w, h) := if imageWidth <= 0 || imageHeight <= 0 then (decodedWidth, decodedHeight) else (imageWidth, imageHeight);
      && r.0 as real <= w as real * factor < r.0 as real + 1.0
      && r.1 as real <= h as real * factor < r.1 as real + 1.0
    ensures factor == 1.0 ==> r == (if imageWidth <= 0 || imageHeight <= 0 then (decodedWidth, decodedHeight) else (imageWidth, imageHeight))
    ensures factor < 0.0 ==> r == (if imageWidth <= 0 || imageHeight <= 0 then (decodedWidth, decodedHeight) else (imageWidth, imageHeight))
  {
    var (w, h) := if imageWidth <= 0 || imageHeight <= 0 then (decodedWidth, decodedHeight) else (imageWidth, imageHeight);
    if factor >= 0.0 then ((w as real * factor).Floor, (h as real * factor).Floor) else (w, h)
  }

  /** A whole factor multiplies the chosen size exactly: nothing is lost to
      truncation. */
  lemma NewSizeWholeFactor(imageWidth: int, imageHeight: int, decodedWidth: nat, decodedHeight: nat, k: nat)
    ensures var (w, h) := if imageWidth <= 0 || imageHeight <= 0 then (decodedWidth, decodedHeight) else (imageWidth, imageHeight);
      NewSize(imageWidth, imageHeight, decodedWidth, decodedHeight, k as real) == (w * k, h * k)
  {
    var (w, h) := if imageWidth <= 0 || imageHeight <= 0 then (decodedWidth, decodedHeight) else (imageWidth, imageHeight);
    var r := NewSize(imageWidth, imageHeight, decodedWidth, decodedHeight, k as real);
    RealProduct(w, k);
    RealProduct(h, k);
    FloorOfWhole(r.0, w * k);
    FloorOfWhole(r.1, h * k);
  }

  lemma {:induction false} RealProduct(w: int, k: nat)
    ensures (w * k) as real == w as real * k as real
  {
    if k > 0 {
      RealProduct(w, k - 1);
      assert w * k == w * (k - 1) + w;
      assert w as real * k as real == w as real * (k - 1) as real + w as real;
    }
  }

  lemma FloorOfWhole(a: int, b: int)
    requires a as real <= b as real < a as real + 1.0
    ensures a == b
  {
  }

  /** `resizeNormalImage(image, w, h, information)`: with a factor of exactly
      1 the decoded image is returned as it is; otherwise `resample` does
      the scaling. */
  function ResizeNormal<I>(image: I, width: int, height: int, factor: real, resample: (I, int, int) -> I): (r: I)
    ensures factor == 1.0 ==> r == image
    ensures factor != 1.0 ==> r == resample(image, width, height)
  {
    if factor == 1.0 then image else resample(image, width, height)
  }
}
