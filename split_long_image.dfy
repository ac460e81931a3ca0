/** `split_image` of `split_long_image/split_long_image.py`: a tall image is
    cut into square tiles as wide as the image, from the top down, the last
    tile holding what is left; each tile is saved next to the image with a
    running number before the extension. The image is reduced to its size;
    opening, cropping and saving are left to the caller. */
module SplitLongImage {
  import opened Wrappers
  import opened Text

  // ---------------------------------------------------------------------------
  // `os.path.splitext` on POSIX paths

  /** The last index of `c` in `s`, as `str.rfind` (None for -1). */
  function RFind(s: string, c: char): (r: Option<nat>)
    ensures r.Some? ==> r.value < |s| && s[r.value] == c && forall j :: r.value < j < |s| ==> s[j] != c
    ensures r.None? ==> forall j :: 0 <= j < |s| ==> s[j] != c
    decreases |s|
  {
    if |s| == 0 then None
    else if s[|s| - 1] == c then Some(|s| - 1)
    else RFind(s[..|s| - 1], c)
  }

  /** Whether some character of `s[lo..hi]` is not a dot: the leading dots of
      a file name do not start an extension. */
  predicate HasNonDot(s: string, lo: nat, hi: nat)
    requires lo <= hi <= |s|
  {
    exists j :: lo <= j < hi && s[j] != '.'
  }

  /** `(root, ext)`: the extension runs from the last dot of the file name,
      provided the name has something other than dots before it. */
  function SplitExt(p: string): (string, string)
  {
    var dot := RFind(p, '.');
    var start := match RFind(p, '/') case None => 0 case Some(i) => i + 1;
    if dot.Some? && start <= dot.value && HasNonDot(p, start, dot.value)
    then (p[..dot.value], p[dot.value..])
    else (p, "")
  }

  /** Root and extension put back together give the path; the extension is
      empty or a dot followed by neither a dot nor a slash, and the root keeps
      the whole directory part. */
  lemma SplitExtParts(p: string)
    ensures SplitExt(p).0 + SplitExt(p).1 == p
    ensures var ext := SplitExt(p).1;
      ext == "" || (ext[0] == '.' && forall j :: 1 <= j < |ext| ==> ext[j] != '.' && ext[j] != '/')
    ensures (forall j :: 0 <= j < |p| ==> p[j] != '.') ==> SplitExt(p) == (p, "")
  {
    var dot := RFind(p, '.');
    var slash := RFind(p, '/');
    if dot.Some? && SplitExt(p).1 != "" {
      var ext := p[dot.value..];
      var start := match slash case None => 0 case Some(i) => i + 1;
      assert start <= dot.value;
      forall j | 1 <= j < |ext| ensures ext[j] != '.' && ext[j] != '/' {
        assert ext[j] == p[dot.value + j];
      }
    }
  }

  /** A name, a dot and an extension without dots or slashes split back into
      the name and the dotted extension. */
  lemma SplitExtOfName(root: string, ext: string)
    requires |root| > 0 && root[|root| - 1] != '.' && root[|root| - 1] != '/'
    requires forall j :: 0 <= j < |ext| ==> ext[j] != '.' && ext[j] != '/'
    ensures SplitExt(root + "." + ext) == (root, "." + ext)
  {
    var p := root + "." + ext;
    var d := |root|;
    assert p[d] == '.';
    forall j | d < j < |p| ensures p[j] != '.' && p[j] != '/' {
      assert p[j] == ext[j - d - 1];
    }
    RFindLast(p, '.', d);
    var start := match RFind(p, '/') case None => 0 case Some(i) => i + 1;
    assert start <= d - 1 by {
      if RFind(p, '/').Some? {
        assert p[d - 1] == root[d - 1] != '/';
        assert p[d] != '/';
      }
    }
    assert p[d - 1] != '.';
    assert HasNonDot(p, start, d);
    assert p[..d] == root;
    assert p[d..] == "." + ext;
  }

  lemma RFindLast(s: string, c: char, k: nat)
    requires k < |s| && s[k] == c && forall j :: k < j < |s| ==> s[j] != c
    ensures RFind(s, c) == Some(k)
    decreases |s|
  {
    if k < |s| - 1 {
      RFindLast(s[..|s| - 1], c, k);
    }
  }

  // ---------------------------------------------------------------------------
  // Tiles

  /** A crop box `(left, upper, right, lower)`. */
  datatype Box = Box(left: nat, upper: nat, right: nat, lower: nat)

  /** One saved tile: its box and its file name. */
  datatype Tile = Tile(box: Box, name: string)

  function Min(a: nat, b: nat): nat
  {
    if a <= b then a else b
  }

  /** The tile number `k`: rows from `k * width`, at most `width` of them,
      saved as `root_k.ext`. */
  function TileAt(root: string, ext: string, width: nat, height: nat, k: nat): Tile
  {
    Tile(Box(0, k * width, width, Min(k * width + width, height)), root + "_" + NatToString(k) + ext)
  }

  /** The number of tiles, the values `range(0, height, width)` takes: the
      ceiling of `height / width`, 0 for an empty image. */
  function TileCount(width: nat, height: nat): (n: nat)
    requires width > 0
    ensures (n - 1) * width < height <= n * width || (n == 0 && height == 0)
  {
    (height + width - 1) / width
  }

  /** The tiles of an image of that size, or None when `range` raises on a zero
      width (the error is printed and nothing is saved). */
  function Tiles(path: string, width: nat, height: nat): Option<seq<Tile>>
  {
    if width == 0 then None
    else
      var (root, ext) := SplitExt(path);
      Some(seq(TileCount(width, height), k requires 0 <= k => TileAt(root, ext, width, height, k)))
  }

  lemma MulLe(a: nat, b: nat, w: nat)
    requires a <= b
    ensures a * w <= b * w
  {
  }

  /** Tile `count` exists exactly when its first row is inside the image. */
  lemma CountBound(width: nat, height: nat, count: nat)
    requires width > 0
    ensures count < TileCount(width, height) <==> count * width < height
  {
    var n := TileCount(width, height);
    if count < n {
      MulLe(count, n - 1, width);
    } else {
      MulLe(n, count, width);
    }
  }

  lemma TilesStep(root: string, ext: string, width: nat, height: nat, count: nat)
    ensures seq(count + 1, k requires 0 <= k => TileAt(root, ext, width, height, k))
         == seq(count, k requires 0 <= k => TileAt(root, ext, width, height, k)) + [TileAt(root, ext, width, height, count)]
  {
  }

  /** The loop over `range(0, height, step)`, one tile per value of `y`. */
  method SplitImage(path: string, width: nat, height: nat) returns (r: Option<seq<Tile>>)
    ensures r == Tiles(path, width, height)
  {
    if width == 0 {
      return None;
    }
    var step := width;
    var (root, ext) := SplitExt(path);
    var tiles: seq<Tile> := [];
    var count: nat := 0;
    var y: nat := 0;
    CountBound(width, height, 0);
    while y < height
      invariant y == count * step
      invariant count <= TileCount(width, height)
      invariant count < TileCount(width, height) <==> y < height
      invariant tiles == seq(count, k requires 0 <= k => TileAt(root, ext, width, height, k))
      decreases height - y
    {
      TilesStep(root, ext, width, height, count);
      tiles := tiles + [Tile(Box(0, y, width, Min(y + step, height)), root + "_" + NatToString(count) + ext)];
      assert y + step == (count + 1) * step;
      count := count + 1;
      y := y + step;
      CountBound(width, height, count);
    }
    return Some(tiles);
  }

  /** The tiles cover the rows `[0, height)` exactly: the first starts at the
      top, each starts where the one before ends, and the last ends at the
      bottom; all are as wide as the image. */
  lemma TilesCover(path: string, width: nat, height: nat)
    requires width > 0 && height > 0
    ensures var ts := Tiles(path, width, height).value;
      |ts| > 0 && ts[0].box.upper == 0 && ts[|ts| - 1].box.lower == height
      && (forall k :: 0 <= k < |ts| - 1 ==> ts[k + 1].box.upper == ts[k].box.lower)
      && (forall k :: 0 <= k < |ts| ==>
            (ts[k].box.left == 0 && ts[k].box.right == width && ts[k].box.upper < ts[k].box.lower))
  {
    var n := TileCount(width, height);
    var ts := Tiles(path, width, height).value;
    assert (n - 1) * width + width == n * width;
    forall k | 0 <= k < n - 1 ensures ts[k + 1].box.upper == ts[k].box.lower {
      MulLe(k + 1, n - 1, width);
      assert k * width + width == (k + 1) * width;
    }
    forall k | 0 <= k < n ensures ts[k].box.upper < ts[k].box.lower {
      CountBound(width, height, k);
    }
  }

  /** Every tile is at most `width` rows tall, and all but the last are
      exactly square. */
  lemma TilesSquare(path: string, width: nat, height: nat)
    requires width > 0
    ensures var ts := Tiles(path, width, height).value;
      (forall k :: 0 <= k < |ts| ==> ts[k].box.lower - ts[k].box.upper <= width)
      && (forall k :: 0 <= k < |ts| - 1 ==> ts[k].box.lower - ts[k].box.upper == width)
  {
    var n := TileCount(width, height);
    var ts := Tiles(path, width, height).value;
    forall k | 0 <= k < n - 1 ensures ts[k].box.lower - ts[k].box.upper == width {
      MulLe(k + 1, n - 1, width);
      assert k * width + width == (k + 1) * width;
    }
  }

  /** Tile `k` is saved under the image's root, `_k`, then its extension. */
  lemma TileNames(root: string, ext: string, width: nat, height: nat, k: nat)
    requires |root| > 0 && root[|root| - 1] != '.' && root[|root| - 1] != '/'
    requires forall j :: 0 <= j < |ext| ==> ext[j] != '.' && ext[j] != '/'
    requires width > 0 && k < TileCount(width, height)
    ensures Tiles(root + "." + ext, width, height).value[k].name == root + "_" + NatToString(k) + "." + ext
  {
    SplitExtOfName(root, ext);
  }
}
