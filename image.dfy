/** The Space Image Format of solve8.py: an image is a run of digits cut
    into layers of `w * h` pixels; the visible picture takes, pixel by
    pixel, the first layer that is not transparent, and is drawn as `h`
    rows of `w` characters. */
module Image {
  import opened Wrappers
  import Text
  import Decimal

  datatype ImageError =
    | ZeroDivision     // `len(data) % (width * height)` with an empty layer size
    | AssertionFailed  // one of the `assert` statements of the class
    | BadPixel         // `mapping[int(chr)]` on a character other than 0, 1 or 2
    | NoLayers         // `min` of an image without layers: a `ValueError`

  /** `SpaceImageFormat`: its width, height and layers. */
  datatype SpaceImage = SpaceImage(w: nat, h: nat, layers: seq<string>)

  /** What the constructor establishes: every layer holds `w * h` pixels. */
  predicate Valid(img: SpaceImage) {
    img.w * img.h > 0 && forall i :: 0 <= i < |img.layers| ==> |img.layers[i]| == img.w * img.h
  }

  /** The layers one after the other. */
  function Flatten(layers: seq<string>): string {
    if layers == [] then [] else Flatten(layers[..|layers| - 1]) + layers[|layers| - 1]
  }

  /** `_read_layer(data, n)`: the `n`-th block of `size` characters. */
  function ReadLayer(data: string, size: nat, n: nat): (layer: string)
    requires (n + 1) * size <= |data|
    ensures |layer| == size
  {
    assert (n + 1) * size == n * size + size;
    data[n * size .. (n + 1) * size]
  }

  /** Layer `i` of `count` lies within the first `count` layers. */
  lemma LayerFits(size: nat, i: nat, count: nat)
    requires i < count
    ensures (i + 1) * size <= count * size
  {
    Decimal.MulMonotone(size, i + 1, count);
  }

  /** The first `count` layers of `data`. */
  function Layers(data: string, size: nat, count: nat): (layers: seq<string>)
    requires count * size <= |data|
    ensures |layers| == count
    ensures forall i :: 0 <= i < count ==> |layers[i]| == size
  {
    seq(count, i requires 0 <= i < count =>
      LayerFits(size, i, count);
      ReadLayer(data, size, i))
  }

  /** Cutting `data` into layers loses and reorders nothing. */
  lemma {:induction false} LayersFlatten(data: string, size: nat, count: nat)
    requires count * size <= |data|
    ensures Flatten(Layers(data, size, count)) == data[..count * size]
  {
    if count > 0 {
      var layers := Layers(data, size, count);
      Decimal.MulMonotone(size, count - 1, count);
      LayersFlatten(data, size, count - 1);
      assert layers[..count - 1] == Layers(data, size, count - 1);
      assert (count - 1) * size + size == count * size;
      assert data[..count * size] == data[..(count - 1) * size] + data[(count - 1) * size .. count * size];
    }
  }

  /** `SpaceImageFormat(width, height, data)`. */
  function NewImage(w: nat, h: nat, data: string): (r: Result<SpaceImage, ImageError>)
    ensures r.Failure? <==> w * h == 0 || |data| % (w * h) != 0
    ensures w * h == 0 ==> r == Failure(ZeroDivision)
    ensures r.Success? ==> Valid(r.value) && r.value.w == w && r.value.h == h &&
                           |r.value.layers| * (w * h) == |data| && Flatten(r.value.layers) == data
  {
    if w * h == 0 then Failure(ZeroDivision)
    else if |data| % (w * h) != 0 then Failure(AssertionFailed)
    else
      var count := |data| / (w * h);
      LayersFlatten(data, w * h, count);
      Success(SpaceImage(w, h, Layers(data, w * h, count)))
  }

  /** `overlay_pixel(values)`: the first black or white value, else
      transparent. */
  function OverlayPixel(values: seq<char>): (p: char)
    ensures p in "012"
    ensures p == '2' <==> forall i :: 0 <= i < |values| ==> values[i] !in "01"
    ensures p != '2' ==> exists i :: 0 <= i < |values| && values[i] == p &&
                                     forall j :: 0 <= j < i ==> values[j] !in "01"
  {
    if values == [] then '2'
    else if values[0] in "01" then values[0]
    else
      var p := OverlayPixel(values[1..]);
      assert forall i :: 1 <= i < |values| ==> values[i] == values[1..][i - 1];
      p
  }

  /** The values of pixel `k` through the layers: an element of `zip(*layers)`. */
  function Column(layers: seq<string>, k: nat): seq<char>
    requires forall i :: 0 <= i < |layers| ==> k < |layers[i]|
  {
    seq(|layers|, i requires 0 <= i < |layers| => layers[i][k])
  }

  /** `p` is what shows at pixel `k`: the value of the first layer that is
      black or white there, transparent when every layer is. */
  predicate Visible(layers: seq<string>, k: nat, p: char) {
    (forall i :: 0 <= i < |layers| ==> k < |layers[i]|) &&
    (p == '2' <==> forall i :: 0 <= i < |layers| ==> layers[i][k] !in "01") &&
    (p != '2' ==> exists i :: 0 <= i < |layers| && layers[i][k] == p &&
                             forall j :: 0 <= j < i ==> layers[j][k] !in "01")
  }

  lemma ColumnVisible(layers: seq<string>, k: nat)
    requires forall i :: 0 <= i < |layers| ==> k < |layers[i]|
    ensures Visible(layers, k, OverlayPixel(Column(layers, k)))
  {
    var col := Column(layers, k);
    var p := OverlayPixel(col);
    assert forall i :: 0 <= i < |layers| ==> col[i] == layers[i][k];
    if p != '2' {
      var i :| 0 <= i < |col| && col[i] == p && forall j :: 0 <= j < i ==> col[j] !in "01";
      assert layers[i][k] == p;
    }
  }

  /** `overlay_layers()`: pixel by pixel, the first layer that is black or
      white shows; with no layers at all `zip` gives nothing and the length
      assertion fails. */
  function OverlayLayers(img: SpaceImage): (r: Result<string, ImageError>)
    requires Valid(img)
    ensures r.Failure? <==> img.layers == []
    ensures r.Failure? ==> r.error == AssertionFailed
    ensures r.Success? ==> |r.value| == img.w * img.h
    ensures r.Success? ==> forall k :: 0 <= k < |r.value| ==> r.value[k] in "012" && Visible(img.layers, k, r.value[k])
  {
    if img.layers == [] then Failure(AssertionFailed)
    else
      var picture := seq(img.w * img.h, k requires 0 <= k < img.w * img.h => OverlayPixel(Column(img.layers, k)));
      assert forall k :: 0 <= k < |picture| ==> Visible(img.layers, k, picture[k]) by {
        forall k | 0 <= k < |picture| {
          ColumnVisible(img.layers, k);
        }
      }
      Success(picture)
  }

  /** `layer[a : b]` for `0 <= a`: Python clamps the bounds to the string. */
  function PySlice(s: string, a: nat, b: nat): (r: string)
    ensures |r| <= |s| && (a <= b <= |s| ==> r == s[a..b])
  {
    var lo := if a < |s| then a else |s|;
    var hi := if b < lo then lo else if b < |s| then b else |s|;
    s[lo..hi]
  }

  /** `layer[i * w : (i + 1) * w] for i in range(h)`. */
  function Rows(w: nat, h: nat, layer: string): (rows: seq<string>)
    ensures |rows| == h
  {
    seq(h, i requires 0 <= i < h => var start := i * w; PySlice(layer, start, start + w))
  }

  /** `mapping[int(chr)]` with `mapping = ' #?'`. */
  function Render(c: char): char
    requires c in "012"
  {
    if c == '0' then ' ' else if c == '1' then '#' else '?'
  }

  function RenderRow(row: string): (r: string)
    requires forall j :: 0 <= j < |row| ==> row[j] in "012"
    ensures |r| == |row| && '\n' !in r
  {
    seq(|row|, j requires 0 <= j < |row| => Render(row[j]))
  }

  predicate Drawable(rows: seq<string>) {
    forall i, j :: 0 <= i < |rows| && 0 <= j < |rows[i]| ==> rows[i][j] in "012"
  }

  /** The rows drawn, one string each. */
  function Lines(w: nat, h: nat, layer: string): (lines: seq<string>)
    requires Drawable(Rows(w, h, layer))
    ensures |lines| == h && forall i :: 0 <= i < h ==> '\n' !in lines[i]
  {
    var rows := Rows(w, h, layer);
    seq(h, i requires 0 <= i < h => RenderRow(rows[i]))
  }

  /** `print_layer(layer)`: the rows drawn and joined by newlines; the rows
      hold the first `w * h` pixels of the layer, or all of a shorter one. */
  function PrintLayer(w: nat, h: nat, layer: string): (r: Result<string, ImageError>)
    ensures r.Failure? <==> exists k :: 0 <= k < |layer| && k < w * h && layer[k] !in "012"
    ensures r.Failure? ==> r.error == BadPixel
  {
    DrawableIff(w, h, layer);
    if Drawable(Rows(w, h, layer)) then Success(Text.Join(Lines(w, h, layer), '\n'))
    else Failure(BadPixel)
  }

  /** The rows can be drawn exactly when the pixels they hold are all black,
      white or transparent. */
  lemma DrawableIff(w: nat, h: nat, layer: string)
    ensures Drawable(Rows(w, h, layer)) <==> forall k :: 0 <= k < |layer| && k < w * h ==> layer[k] in "012"
  {
    if Drawable(Rows(w, h, layer)) {
      DrawableAll(w, h, layer);
    } else {
      UndrawablePixel(w, h, layer);
    }
  }

  lemma DrawableAll(w: nat, h: nat, layer: string)
    requires Drawable(Rows(w, h, layer))
    ensures forall k :: 0 <= k < |layer| && k < w * h ==> layer[k] in "012"
  {
    forall k | 0 <= k < |layer| && k < w * h
      ensures layer[k] in "012"
    {
      DrawablePixel(w, h, layer, k);
    }
  }

  lemma UndrawablePixel(w: nat, h: nat, layer: string)
    requires !Drawable(Rows(w, h, layer))
    ensures exists k :: 0 <= k < |layer| && k < w * h && layer[k] !in "012"
  {
    var rows := Rows(w, h, layer);
    var i, j :| 0 <= i < |rows| && 0 <= j < |rows[i]| && rows[i][j] !in "012";
    RowPixelBack(w, h, layer, i, j);
    var k := i * w + j;
    assert k < |layer| && k < w * h && layer[k] !in "012";
  }

  lemma DrawablePixel(w: nat, h: nat, layer: string, k: nat)
    requires Drawable(Rows(w, h, layer)) && k < |layer| && k < w * h
    ensures layer[k] in "012"
  {
    var i, j := k / w, k % w;
    Divide(k, w, h);
    RowPixel(w, h, layer, i, j);
  }

  /** Pixel `k` of a layer is in row `k / w` and column `k % w`. */
  lemma Divide(k: nat, w: nat, h: nat)
    requires k < w * h
    ensures k / w < h && k % w < w && (k / w) * w + k % w == k
  {
    if k / w >= h {
      Decimal.MulMonotone(w, h, k / w);
    }
  }

  /** Character `j` of row `i` is pixel `i * w + j` of the layer, when the
      layer has it. */
  lemma RowPixel(w: nat, h: nat, layer: string, i: nat, j: nat)
    requires i < h && j < w && i * w + j < |layer|
    ensures j < |Rows(w, h, layer)[i]| && Rows(w, h, layer)[i][j] == layer[i * w + j]
  {
    assert (i + 1) * w == i * w + w;
  }

  /** Every character of row `i` is one of those pixels. */
  lemma RowPixelBack(w: nat, h: nat, layer: string, i: nat, j: nat)
    requires i < h && j < |Rows(w, h, layer)[i]|
    ensures j < w && i * w + j < |layer| && i * w + j < w * h && Rows(w, h, layer)[i][j] == layer[i * w + j]
  {
    assert (i + 1) * w == i * w + w;
    Decimal.MulMonotone(w, i + 1, h);
  }

  /** Row `i` of a whole layer is its `i`-th run of `w` pixels. */
  lemma RowSlice(w: nat, h: nat, layer: string, i: nat)
    requires i < h && |layer| == w * h
    ensures i * w + w <= |layer| && Rows(w, h, layer)[i] == layer[i * w .. i * w + w]
  {
    Decimal.MulMonotone(w, i + 1, h);
    assert (i + 1) * w == i * w + w;
  }

  /** A layer whose pixels can all be drawn prints without error, and its
      printed text splits back into the drawn rows. */
  lemma PrintLayerSplit(w: nat, h: nat, layer: string)
    requires h >= 1
    requires forall k :: 0 <= k < |layer| ==> layer[k] in "012"
    ensures Drawable(Rows(w, h, layer)) && PrintLayer(w, h, layer).Success?
    ensures Text.Split(PrintLayer(w, h, layer).value, '\n') == Lines(w, h, layer)
  {
    DrawableIff(w, h, layer);
    Text.SplitJoin(Lines(w, h, layer), '\n');
  }

  /** `lines` are `h` lines, line `i` drawing the `i`-th run of `w` pixels
      of `layer`. */
  predicate ShowsLayer(lines: seq<string>, w: nat, h: nat, layer: string) {
    |layer| == w * h && (forall k :: 0 <= k < |layer| ==> layer[k] in "012") &&
    |lines| == h && forall i :: 0 <= i < h ==>
      i * w + w <= |layer| && lines[i] == RenderRow(layer[i * w .. i * w + w])
  }

  /** A whole layer of `h` rows is drawn as `h` lines of `w` characters, line
      `i` drawing pixels `i * w` up to `i * w + w`. */
  lemma PrintLayerLines(w: nat, h: nat, layer: string)
    requires h >= 1 && |layer| == w * h
    requires forall k :: 0 <= k < |layer| ==> layer[k] in "012"
    ensures PrintLayer(w, h, layer).Success?
    ensures ShowsLayer(Text.Split(PrintLayer(w, h, layer).value, '\n'), w, h, layer)
  {
    PrintLayerSplit(w, h, layer);
    var lines := Lines(w, h, layer);
    forall i | 0 <= i < h
      ensures i * w + w <= |layer| && lines[i] == RenderRow(layer[i * w .. i * w + w])
    {
      RowSlice(w, h, layer, i);
    }
  }

  /** Layer `i` is the first of those with the fewest zeroes. */
  predicate FirstFewestZeroes(layers: seq<string>, i: nat) {
    i < |layers| &&
    (forall j :: 0 <= j < |layers| ==> Text.Count(layers[i], '0') <= Text.Count(layers[j], '0')) &&
    (forall j :: 0 <= j < i ==> Text.Count(layers[i], '0') < Text.Count(layers[j], '0'))
  }

  /** `min(layers, key=number of zeroes)`: `min` keeps the first of equal
      keys. */
  function FewestZeroes(layers: seq<string>): (r: Option<nat>)
    ensures r.None? <==> layers == []
    ensures r.Some? ==> FirstFewestZeroes(layers, r.value)
  {
    if layers == [] then None
    else
      var last := |layers| - 1;
      match FewestZeroes(layers[..last])
      case None => Some(0)
      case Some(i) =>
        assert forall j :: 0 <= j < last ==> layers[..last][j] == layers[j];
        if Text.Count(layers[last], '0') < Text.Count(layers[i], '0') then Some(last) else Some(i)
  }

  /** There is only one first layer with the fewest zeroes. */
  lemma FirstFewestZeroesUnique(layers: seq<string>, i: nat, k: nat)
    requires FirstFewestZeroes(layers, i) && FirstFewestZeroes(layers, k)
    ensures i == k
  {
    var zi, zk := Text.Count(layers[i], '0'), Text.Count(layers[k], '0');
    assert zi <= zk && zk <= zi;
  }

  /** `puzzle1` on the digits of the input: in the 25 by 6 image, the number
      of ones times the number of twos of the layer with the fewest zeroes. */
  function Checksum(data: string): (r: Result<nat, ImageError>)
    ensures r.Failure? <==> data == [] || |data| % 150 != 0
    ensures r.Success? ==> var layers := NewImage(25, 6, data).value.layers;
      exists i: nat :: FirstFewestZeroes(layers, i) &&
        r.value == Text.Count(layers[i], '1') * Text.Count(layers[i], '2')
  {
    match NewImage(25, 6, data)
    case Failure(e) => Failure(e)
    case Success(img) =>
      match FewestZeroes(img.layers)
      case None => Failure(NoLayers)
      case Some(i) =>
        Success(Text.Count(img.layers[i], '1') * Text.Count(img.layers[i], '2'))
  }

  /** `puzzle2` on the digits of the input: the 25 by 6 picture, drawn. */
  function Picture(data: string): (r: Result<string, ImageError>)
    ensures r.Failure? <==> data == [] || |data| % 150 != 0
  {
    match NewImage(25, 6, data)
    case Failure(e) => Failure(e)
    case Success(img) =>
      match OverlayLayers(img)
      case Failure(e) => Failure(e)
      case Success(overlay) =>
        PrintLayerLines(25, 6, overlay);
        PrintLayer(25, 6, overlay)
  }

  /** Character `c` draws what shows at pixel `k` through the layers. */
  ghost predicate DrawsPixel(layers: seq<string>, k: nat, c: char) {
    exists p :: p in "012" && Visible(layers, k, p) && c == Render(p)
  }

  /** The picture has 6 lines of 25 characters; the character in line `i`
      and column `j` draws what shows at pixel `25 * i + j` through the
      layers. */
  lemma PictureShowsFirstOpaque(data: string)
    requires Picture(data).Success?
    ensures var lines := Text.Split(Picture(data).value, '\n');
      |lines| == 6 && forall i, j :: 0 <= i < 6 && 0 <= j < 25 ==>
        |lines[i]| == 25 && DrawsPixel(NewImage(25, 6, data).value.layers, 25 * i + j, lines[i][j])
  {
    var img := NewImage(25, 6, data).value;
    var overlay := OverlayLayers(img).value;
    assert Picture(data) == PrintLayer(25, 6, overlay);
    PrintLayerLines(25, 6, overlay);
    var lines := Text.Split(Picture(data).value, '\n');
    forall i, j | 0 <= i < 6 && 0 <= j < 25
      ensures |lines[i]| == 25 && DrawsPixel(img.layers, 25 * i + j, lines[i][j])
    {
      PicturePixel(img.layers, overlay, lines, i, j);
    }
  }

  lemma PicturePixel(layers: seq<string>, overlay: string, lines: seq<string>, i: nat, j: nat)
    requires i < 6 && j < 25 && |overlay| == 150
    requires forall k :: 0 <= k < |overlay| ==> overlay[k] in "012" && Visible(layers, k, overlay[k])
    requires ShowsLayer(lines, 25, 6, overlay)
    ensures |lines[i]| == 25 && DrawsPixel(layers, 25 * i + j, lines[i][j])
  {
    assert i * 25 == 25 * i;
    var p := overlay[25 * i + j];
    assert lines[i][j] == RenderRow(overlay[25 * i .. 25 * i + 25])[j] == Render(p);
    assert Visible(layers, 25 * i + j, p);
  }
}
