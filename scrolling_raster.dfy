/**
  The pixel buffer behind each spectrogram canvas: a fixed grid of RGBA pixels that
  advances by one column per frame, the oldest column dropped on the left and a
  freshly generated one written, fully opaque, on the right.
 */
module ScrollingRaster {
  import opened ColorMap

  datatype Pixel = Pixel(r: int, g: int, b: int, a: int)

  /** A freshly sized canvas is transparent black. */
  const Blank: Pixel := Pixel(0, 0, 0, 0)

  /** The pixel a generated colour is written as: alpha 255. */
  function Opaque(c: Rgb): Pixel {
    Pixel(c.r, c.g, c.b, 255)
  }

  /** The column a row-to-colour generator produces, top row first. */
  function GeneratedColumn(gen: int --> Rgb, height: nat): (column: seq<Pixel>)
    requires forall row :: 0 <= row < height ==> gen.requires(row)
    ensures |column| == height
    ensures forall row :: 0 <= row < height ==> column[row] == Opaque(gen(row)) && column[row].a == 255
  {
    seq(height, row requires 0 <= row < height => Opaque(gen(row)))
  }

  /** The image as a time window of columns, oldest first, after one more column arrives. */
  function Scroll(columns: seq<seq<Pixel>>, column: seq<Pixel>): (r: seq<seq<Pixel>>)
    requires |columns| > 0
    ensures |r| == |columns|
    ensures forall c :: 0 <= c < |columns| - 1 ==> r[c] == columns[c + 1]
    ensures r[|columns| - 1] == column
  {
    columns[1..] + [column]
  }

  /** The image after a whole run of columns arrives, one `Scroll` each. */
  function ScrollAll(columns: seq<seq<Pixel>>, arrivals: seq<seq<Pixel>>): seq<seq<Pixel>>
    requires |columns| > 0
    decreases |arrivals|
  {
    if |arrivals| == 0 then columns else ScrollAll(Scroll(columns, arrivals[0]), arrivals[1..])
  }

  /**
    The raster is a sliding window: after any run of columns it shows exactly the
    last `width` columns of everything it has held, in arrival order; once `width`
    columns have arrived, nothing of the original image is left.
   */
  lemma {:induction false} ScrollAllIsWindow(columns: seq<seq<Pixel>>, arrivals: seq<seq<Pixel>>)
    requires |columns| > 0
    ensures ScrollAll(columns, arrivals) == (columns + arrivals)[|arrivals|..]
    ensures |arrivals| >= |columns| ==> ScrollAll(columns, arrivals) == arrivals[|arrivals| - |columns|..]
    decreases |arrivals|
  {
    if |arrivals| > 0 {
      var next := Scroll(columns, arrivals[0]);
      ScrollAllIsWindow(next, arrivals[1..]);
      assert next + arrivals[1..] == (columns + arrivals)[1..];
    }
  }

  /** One spectrogram canvas's pixels, `pixels[row, column]`, row 0 at the top. */
  class Raster {
    const width: nat
    const height: nat
    const pixels: array2<Pixel>

    /**
      The grid matches the canvas size. The scroll reads a region `width - 1`
      pixels wide and `height` tall, which the canvas refuses when either is 0.
     */
    ghost predicate Valid() {
      pixels.Length0 == height && pixels.Length1 == width && 2 <= width && 1 <= height
    }

    /** The image as its columns, left (oldest) to right (newest). */
    ghost function Columns(): (cols: seq<seq<Pixel>>)
      requires Valid()
      reads pixels
      ensures |cols| == width
      ensures forall col :: 0 <= col < width ==> |cols[col]| == height
      ensures forall col, row :: 0 <= col < width && 0 <= row < height ==> cols[col][row] == pixels[row, col]
    {
      seq(width, col requires 0 <= col < width reads pixels =>
        seq(height, row requires 0 <= row < height reads pixels => pixels[row, col]))
    }

    /** A canvas of the given size, cleared. */
    constructor (width: nat, height: nat)
      requires 2 <= width && 1 <= height
      ensures Valid() && this.width == width && this.height == height && fresh(pixels)
      ensures forall row, col :: 0 <= row < height && 0 <= col < width ==> pixels[row, col] == Blank
    {
      this.width := width;
      this.height := height;
      pixels := new Pixel[height, width]((_, _) => Blank);
    }

    /**
      The scroll of both spectrogram views: every column moves one place left, the
      leftmost is dropped, and the rightmost is written from `gen`, row by row.
     */
    method AppendColumn(gen: int --> Rgb)
      requires Valid()
      requires forall row :: 0 <= row < height ==> gen.requires(row)
      modifies pixels
      ensures forall row, col :: 0 <= row < height && 0 <= col < width - 1 ==>
        pixels[row, col] == old(pixels[row, col + 1])
      ensures forall row :: 0 <= row < height ==> pixels[row, width - 1] == Opaque(gen(row))
      ensures Columns() == Scroll(old(Columns()), GeneratedColumn(gen, height))
    {
      // the image from column 1 on, put back at column 0
      for row := 0 to height
        invariant forall r, c :: 0 <= r < row && 0 <= c < width - 1 ==> pixels[r, c] == old(pixels[r, c + 1])
        invariant forall r, c :: 0 <= r < row && c == width - 1 ==> pixels[r, c] == old(pixels[r, c])
        invariant forall r, c :: row <= r < height && 0 <= c < width ==> pixels[r, c] == old(pixels[r, c])
      {
        for col := 0 to width - 1
          invariant forall r, c :: 0 <= r < row && 0 <= c < width - 1 ==> pixels[r, c] == old(pixels[r, c + 1])
          invariant forall r, c :: 0 <= r < row && c == width - 1 ==> pixels[r, c] == old(pixels[r, c])
          invariant forall c :: 0 <= c < col ==> pixels[row, c] == old(pixels[row, c + 1])
          invariant forall c :: col <= c < width ==> pixels[row, c] == old(pixels[row, c])
          invariant forall r, c :: row < r < height && 0 <= c < width ==> pixels[r, c] == old(pixels[r, c])
        {
          pixels[row, col] := pixels[row, col + 1];
        }
      }
      // the new column, at the right edge
      for row := 0 to height
        invariant forall r, c :: 0 <= r < height && 0 <= c < width - 1 ==> pixels[r, c] == old(pixels[r, c + 1])
        invariant forall r :: 0 <= r < row ==> pixels[r, width - 1] == Opaque(gen(r))
      {
        pixels[row, width - 1] := Opaque(gen(row));
      }
      ghost var before, after := old(Columns()), Columns();
      ghost var column := GeneratedColumn(gen, height);
      forall col | 0 <= col < width ensures after[col] == Scroll(before, column)[col] {
        if col < width - 1 {
          assert after[col] == before[col + 1];
        } else {
          assert after[col] == column;
        }
      }
    }
  }
}
