/** Where two captures differ: `_edge` and `diff_box` of tools/ui-frame-integrity.py. */
module DiffBox {
  import opened Bytes

  predicate DiffersAt(a: seq<byte>, b: seq<byte>, i: nat) { i < |a| && i < |b| && a[i] != b[i] }

  /** `i` is the first place, or the last, at which the blobs differ between `low` and `high`. */
  ghost predicate IsEdge(a: seq<byte>, b: seq<byte>, low: nat, high: nat, first: bool, i: nat) {
    && low <= i < high && DiffersAt(a, b, i)
    && forall k: nat :: low <= k < high && DiffersAt(a, b, k) ==> if first then i <= k else k <= i
  }

  lemma {:induction false} SameSlice(a: seq<byte>, b: seq<byte>, low: nat, high: nat)
    requires low <= high <= |a| && high <= |b|
    ensures a[low..high] == b[low..high] <==> forall k: nat :: low <= k < high ==> !DiffersAt(a, b, k)
  {
    if a[low..high] == b[low..high] {
      forall k: nat | low <= k < high ensures a[k] == b[k] { assert a[low..high][k - low] == b[low..high][k - low]; }
    }
    if forall k: nat :: low <= k < high ==> !DiffersAt(a, b, k) {
      forall j | 0 <= j < high - low ensures a[low..high][j] == b[low..high][j] { assert !DiffersAt(a, b, low + j); }
    }
  }

  /** `_edge`, on a stretch on which the blobs differ. */
  method Edge(a: seq<byte>, b: seq<byte>, from: nat, to: nat, first: bool) returns (edge: nat)
    requires from < to <= |a| && to <= |b| && a[from..to] != b[from..to]
    ensures IsEdge(a, b, from, to, first, edge)
  {
    var low, high := from, to;
    SameSlice(a, b, low, high);
    while high - low > 1
      invariant from <= low < high <= to
      invariant exists k: nat :: low <= k < high && DiffersAt(a, b, k)
      invariant forall k: nat :: from <= k < to && DiffersAt(a, b, k) ==> if first then low <= k else k < high
    {
      var middle := (low + high) / 2;
      SameSlice(a, b, low, middle);
      SameSlice(a, b, middle, high);
      if first {
        if a[low..middle] != b[low..middle] { high := middle; } else { low := middle; }
      } else {
        if a[middle..high] != b[middle..high] { low := middle; } else { high := middle; }
      }
    }
    edge := low;
  }

  // ------------------------------------------------------------------- the box

  function Row(i: nat, width: nat): nat
    requires width > 0
  {
    i / 3 / width
  }

  function Column(i: nat, width: nat): nat
    requires width > 0
  {
    i / 3 % width
  }

  /** Where byte `i` lies: in row `Row`, three bytes a pixel. */
  lemma {:induction false} WhereItLies(i: nat, width: nat)
    requires width > 0
    ensures Row(i, width) * (width * 3) <= i < (Row(i, width) + 1) * (width * 3)
    ensures Column(i, width) == (i - Row(i, width) * (width * 3)) / 3 && Column(i, width) < width
  {
    var p := i / 3;
    assert p == (p / width) * width + p % width;
    var r := p / width;
    assert r * (width * 3) == (r * width) * 3;
    assert (r + 1) * (width * 3) == r * (width * 3) + width * 3;
  }

  lemma {:induction false} RowOf(i: nat, r: nat, width: nat)
    requires width > 0 && r * (width * 3) <= i < (r + 1) * (width * 3)
    ensures Row(i, width) == r
  {
    WhereItLies(i, width);
    var q, stride := Row(i, width), width * 3;
    if q < r { OrderedProducts(q + 1, r, stride); }
    if r < q { OrderedProducts(r + 1, q, stride); }
  }

  lemma {:induction false} OrderedProducts(m: nat, n: nat, stride: nat)
    requires m <= n
    ensures m * stride <= n * stride
  {
  }

  lemma {:induction false} RowsInOrder(i: nat, k: nat, width: nat)
    requires width > 0 && i <= k
    ensures Row(i, width) <= Row(k, width)
  {
    WhereItLies(i, width);
    WhereItLies(k, width);
    var p, q := Row(i, width), Row(k, width);
    if q < p { OrderedProducts(q + 1, p, width * 3); }
  }

  lemma {:induction false} ColumnsInOrder(i: nat, k: nat, width: nat)
    requires width > 0 && i <= k && Row(i, width) == Row(k, width)
    ensures Column(i, width) <= Column(k, width)
  {
    WhereItLies(i, width);
    WhereItLies(k, width);
  }

  /** A rectangle of pixels, its right and bottom sides included. */
  datatype Rectangle = Rectangle(left: int, top: int, right: int, bottom: int) {
    predicate Has(row: int, column: int) { top <= row <= bottom && left <= column <= right }
  }

  /** Every pixel the captures differ in lies in the rectangle. */
  ghost predicate Covers(r: Rectangle, a: seq<byte>, b: seq<byte>, width: nat)
    requires width > 0
  {
    forall i: nat :: DiffersAt(a, b, i) ==> r.Has(Row(i, width), Column(i, width))
  }

  /** No smaller rectangle covers them. */
  ghost predicate Smallest(r: Rectangle, a: seq<byte>, b: seq<byte>, width: nat)
    requires width > 0
  {
    && Covers(r, a, b, width)
    && forall s: Rectangle :: Covers(s, a, b, width) ==>
         s.left <= r.left && s.top <= r.top && r.right <= s.right && r.bottom <= s.bottom
  }

  /** Each side of the rectangle is where the captures differ. */
  ghost predicate Touched(r: Rectangle, a: seq<byte>, b: seq<byte>, width: nat, l: nat, t: nat, ri: nat, bo: nat)
    requires width > 0
  {
    && DiffersAt(a, b, l) && Column(l, width) == r.left
    && DiffersAt(a, b, t) && Row(t, width) == r.top
    && DiffersAt(a, b, ri) && Column(ri, width) == r.right
    && DiffersAt(a, b, bo) && Row(bo, width) == r.bottom
  }

  lemma {:induction false} TouchedIsSmallest(r: Rectangle, a: seq<byte>, b: seq<byte>, width: nat,
                                             l: nat, t: nat, ri: nat, bo: nat)
    requires width > 0 && Covers(r, a, b, width) && Touched(r, a, b, width, l, t, ri, bo)
    ensures Smallest(r, a, b, width)
  {
  }

  /** The differing columns of the rows from `top` up to `row`, and where the outermost are. */
  ghost predicate Spanned(a: seq<byte>, b: seq<byte>, width: nat, top: nat, row: nat, left: int, right: int)
    requires width > 0
  {
    && (forall i: nat :: DiffersAt(a, b, i) && top <= Row(i, width) < row ==> left <= Column(i, width) <= right)
    && (left > right ==> left == width && right == -1)
    && (left <= right ==>
          && (exists i: nat :: DiffersAt(a, b, i) && Column(i, width) == left)
          && (exists i: nat :: DiffersAt(a, b, i) && Column(i, width) == right))
  }

  /** The captures differ in row `row` only between `start` and `end`, and everywhere there is in that row. */
  ghost predicate IsRow(a: seq<byte>, b: seq<byte>, width: nat, row: nat, start: nat, end: nat)
    requires width > 0
  {
    forall i: nat :: DiffersAt(a, b, i) ==> (Row(i, width) == row <==> start <= i < end)
  }

  /** Row `row` is the bytes from `start` to `end`, of as many as both captures have. */
  lemma {:induction false} RowBytes(a: seq<byte>, b: seq<byte>, width: nat, row: nat, start: nat, next: nat, end: nat)
    requires width > 0 && start == row * (width * 3) && next == (row + 1) * (width * 3)
    requires end == if next < |a| && next < |b| then next else if |a| < |b| then |a| else |b|
    ensures IsRow(a, b, width, row, start, end)
    ensures forall i: nat :: Row(i, width) == row ==> i >= start && Column(i, width) == (i - start) / 3
  {
    forall i: nat
      ensures Row(i, width) == row ==> start <= i < next && Column(i, width) == (i - start) / 3
      ensures start <= i < next ==> Row(i, width) == row
    {
      WhereItLies(i, width);
      if start <= i < next { RowOf(i, row, width); }
    }
  }

  lemma {:induction false} EmptyRow(a: seq<byte>, b: seq<byte>, width: nat, top: nat, row: nat, start: nat, end: nat,
                                    left: int, right: int)
    requires width > 0 && Spanned(a, b, width, top, row, left, right) && IsRow(a, b, width, row, start, end)
    requires forall k: nat :: start <= k < end ==> !DiffersAt(a, b, k)
    ensures Spanned(a, b, width, top, row + 1, left, right)
    ensures !exists i: nat :: DiffersAt(a, b, i) && Row(i, width) == row
  {
  }

  lemma {:induction false} RowAdds(a: seq<byte>, b: seq<byte>, width: nat, top: nat, row: nat, start: nat, end: nat,
                                   left: int, right: int, least: nat, most: nat)
    requires width > 0 && Spanned(a, b, width, top, row, left, right) && IsRow(a, b, width, row, start, end)
    requires IsEdge(a, b, start, end, true, least) && IsEdge(a, b, start, end, false, most)
    ensures var l, r := Column(least, width), Column(most, width);
      l <= r && Spanned(a, b, width, top, row + 1, if l < left then l else left, if r > right then r else right)
  {
    forall i: nat | DiffersAt(a, b, i) && Row(i, width) == row
      ensures Column(least, width) <= Column(i, width) <= Column(most, width)
    {
      ColumnsInOrder(least, i, width);
      ColumnsInOrder(i, most, width);
    }
    WhereItLies(least, width);
    WhereItLies(most, width);
  }

  /** One row of the loop, from its first byte to the last that both captures have. */
  method SpanRow(a: seq<byte>, b: seq<byte>, width: nat, ghost top: nat, row: nat, left: int, right: int)
    returns (left': int, right': int)
    requires width > 0 && Spanned(a, b, width, top, row, left, right)
    ensures Spanned(a, b, width, top, row + 1, left', right')
    ensures left <= right || (exists i: nat :: DiffersAt(a, b, i) && Row(i, width) == row) ==> left' <= right'
  {
    var size := if |a| < |b| then |a| else |b|;
    var stride := width * 3;
    var start, next := row * stride, (row + 1) * stride;
    var end := if next < size then next else size;
    RowBytes(a, b, width, row, start, next, end);
    left', right' := SpanBytes(a, b, width, top, row, start, end, left, right);
  }

  method SpanBytes(a: seq<byte>, b: seq<byte>, width: nat, ghost top: nat, ghost row: nat, start: nat, end: nat,
                   left: int, right: int)
    returns (left': int, right': int)
    requires width > 0 && Spanned(a, b, width, top, row, left, right) && IsRow(a, b, width, row, start, end)
    requires end <= |a| && end <= |b|
    requires forall i: nat :: Row(i, width) == row ==> i >= start && Column(i, width) == (i - start) / 3
    ensures Spanned(a, b, width, top, row + 1, left', right')
    ensures left <= right || (exists i: nat :: DiffersAt(a, b, i) && Row(i, width) == row) ==> left' <= right'
  {
    if start < end { SameSlice(a, b, start, end); }
    if start >= end || a[start..end] == b[start..end] {
      EmptyRow(a, b, width, top, row, start, end, left, right);
      return left, right;
    }
    var least := Edge(a, b, start, end, true);
    var most := Edge(a, b, start, end, false);
    RowAdds(a, b, width, top, row, start, end, left, right, least, most);
    left' := if (least - start) / 3 < left then (least - start) / 3 else left;
    right' := if (most - start) / 3 > right then (most - start) / 3 else right;
  }

  /** What `diff_box` reports: left, top, width, height, and how far the outermost differing bytes are apart. */
  datatype Box = Box(left: int, top: int, width: int, height: int, span: int)

  const NONE := Box(0, 0, 0, 0, 0)

  function Sides(box: Box): Rectangle {
    Rectangle(box.left, box.top, box.left + box.width - 1, box.top + box.height - 1)
  }

  /**
   `diff_box`, over the bytes both captures have, whole rows or not: nothing if they agree, otherwise the
   smallest rectangle with every differing pixel in it.
   */
  method DiffBox(a: seq<byte>, b: seq<byte>, width: nat) returns (box: Box)
    requires width > 0
    ensures box == NONE <==> forall i: nat :: !DiffersAt(a, b, i)
    ensures box != NONE ==> Smallest(Sides(box), a, b, width)
    ensures box != NONE ==> exists f: nat, l: nat ::
      && DiffersAt(a, b, f) && DiffersAt(a, b, l) && (forall i: nat :: DiffersAt(a, b, i) ==> f <= i <= l)
      && box.span == (l - f) / 3 + 1
  {
    var size := if |a| < |b| then |a| else |b|;
    SameSlice(a, b, 0, size);
    if a[..size] == b[..size] {
      assert a[0..size] == a[..size] && b[0..size] == b[..size];
      return NONE;
    }
    assert a[0..size] == a[..size] && b[0..size] == b[..size];
    var first := Edge(a, b, 0, size, true);
    var last := Edge(a, b, 0, size, false);
    var top, bottom := first / 3 / width, last / 3 / width;
    RowsInOrder(first, last, width);
    var left: int, right: int := Columns(a, b, width, first, last, top, bottom, size);
    box := Box(left, top, right - left + 1, bottom - top + 1, (last - first) / 3 + 1);
    forall i: nat | DiffersAt(a, b, i) ensures Sides(box).Has(Row(i, width), Column(i, width)) {
      RowsInOrder(first, i, width);
      RowsInOrder(i, last, width);
    }
    var l: nat :| DiffersAt(a, b, l) && Column(l, width) == left;
    var ri: nat :| DiffersAt(a, b, ri) && Column(ri, width) == right;
    TouchedIsSmallest(Sides(box), a, b, width, l, first, ri, last);
  }

  /** The loop over the rows. */
  method Columns(a: seq<byte>, b: seq<byte>, width: nat, ghost first: nat, ghost last: nat, top: nat, bottom: nat, size: nat)
    returns (left: int, right: int)
    requires width > 0 && top <= bottom && size <= |a| && size <= |b| && last < size
    requires DiffersAt(a, b, first) && Row(first, width) == top && Row(last, width) == bottom
    ensures left <= right && Spanned(a, b, width, top, bottom + 1, left, right)
  {
    var stride := width * 3;
    LastRowIsRead(last, size, width);
    var to := if bottom + 1 < size / stride + 1 then bottom + 1 else size / stride + 1;
    left, right := width, -1;
    for row := top to to
      invariant Spanned(a, b, width, top, row, left, right)
      invariant row > top ==> left <= right
    {
      left, right := SpanRow(a, b, width, top, row, left, right);
    }
    if right < left { left, right := 0, width - 1; }
  }

  lemma {:induction false} LastRowIsRead(last: nat, size: nat, width: nat)
    requires width > 0 && last < size
    ensures Row(last, width) + 1 <= size / (width * 3) + 1
  {
    var stride, r := width * 3, Row(last, width);
    WhereItLies(last, width);
    assert size == (size / stride) * stride + size % stride;
    if size / stride < r { OrderedProducts(size / stride + 1, r, stride); }
  }
}
