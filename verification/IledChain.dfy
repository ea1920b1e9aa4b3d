/** How the LEDs of a matrix are wired into one chain (`ChainLayout` in src/iled.rs). */
module IledChain {
  import opened Arith

  datatype HEdge = Left | Right
  datatype VEdge = Top | Bottom
  datatype Axis = Row | Column

  datatype Layout = Layout(hEdge: HEdge, vEdge: VEdge, axis: Axis, serpentine: bool)

  /** `line_forward`. */
  predicate LineForward(l: Layout, line: nat) {
    var base := match l.axis case Row => l.hEdge == Left case Column => l.vEdge == Top;
    if l.serpentine && line % 2 == 1 then !base else base
  }

  /** `led_index`: where in the chain pixel `(x, y)` is. */
  function LedIndex(l: Layout, x: nat, y: nat, width: nat, height: nat): nat
    requires x < width && y < height
  {
    match l.axis
    case Row =>
      var line := if l.vEdge == Top then y else height - 1 - y;
      var pos := if LineForward(l, line) then x else width - 1 - x;
      line * width + pos
    case Column =>
      var line := if l.hEdge == Left then x else width - 1 - x;
      var pos := if LineForward(l, line) then y else height - 1 - y;
      line * height + pos
  }

  /** How many LEDs a line has, and how many lines there are. */
  function Lines(l: Layout, width: nat, height: nat): (nat, nat) {
    if l.axis == Row then (width, height) else (height, width)
  }

  /** The pixel at position `pos` of line `line`. */
  function PixelInLine(l: Layout, line: nat, pos: nat, width: nat, height: nat): (p: (nat, nat))
    requires pos < Lines(l, width, height).0 && line < Lines(l, width, height).1
    ensures p.0 < width && p.1 < height
  {
    match l.axis
    case Row =>
      (if LineForward(l, line) then pos else width - 1 - pos, if l.vEdge == Top then line else height - 1 - line)
    case Column =>
      (if l.hEdge == Left then line else width - 1 - line, if LineForward(l, line) then pos else height - 1 - pos)
  }

  /** Which pixel the `k`-th LED of the chain shows. */
  function PixelAt(l: Layout, k: nat, width: nat, height: nat): (p: (nat, nat))
    requires k < width * height
    ensures p.0 < width && p.1 < height
  {
    var (a, b) := Lines(l, width, height);
    assert a * b == width * height;
    DivBelow(k, a, b);
    PixelInLine(l, k / a, k % a, width, height)
  }

  /** A line and a position in it determine the index, and the index determines them. */
  lemma LineAndPos(line: nat, pos: nat, a: nat, b: nat)
    requires pos < a && line < b
    ensures line * a + pos < a * b && (line * a + pos) / a == line && (line * a + pos) % a == pos
  {
    MulMonotone(a, line + 1, b);
    DivModOf(a, line, pos);
    assert a * (line + 1) == a * line + a && a * line == line * a;
  }

  /** `led_index` is a bijection from the pixels onto the chain: `PixelAt` is its inverse. */
  lemma IndexThenPixel(l: Layout, x: nat, y: nat, width: nat, height: nat)
    requires x < width && y < height
    ensures LedIndex(l, x, y, width, height) < width * height
    ensures PixelAt(l, LedIndex(l, x, y, width, height), width, height) == (x, y)
  {
    match l.axis
    case Row =>
      var line := if l.vEdge == Top then y else height - 1 - y;
      LineAndPos(line, if LineForward(l, line) then x else width - 1 - x, width, height);
    case Column =>
      var line := if l.hEdge == Left then x else width - 1 - x;
      LineAndPos(line, if LineForward(l, line) then y else height - 1 - y, height, width);
  }

  lemma PixelThenIndex(l: Layout, k: nat, width: nat, height: nat)
    requires k < width * height
    ensures var p := PixelAt(l, k, width, height); LedIndex(l, p.0, p.1, width, height) == k
  {
    match l.axis
    case Row => DivBelow(k, width, height);
    case Column => DivBelow(k, height, width);
  }

  predicate Neighbours(p: (nat, nat), q: (nat, nat)) {
    || (p.0 == q.0 && (p.1 == q.1 + 1 || q.1 == p.1 + 1))
    || (p.1 == q.1 && (p.0 == q.0 + 1 || q.0 == p.0 + 1))
  }

  /** The next LED is in the same line, or starts the next one. */
  lemma NextInLine(k: nat, a: nat, b: nat)
    requires k + 1 < a * b && a > 0
    ensures
      || ((k + 1) / a == k / a && (k + 1) % a == k % a + 1 && k % a + 1 < a)
      || ((k + 1) / a == k / a + 1 && (k + 1) % a == 0 && k % a == a - 1)
  {
    DivBelow(k, a, b);
    DivBelow(k + 1, a, b);
    var line, pos := k / a, k % a;
    if pos + 1 < a {
      LineAndPos(line, pos + 1, a, b);
    } else {
      assert (line + 1) * a == line * a + a;
      MulMonotone(a, b, line + 1);
      LineAndPos(line + 1, 0, a, b);
    }
  }

  /** Neighbours in a line are neighbours on the grid; so are a line's end and the next one's start if reversed. */
  lemma LineNeighbours(l: Layout, line: nat, pos: nat, width: nat, height: nat)
    requires pos < Lines(l, width, height).0 && line < Lines(l, width, height).1
    ensures pos + 1 < Lines(l, width, height).0 ==>
      Neighbours(PixelInLine(l, line, pos, width, height), PixelInLine(l, line, pos + 1, width, height))
    ensures pos + 1 == Lines(l, width, height).0 && line + 1 < Lines(l, width, height).1 ==>
      (Neighbours(PixelInLine(l, line, pos, width, height), PixelInLine(l, line + 1, 0, width, height))
       <==> l.serpentine || Lines(l, width, height).0 == 1)
  {
    assert l.serpentine ==> LineForward(l, line + 1) == !LineForward(l, line);
  }

  /**
   With serpentine wiring, consecutive LEDs are always neighbours on the grid, also across line
   ends; without it, exactly the line ends are not (unless a line is a single LED).
   */
  lemma ConsecutiveNeighbours(l: Layout, k: nat, width: nat, height: nat)
    requires k + 1 < width * height
    ensures var a := Lines(l, width, height).0;
      a > 0 && (Neighbours(PixelAt(l, k, width, height), PixelAt(l, k + 1, width, height))
                <==> l.serpentine || (k + 1) % a != 0 || a == 1)
  {
    var (a, b) := Lines(l, width, height);
    assert a * b == width * height;
    DivBelow(k, a, b);
    DivBelow(k + 1, a, b);
    NextInLine(k, a, b);
    LineNeighbours(l, k / a, k % a, width, height);
  }

  /** The chain starts at the corner of its two edges. */
  lemma ChainStart(l: Layout, width: nat, height: nat)
    requires width > 0 && height > 0
    ensures 0 < width * height
    ensures PixelAt(l, 0, width, height) ==
      (if l.hEdge == Left then 0 else width - 1, if l.vEdge == Top then 0 else height - 1)
  {
    var (a, b) := Lines(l, width, height);
    LineAndPos(0, 0, a, b);
  }

  /** And it leaves that corner along its axis. */
  lemma ChainDirection(l: Layout, width: nat, height: nat)
    requires height > 0 && width > 0 && 1 < Lines(l, width, height).0
    ensures 1 < width * height
    ensures var (p, q) := (PixelAt(l, 0, width, height), PixelAt(l, 1, width, height));
      if l.axis == Row then p.1 == q.1 && p.0 != q.0 else p.0 == q.0 && p.1 != q.1
  {
    var (a, b) := Lines(l, width, height);
    LineAndPos(0, 0, a, b);
    LineAndPos(0, 1, a, b);
  }
}
