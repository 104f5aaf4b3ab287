/** The beam: which line the video card is drawing after so many processor cycles. */
module VideoBeam {
  import opened Words

  const LINES := 525
  const HEIGHT := 480
  /** 60 frames of 525 lines a second. */
  const LINE_RATE := 31500

  /** The cycle at which line n since reset begins: n / LINE_RATE seconds, rounded up. */
  function Begins(n: nat, hz: nat): nat { CeilDiv(n * hz, LINE_RATE) }

  /** How many lines have begun after c cycles. */
  function LinesAfter(c: nat, hz: nat): nat
    requires hz > 0
  {
    Div(c * LINE_RATE, hz) + 1
  }

  /** How many of the first lines began a vertical blank. */
  function FramesOf(lines: nat): nat { (lines + LINES - HEIGHT - 1) / LINES }

  /** One of the lines from one count to another was a certain line of the picture. */
  predicate Begun(from: nat, to: nat, line: nat) { exists n :: from <= n < to && IsLine(n, line) }

  predicate IsLine(n: nat, line: nat) { n % 525 == line }

  lemma BegunOn(from: nat, to: nat, line: nat)
    requires from <= to
    ensures Begun(from, to + 1, line) <==> Begun(from, to, line) || to % LINES == line
  {
    if to % LINES == line {
      assert IsLine(to, line);
    }
    if Begun(from, to, line) {
      var n :| from <= n < to && IsLine(n, line);
      assert from <= n < to + 1;
    }
  }

  lemma BegunBoth(from: nat, mid: nat, to: nat, line: nat)
    requires from <= mid <= to
    ensures Begun(from, to, line) <==> Begun(from, mid, line) || Begun(mid, to, line)
  {
    if Begun(from, mid, line) {
      var n :| from <= n < mid && IsLine(n, line);
      assert from <= n < to;
    }
    if Begun(mid, to, line) {
      var n :| mid <= n < to && IsLine(n, line);
      assert from <= n < to;
    }
  }

  /** At cycle 0 line 0 alone has begun. */
  lemma FirstLine(hz: nat, none: nat)
    requires hz > 0 && none == 0
    ensures LinesAfter(none, hz) == 1 && Begun(none, 1, 0) && !Begun(none, 1, HEIGHT)
  {
    DivUnique(0, hz, 0, 0);
    assert IsLine(none, 0);
  }

  class VideoDevice {
    const hz: nat
    var cycles: nat
    var lines: nat
    var nextLineAt: nat
    var line: nat
    var frame: byte
    var irqLine: nat
    var vsync: bool
    var lineIrq: bool

    /** The closed form of everything the beam keeps, by the cycles since reset alone. */
    ghost predicate Valid()
      reads this
    {
      && hz > 0 && lines == LinesAfter(cycles, hz)
      && Running(hz, cycles, lines, nextLineAt, line, frame)
    }

    constructor (clock: nat)
      requires clock > 0
      ensures Valid() && hz == clock && cycles == 0 && irqLine == 0 && !vsync && lineIrq
    {
      hz, irqLine := clock, 0;
      cycles, lines, nextLineAt, line, frame := 0, 0, 0, 0, 0;
      vsync, lineIrq := false, false;
      new;
      Restart();
    }

    method Clear()
      modifies this
      ensures line == cycles == lines == nextLineAt == irqLine == 0 && frame == 0 && !vsync && !lineIrq
    {
      line, frame, cycles, lines, nextLineAt := 0, 0, 0, 0, 0;
      irqLine, vsync, lineIrq := 0, false, false;
    }

    /** Reset: line 0 begins, which is the one whose beginning interrupts then. */
    method Restart()
      requires hz > 0
      modifies this
      ensures Valid() && cycles == 0 && irqLine == 0 && !vsync && lineIrq
    {
      Clear();
      AtStart(hz, cycles);
      RunLines();
      FirstLine(hz, cycles);
    }

    method BeginLine(n: nat)
      modifies this`line, this`vsync, this`frame, this`lineIrq
      ensures line == n && frame == (if n == HEIGHT then (old(frame) + 1) % 0x100 else old(frame))
      ensures vsync == (old(vsync) || n == HEIGHT) && lineIrq == (old(lineIrq) || n == irqLine)
    {
      line := n;
      if n == HEIGHT {
        vsync := true;
        frame := (frame + 1) % 0x100;
      }
      if n == irqLine {
        lineIrq := true;
      }
    }

    /** The lines that have begun by now begin. */
    method RunLines()
      requires hz > 0 && Running(hz, cycles, lines, nextLineAt, line, frame)
      modifies this`lines, this`nextLineAt, this`line, this`vsync, this`frame, this`lineIrq
      ensures Valid()
      ensures vsync == (old(vsync) || Begun(old(lines), lines, HEIGHT))
      ensures lineIrq == (old(lineIrq) || Begun(old(lines), lines, irqLine))
    {
      while cycles >= nextLineAt
        invariant Running(hz, cycles, lines, nextLineAt, line, frame) && old(lines) <= lines
        invariant vsync == (old(vsync) || Begun(old(lines), lines, HEIGHT))
        invariant lineIrq == (old(lineIrq) || Begun(old(lines), lines, irqLine))
        decreases LinesAfter(cycles, hz) - lines
      {
        OneMoreLine(hz, cycles, lines, nextLineAt, line, frame);
        BegunOn(old(lines), lines, HEIGHT);
        BegunOn(old(lines), lines, irqLine);
        BeginLine(lines % LINES);
        lines := lines + 1;
        nextLineAt := Begins(lines, hz);
      }
      AllBegun(hz, cycles, lines, nextLineAt, line, frame);
    }

    method Tick(cpuCycles: nat)
      requires Valid()
      modifies this
      ensures Valid() && cycles == old(cycles) + cpuCycles && irqLine == old(irqLine)
      ensures vsync == (old(vsync) || Begun(old(lines), lines, 480))
      ensures lineIrq == (old(lineIrq) || Begun(old(lines), lines, irqLine))
    {
      LinesGrow(cycles, cpuCycles, hz);
      cycles := cycles + cpuCycles;
      RunLines();
    }
  }

  /** What the loop keeps: the next line's time, and line and frame by the lines so far. */
  ghost predicate Running(hz: nat, cycles: nat, lines: nat, nextLineAt: nat, line: nat, frame: byte)
    requires hz > 0
  {
    && lines <= LinesAfter(cycles, hz)
    && nextLineAt == Begins(lines, hz)
    && line == (if lines == 0 then 0 else (lines - 1) % LINES)
    && frame == FramesOf(lines) % 0x100
  }

  lemma OneMoreLine(hz: nat, cycles: nat, lines: nat, nextLineAt: nat, line: nat, frame: byte)
    requires hz > 0 && Running(hz, cycles, lines, nextLineAt, line, frame) && cycles >= nextLineAt
    ensures lines < LinesAfter(cycles, hz)
    ensures var n := lines % LINES;
            Running(hz, cycles, lines + 1, Begins(lines + 1, hz), n, if n == HEIGHT then (frame + 1) % 0x100 else frame)
  {
    BegunBy(lines, cycles, hz);
    FrameCounts(lines);
  }

  lemma FrameCounts(lines: nat)
    ensures FramesOf(lines + 1) % 0x100
         == if lines % LINES == HEIGHT then (FramesOf(lines) % 0x100 + 1) % 0x100 else FramesOf(lines) % 0x100
  {
    FramesGrow(lines);
  }

  lemma AllBegun(hz: nat, cycles: nat, lines: nat, nextLineAt: nat, line: nat, frame: byte)
    requires hz > 0 && Running(hz, cycles, lines, nextLineAt, line, frame) && cycles < nextLineAt
    ensures lines == LinesAfter(cycles, hz)
  {
    BegunBy(lines, cycles, hz);
  }

  /** A line has begun exactly when it is one of so many. */
  lemma BegunBy(n: nat, c: nat, hz: nat)
    requires hz > 0
    ensures Begins(n, hz) <= c <==> n < LinesAfter(c, hz)
  {
    CeilDivBounds(n * hz, LINE_RATE);
    DivMod(c * LINE_RATE, hz);
    var q := Div(c * LINE_RATE, hz);
    if n <= q {
      MulMono(n, q, hz);
    } else {
      MulMono(q + 1, n, hz);
      MulDist(q, 1, hz);
    }
  }

  lemma BeginsAtOnce(hz: nat)
    ensures Begins(0, hz) == 0
  {
  }

  lemma AtStart(hz: nat, none: nat)
    requires hz > 0 && none == 0
    ensures Running(hz, none, none, none, none, none)
  {
    BeginsAtOnce(hz);
  }

  lemma LinesGrow(c: nat, more: nat, hz: nat)
    requires hz > 0
    ensures LinesAfter(c, hz) <= LinesAfter(c + more, hz)
  {
    var q := Div(c * LINE_RATE, hz);
    DivMod(c * LINE_RATE, hz);
    QuotientAtLeast((c + more) * LINE_RATE, hz, q);
  }

  lemma FramesGrow(lines: nat)
    ensures FramesOf(lines + 1) == FramesOf(lines) + if lines % LINES == HEIGHT then 1 else 0
  {
  }

  // ---- the closed forms ----

  /** How many of the first lines are the first of the vertical blank, counted one by one. */
  function Blanks(lines: nat): nat {
    if lines == 0 then 0 else Blanks(lines - 1) + if (lines - 1) % LINES == HEIGHT then 1 else 0
  }

  lemma {:induction false} FramesAreBlanks(lines: nat)
    ensures Blanks(lines) == FramesOf(lines)
  {
    if lines > 0 {
      FramesAreBlanks(lines - 1);
      FramesGrow(lines - 1);
    }
  }

  lemma MoreFrames(lines: nat)
    ensures FramesOf(lines + 60 * 525) == FramesOf(lines) + 60
  {
  }

  /** A second is 60 frames of 525 lines, whenever it begins; a frame ends where line 480 begins. */
  lemma SixtyFrames(c: nat, hz: nat, n: nat)
    requires hz > 0
    ensures LinesAfter(0, hz) == 1 && LinesAfter(c + hz, hz) == LinesAfter(c, hz) + 60 * 525
    ensures FramesOf(LinesAfter(c + hz, hz)) == FramesOf(LinesAfter(c, hz)) + 60
    ensures FramesOf(n + 1) == FramesOf(n) + if n % 525 == 480 then 1 else 0
  {
    DivMod(c * LINE_RATE, hz);
    MulDist(c, hz, LINE_RATE);
    var q, r := Div(c * LINE_RATE, hz), c * LINE_RATE % hz;
    MulDist(q, LINE_RATE, hz);
    DivUnique((c + hz) * LINE_RATE, hz, q + LINE_RATE, r);
    DivUnique(0, hz, 0, 0);
    MoreFrames(LinesAfter(c, hz));
    FramesGrow(n);
  }

  function Total(ticks: seq<nat>): nat {
    if ticks == [] then 0 else Total(ticks[..|ticks| - 1]) + ticks[|ticks| - 1]
  }

  lemma TotalGrows(ticks: seq<nat>, i: nat)
    requires i < |ticks|
    ensures Total(ticks[..i + 1]) == Total(ticks[..i]) + ticks[i]
  {
    assert ticks[..i + 1][..i] == ticks[..i];
  }

  /** However the cycles are split into ticks, the lines, the line and the frame come out the same: by
      how many cycles there are in all. */
  method TickAll(device: VideoDevice, ticks: seq<nat>)
    requires device.Valid()
    modifies device
    ensures device.Valid() && device.cycles == old(device.cycles) + Total(ticks)
    ensures device.lines == LinesAfter(device.cycles, device.hz)
    ensures device.line == (device.lines - 1) % LINES && device.frame == Blanks(device.lines) % 0x100
    ensures device.irqLine == old(device.irqLine)
    ensures device.vsync == (old(device.vsync) || Begun(old(device.lines), device.lines, 480))
    ensures device.lineIrq == (old(device.lineIrq) || Begun(old(device.lines), device.lines, device.irqLine))
  {
    var i := 0;
    while i < |ticks|
      invariant 0 <= i <= |ticks| && device.Valid() && device.cycles == old(device.cycles) + Total(ticks[..i])
      invariant old(device.lines) <= device.lines && device.irqLine == old(device.irqLine)
      invariant device.vsync == (old(device.vsync) || Begun(old(device.lines), device.lines, 480))
      invariant device.lineIrq == (old(device.lineIrq) || Begun(old(device.lines), device.lines, device.irqLine))
    {
      TotalGrows(ticks, i);
      ghost var before := device.lines;
      LinesGrow(device.cycles, ticks[i], device.hz);
      device.Tick(ticks[i]);
      BegunBoth(old(device.lines), before, device.lines, 480);
      BegunBoth(old(device.lines), before, device.lines, device.irqLine);
      i := i + 1;
    }
    assert ticks[..i] == ticks;
    FramesAreBlanks(device.lines);
  }
}
