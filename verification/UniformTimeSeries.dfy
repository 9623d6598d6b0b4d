/** Resampling to a fixed interval: every grid point is produced once, by linear interpolation. Values are real numbers. */
module UniformSeries {

  /** Timestamps are unsigned 64-bit numbers. */
  const LIMIT := 0x1_0000_0000_0000_0000

  datatype Point = Point(timestamp: nat, value: real)

  /** What the series remembers: nothing before the first point, and then its base, the number of points output, counting
      the base, and the last input. */
  datatype State = Fresh | Running(base: nat, outputs: nat, last: Point)

  // ---------- what one point produces ----------

  /** The value at time t on the line through two points. */
  function OnLine(p: Point, q: Point, t: nat): real
    requires p.timestamp < q.timestamp
  {
    (q.value - p.value) / ((q.timestamp - p.timestamp) as real) * ((t - p.timestamp) as real) + p.value
  }

  /** The grid points from `next` up to the new input: on the line before it, and its own value at it. */
  function GridUpTo(next: nat, interval: nat, last: Point, p: Point): seq<Point>
    requires interval > 0 && last.timestamp < next
    decreases p.timestamp - next
  {
    if p.timestamp < next then []
    else if p.timestamp == next then [p]
    else [Point(next, OnLine(last, p, next))] + GridUpTo(next + interval, interval, last, p)
  }

  /** The last multiple of the interval that is not after t. */
  function Floor(t: nat, interval: nat): nat
    requires interval > 0
  {
    t - t % interval
  }

  /** Grid point n. */
  function Grid(base: nat, interval: nat, n: nat): nat {
    base + interval * n
  }

  lemma GridStep(base: nat, interval: nat, n: nat)
    ensures Grid(base, interval, n + 1) == Grid(base, interval, n) + interval
    ensures Grid(base, interval, 0) == base
  {
  }

  function NextOutput(s: State, interval: nat): nat
    requires s.Running?
  {
    Grid(s.base, interval, s.outputs)
  }

  /** The next grid point lies after the last input. */
  ghost predicate Ahead(s: State, interval: nat) {
    s.Running? ==> s.outputs >= 1 && s.last.timestamp < NextOutput(s, interval)
  }

  function Step(s: State, interval: nat, p: Point): (r: (State, seq<Point>))
    requires interval > 0 && Ahead(s, interval)
  {
    match s
    case Fresh => (Running(Floor(p.timestamp, interval), 1, p), [])
    case Running(base, outputs, last) =>
      var out := GridUpTo(NextOutput(s, interval), interval, last, p);
      (Running(base, outputs + |out|, p), out)
  }

  // ---------- what one point does, said without computing it ----------

  /** o lies on the straight line through p and q. */
  ghost predicate Collinear(p: Point, q: Point, o: Point) {
    (o.value - p.value) * ((q.timestamp - p.timestamp) as real) == (q.value - p.value) * ((o.timestamp - p.timestamp) as real)
  }

  /** The first point sets the base and produces nothing. A later one produces the grid points from the next one up to its
      own time: each lies on the line from the point before, and the one at its own time, if there is one, is itself. */
  ghost predicate Did(interval: nat, s: State, p: Point, s': State, out: seq<Point>) {
    match s
    case Fresh =>
      && interval > 0 && s'.Running? && s'.outputs == 1 && s'.last == p && out == []
      && s'.base % interval == 0 && s'.base <= p.timestamp < s'.base + interval
    case Running(base, n, last) =>
      && s' == Running(base, n + |out|, p)
      && OnGrid(out, base, interval, n) && p.timestamp < Grid(base, interval, n + |out|)
      && (out != [] ==> Grid(base, interval, n + |out| - 1) <= p.timestamp)
      && forall o :: o in out ==> Collinear(last, p, o) && (o.timestamp == p.timestamp ==> o == p)
  }

  // ---------- the code ----------

  class UniformTimeSeries {
    const interval: nat
    var baseTimestamp: nat
    var pointsInput: nat
    var pointsOutput: nat
    var lastInputTimestamp: nat
    var lastInputValue: real

    ghost predicate Valid()
      reads this
    {
      interval > 0 && Ahead(View(), interval)
    }

    ghost function View(): State
      reads this
    {
      if pointsInput == 0 then Fresh else Running(baseTimestamp, pointsOutput, Point(lastInputTimestamp, lastInputValue))
    }

    constructor (interval: nat)
      requires interval > 0
      ensures Valid() && View() == Fresh && this.interval == interval
    {
      this.interval := interval;
      baseTimestamp, pointsInput, pointsOutput, lastInputTimestamp, lastInputValue := 0, 0, 0, 0, 0.0;
    }

    /** Add a value; the answer is every grid point that this completes. Near the end of 64-bit time the next grid point
        would wrap around. */
    method AddPoint(timestamp: nat, value: real) returns (output: seq<Point>)
      requires Valid() && timestamp + interval < LIMIT
      requires View().Running? ==> NextOutput(View(), interval) < LIMIT
      modifies this
      ensures Valid() && (View(), output) == Step(old(View()), interval, Point(timestamp, value))
      ensures Did(interval, old(View()), Point(timestamp, value), View(), output)
      ensures View().Running? && NextOutput(View(), interval) < LIMIT
    {
      hide Grid, OnLine, Did;
      StepDoes(View(), interval, Point(timestamp, value));
      output := [];
      ghost var s, p := View(), Point(timestamp, value);
      pointsInput := pointsInput + 1;
      if pointsInput == 1 {
        baseTimestamp := timestamp - timestamp % interval;
        pointsOutput := 1;
        lastInputTimestamp := timestamp;
        lastInputValue := value;
        GridStep(baseTimestamp, interval, 0);
        return;
      }
      ghost var all := GridUpTo(NextOutput(s, interval), interval, s.last, p);
      assert [] + all == all;
      ghost var next := NextOutput(s, interval);
      while true
        invariant pointsInput == old(pointsInput) + 1 > 1 && baseTimestamp == s.base
        invariant Point(lastInputTimestamp, lastInputValue) == s.last && pointsOutput == s.outputs + |output|
        invariant next == Grid(baseTimestamp, interval, pointsOutput) < LIMIT && s.last.timestamp < next
        invariant output + GridUpTo(next, interval, s.last, p) == all
        decreases if timestamp > next then 1 else 0
      {
        var nextOutputTimestamp := Grid(baseTimestamp, interval, pointsOutput);
        if timestamp == nextOutputTimestamp {
          GridStep(baseTimestamp, interval, pointsOutput);
          pointsOutput := pointsOutput + 1;
          output := output + [Point(timestamp, value)];
          break;
        } else if timestamp < nextOutputTimestamp {
          assert output + [] == output;
          break;
        } else {
          var filled := FillIn(timestamp, value);
          next := Grid(baseTimestamp, interval, pointsOutput);
          ghost var rest := GridUpTo(next, interval, s.last, p);
          assert output + (filled + rest) == output + filled + rest;
          output := output + filled;
          continue;
        }
      }
      GridEnds(s, interval, p);
      lastInputTimestamp := timestamp;
      lastInputValue := value;
    }

    /** The inner loop: the grid points before the new input. */
    method FillIn(timestamp: nat, value: real) returns (output: seq<Point>)
      requires lastInputTimestamp < Grid(baseTimestamp, interval, pointsOutput) < timestamp && timestamp + interval < LIMIT
      requires interval > 0
      modifies this`pointsOutput
      ensures pointsOutput == old(pointsOutput) + |output|
      ensures lastInputTimestamp < timestamp <= Grid(baseTimestamp, interval, pointsOutput) < LIMIT
      ensures var last, p := Point(lastInputTimestamp, lastInputValue), Point(timestamp, value);
        GridUpTo(old(Grid(baseTimestamp, interval, pointsOutput)), interval, last, p)
          == output + GridUpTo(Grid(baseTimestamp, interval, pointsOutput), interval, last, p)
    {
      hide Grid;
      ghost var last, p := Point(lastInputTimestamp, lastInputValue), Point(timestamp, value);
      var nextOutputTimestamp := Grid(baseTimestamp, interval, pointsOutput);
      ghost var all := GridUpTo(nextOutputTimestamp, interval, last, p);
      output := [];
      assert [] + all == all;
      while timestamp > nextOutputTimestamp
        invariant pointsOutput == old(pointsOutput) + |output| && last.timestamp < nextOutputTimestamp < LIMIT
        invariant nextOutputTimestamp == Grid(baseTimestamp, interval, pointsOutput)
        invariant output + GridUpTo(nextOutputTimestamp, interval, last, p) == all
        decreases timestamp - nextOutputTimestamp
      {
        var newvalue := (value - lastInputValue) / ((timestamp - lastInputTimestamp) as real)
          * ((nextOutputTimestamp - lastInputTimestamp) as real) + lastInputValue;
        assert newvalue == OnLine(last, p, nextOutputTimestamp);
        hide OnLine;
        ghost var rest := GridUpTo(nextOutputTimestamp + interval, interval, last, p);
        assert output + ([Point(nextOutputTimestamp, newvalue)] + rest) == output + [Point(nextOutputTimestamp, newvalue)] + rest;
        output := output + [Point(nextOutputTimestamp, newvalue)];
        GridStep(baseTimestamp, interval, pointsOutput);
        pointsOutput := pointsOutput + 1;
        nextOutputTimestamp := Grid(baseTimestamp, interval, pointsOutput);
      }
    }
  }

  /** After a step the next grid point lies after the new input. */
  lemma {:induction false} PastInput(base: nat, interval: nat, n: nat, last: Point, p: Point)
    requires interval > 0 && last.timestamp < Grid(base, interval, n)
    ensures var out := GridUpTo(Grid(base, interval, n), interval, last, p);
      && p.timestamp < Grid(base, interval, n + |out|)
      && (out != [] ==> Grid(base, interval, n + |out| - 1) <= p.timestamp)
      && OnGrid(out, base, interval, n)
    decreases p.timestamp - Grid(base, interval, n)
  {
    hide Grid, OnLine;
    GridStep(base, interval, n);
    if p.timestamp > Grid(base, interval, n) {
      PastInput(base, interval, n + 1, last, p);
      var out := GridUpTo(Grid(base, interval, n), interval, last, p);
      var rest := GridUpTo(Grid(base, interval, n + 1), interval, last, p);
      assert out[1..] == rest;
      forall i | 0 <= i < |out| ensures out[i].timestamp == Grid(base, interval, n + i) {
        if i > 0 {
          assert out[i] == rest[i - 1];
        }
      }
    }
  }

  lemma GridEnds(s: State, interval: nat, p: Point)
    requires interval > 0 && s.Running? && Ahead(s, interval)
    ensures Ahead(Step(s, interval, p).0, interval)
  {
    PastInput(s.base, interval, s.outputs, s.last, p);
  }

  lemma OnLineCollinear(p: Point, q: Point, t: nat)
    requires p.timestamp < q.timestamp
    ensures Collinear(p, q, Point(t, OnLine(p, q, t)))
  {
    var d, x := (q.timestamp - p.timestamp) as real, (t - p.timestamp) as real;
    var r := (q.value - p.value) / d;
    assert r * d == q.value - p.value;
    assert OnLine(p, q, t) - p.value == r * x;
    hide OnLine;
    assert r * x * d == r * d * x;
  }

  lemma {:induction false} GridCollinear(next: nat, interval: nat, last: Point, p: Point)
    requires interval > 0 && last.timestamp < next
    ensures forall o :: o in GridUpTo(next, interval, last, p) ==> Collinear(last, p, o) && (o.timestamp == p.timestamp ==> o == p)
    decreases p.timestamp - next
  {
    if next < p.timestamp {
      OnLineCollinear(last, p, next);
      hide OnLine, Collinear;
      GridCollinear(next + interval, interval, last, p);
    }
  }

  /** The step computes what is said above. */
  lemma StepDoes(s: State, interval: nat, p: Point)
    requires interval > 0 && Ahead(s, interval)
    ensures Did(interval, s, p, Step(s, interval, p).0, Step(s, interval, p).1)
  {
    match s
    case Fresh =>
      BaseIsFloor(p.timestamp, interval);
      MultipleIsMultiple(interval, p.timestamp / interval);
    case Running(base, n, last) =>
      hide Grid, Collinear;
      PastInput(base, interval, n, last, p);
      GridCollinear(Grid(base, interval, n), interval, last, p);
  }

  lemma {:induction false} MultipleIsMultiple(interval: nat, q: nat)
    requires interval > 0
    ensures interval * q % interval == 0
  {
    var a := interval * q;
    var d := a / interval - q;
    assert interval * (a / interval) + a % interval == a;
    assert interval * (a / interval) == interval * d + interval * q;
    assert (d >= 1 ==> interval * d >= interval) && (d <= -1 ==> interval * d + interval <= 0);
  }

  // ---------- whole series ----------

  lemma StepAhead(s: State, interval: nat, p: Point)
    requires interval > 0 && Ahead(s, interval)
    ensures Ahead(Step(s, interval, p).0, interval)
  {
    match s
    case Fresh => GridStep(Floor(p.timestamp, interval), interval, 0);
    case Running(_, _, _) => GridEnds(s, interval, p);
  }

  /** The state after a sequence of inputs. */
  function After(interval: nat, inputs: seq<Point>): (s: State)
    requires interval > 0
    ensures Ahead(s, interval)
  {
    if inputs == [] then Fresh else
      var n := |inputs| - 1;
      StepAhead(After(interval, inputs[..n]), interval, inputs[n]);
      Step(After(interval, inputs[..n]), interval, inputs[n]).0
  }

  /** Everything output along the way. */
  function Outputs(interval: nat, inputs: seq<Point>): seq<Point>
    requires interval > 0
  {
    if inputs == [] then [] else
      var n := |inputs| - 1;
      Outputs(interval, inputs[..n]) + Step(After(interval, inputs[..n]), interval, inputs[n]).1
  }

  function Latest(inputs: seq<Point>): nat {
    if inputs == [] then 0 else
      var n := |inputs| - 1;
      if inputs[n].timestamp > Latest(inputs[..n]) then inputs[n].timestamp else Latest(inputs[..n])
  }

  /** Consecutive grid points from number n on. */
  ghost predicate OnGrid(out: seq<Point>, base: nat, interval: nat, n: nat) {
    forall i :: 0 <= i < |out| ==> out[i].timestamp == Grid(base, interval, n + i)
  }

  lemma OnGridMore(a: seq<Point>, b: seq<Point>, base: nat, interval: nat, n: nat)
    requires OnGrid(a, base, interval, n) && OnGrid(b, base, interval, n + |a|)
    ensures OnGrid(a + b, base, interval, n)
  {
    hide Grid;
    forall i | 0 <= i < |a + b| ensures (a + b)[i].timestamp == Grid(base, interval, n + i) {
      if i >= |a| {
        assert (a + b)[i] == b[i - |a|] && n + |a| + (i - |a|) == n + i;
      }
    }
  }

  /** What the last input does to a series that is running. */
  lemma LastStep(interval: nat, inputs: seq<Point>, base: nat, outputs: nat, last: Point)
    requires interval > 0 && inputs != [] && After(interval, inputs[..|inputs| - 1]) == Running(base, outputs, last)
    ensures var n := |inputs| - 1;
      var more := GridUpTo(Grid(base, interval, outputs), interval, last, inputs[n]);
      && Outputs(interval, inputs) == Outputs(interval, inputs[..n]) + more
      && After(interval, inputs) == Running(base, outputs + |more|, inputs[n])
    ensures last.timestamp < Grid(base, interval, outputs)
    ensures var t, before := inputs[|inputs| - 1].timestamp, Latest(inputs[..|inputs| - 1]);
      Latest(inputs) == if t > before then t else before
  {
    hide Grid, GridUpTo;
  }

  /** Whatever the order of the inputs, the outputs are the grid points after the base, each once and in order, up to the
      last one that is not after the latest input. */
  lemma {:induction false} GridOnce(interval: nat, inputs: seq<Point>)
    requires interval > 0 && inputs != []
    ensures var base, out := Floor(inputs[0].timestamp, interval), Outputs(interval, inputs);
      && OnGrid(out, base, interval, 1)
      && Grid(base, interval, |out|) <= Latest(inputs) < Grid(base, interval, |out| + 1)
      && After(interval, inputs) == Running(base, |out| + 1, inputs[|inputs| - 1])
  {
    hide Floor, Grid, GridUpTo, After, Outputs, Latest, OnGrid;
    var n := |inputs| - 1;
    var base := Floor(inputs[0].timestamp, interval);
    if n == 0 {
      GridStep(base, interval, 0);
      FirstStep(interval, inputs);
      BaseIsFloor(inputs[0].timestamp, interval);
      NoneOnGrid(base, interval, 1);
    } else {
      var before, out := inputs[..n], Outputs(interval, inputs[..n]);
      GridOnce(interval, before);
      var last, p := before[n - 1], inputs[n];
      LastStep(interval, inputs, base, |out| + 1, last);
      PastInput(base, interval, |out| + 1, last, p);
      var more := GridUpTo(Grid(base, interval, |out| + 1), interval, last, p);
      OnGridMore(out, more, base, interval, 1);
      if more != [] {
        GridGrows(base, interval, |out| + 1, |out| + |more|);
      }
    }
  }

  lemma NoneOnGrid(base: nat, interval: nat, n: nat)
    ensures OnGrid([], base, interval, n)
  {
  }

  lemma FirstStep(interval: nat, inputs: seq<Point>)
    requires interval > 0 && |inputs| == 1
    ensures var base := Floor(inputs[0].timestamp, interval);
      Outputs(interval, inputs) == [] && After(interval, inputs) == Running(base, 1, inputs[0]) && Latest(inputs) == inputs[0].timestamp
  {
    assert inputs[..0] == [];
    assert After(interval, []) == Fresh && Outputs(interval, []) == [] && Latest([]) == 0;
  }

  lemma GridGrows(base: nat, interval: nat, m: nat, n: nat)
    requires m <= n
    ensures Grid(base, interval, m) <= Grid(base, interval, n)
  {
    assert interval * n == interval * m + interval * (n - m);
  }

  /** The base is a multiple of the interval, and the first one at or before the first input. */
  lemma BaseIsFloor(t: nat, interval: nat)
    requires interval > 0
    ensures Floor(t, interval) == interval * (t / interval) <= t < Grid(Floor(t, interval), interval, 1)
  {
  }

  /** Each output is the new input itself or lies strictly between it and the input before, in time and in value. */
  lemma {:induction false} OutputsInterpolate(next: nat, interval: nat, last: Point, p: Point, i: nat)
    requires interval > 0 && last.timestamp < next && i < |GridUpTo(next, interval, last, p)|
    ensures var o := GridUpTo(next, interval, last, p)[i];
      || o == p
      || (last.timestamp < o.timestamp < p.timestamp
          && Collinear(last, p, o) && Between(last.value, o.value, p.value))
    decreases i
  {
    hide OnLine, Collinear;
    if p.timestamp > next {
      if i == 0 {
        OnLineBetween(last, p, next);
        OnLineCollinear(last, p, next);
      } else {
        OutputsInterpolate(next + interval, interval, last, p, i - 1);
      }
    }
  }

  predicate Between(a: real, x: real, b: real) {
    a <= x <= b || b <= x <= a
  }

  lemma OnLineBetween(p: Point, q: Point, t: nat)
    requires p.timestamp < t < q.timestamp
    ensures Between(p.value, OnLine(p, q, t), q.value)
  {
    var d, x := (q.timestamp - p.timestamp) as real, (t - p.timestamp) as real;
    var r := (q.value - p.value) / d;
    assert r * d == q.value - p.value;
    if r >= 0.0 {
      Scaled(r, x, d);
    } else {
      Scaled(-r, x, d);
      assert -r * x == -(r * x) && -r * d == -(r * d);
    }
  }

  lemma Scaled(r: real, x: real, d: real)
    requires r >= 0.0 && 0.0 <= x <= d
    ensures 0.0 <= r * x <= r * d
  {
  }
}
