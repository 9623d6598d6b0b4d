/** The Go Interpolate mutation: samples taken at any times, aligned with the multiples of a duration. Values are real
    numbers. */
module Interpolation {
  import opened Wrappers

  const LIMIT := 0x1_0000_0000_0000_0000

  datatype Value = Value(timestamp: nat, value: real)

  /** What is remembered between samples: the previous sample kept, and the next boundary to fill. */
  datatype State = Nothing | Kept(previous: Value, next: nat)

  ghost predicate Good(s: State, duration: nat)
    requires duration > 0
  {
    s.Kept? ==> s.previous.timestamp < s.next && s.next % duration == 0
  }

  /** The value at time t on the line from p to q. */
  function OnLine(p: Value, q: Value, t: nat): real
    requires p.timestamp < q.timestamp
  {
    p.value + (q.value - p.value) * (((t - p.timestamp) as real) / ((q.timestamp - p.timestamp) as real))
  }

  /** The boundaries from `next` up to v, its own time included. */
  function Fill(next: nat, duration: nat, p: Value, v: Value): seq<Value>
    requires duration > 0 && p.timestamp < next
    decreases v.timestamp - next
  {
    if next > v.timestamp then []
    else [Value(next, OnLine(p, v, next))] + Fill(next + duration, duration, p, v)
  }

  /** The first boundary at or after `next` that is after t. */
  function NextAfter(next: nat, duration: nat, t: nat): nat
    requires duration > 0
    decreases t - next
  {
    if next > t then next else NextAfter(next + duration, duration, t)
  }

  /** What one sample does. A sample before the next boundary is dropped. One exactly on a boundary comes out twice, and
      the boundary after it is passed over. */
  function Step(s: State, duration: nat, v: Value): (r: (State, seq<Value>))
    requires duration > 0 && Good(s, duration)
  {
    match s
    case Nothing =>
      if v.timestamp % duration == 0 then (Kept(v, v.timestamp + duration), [v])
      else (Kept(v.(timestamp := v.timestamp / duration * duration), v.timestamp / duration * duration + duration), [])
    case Kept(p, next) =>
      if v.timestamp < next then (s, [])
      else if v.timestamp % duration == 0 then
        (Kept(v, NextAfter(next, duration, v.timestamp) + duration), Fill(next, duration, p, v) + [v])
      else (Kept(v, NextAfter(next, duration, v.timestamp)), Fill(next, duration, p, v))
  }

  // ---------- what one sample does, said without computing it ----------

  function Boundary(first: nat, duration: nat, i: nat): nat {
    first + i * duration
  }

  /** o lies on the straight line through p and v. */
  ghost predicate Collinear(p: Value, v: Value, o: Value) {
    (o.value - p.value) * ((v.timestamp - p.timestamp) as real) == (v.value - p.value) * ((o.timestamp - p.timestamp) as real)
  }

  /** The first sample is kept under the time of its boundary, and put out only if it is on it. */
  ghost predicate Begins(duration: nat, v: Value, s': State, out: seq<Value>)
    requires duration > 0
  {
    && s'.Kept? && s'.previous.value == v.value
    && s'.previous.timestamp % duration == 0 && s'.previous.timestamp <= v.timestamp < s'.previous.timestamp + duration == s'.next
    && out == if v.timestamp % duration == 0 then [v] else []
  }

  /** A later sample from the next boundary on is kept: every boundary up to its time comes out, on the line from the sample
      kept before; one exactly on a boundary comes out itself as well, and the boundary after it is passed over. */
  ghost predicate GoesOn(duration: nat, p: Value, next: nat, v: Value, s': State, out: seq<Value>)
    requires duration > 0
  {
    var exact := v.timestamp % duration == 0;
    var n := if exact then |out| - 1 else |out|;
    && n > 0 && Boundary(next, duration, n - 1) <= v.timestamp < Boundary(next, duration, n)
    && (forall i :: 0 <= i < n ==> out[i].timestamp == Boundary(next, duration, i) && Collinear(p, v, out[i]))
    && (exact ==> out[n] == v && out[n - 1] == v)
    && s' == Kept(v, Boundary(next, duration, if exact then n + 1 else n))
  }

  ghost predicate Did(duration: nat, s: State, v: Value, s': State, out: seq<Value>)
    requires duration > 0
  {
    match s
    case Nothing => Begins(duration, v, s', out)
    case Kept(p, next) => if v.timestamp < next then s' == s && out == [] else GoesOn(duration, p, next, v, s', out)
  }

  // ---------- the code ----------

  /** The loop over the input channel. The largest time must leave room for two boundaries more, or the next boundary
      wraps around. */
  method Interpolate(duration: nat, input: seq<Value>) returns (output: seq<Value>)
    requires duration > 0 && forall v :: v in input ==> v.timestamp + 2 * duration < LIMIT
    ensures output == Outputs(duration, input)
  {
    hide Step, After;
    var previousValue: Option<Value> := None;
    var timestamp: nat := 0;
    output := [];
    AfterNothing(duration, input);
    for i := 0 to |input|
      invariant After(duration, input[..i]) == StateOf(previousValue, timestamp)
      invariant output == Outputs(duration, input[..i])
    {
      assert input[..i + 1][..i] == input[..i] && input[i] in input;
      AfterOneMore(duration, input, i);
      var out;
      out, previousValue, timestamp := Receive(duration, previousValue, timestamp, input[i]);
      output := output + out;
    }
    assert input[..|input|] == input;
  }

  function StateOf(previous: Option<Value>, next: nat): State {
    if previous == None then Nothing else Kept(previous.value, next)
  }

  /** One round of the loop: what comes out, the sample to keep and the next boundary. */
  method Receive(duration: nat, previous: Option<Value>, next: nat, v: Value)
    returns (output: seq<Value>, previousValue: Option<Value>, timestamp: nat)
    requires duration > 0 && v.timestamp + 2 * duration < LIMIT && Good(StateOf(previous, next), duration)
    ensures (StateOf(previousValue, timestamp), output) == Step(StateOf(previous, next), duration, v)
    ensures Did(duration, StateOf(previous, next), v, StateOf(previousValue, timestamp), output)
    ensures previous == None || v.timestamp >= next ==> timestamp < LIMIT
  {
    hide Fill, NextAfter, Did;
    StepDoes(StateOf(previous, next), duration, v);
    output, previousValue, timestamp := [], previous, next;
    if previousValue == None {
      if v.timestamp % duration == 0 {
        output := [v];
        previousValue := Some(v);
        timestamp := v.timestamp + duration;
      } else {
        previousValue := Some(v.(timestamp := v.timestamp / duration * duration));
        timestamp := previousValue.value.timestamp + duration;
        assert v.timestamp / duration * duration <= v.timestamp;
      }
      return;
    }
    if v.timestamp >= timestamp {
      output, timestamp := FillTo(duration, previousValue.value, timestamp, v);
      if previousValue.value.timestamp < v.timestamp {
        if v.timestamp % duration == 0 {
          output := output + [v];
          previousValue := Some(v);
          timestamp := timestamp + duration;
        } else {
          previousValue := Some(v);
        }
      }
    }
  }

  lemma AfterNothing(duration: nat, input: seq<Value>)
    requires duration > 0
    ensures After(duration, input[..0]) == Nothing
  {
  }

  lemma AfterOneMore(duration: nat, input: seq<Value>, i: nat)
    requires duration > 0 && i < |input|
    ensures After(duration, input[..i + 1]) == Step(After(duration, input[..i]), duration, input[i]).0
  {
    assert input[..i + 1][..i] == input[..i];
  }

  /** The inner loop: no unsigned subtraction in it wraps. */
  method FillTo(duration: nat, previous: Value, next: nat, v: Value) returns (output: seq<Value>, timestamp: nat)
    requires duration > 0 && previous.timestamp < next <= v.timestamp && v.timestamp + duration < LIMIT
    ensures output == Fill(next, duration, previous, v) && timestamp == NextAfter(next, duration, v.timestamp)
    ensures v.timestamp < timestamp <= v.timestamp + duration
    ensures forall o :: o in output ==> Collinear(previous, v, o) && (o.timestamp == v.timestamp ==> o == v)
  {
    FillCollinear(next, duration, previous, v);
    var rate := v.value - previous.value;
    output, timestamp := [], next;
    ghost var all := Fill(next, duration, previous, v);
    assert [] + all == all;
    while timestamp <= v.timestamp
      invariant previous.timestamp < timestamp <= v.timestamp + duration
      invariant output + Fill(timestamp, duration, previous, v) == all
      invariant NextAfter(timestamp, duration, v.timestamp) == NextAfter(next, duration, v.timestamp)
      decreases v.timestamp + duration - timestamp
    {
      var pct := ((timestamp - previous.timestamp) as real) / ((v.timestamp - previous.timestamp) as real);
      var newValue := previous.value + (rate * pct);
      assert newValue == OnLine(previous, v, timestamp);
      hide OnLine;
      ghost var rest := Fill(timestamp + duration, duration, previous, v);
      assert output + ([Value(timestamp, newValue)] + rest) == output + [Value(timestamp, newValue)] + rest;
      output := output + [Value(timestamp, newValue)];
      timestamp := timestamp + duration;
    }
    assert output + [] == output;
  }

  // ---------- whole runs ----------

  lemma MultipleMore(n: nat, duration: nat)
    requires duration > 0 && n % duration == 0
    ensures (n + duration) % duration == 0
  {
    var q := n / duration;
    assert n == duration * q;
    assert n + duration == duration * (q + 1);
    MultipleMod(duration, q + 1);
  }

  lemma {:induction false} MultipleMod(duration: nat, q: nat)
    requires duration > 0
    ensures duration * q % duration == 0
    decreases q
  {
    if q > 0 {
      var n := duration * (q - 1);
      MultipleMod(duration, q - 1);
      assert duration * q == n + duration;
      ModAfter(n, duration);
    }
  }

  lemma ModAfter(n: nat, duration: nat)
    requires duration > 0
    ensures (n + duration) % duration == n % duration
  {
    var q, r := n / duration, n % duration;
    assert n == q * duration + r;
    assert n + duration == (q + 1) * duration + r;
    Remainder(n + duration, duration, q + 1, r);
  }

  lemma Remainder(a: int, b: int, q: int, r: int)
    requires b > 0 && 0 <= r < b && a == q * b + r
    ensures a % b == r
  {
    var d := a / b - q;
    assert (a / b) * b == d * b + q * b;
    assert d * b == r - a % b;
    assert (d >= 1 ==> d * b >= b) && (d <= -1 ==> d * b <= -b);
  }

  lemma {:induction false} NextAfterIs(next: nat, duration: nat, t: nat)
    requires duration > 0 && next % duration == 0
    ensures var n := NextAfter(next, duration, t); n > t && n % duration == 0 && n >= next && (next <= t ==> n <= t + duration)
    decreases t - next
  {
    if next <= t {
      MultipleMore(next, duration);
      NextAfterIs(next + duration, duration, t);
    }
  }

  lemma StepGood(s: State, duration: nat, v: Value)
    requires duration > 0 && Good(s, duration)
    ensures Good(Step(s, duration, v).0, duration)
  {
    match s
    case Nothing =>
      if v.timestamp % duration == 0 {
        MultipleMore(v.timestamp, duration);
      } else {
        var q := v.timestamp / duration;
        MultipleMod(duration, q);
        assert q * duration == duration * q;
        MultipleMore(q * duration, duration);
      }
    case Kept(p, next) =>
      NextAfterIs(next, duration, v.timestamp);
      MultipleMore(NextAfter(next, duration, v.timestamp), duration);
  }

  function After(duration: nat, input: seq<Value>): (s: State)
    requires duration > 0
    ensures Good(s, duration)
  {
    if input == [] then Nothing else
      var n := |input| - 1;
      StepGood(After(duration, input[..n]), duration, input[n]);
      Step(After(duration, input[..n]), duration, input[n]).0
  }

  function Outputs(duration: nat, input: seq<Value>): seq<Value>
    requires duration > 0
  {
    if input == [] then [] else
      var n := |input| - 1;
      Outputs(duration, input[..n]) + Step(After(duration, input[..n]), duration, input[n]).1
  }

  ghost predicate Aligned(out: seq<Value>, duration: nat)
    requires duration > 0
  {
    forall i :: 0 <= i < |out| ==> out[i].timestamp % duration == 0
  }

  ghost predicate Nondecreasing(out: seq<Value>) {
    forall i, j :: 0 <= i < j < |out| ==> out[i].timestamp <= out[j].timestamp
  }

  /** All between two times, both included. */
  ghost predicate Within(out: seq<Value>, from: nat, to: int) {
    forall i :: 0 <= i < |out| ==> from <= out[i].timestamp <= to
  }

  lemma {:induction false} FillIsAligned(next: nat, duration: nat, p: Value, v: Value)
    requires duration > 0 && p.timestamp < next && next % duration == 0
    ensures var out := Fill(next, duration, p, v);
      Aligned(out, duration) && Nondecreasing(out) && Within(out, next, v.timestamp)
    decreases v.timestamp - next
  {
    hide OnLine;
    if next <= v.timestamp {
      MultipleMore(next, duration);
      FillIsAligned(next + duration, duration, p, v);
    }
  }

  lemma StepIsAligned(s: State, duration: nat, v: Value)
    requires duration > 0 && Good(s, duration)
    ensures var (s', out) := Step(s, duration, v);
      && Aligned(out, duration) && Nondecreasing(out) && s'.Kept?
      && (s.Kept? ==> Within(out, s.next, s'.next - 1) && s.next <= s'.next)
      && (s.Nothing? ==> Within(out, 0, s'.next - 1))
  {
    hide OnLine, Fill, NextAfter;
    if s.Kept? {
      NextAfterIs(s.next, duration, v.timestamp);
      FillIsAligned(s.next, duration, s.previous, v);
    }
  }

  lemma Joined(a: seq<Value>, b: seq<Value>, duration: nat, mid: nat, to: nat)
    requires duration > 0 && Aligned(a, duration) && Nondecreasing(a) && Aligned(b, duration) && Nondecreasing(b)
    requires Within(a, 0, mid - 1) && Within(b, mid, to - 1) && mid <= to
    ensures Aligned(a + b, duration) && Nondecreasing(a + b) && Within(a + b, 0, to - 1)
  {
  }

  /** Whatever the order of the samples, every output is on a boundary, and outputs never go back in time. */
  lemma {:induction false} OutputsAligned(duration: nat, input: seq<Value>)
    requires duration > 0
    ensures var out, s := Outputs(duration, input), After(duration, input);
      && Aligned(out, duration) && Nondecreasing(out)
      && (s.Nothing? ==> out == []) && (s.Kept? ==> Within(out, 0, s.next - 1))
    decreases |input|
  {
    hide Step, Aligned, Nondecreasing, Within;
    if input == [] {
      assert Aligned([], duration) && Nondecreasing([]) by { NothingOut(duration); }
    } else {
      var n := |input| - 1;
      var before, s := Outputs(duration, input[..n]), After(duration, input[..n]);
      OutputsAligned(duration, input[..n]);
      StepIsAligned(s, duration, input[n]);
      var (s', out) := Step(s, duration, input[n]);
      if s.Kept? {
        Joined(before, out, duration, s.next, s'.next);
      } else {
        assert before + out == out;
      }
    }
  }

  lemma NothingOut(duration: nat)
    requires duration > 0
    ensures Aligned([], duration) && Nondecreasing([])
  {
  }

  // ---------- values ----------

  predicate Between(a: real, x: real, b: real) {
    a <= x <= b || b <= x <= a
  }

  lemma Scaled(r: real, c: real)
    requires 0.0 <= c <= 1.0
    ensures Between(0.0, r * c, r)
  {
    if r < 0.0 {
      Shrinks(-r, c);
      assert (-r) * c == -(r * c);
    } else {
      Shrinks(r, c);
    }
  }

  lemma Shrinks(r: real, c: real)
    requires r >= 0.0 && 0.0 <= c <= 1.0
    ensures 0.0 <= r * c <= r
  {
  }

  lemma Fraction(x: real, d: real)
    requires 0.0 < x <= d
    ensures 0.0 <= x / d <= 1.0
  {
    var c := x / d;
    assert c * d == x;
    assert (c < 0.0 ==> c * d < 0.0) && (c > 1.0 ==> (c - 1.0) * d > 0.0);
  }

  lemma OnLineBetween(p: Value, q: Value, t: nat)
    requires p.timestamp < t <= q.timestamp
    ensures Between(p.value, OnLine(p, q, t), q.value)
  {
    var x, d := (t - p.timestamp) as real, (q.timestamp - p.timestamp) as real;
    var r, c := q.value - p.value, x / d;
    assert OnLine(p, q, t) == p.value + r * c;
    hide OnLine;
    Fraction(x, d);
    Scaled(r, c);
  }

  /** Every value filled in lies between the previous sample kept and the new one. */
  lemma {:induction false} FillBetween(next: nat, duration: nat, p: Value, v: Value, i: nat)
    requires duration > 0 && p.timestamp < next && i < |Fill(next, duration, p, v)|
    ensures var o := Fill(next, duration, p, v)[i];
      p.timestamp < o.timestamp <= v.timestamp && Collinear(p, v, o) && Between(p.value, o.value, v.value)
    decreases i
  {
    hide OnLine, Collinear;
    if i == 0 {
      OnLineBetween(p, v, next);
      OnLineCollinear(p, v, next);
    } else {
      FillBetween(next + duration, duration, p, v, i - 1);
    }
  }

  /** What is computed for time t satisfies the equation of the line. */
  lemma OnLineCollinear(p: Value, q: Value, t: nat)
    requires p.timestamp < t <= q.timestamp
    ensures Collinear(p, q, Value(t, OnLine(p, q, t))) && (t == q.timestamp ==> OnLine(p, q, t) == q.value)
  {
    var x, d := (t - p.timestamp) as real, (q.timestamp - p.timestamp) as real;
    var r, c := q.value - p.value, x / d;
    assert c * d == x;
    assert OnLine(p, q, t) - p.value == r * c;
    hide OnLine;
    assert r * c * d == r * (c * d) == r * x;
    if t == q.timestamp {
      OnLineAtEnd(p, q);
    }
  }

  lemma OnLineAtEnd(p: Value, q: Value)
    requires p.timestamp < q.timestamp
    ensures OnLine(p, q, q.timestamp) == q.value
  {
    var d := (q.timestamp - p.timestamp) as real;
    SelfQuotient(d);
    assert OnLine(p, q, q.timestamp) == p.value + (q.value - p.value) * (d / d);
  }

  lemma SelfQuotient(d: real)
    requires d > 0.0
    ensures d / d == 1.0
  {
  }

  lemma {:induction false} FillCollinear(next: nat, duration: nat, p: Value, v: Value)
    requires duration > 0 && p.timestamp < next
    ensures forall o :: o in Fill(next, duration, p, v) ==> Collinear(p, v, o) && (o.timestamp == v.timestamp ==> o == v)
    decreases v.timestamp - next
  {
    if next <= v.timestamp {
      OnLineCollinear(p, v, next);
      hide OnLine, Collinear;
      FillCollinear(next + duration, duration, p, v);
    }
  }

  /** The step computes what is said above. */
  lemma StepDoes(s: State, duration: nat, v: Value)
    requires duration > 0 && Good(s, duration)
    ensures Did(duration, s, v, Step(s, duration, v).0, Step(s, duration, v).1)
  {
    match s
    case Nothing =>
      FirstDoes(duration, v);
    case Kept(p, next) =>
      if v.timestamp >= next {
        LaterDoes(duration, p, next, v);
      }
  }

  lemma FirstDoes(duration: nat, v: Value)
    requires duration > 0
    ensures Begins(duration, v, Step(Nothing, duration, v).0, Step(Nothing, duration, v).1)
  {
    var q := v.timestamp / duration;
    MultipleMod(duration, q);
    assert q * duration == duration * q && v.timestamp < q * duration + duration;
  }

  lemma LaterDoes(duration: nat, p: Value, next: nat, v: Value)
    requires duration > 0 && p.timestamp < next <= v.timestamp && next % duration == 0
    ensures GoesOn(duration, p, next, v, Step(Kept(p, next), duration, v).0, Step(Kept(p, next), duration, v).1)
  {
    var fill := Fill(next, duration, p, v);
    BoundaryStep(next, duration, 0);
    FillOnBoundaries(next, duration, 0, p, v);
    FillCollinear(next, duration, p, v);
    var n := |fill|;
    BoundaryStep(next, duration, n);
    assert fill[n - 1] in fill;
    if v.timestamp % duration == 0 {
      FillEndsExact(next, duration, p, v);
    }
    hide Fill, NextAfter, Collinear, Boundary;
  }

  lemma FillEndsExact(next: nat, duration: nat, p: Value, v: Value)
    requires duration > 0 && p.timestamp < next <= v.timestamp && next % duration == 0 && v.timestamp % duration == 0
    ensures var fill := Fill(next, duration, p, v); fill != [] && fill[|fill| - 1].timestamp == v.timestamp
  {
    ExactTwice(next, duration, p, v);
    hide Fill;
  }

  // ---------- what an exact sample costs ----------

  /** A sample after the first that is kept and lies exactly on a boundary is put out twice. */
  lemma {:induction false} ExactTwice(next: nat, duration: nat, p: Value, v: Value)
    requires duration > 0 && p.timestamp < next <= v.timestamp && next % duration == 0 && v.timestamp % duration == 0
    ensures var out := Step(Kept(p, next), duration, v).1;
      |out| >= 2 && out[|out| - 1] == v && out[|out| - 2].timestamp == v.timestamp
    decreases v.timestamp - next
  {
    hide OnLine;
    if next == v.timestamp {
      assert Fill(next, duration, p, v) == [Value(next, OnLine(p, v, next))] + Fill(next + duration, duration, p, v);
      assert Fill(next + duration, duration, p, v) == [];
    } else {
      MultipleMore(next, duration);
      MultiplesApart(next, v.timestamp, duration);
      ExactTwice(next + duration, duration, p, v);
      assert Fill(next, duration, p, v) == [Value(next, OnLine(p, v, next))] + Fill(next + duration, duration, p, v);
    }
  }

  lemma MultiplesApart(a: nat, b: nat, duration: nat)
    requires duration > 0 && a % duration == 0 && b % duration == 0 && a < b
    ensures a + duration <= b
  {
    var q, r := a / duration, b / duration;
    assert a == q * duration && b == r * duration;
    assert q >= r ==> q * duration >= r * duration;
    assert r * duration >= (q + 1) * duration;
  }

  /** What the samples to come put out. */
  function Later(s: State, duration: nat, input: seq<Value>): seq<Value>
    requires duration > 0 && Good(s, duration)
    decreases |input|
  {
    if input == [] then [] else
      StepGood(s, duration, input[0]);
      Step(s, duration, input[0]).1 + Later(Step(s, duration, input[0]).0, duration, input[1..])
  }

  ghost predicate NoneBefore(out: seq<Value>, t: nat) {
    forall i :: 0 <= i < |out| ==> t <= out[i].timestamp
  }

  lemma {:induction false} LaterFromNext(s: State, duration: nat, input: seq<Value>)
    requires duration > 0 && Good(s, duration) && s.Kept?
    ensures NoneBefore(Later(s, duration, input), s.next)
    decreases |input|
  {
    hide Step, Aligned, Nondecreasing;
    if input != [] {
      StepGood(s, duration, input[0]);
      StepIsAligned(s, duration, input[0]);
      LaterFromNext(Step(s, duration, input[0]).0, duration, input[1..]);
    }
  }

  /** And the boundary after it is never filled, whatever comes later. */
  lemma BoundarySkipped(s: State, duration: nat, v: Value, input: seq<Value>)
    requires duration > 0 && Good(s, duration) && s.Kept? && s.next <= v.timestamp && v.timestamp % duration == 0
    ensures Good(Step(s, duration, v).0, duration)
    ensures NoneBefore(Later(Step(s, duration, v).0, duration, input), v.timestamp + 2 * duration)
  {
    hide OnLine, Fill, NextAfter;
    NextAfterIs(s.next, duration, v.timestamp);
    MultiplesApart(v.timestamp, NextAfter(s.next, duration, v.timestamp), duration);
    StepGood(s, duration, v);
    var s' := Step(s, duration, v).0;
    assert s'.next == v.timestamp + 2 * duration;
    hide Step, Later, Good;
    LaterFromNext(s', duration, input);
  }

  // ---------- when every boundary comes out once ----------

  /** The first sample's own time, or the boundary after it. */
  function FirstBoundary(v: Value, duration: nat): nat
    requires duration > 0
  {
    if v.timestamp % duration == 0 then v.timestamp else v.timestamp / duration * duration + duration
  }

  ghost predicate OnBoundaries(out: seq<Value>, first: nat, duration: nat, n: nat) {
    forall i :: 0 <= i < |out| ==> out[i].timestamp == Boundary(first, duration, n + i)
  }

  ghost function Latest(input: seq<Value>): nat {
    if input == [] then 0 else
      var before, t := Latest(input[..|input| - 1]), input[|input| - 1].timestamp;
      if before < t then t else before
  }

  /** n boundaries, no more and no fewer, are at or before t. */
  ghost predicate Reaches(first: nat, duration: nat, n: nat, t: nat) {
    t < Boundary(first, duration, n) && (n > 0 ==> Boundary(first, duration, n - 1) <= t)
  }

  /** The outputs are the boundaries, none skipped and none repeated, from the first to the last that is not after the latest sample. */
  ghost predicate EachOnce(duration: nat, input: seq<Value>)
    requires duration > 0 && input != []
  {
    var first, out := FirstBoundary(input[0], duration), Outputs(duration, input);
    OnBoundaries(out, first, duration, 0) && Reaches(first, duration, |out|, Latest(input))
  }

  /** A sample after the first is kept and lies exactly on a boundary: the branch of the code that sends the sample itself. */
  ghost predicate ExactAt(duration: nat, input: seq<Value>, i: nat)
    requires duration > 0 && i < |input|
  {
    var s, v := After(duration, input[..i]), input[i];
    s.Kept? && v.timestamp >= s.next && v.timestamp % duration == 0
  }

  lemma BoundaryStep(first: nat, duration: nat, i: nat)
    ensures Boundary(first, duration, i + 1) == Boundary(first, duration, i) + duration
    ensures Boundary(first, duration, 0) == first
  {
  }

  lemma {:induction false} FillOnBoundaries(first: nat, duration: nat, n: nat, p: Value, v: Value)
    requires duration > 0 && p.timestamp < Boundary(first, duration, n)
    ensures var next := Boundary(first, duration, n);
      var out := Fill(next, duration, p, v);
      && OnBoundaries(out, first, duration, n)
      && NextAfter(next, duration, v.timestamp) == Boundary(first, duration, n + |out|)
      && v.timestamp < Boundary(first, duration, n + |out|)
      && (out != [] ==> Boundary(first, duration, n + |out| - 1) <= v.timestamp)
      && (out == [] <==> v.timestamp < next)
    decreases v.timestamp - Boundary(first, duration, n)
  {
    hide OnLine, Boundary;
    if Boundary(first, duration, n) <= v.timestamp {
      BoundaryStep(first, duration, n);
      FillOnBoundaries(first, duration, n + 1, p, v);
    }
  }

  lemma FirstOutput(duration: nat, v: Value)
    requires duration > 0
    ensures var (s, out) := Step(Nothing, duration, v);
      var first := FirstBoundary(v, duration);
      && OnBoundaries(out, first, duration, 0) && Reaches(first, duration, |out|, v.timestamp)
      && s.Kept? && s.next == Boundary(first, duration, |out|)
  {
    var first := FirstBoundary(v, duration);
    BoundaryStep(first, duration, 0);
    assert v.timestamp < v.timestamp / duration * duration + duration;
    hide Boundary;
  }

  lemma OnBoundariesJoined(a: seq<Value>, b: seq<Value>, first: nat, duration: nat)
    requires OnBoundaries(a, first, duration, 0) && OnBoundaries(b, first, duration, |a|)
    ensures OnBoundaries(a + b, first, duration, 0)
  {
    hide Boundary;
  }

  /** A kept sample off the boundaries, or a dropped one, goes on where the outputs ended. */
  lemma NextOutput(first: nat, duration: nat, n: nat, p: Value, v: Value, latest: nat)
    requires duration > 0 && p.timestamp < Boundary(first, duration, n) && Boundary(first, duration, n) % duration == 0
    requires Reaches(first, duration, n, latest)
    requires v.timestamp < Boundary(first, duration, n) || v.timestamp % duration != 0
    ensures var (s, out) := Step(Kept(p, Boundary(first, duration, n)), duration, v);
      && OnBoundaries(out, first, duration, n)
      && Reaches(first, duration, n + |out|, if latest < v.timestamp then v.timestamp else latest)
      && s.Kept? && s.next == Boundary(first, duration, n + |out|)
  {
    FillOnBoundaries(first, duration, n, p, v);
    hide Boundary, Fill, NextAfter;
  }

  lemma {:induction false} EachOnceWithoutExact(duration: nat, input: seq<Value>)
    requires duration > 0 && input != [] && forall i :: 1 <= i < |input| ==> !ExactAt(duration, input, i)
    ensures EachOnce(duration, input)
    ensures var s := After(duration, input);
      s.Kept? && s.next == Boundary(FirstBoundary(input[0], duration), duration, |Outputs(duration, input)|)
    decreases |input|
  {
    hide Step, FirstBoundary, Boundary, OnBoundaries, Reaches;
    var n := |input| - 1;
    var before, v := input[..n], input[n];
    if n == 0 {
      FirstOutput(duration, v);
      assert before == [] && Outputs(duration, before) == [] && After(duration, before) == Nothing && Latest(before) == 0;
      assert [] + Step(Nothing, duration, v).1 == Step(Nothing, duration, v).1;
    } else {
      forall i | 1 <= i < n ensures !ExactAt(duration, before, i) {
        assert before[..i] == input[..i] && !ExactAt(duration, input, i);
      }
      EachOnceWithoutExact(duration, before);
      var first, out, s := FirstBoundary(input[0], duration), Outputs(duration, before), After(duration, before);
      assert !ExactAt(duration, input, n);
      NextOutput(first, duration, |out|, s.previous, v, Latest(before));
      OnBoundariesJoined(out, Step(s, duration, v).1, first, duration);
    }
  }

  lemma {:induction false} OutputsPrefix(duration: nat, input: seq<Value>, i: nat)
    requires duration > 0 && i <= |input|
    ensures Outputs(duration, input[..i]) <= Outputs(duration, input)
    decreases |input|
  {
    hide Step;
    if i == |input| {
      assert input[..i] == input;
    } else {
      var n := |input| - 1;
      OutputsPrefix(duration, input[..n], i);
      assert input[..n][..i] == input[..i];
    }
  }

  /** Over a whole input: the outputs are those of one sample after the other, each doing what is said above. */
  lemma RunDid(duration: nat, input: seq<Value>, i: nat) returns (out: seq<Value>)
    requires duration > 0 && i < |input|
    ensures Did(duration, After(duration, input[..i]), input[i], After(duration, input[..i + 1]), out)
    ensures Outputs(duration, input[..i]) + out == Outputs(duration, input[..i + 1]) <= Outputs(duration, input)
  {
    hide Step, Did;
    assert input[..i + 1][..i] == input[..i];
    StepDoes(After(duration, input[..i]), duration, input[i]);
    out := Step(After(duration, input[..i]), duration, input[i]).1;
    OutputsPrefix(duration, input, i + 1);
  }

  /** After an exact sample two outputs next to each other have one time. */
  lemma ExactRepeats(duration: nat, input: seq<Value>, i: nat)
    requires duration > 0 && i < |input| && ExactAt(duration, input, i)
    ensures var out := Outputs(duration, input);
      exists j :: 0 <= j < |out| - 1 && out[j].timestamp == out[j + 1].timestamp
  {
    var s, v := After(duration, input[..i]), input[i];
    var before, now, out := Outputs(duration, input[..i]), Step(s, duration, v).1, Outputs(duration, input);
    ExactTwice(s.next, duration, s.previous, v);
    hide Step;
    assert input[..i + 1][..i] == input[..i];
    assert Outputs(duration, input[..i + 1]) == before + now;
    OutputsPrefix(duration, input, i + 1);
    hide Outputs;
    var j := |before + now| - 2;
    assert out[j] == (before + now)[j] == now[|now| - 2] && out[j + 1] == (before + now)[j + 1] == now[|now| - 1];
  }

  lemma RepeatedOff(out: seq<Value>, first: nat, duration: nat, j: nat)
    requires duration > 0 && j + 1 < |out| && out[j].timestamp == out[j + 1].timestamp
    ensures !OnBoundaries(out, first, duration, 0)
  {
    BoundaryStep(first, duration, j);
    hide Boundary;
    assert out[j].timestamp != Boundary(first, duration, 0 + j) || out[j + 1].timestamp != Boundary(first, duration, 0 + (j + 1));
  }

  /** The exact condition: every boundary comes out once if and only if no sample after the first is kept on a boundary. */
  lemma EachOnceIff(duration: nat, input: seq<Value>)
    requires duration > 0 && input != []
    ensures EachOnce(duration, input) <==> forall i :: 1 <= i < |input| ==> !ExactAt(duration, input, i)
  {
    hide FirstBoundary, Boundary, Outputs, Reaches, ExactAt;
    if i :| 1 <= i < |input| && ExactAt(duration, input, i) {
      var first, out := FirstBoundary(input[0], duration), Outputs(duration, input);
      ExactRepeats(duration, input, i);
      var j :| 0 <= j < |out| - 1 && out[j].timestamp == out[j + 1].timestamp;
      RepeatedOff(out, first, duration, j);
    } else {
      EachOnceWithoutExact(duration, input);
    }
  }
}
