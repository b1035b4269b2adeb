/**
 * The two recurrences of the front-end kernel (front_impl of
 * src/cuphoton/xbeam/cuda_front.py): the doubly rotated phasor and the packed
 * position, each against its direct definition in exact arithmetic.
 */
module FrontPhase {
  import opened Arithmetic

  // ----- the circle -----

  /** Angle addition at one pair of angles. */
  predicate Adds(c: real -> real, s: real -> real, x: real, y: real) {
    c(x + y) == c(x) * c(y) - s(x) * s(y) && s(x + y) == s(x) * c(y) + c(x) * s(y)
  }

  /** A whole number of cycles changes nothing. */
  predicate Turns(c: real -> real, s: real -> real, x: real, n: int) {
    c(x + n as real) == c(x) && s(x + n as real) == s(x)
  }

  /** c and s are the cosine and sine of an angle in cycles, as far as the kernel needs. */
  ghost predicate Circle(c: real -> real, s: real -> real) {
    (forall x, y :: Adds(c, s, x, y)) && (forall x, n :: Turns(c, s, x, n))
  }

  /** reduce_cycles. */
  function ReduceCycles(value: real): (r: real)
    ensures -0.5 <= r < 0.5
  {
    value - (value + 0.5).Floor as real
  }

  lemma ReducedAngle(c: real -> real, s: real -> real, x: real)
    requires Circle(c, s)
    ensures c(ReduceCycles(x)) == c(x) && s(ReduceCycles(x)) == s(x)
  {
    assert Turns(c, s, ReduceCycles(x), (x + 0.5).Floor);
  }

  // ----- the phase polynomial -----

  datatype Polynomial = Polynomial(constant: real, linear: real, quadratic: real)

  /** The kernel's thread stride, blockDim.x. */
  const STRIDE: real := 256.0

  function At(p: Polynomial, x: real): real {
    p.constant + p.linear * x + p.quadratic * x * x
  }

  function Delta(p: Polynomial, x: real): real {
    p.linear * STRIDE + p.quadratic * (2.0 * x * STRIDE + STRIDE * STRIDE)
  }

  function SecondDelta(p: Polynomial): real {
    2.0 * p.quadratic * STRIDE * STRIDE
  }

  lemma Square(q: real, x: real)
    ensures q * (x + STRIDE) * (x + STRIDE) == q * x * x + q * (2.0 * x * STRIDE + STRIDE * STRIDE)
  {
    var y := x + STRIDE;
    assert q * y * y == q * (y * y);
    assert y * y == x * x + (2.0 * x * STRIDE + STRIDE * STRIDE);
    Distribute(q, x * x, 2.0 * x * STRIDE + STRIDE * STRIDE);
    assert q * x * x == q * (x * x);
  }

  lemma Distribute(q: real, a: real, b: real)
    ensures q * (a + b) == q * a + q * b
  {
  }

  lemma NextAt(p: Polynomial, x: real)
    ensures At(p, x + STRIDE) == At(p, x) + Delta(p, x)
  {
    Square(p.quadratic, x);
    Distribute(p.linear, x, STRIDE);
  }

  lemma NextDelta(p: Polynomial, x: real)
    ensures Delta(p, x + STRIDE) == Delta(p, x) + SecondDelta(p)
  {
    var q := p.quadratic;
    var a := 2.0 * x * STRIDE + STRIDE * STRIDE;
    assert 2.0 * (x + STRIDE) * STRIDE + STRIDE * STRIDE == a + 2.0 * STRIDE * STRIDE;
    Distribute(q, a, 2.0 * STRIDE * STRIDE);
  }

  // ----- the phasor -----

  datatype Phasor = Phasor(cosine: real, sine: real, deltaCosine: real, deltaSine: real,
                           secondCosine: real, secondSine: real)

  /** The phasor stands exactly at the phase polynomial of sample x. */
  predicate Tracks(c: real -> real, s: real -> real, p: Polynomial, x: real, z: Phasor) {
    && z.cosine == c(At(p, x)) && z.sine == s(At(p, x))
    && z.deltaCosine == c(Delta(p, x)) && z.deltaSine == s(Delta(p, x))
    && z.secondCosine == c(SecondDelta(p)) && z.secondSine == s(SecondDelta(p))
  }

  method StartPhasor(c: real -> real, s: real -> real, p: Polynomial, sample: int) returns (z: Phasor)
    requires Circle(c, s)
    ensures Tracks(c, s, p, sample as real, z)
  {
    var x := sample as real;
    var cycles := ReduceCycles(At(p, x));
    var delta := ReduceCycles(Delta(p, x));
    var second := ReduceCycles(SecondDelta(p));
    ReducedAngle(c, s, At(p, x));
    ReducedAngle(c, s, Delta(p, x));
    ReducedAngle(c, s, SecondDelta(p));
    z := Phasor(c(cycles), s(cycles), c(delta), s(delta), c(second), s(second));
  }

  /** Rotating by the delta, and the delta by the second delta, is stepping the polynomial. */
  lemma RotationSteps(c: real -> real, s: real -> real, p: Polynomial, x: real)
    requires Circle(c, s)
    ensures var a, d, e := At(p, x), Delta(p, x), SecondDelta(p);
            && c(At(p, x + STRIDE)) == c(a) * c(d) - s(a) * s(d)
            && s(At(p, x + STRIDE)) == s(a) * c(d) + c(a) * s(d)
            && c(Delta(p, x + STRIDE)) == c(d) * c(e) - s(d) * s(e)
            && s(Delta(p, x + STRIDE)) == s(d) * c(e) + c(d) * s(e)
  {
    NextAt(p, x);
    NextDelta(p, x);
    assert Adds(c, s, At(p, x), Delta(p, x));
    assert Adds(c, s, Delta(p, x), SecondDelta(p));
  }

  /** One step of both recurrences; every sixteenth restarts them from the polynomial. */
  method StepPhasor(c: real -> real, s: real -> real, p: Polynomial, sample: int, steps: nat, z: Phasor)
    returns (next: Phasor)
    requires Circle(c, s) && Tracks(c, s, p, sample as real, z)
    ensures Tracks(c, s, p, (sample + 256) as real, next)
  {
    hide Circle, At, Delta, SecondDelta;
    var x := sample as real;
    assert (sample + 256) as real == x + STRIDE;
    RotationSteps(c, s, p, x);
    next := Phasor(
      z.cosine * z.deltaCosine - z.sine * z.deltaSine,
      z.sine * z.deltaCosine + z.cosine * z.deltaSine,
      z.deltaCosine * z.secondCosine - z.deltaSine * z.secondSine,
      z.deltaSine * z.secondCosine + z.deltaCosine * z.secondSine,
      z.secondCosine, z.secondSine);
    if steps % 16 == 0 {
      var nextSample := x + STRIDE;
      var cycles := ReduceCycles(At(p, nextSample));
      var delta := ReduceCycles(Delta(p, nextSample));
      ReducedAngle(c, s, At(p, nextSample));
      ReducedAngle(c, s, Delta(p, nextSample));
      next := next.(cosine := c(cycles), sine := s(cycles), deltaCosine := c(delta), deltaSine := s(delta));
    }
  }

  // ----- the packed position -----

  datatype Position = Position(frame: int, within: int, initialized: bool)

  /** Before the sample at source index `index` is located. */
  predicate Follows(pos: Position, index: int, offset: int, spf: int)
    requires spf > 0
  {
    offset == 0 && pos.initialized ==> index >= 0 && pos.frame == index / spf && pos.within == index % spf
  }

  /** After it: the frame and the position in it, unless the index is negative. */
  predicate Located(pos: Position, index: int, spf: int)
    requires spf > 0
  {
    index >= 0 ==> pos.initialized && pos.frame == index / spf && pos.within == index % spf
  }

  method Locate(pos: Position, index: int, offset: int, spf: int) returns (next: Position)
    requires spf > 0 && Follows(pos, index, offset, spf)
    ensures Located(next, index, spf)
    ensures index < 0 ==> next == pos
  {
    next := pos;
    if offset != 0 && index >= 0 {
      var frame := index / spf;
      next := Position(frame, index - frame * spf, true);
    } else if !pos.initialized && index >= 0 {
      var frame := index / spf;
      next := Position(frame, index - frame * spf, true);
    }
  }

  /** The incremental advance: no division. */
  method Advance(pos: Position, index: int, offset: int, spf: int) returns (next: Position)
    requires spf > 0 && Located(pos, index, spf)
    requires offset == 0 && pos.initialized ==> index >= 0
    ensures Follows(next, index + 256, offset, spf)
  {
    next := pos;
    if pos.initialized && offset == 0 {
      var frame, within := pos.frame, pos.within + 256;
      while within >= spf
        invariant within >= 0 && frame * spf + within == index + 256
      {
        within := within - spf;
        frame := frame + 1;
      }
      DivUnique(index + 256, spf, frame, within);
      next := Position(frame, within, true);
    }
  }
}
