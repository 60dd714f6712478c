// The two parametric distributions the Thompson-sampling bandit relies on. Only their
// parameter bookkeeping is modelled; drawing a sample is random and is a parameter.

module Distributions {
  import opened Common

  /** A Beta(alpha, beta) distribution whose parameters can be reset or incremented. */
  class BetaDistribution {
    var alpha: real
    var beta: real

    constructor (alpha: real, beta: real)
      ensures this.alpha == alpha && this.beta == beta
    {
      this.alpha := alpha;
      this.beta := beta;
    }

    /** update(Double...): both parameters when exactly two values are given, otherwise nothing. */
    method UpdateAll(values: seq<real>)
      modifies this
      ensures |values| == 2 ==> alpha == values[0] && beta == values[1]
      ensures |values| != 2 ==> alpha == old(alpha) && beta == old(beta)
    {
      if |values| == 2 {
        SetBoth(values[0], values[1]);
      }
    }

    /** update(alpha, beta). */
    method SetBoth(alpha: real, beta: real)
      modifies this
      ensures this.alpha == alpha && this.beta == beta
    {
      this.alpha := alpha;
      this.beta := beta;
    }

    /** update(value, i): parameter 0 is alpha, 1 is beta; any other index changes nothing. */
    method SetParameter(value: real, i: int)
      modifies this
      ensures alpha == (if i == 0 then value else old(alpha))
      ensures beta == (if i == 1 then value else old(beta))
    {
      if i == 0 {
        alpha := value;
      } else if i == 1 {
        beta := value;
      }
    }

    /** updateAdd: both parameters grow by the given increments. */
    method UpdateAdd(incrAlpha: real, incrBeta: real)
      modifies this
      ensures alpha == old(alpha) + incrAlpha && beta == old(beta) + incrBeta
    {
      alpha := alpha + incrAlpha;
      beta := beta + incrBeta;
    }

    method UpdateAddAlpha(incr: real)
      modifies this
      ensures alpha == old(alpha) + incr && beta == old(beta)
    {
      alpha := alpha + incr;
    }

    method UpdateAddBeta(incr: real)
      modifies this
      ensures beta == old(beta) + incr && alpha == old(alpha)
    {
      beta := beta + incr;
    }

    /** The mean alpha / (alpha + beta): a probability for proper parameters. */
    function Mean(): (r: Double)
      reads this
      ensures alpha + beta != 0.0 ==> r.Fin? && r.r * (alpha + beta) == alpha
      ensures alpha >= 0.0 && beta >= 0.0 && alpha + beta > 0.0 ==> r.Fin? && 0.0 <= r.r <= 1.0
      ensures alpha + beta == 0.0 ==> (r == NaN <==> alpha == 0.0)
    {
      Div(alpha, alpha + beta)
    }

    /** getParameter(i): alpha for 0, beta for 1, NaN otherwise. */
    function GetParameter(i: int): (r: Double)
      reads this
      ensures r != NaN <==> i == 0 || i == 1
      ensures i == 0 ==> r == Fin(alpha)
      ensures i == 1 ==> r == Fin(beta)
    {
      if i == 0 then Fin(alpha) else if i == 1 then Fin(beta) else NaN
    }
  }

  /** A Gamma(shape, scale) distribution. */
  class GammaDistribution {
    var shape: real
    var scale: real

    constructor (shape: real, scale: real)
      ensures this.shape == shape && this.scale == scale
    {
      this.shape := shape;
      this.scale := scale;
    }

    /** update(Double...): both parameters when exactly two values are given, otherwise nothing. */
    method UpdateAll(values: seq<real>)
      modifies this
      ensures |values| == 2 ==> shape == values[0] && scale == values[1]
      ensures |values| != 2 ==> shape == old(shape) && scale == old(scale)
    {
      if |values| == 2 {
        SetBoth(values[0], values[1]);
      }
    }

    /** update(shape, scale). */
    method SetBoth(shape: real, scale: real)
      modifies this
      ensures this.shape == shape && this.scale == scale
    {
      this.shape := shape;
      this.scale := scale;
    }

    /**
     * update(value, i) as written: index 1 sets the scale, but index 0 leaves the shape
     * as it was, because updateShape assigns the field to itself.
     */
    method SetParameter(value: real, i: int)
      modifies this
      ensures shape == old(shape)
      ensures scale == (if i == 1 then value else old(scale))
    {
      if i == 0 {
        shape := shape;
      } else if i == 1 {
        scale := value;
      }
    }

    /** update(value, i) as evidently intended: index 0 sets the shape. */
    method SetParameterIntended(value: real, i: int)
      modifies this
      ensures shape == (if i == 0 then value else old(shape))
      ensures scale == (if i == 1 then value else old(scale))
    {
      if i == 0 {
        shape := value;
      } else if i == 1 {
        scale := value;
      }
    }

    /** The mean shape * scale. */
    function Mean(): (r: real)
      reads this
      ensures shape == 0.0 || scale == 0.0 ==> r == 0.0
      ensures shape > 0.0 && scale > 0.0 ==> r > 0.0
    {
      shape * scale
    }

    /** getParameter(i): shape for 0, scale for 1, NaN otherwise. */
    function GetParameter(i: int): (r: Double)
      reads this
      ensures r != NaN <==> i == 0 || i == 1
      ensures i == 0 ==> r == Fin(shape)
      ensures i == 1 ==> r == Fin(scale)
    {
      if i == 0 then Fin(shape) else if i == 1 then Fin(scale) else NaN
    }

    /**
     * sample: 0 for a non-positive shape; otherwise the outcome `draw` of the random
     * rejection procedure.
     */
    method Sample(draw: real) returns (r: real)
      ensures shape <= 0.0 ==> r == 0.0
      ensures shape > 0.0 ==> r == draw
    {
      if shape <= 0.0 {
        r := 0.0;
      } else {
        r := draw;
      }
    }
  }
}
