/** The tables the rate models read. They are loaded once, before any rate
    model runs, and never change afterwards; reading and cleaning the CSV files
    and fitting the polynomials happen outside this model, so the tables hold
    the fitted curves already evaluated on their grids. */
module Inputs {

  datatype Tables = Tables(
    /** Population counts by single year of age (index = age) for 2010 and 2011. */
    pop2010: seq<real>,
    pop2011: seq<real>,
    /** `children_rate`: sex-averaged one-year survival for ages 0..14. */
    childRate: seq<real>,
    /** The degree-10 survival fit evaluated on `np.linspace(15, 75, 60)`. */
    survFit: seq<real>,
    /** The degree-4 fertility fit evaluated on `np.linspace(15, 75, 60)`. */
    fertFit: seq<real>,
    /** Fitting the immigration factors with a degree-10 polynomial and
        evaluating it on `np.linspace(1, 75, 74)`. */
    immFit: seq<real> -> seq<real>)
  {
    /** The shapes the loaders guarantee: population columns reach age 76,
        15 child survival rates, 60 evaluated points per fitted curve. */
    predicate WellFormed()
    {
      |pop2010| >= 77 && |pop2011| >= 77 && |childRate| == 15
      && |survFit| == 60 && |fertFit| == 60
    }
  }
}
