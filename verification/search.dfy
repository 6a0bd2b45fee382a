/**
 * The exhaustive search of OpAmp.py lines 61-90: every ordered pair (R1, Rf) of
 * pool values, R1 in the outer loop, is turned into a candidate network by the
 * design equations and nearest stock values, scored by its squared error, and
 * kept when it is strictly cheaper than the best so far.
 */
module Search {
  import opened Wrappers
  import opened Transfer
  import opened ResistorPool
  import opened Nearest
  import opened Network
  import opened Ideal

  /** The fixed inputs of the search: target map, reference voltage and the two waveforms. */
  datatype Problem = Problem(target: Affine, vref: real, vin: seq<real>, desired: seq<real>)

  /** A scored candidate: the four resistors, the output it produces and its cost. */
  datatype Candidate = Candidate(cost: real, r1: int, rf: int, r2: int, rg: int, vout: seq<real>)

  /**
   * The best-so-far variables: costMin, the four chosen resistors and the chosen
   * output waveform, which does not exist until a first candidate is kept.
   */
  datatype Best = Best(cost: real, r1: int, rf: int, r2: int, rg: int, vout: Option<seq<real>>)

  /** The cost every candidate must beat before it is kept. */
  const InitialCost: real := 100.0

  /** The state before the loops: cost 100, all resistors 0, no output. */
  function Initial(): Best
  {
    Best(InitialCost, 0, 0, 0, 0, None)
  }

  /** The best-so-far state that keeps candidate c. */
  function Record(c: Candidate): Best
  {
    Best(c.cost, c.r1, c.rf, c.r2, c.rg, Some(c.vout))
  }

  /**
   * What the script needs to run without an exception: both waveforms have the same
   * number of samples, every pool value is a positive resistance, and the R2
   * equation does not divide by zero (the script evaluates it for the first pair).
   */
  predicate Ready(p: Problem, pool: seq<int>)
  {
    && |p.vin| == |p.desired|
    && AllPositive(pool)
    && (|pool| > 0 ==> R2Denominator(p.target, p.vref) != 0.0)
  }

  /** The output waveform of a network of positive resistors. */
  function Response(p: Problem, net: Resistors): seq<real>
    requires net.r1 > 0.0 && net.rf > 0.0 && net.r2 > 0.0 && net.rg > 0.0
  {
    PositiveNetwork(net, p.vref);
    Output(p.vin, net, p.vref)
  }

  /**
   * The candidate the script scores for R1 and Rf, or None when it skips the pair
   * because the ideal R2 or the ideal Rg is negative. R2 and Rg are the pool
   * values nearest to the ideal ones (the first on ties), the output is the
   * network's response to Vin and the cost its squared error against the target.
   */
  function Evaluate(p: Problem, pool: seq<int>, r1: int, rf: int): (r: Option<Candidate>)
    requires Ready(p, pool)
    requires r1 in pool && rf in pool
    ensures r.Some? <==> IdealPair(p.target, p.vref, r1 as real, rf as real).Some?
    ensures r.Some? ==>
      var ideal := IdealPair(p.target, p.vref, r1 as real, rf as real).value;
      var c := r.value;
      && c.r1 == r1 && c.rf == rf
      && c.r2 == Closest(pool, ideal.0) && c.rg == Closest(pool, ideal.1)
      && c.r2 in pool && c.rg in pool
      && c.vout == Response(p, Resistors(r1 as real, rf as real, c.r2 as real, c.rg as real))
      && c.cost == Cost(c.vout, p.desired)
      && c.cost >= 0.0
  {
    match IdealPair(p.target, p.vref, r1 as real, rf as real)
    case None => None
    case Some(ideal) =>
      var r2, rg := Closest(pool, ideal.0), Closest(pool, ideal.1);
      var vout := Response(p, Resistors(r1 as real, rf as real, r2 as real, rg as real));
      Some(Candidate(Cost(vout, p.desired), r1, rf, r2, rg, vout))
  }

  /** The table of candidates: row a is R1 = pool[a], column b is Rf = pool[b]. */
  function Candidates(p: Problem, pool: seq<int>): (grid: seq<seq<Option<Candidate>>>)
    requires Ready(p, pool)
    ensures |grid| == |pool|
    ensures forall a :: 0 <= a < |pool| ==> |grid[a]| == |pool|
    ensures forall a, b {:trigger grid[a][b]} :: 0 <= a < |pool| && 0 <= b < |pool| ==>
      grid[a][b] == Evaluate(p, pool, pool[a], pool[b])
  {
    seq(|pool|, a requires 0 <= a < |pool| =>
      seq(|pool|, b requires 0 <= b < |pool| => Evaluate(p, pool, pool[a], pool[b])))
  }

  /** Every row of the table has as many entries as there are rows. */
  predicate IsSquare(grid: seq<seq<Option<Candidate>>>)
  {
    forall a :: 0 <= a < |grid| ==> |grid[a]| == |grid|
  }

  /** Keep the candidate exactly when it is strictly cheaper than the best so far. */
  function Consider(s: Best, c: Candidate): (r: Best)
    ensures r.cost <= s.cost
    ensures c.cost < s.cost ==> r == Record(c)
    ensures c.cost >= s.cost ==> r == s
  {
    if c.cost < s.cost then Record(c) else s
  }

  /** One iteration of the inner loop, given the candidate of the current pair (if any). */
  function Step(s: Best, cand: Option<Candidate>): Best
  {
    match cand
    case None => s
    case Some(c) => Consider(s, c)
  }

  /** (i, j) is a position of the two loops over n values: inside row i, or just after the last row. */
  predicate Position(n: nat, i: nat, j: nat)
  {
    (i < n && j <= n) || (i == n && j == 0)
  }

  /** The best-so-far state once every pair before position (i, j) has been visited. */
  function Scan(grid: seq<seq<Option<Candidate>>>, i: nat, j: nat): Best
    requires IsSquare(grid)
    requires Position(|grid|, i, j)
    decreases i, j
  {
    if j == 0 then
      if i == 0 then Initial() else Scan(grid, i - 1, |grid|)
    else Step(Scan(grid, i, j - 1), grid[i][j - 1])
  }

  /** The state after both loops. */
  function SearchSpec(p: Problem, pool: seq<int>): Best
    requires Ready(p, pool)
  {
    Scan(Candidates(p, pool), |pool|, 0)
  }

  /**
   * The body of the inner loop up to the comparison: skip the pair when the ideal
   * R2 or the ideal Rg is negative, otherwise pick the nearest pool values, compute
   * the output and its cost. Evaluate is its specification: the result is the
   * table entry Candidates(p, pool)[i][j] = Evaluate(p, pool, pool[i], pool[j]).
   */
  method ScorePair(p: Problem, pool: seq<int>, i: nat, j: nat) returns (cand: Option<Candidate>)
    requires Ready(p, pool)
    requires i < |pool| && j < |pool|
    ensures cand == Candidates(p, pool)[i][j]
  {
    var r1, rf := pool[i], pool[j];
    var r2Temp := IdealR2(p.target, p.vref, r1 as real);
    if r2Temp < 0.0 {
      return None;
    }
    RgDenominatorNonZero(p.target, p.vref, r1 as real);
    var rgTemp := IdealRg(p.target, p.vref, r1 as real, rf as real);
    if rgTemp < 0.0 {
      return None;
    }
    var r2 := Closest(pool, r2Temp);
    var rg := Closest(pool, rgTemp);
    var net := Resistors(r1 as real, rf as real, r2 as real, rg as real);
    PositiveNetwork(net, p.vref);
    var vout := Output(p.vin, net, p.vref);
    var cost := Cost(vout, p.desired);
    cand := Some(Candidate(cost, r1, rf, r2, rg, vout));
    assert cand == Evaluate(p, pool, r1, rf);
  }

  /**
   * The inner loop over Rf for the R1 of row i: each candidate strictly cheaper
   * than the best so far replaces it.
   */
  method SearchRow(p: Problem, pool: seq<int>, i: nat, start: Best) returns (best: Best)
    requires Ready(p, pool)
    requires i < |pool|
    requires start == Scan(Candidates(p, pool), i, 0)
    ensures best == Scan(Candidates(p, pool), i + 1, 0)
  {
    ghost var grid: seq<seq<Option<Candidate>>> := Candidates(p, pool);
    assert IsSquare(grid) && |grid| == |pool|;
    var costMin, r1Fin, rfFin, r2Fin, rgFin, voutFin :=
      start.cost, start.r1, start.rf, start.r2, start.rg, start.vout;
    for j := 0 to |pool|
      invariant Best(costMin, r1Fin, rfFin, r2Fin, rgFin, voutFin) == Scan(grid, i, j)
    {
      ghost var before := Best(costMin, r1Fin, rfFin, r2Fin, rgFin, voutFin);
      var cand := ScorePair(p, pool, i, j);
      assert cand == grid[i][j];
      if cand.Some? && cand.value.cost < costMin {
        var c := cand.value;
        costMin := c.cost;
        voutFin := Some(c.vout);
        r1Fin, rfFin, r2Fin, rgFin := c.r1, c.rf, c.r2, c.rg;
      }
      assert Best(costMin, r1Fin, rfFin, r2Fin, rgFin, voutFin) == Step(before, cand);
    }
    best := Best(costMin, r1Fin, rfFin, r2Fin, rgFin, voutFin);
  }

  /** The outer loop over R1, from cost 100, resistors 0 and no output. */
  method RunSearch(p: Problem, pool: seq<int>) returns (best: Best)
    requires Ready(p, pool)
    ensures best == SearchSpec(p, pool)
  {
    best := Initial();
    for i := 0 to |pool|
      invariant best == Scan(Candidates(p, pool), i, 0)
    {
      best := SearchRow(p, pool, i, best);
    }
  }

  /** Pair (a, b) is visited before position (i, j): R1 index first, then Rf index. */
  predicate Before(a: nat, b: nat, i: nat, j: nat)
  {
    a < i || (a == i && b < j)
  }

  /** s costs at most 100 and at most every candidate visited before position (i, j). */
  ghost predicate LowerBound(grid: seq<seq<Option<Candidate>>>, s: Best, i: nat, j: nat)
    requires IsSquare(grid)
  {
    && s.cost <= InitialCost
    && forall a: nat, b: nat ::
         a < |grid| && b < |grid| && Before(a, b, i, j) && grid[a][b].Some? ==>
           s.cost <= grid[a][b].value.cost
  }

  /** Pair (a0, b0), visited before (i, j), yields s under 100, and every earlier candidate costs more. */
  ghost predicate FirstMinimumAt(grid: seq<seq<Option<Candidate>>>, s: Best, a0: nat, b0: nat, i: nat, j: nat)
    requires IsSquare(grid)
  {
    && a0 < |grid| && b0 < |grid| && Before(a0, b0, i, j)
    && grid[a0][b0].Some?
    && s == Record(grid[a0][b0].value)
    && s.cost < InitialCost
    && forall a: nat, b: nat ::
         a < |grid| && b < |grid| && Before(a, b, a0, b0) && grid[a][b].Some? ==>
           grid[a][b].value.cost > s.cost
  }

  /**
   * s is what the script keeps after the pairs before position (i, j): the initial
   * state when no visited candidate costs under 100, and otherwise the first visited
   * candidate of least cost.
   */
  ghost predicate Kept(grid: seq<seq<Option<Candidate>>>, s: Best, i: nat, j: nat)
    requires IsSquare(grid)
  {
    && (s.vout.None? ==>
          && s == Initial()
          && forall a: nat, b: nat ::
               a < |grid| && b < |grid| && Before(a, b, i, j) && grid[a][b].Some? ==>
                 grid[a][b].value.cost >= InitialCost)
    && (s.vout.Some? ==> exists a0: nat, b0: nat :: FirstMinimumAt(grid, s, a0, b0, i, j))
  }

  /** The best-so-far cost bounds from below every candidate visited so far. */
  lemma {:induction false} ScanLowerBound(grid: seq<seq<Option<Candidate>>>, i: nat, j: nat)
    requires IsSquare(grid)
    requires Position(|grid|, i, j)
    ensures LowerBound(grid, Scan(grid, i, j), i, j)
    decreases i, j
  {
    if j == 0 {
      if i > 0 {
        ScanLowerBound(grid, i - 1, |grid|);
      }
    } else {
      ScanLowerBound(grid, i, j - 1);
    }
  }

  /**
   * The best-so-far state is the first cheapest candidate visited so far, if one
   * beats 100: its cost bounds every visited candidate from below, and it is the
   * first visited candidate of that cost.
   */
  lemma {:induction false} ScanKept(grid: seq<seq<Option<Candidate>>>, i: nat, j: nat)
    requires IsSquare(grid)
    requires Position(|grid|, i, j)
    ensures LowerBound(grid, Scan(grid, i, j), i, j)
    ensures Kept(grid, Scan(grid, i, j), i, j)
    decreases i, j
  {
    ScanLowerBound(grid, i, j);
    var s := Scan(grid, i, j);
    if j == 0 {
      if i > 0 {
        ScanKept(grid, i - 1, |grid|);
        if s.vout.Some? {
          var a0: nat, b0: nat :| FirstMinimumAt(grid, s, a0, b0, i - 1, |grid|);
          assert FirstMinimumAt(grid, s, a0, b0, i, j);
        }
      }
    } else {
      ScanKept(grid, i, j - 1);
      ScanLowerBound(grid, i, j - 1);
      var s0 := Scan(grid, i, j - 1);
      if grid[i][j - 1].Some? && grid[i][j - 1].value.cost < s0.cost {
        assert FirstMinimumAt(grid, s, i, j - 1, i, j);
      } else if s.vout.Some? {
        var a0: nat, b0: nat :| FirstMinimumAt(grid, s0, a0, b0, i, j - 1);
        assert FirstMinimumAt(grid, s, a0, b0, i, j);
      }
    }
  }

  /** costMin never increases: a later position of the loops has a cost no greater than an earlier one. */
  lemma {:induction false} ScanMonotone(grid: seq<seq<Option<Candidate>>>, i: nat, j: nat, i2: nat, j2: nat)
    requires IsSquare(grid)
    requires Position(|grid|, i, j) && Position(|grid|, i2, j2)
    requires Before(i, j, i2, j2) || (i == i2 && j == j2)
    ensures Scan(grid, i2, j2).cost <= Scan(grid, i, j).cost
    decreases i2, j2
  {
    if i == i2 && j == j2 {
    } else if j2 == 0 {
      ScanMonotone(grid, i, j, i2 - 1, |grid|);
    } else {
      ScanMonotone(grid, i, j, i2, j2 - 1);
    }
  }

  /**
   * After both loops over the table: costMin is at most 100 and at most every
   * candidate's cost; with no candidate under 100 the initial state survives;
   * otherwise the kept state is the first candidate of least cost in R1-major order.
   */
  lemma ScanResult(grid: seq<seq<Option<Candidate>>>)
    requires IsSquare(grid)
    ensures LowerBound(grid, Scan(grid, |grid|, 0), |grid|, 0)
    ensures Kept(grid, Scan(grid, |grid|, 0), |grid|, 0)
    ensures var s := Scan(grid, |grid|, 0);
      s.vout.None? <==>
        forall a: nat, b: nat :: a < |grid| && b < |grid| && grid[a][b].Some? ==>
          grid[a][b].value.cost >= InitialCost
  {
    var n := |grid|;
    ScanLowerBound(grid, n, 0);
    ScanKept(grid, n, 0);
    var s := Scan(grid, n, 0);
    if s.vout.Some? {
      var a0: nat, b0: nat :| FirstMinimumAt(grid, s, a0, b0, n, 0);
      assert grid[a0][b0].value.cost < InitialCost;
    }
  }

  /** The kept cost is at most 100 and at most the cost of every candidate pair. */
  lemma SearchLowerBound(p: Problem, pool: seq<int>, a: nat, b: nat)
    requires Ready(p, pool)
    requires a < |pool| && b < |pool|
    ensures SearchSpec(p, pool).cost <= InitialCost
    ensures Evaluate(p, pool, pool[a], pool[b]).Some? ==>
      SearchSpec(p, pool).cost <= Evaluate(p, pool, pool[a], pool[b]).value.cost
  {
    var grid: seq<seq<Option<Candidate>>> := Candidates(p, pool);
    ScanResult(grid);
    assert grid[a][b] == Evaluate(p, pool, pool[a], pool[b]);
  }

  /**
   * The outcome of the search over the table of candidates of the pool: costMin is
   * at most 100 and at most every candidate's cost; nothing is kept exactly when no
   * candidate costs under 100, and then every best-so-far variable keeps its initial
   * value; otherwise the kept values are those of the first pair in R1-major order
   * whose candidate has the least cost.
   */
  lemma SearchResult(p: Problem, pool: seq<int>)
    requires Ready(p, pool)
    ensures var grid := Candidates(p, pool);
      LowerBound(grid, SearchSpec(p, pool), |pool|, 0)
    ensures var grid := Candidates(p, pool);
      SearchSpec(p, pool).vout.None? <==>
        forall a, b :: 0 <= a < |pool| && 0 <= b < |pool| && grid[a][b].Some? ==>
          grid[a][b].value.cost >= InitialCost
    ensures SearchSpec(p, pool).vout.None? ==> SearchSpec(p, pool) == Initial()
    ensures SearchSpec(p, pool).vout.Some? ==>
      exists a0: nat, b0: nat :: FirstMinimumAt(Candidates(p, pool), SearchSpec(p, pool), a0, b0, |pool|, 0)
  {
    ScanResult(Candidates(p, pool));
  }

  /**
   * The kept R2 and Rg are the pool values nearest to the ideal ones for the kept
   * R1 and Rf, and the kept output and cost are those of that network.
   */
  lemma KeptIsNearest(p: Problem, pool: seq<int>)
    requires Ready(p, pool)
    requires SearchSpec(p, pool).vout.Some?
    ensures var s := SearchSpec(p, pool);
      && s.r1 in pool && s.rf in pool
      && IdealPair(p.target, p.vref, s.r1 as real, s.rf as real).Some?
      && var ideal := IdealPair(p.target, p.vref, s.r1 as real, s.rf as real).value;
      && s.r2 == Closest(pool, ideal.0) && s.rg == Closest(pool, ideal.1)
      && s.r2 in pool && s.rg in pool
      && s.vout == Some(Response(p, Resistors(s.r1 as real, s.rf as real, s.r2 as real, s.rg as real)))
      && s.cost == Cost(s.vout.value, p.desired)
  {
    var grid: seq<seq<Option<Candidate>>> := Candidates(p, pool);
    var s := SearchSpec(p, pool);
    assert exists a0: nat, b0: nat :: FirstMinimumAt(grid, s, a0, b0, |pool|, 0) by {
      ScanResult(grid);
    }
    var a0: nat, b0: nat :| FirstMinimumAt(grid, s, a0, b0, |pool|, 0);
    assert s == Record(Evaluate(p, pool, pool[a0], pool[b0]).value);
  }

  /**
   * Below unit gain (in particular for inverted ranges, m < 0) and with a positive
   * reference, every pair is skipped, so the search ends with nothing kept: cost
   * 100, all four resistors 0 and no output.
   */
  lemma NoSolutionBelowUnitGain(p: Problem, pool: seq<int>)
    requires Ready(p, pool)
    requires p.vref > 0.0 && p.target.m <= 1.0
    ensures SearchSpec(p, pool) == Initial()
  {
    var grid: seq<seq<Option<Candidate>>> := Candidates(p, pool);
    forall a, b | 0 <= a < |pool| && 0 <= b < |pool|
      ensures grid[a][b].None?
    {
      assert grid[a][b] == Evaluate(p, pool, pool[a], pool[b]);
      NoIdealPairBelowUnitGain(p.target, p.vref, pool[a] as real, pool[b] as real);
    }
    ScanResult(grid);
  }

  /** With no negative cost in the table, a table entry of cost 0 is what the scan keeps. */
  lemma ScanFindsZero(grid: seq<seq<Option<Candidate>>>, a: nat, b: nat)
    requires IsSquare(grid)
    requires a < |grid| && b < |grid|
    requires grid[a][b].Some? && grid[a][b].value.cost == 0.0
    requires forall a', b' :: 0 <= a' < |grid| && 0 <= b' < |grid| && grid[a'][b'].Some? ==>
      grid[a'][b'].value.cost >= 0.0
    ensures Scan(grid, |grid|, 0).cost == 0.0
    ensures Scan(grid, |grid|, 0).vout.Some?
  {
    ScanResult(grid);
    var s := Scan(grid, |grid|, 0);
    assert s.cost <= 0.0;
    var a0: nat, b0: nat :| FirstMinimumAt(grid, s, a0, b0, |grid|, 0);
  }

  /** Every candidate in the table of a problem has a non-negative cost. */
  lemma CandidatesNonNegative(p: Problem, pool: seq<int>)
    requires Ready(p, pool)
    ensures var grid := Candidates(p, pool);
      forall a, b :: 0 <= a < |grid| && 0 <= b < |grid| && grid[a][b].Some? ==>
        grid[a][b].value.cost >= 0.0
  {
    var grid: seq<seq<Option<Candidate>>> := Candidates(p, pool);
    forall a, b | 0 <= a < |grid| && 0 <= b < |grid| && grid[a][b].Some?
      ensures grid[a][b].value.cost >= 0.0
    {
      assert grid[a][b] == Evaluate(p, pool, pool[a], pool[b]);
    }
  }

  /**
   * When the desired output is exactly the target map of the input and the ideal
   * R2 and Rg for R1 = pool[a] and Rf = pool[b] are pool values themselves, that
   * pair's candidate reproduces the desired waveform exactly.
   */
  lemma ExactCandidate(p: Problem, pool: seq<int>, a: nat, b: nat, r2: int, rg: int)
    requires Ready(p, pool)
    requires a < |pool| && b < |pool|
    requires forall k :: 0 <= k < |p.vin| ==> p.desired[k] == p.target.Apply(p.vin[k])
    requires RgDenominator(p.target, p.vref) != 0.0
    requires r2 in pool && r2 as real == IdealR2(p.target, p.vref, pool[a] as real)
    requires rg in pool && rg as real == IdealRg(p.target, p.vref, pool[a] as real, pool[b] as real)
    ensures Evaluate(p, pool, pool[a], pool[b]).Some?
    ensures Evaluate(p, pool, pool[a], pool[b]).value.vout == p.desired
    ensures Evaluate(p, pool, pool[a], pool[b]).value.cost == 0.0
  {
    var t := p.target;
    var r1, rf := pool[a], pool[b];
    assert IdealPair(t, p.vref, r1 as real, rf as real) == Some((r2 as real, rg as real));
    ClosestOfMember(pool, r2);
    ClosestOfMember(pool, rg);
    var c := Evaluate(p, pool, r1, rf).value;
    assert c.r2 == r2 && c.rg == rg;
    IdealRealisesTarget(t, p.vref, r1 as real, rf as real);
    var net := IdealNetwork(t, p.vref, r1 as real, rf as real);
    assert net == Resistors(r1 as real, rf as real, c.r2 as real, c.rg as real);
    assert c.vout == Output(p.vin, net, p.vref);
    OutputOfExactNetwork(p, net);
  }

  /** A network whose gain and offset are those of the target reproduces the desired output. */
  lemma OutputOfExactNetwork(p: Problem, net: Resistors)
    requires |p.vin| == |p.desired|
    requires forall k :: 0 <= k < |p.vin| ==> p.desired[k] == p.target.Apply(p.vin[k])
    requires net.Defined()
    requires net.Gain() == p.target.m && net.Offset(p.vref) == p.target.b
    ensures Output(p.vin, net, p.vref) == p.desired
  {
    var out := Output(p.vin, net, p.vref);
    var g, o := net.Gain(), net.Offset(p.vref);
    forall k | 0 <= k < |p.vin|
      ensures out[k] == p.desired[k]
    {
      assert out[k] == g * p.vin[k] + o;
    }
  }

  /**
   * When the desired output is exactly the target map of the input and, for some
   * R1 and Rf in the pool, the ideal R2 and Rg are pool values themselves, the
   * search keeps a network of cost 0.
   */
  lemma ExactDesignFound(p: Problem, pool: seq<int>, a: nat, b: nat, r2: int, rg: int)
    requires Ready(p, pool)
    requires a < |pool| && b < |pool|
    requires forall k :: 0 <= k < |p.vin| ==> p.desired[k] == p.target.Apply(p.vin[k])
    requires RgDenominator(p.target, p.vref) != 0.0
    requires r2 in pool && r2 as real == IdealR2(p.target, p.vref, pool[a] as real)
    requires rg in pool && rg as real == IdealRg(p.target, p.vref, pool[a] as real, pool[b] as real)
    ensures SearchSpec(p, pool).cost == 0.0
    ensures SearchSpec(p, pool).vout.Some?
  {
    var grid: seq<seq<Option<Candidate>>> := Candidates(p, pool);
    assert grid[a][b].Some? && grid[a][b].value.cost == 0.0 by {
      ExactCandidate(p, pool, a, b, r2, rg);
    }
    CandidatesNonNegative(p, pool);
    ScanFindsZero(grid, a, b);
  }

  /**
   * The whole script: derive the target map from the two voltage ranges, sample the
   * input and desired waveforms, build the pool from the base values and search it.
   */
  method Design(base: seq<int>, voh: real, vol: real, vih: real, vil: real, vref: real, sine: seq<real>)
    returns (best: Best)
    requires vih != vil
    requires forall k :: 0 <= k < |base| ==> base[k] >= 2
    requires |base| > 0 ==> R2Denominator(Derive(voh, vol, vih, vil), vref) != 0.0
    ensures AllPositive(Pool(base))
    ensures best == SearchSpec(Problem(Derive(voh, vol, vih, vil), vref,
                                       Wave(sine, vih, vil), Wave(sine, voh, vol)), Pool(base))
  {
    var t := Derive(voh, vol, vih, vil);
    var vin := Wave(sine, vih, vil);
    var desired := Wave(sine, voh, vol);
    PoolPositive(base);
    var resList := BuildPool(base);
    var p := Problem(t, vref, vin, desired);
    best := RunSearch(p, resList);
  }
}
