/**
  The byte-percentile average of the fee estimator: transactions sorted by fee priority are
  laid out end to end, and those inside a window of byte positions contribute their priority
  with a weight. The three overlapping conditions that credit weight decide what the
  average is worth.
 */
module ByteWindow {

  datatype Detail = Detail(size: nat, feePriority: real)

  datatype Mode = Medium | High

  const MAX_BLOCK_SIZE := 15360

  /** `Math.ceil((lowerPercentile / 100) * maxBlockSize)` with percentiles 25 and 80. */
  function LowerBytePos(mode: Mode): (p: nat) {
    ((if mode.Medium? then 25 else 80) * MAX_BLOCK_SIZE + 99) / 100
  }

  /** `Math.floor((upperPercentile / 100) * maxBlockSize)` with percentiles 75 and 100. */
  function UpperBytePos(mode: Mode): (p: nat) {
    ((if mode.Medium? then 75 else 100) * MAX_BLOCK_SIZE) / 100
  }

  /** The weight credited to a transaction of `size` bytes at byte position `c`. */
  function Credit(c: nat, size: nat, lower: nat, upper: nat): (w: nat) {
    (if c <= lower < c + size && c + size <= upper then c + size - lower + 1 else 0) +
    (if lower <= c && c + size <= upper then size else 0) +
    (if lower <= c && upper >= c && upper <= c + size then upper - c + 1 else 0)
  }

  function TotalCredit(txs: seq<Detail>, c: nat, lower: nat, upper: nat): (w: nat) {
    if txs == [] then 0
    else Credit(c, txs[0].size, lower, upper) + TotalCredit(txs[1..], c + txs[0].size, lower, upper)
  }

  /** `p * w`, as the sum of `w` copies of `p`. */
  function Times(p: real, w: nat): (r: real) {
    if w == 0 then 0.0 else p + Times(p, w - 1)
  }

  lemma {:induction false} TimesIsProduct(p: real, w: nat)
    ensures Times(p, w) == p * w as real
  {
    if w == 0 {
    } else {
      TimesIsProduct(p, w - 1);
      var v := (w - 1) as real;
      assert w as real == v + 1.0;
      assert p * (v + 1.0) == p * v + p;
    }
  }

  function TotalFeePriority(txs: seq<Detail>, c: nat, lower: nat, upper: nat): (p: real) {
    if txs == [] then 0.0
    else
      Times(txs[0].feePriority, Credit(c, txs[0].size, lower, upper)) +
      TotalFeePriority(txs[1..], c + txs[0].size, lower, upper)
  }

  function AvgFeePerByte(mode: Mode, txs: seq<Detail>): (avg: real) {
    var lower, upper := LowerBytePos(mode), UpperBytePos(mode);
    TotalFeePriority(txs, 0, lower, upper) / (upper - lower + 1) as real
  }

  lemma {:induction false} Distribute(p: real, a: nat, b: nat)
    ensures Times(p, a + b) == Times(p, a) + Times(p, b)
  {
    if a == 0 {
    } else {
      Distribute(p, a - 1, b);
    }
  }

  /** One turn of the loop: the three conditions add their shares one after the other. */
  method CreditTransaction(total: real, tx: Detail, c: nat, lower: nat, upper: nat) returns (total': real)
    ensures total' == total + Times(tx.feePriority, Credit(c, tx.size, lower, upper))
  {
    var p := tx.feePriority;
    var first, second, third := 0, 0, 0;
    if c <= lower < c + tx.size && c + tx.size <= upper {
      first := c + tx.size - lower + 1;
    }
    if lower <= c && c + tx.size <= upper {
      second := tx.size;
    }
    if lower <= c && upper >= c && upper <= c + tx.size {
      third := upper - c + 1;
    }
    Distribute(p, first, second);
    Distribute(p, first + second, third);
    TimesIsProduct(p, first);
    TimesIsProduct(p, second);
    TimesIsProduct(p, third);
    total' := total + p * first as real + p * second as real + p * third as real;
  }

  /** `calculateAvgFeePerByte`: the `forEach` over the sorted transactions. */
  method CalculateAvgFeePerByte(mode: Mode, txs: seq<Detail>) returns (avg: real)
    ensures avg == AvgFeePerByte(mode, txs)
  {
    var lower, upper := LowerBytePos(mode), UpperBytePos(mode);
    var currentBytePos: nat, totalFeePriority := 0, 0.0;
    for i := 0 to |txs|
      invariant totalFeePriority + TotalFeePriority(txs[i..], currentBytePos, lower, upper)
             == TotalFeePriority(txs, 0, lower, upper)
    {
      assert txs[i..][1..] == txs[i + 1..];
      totalFeePriority := CreditTransaction(totalFeePriority, txs[i], currentBytePos, lower, upper);
      currentBytePos := currentBytePos + txs[i].size;
    }
    avg := totalFeePriority / (upper - lower + 1) as real;
  }

  // ----- How much weight is credited -----

  predicate PositiveSizes(txs: seq<Detail>) {
    forall i :: 0 <= i < |txs| ==> txs[i].size > 0
  }

  /** The credit of a suffix that starts at byte `c`, bounded by where `c` lies. */
  lemma {:induction false} SuffixCreditBound(txs: seq<Detail>, c: nat, lower: nat, upper: nat)
    requires lower <= upper && PositiveSizes(txs)
    ensures upper < c ==> TotalCredit(txs, c, lower, upper) == 0
    ensures c == upper ==> TotalCredit(txs, c, lower, upper) == if txs == [] then 0 else 1
    ensures lower < c < upper ==> TotalCredit(txs, c, lower, upper) <= 2 * (upper - c) + 2
    ensures c <= lower ==> TotalCredit(txs, c, lower, upper) <= 3 * (upper - lower + 1)
    decreases |txs|
  {
    if txs == [] {
    } else {
      SuffixCreditBound(txs[1..], c + txs[0].size, lower, upper);
    }
  }

  /** The credited weight never exceeds three times the window. */
  lemma CreditBound(txs: seq<Detail>, lower: nat, upper: nat)
    requires lower <= upper && PositiveSizes(txs)
    ensures TotalCredit(txs, 0, lower, upper) <= 3 * (upper - lower + 1)
  {
    SuffixCreditBound(txs, 0, lower, upper);
  }

  /** The bound is attained: one transaction fills the window and another follows. */
  lemma CreditBoundIsTight(lower: nat, upper: nat, p: real)
    requires 0 < lower < upper
    ensures TotalCredit([Detail(lower, p), Detail(upper - lower, p), Detail(1, p)], 0, lower, upper)
         == 3 * (upper - lower + 1)
  {
    var txs := [Detail(lower, p), Detail(upper - lower, p), Detail(1, p)];
    assert txs[1..] == [Detail(upper - lower, p), Detail(1, p)];
    SuffixCreditBound([Detail(1, p)], upper, lower, upper);
    assert txs[1..][1..] == [Detail(1, p)];
    assert TotalCredit(txs[1..], lower, lower, upper)
        == Credit(lower, upper - lower, lower, upper) + TotalCredit([Detail(1, p)], upper, lower, upper);
  }

  /** `x` is a boundary between transactions laid out from byte `c`. */
  predicate Boundary(txs: seq<Detail>, c: nat, x: nat) {
    x == c || (txs != [] && Boundary(txs[1..], c + txs[0].size, x))
  }

  /** Some boundary lies strictly inside the window. */
  predicate InnerBoundary(txs: seq<Detail>, c: nat, lower: nat, upper: nat) {
    lower < c < upper || (txs != [] && InnerBoundary(txs[1..], c + txs[0].size, lower, upper))
  }

  function EndPos(txs: seq<Detail>, c: nat): (e: nat) {
    if txs == [] then c else EndPos(txs[1..], c + txs[0].size)
  }

  lemma {:induction false} BoundariesAhead(txs: seq<Detail>, c: nat, lower: nat, upper: nat)
    requires PositiveSizes(txs) && lower <= upper
    ensures forall x: nat :: x < c ==> !Boundary(txs, c, x)
    ensures upper <= c ==> !InnerBoundary(txs, c, lower, upper)
    decreases |txs|
  {
    if txs == [] {
    } else {
      BoundariesAhead(txs[1..], c + txs[0].size, lower, upper);
    }
  }

  lemma {:induction false} InsideCredit(txs: seq<Detail>, c: nat, lower: nat, upper: nat)
    requires PositiveSizes(txs) && lower < c < upper < EndPos(txs, c)
    ensures !Boundary(txs, c, upper) ==> TotalCredit(txs, c, lower, upper) == upper - c + 1
    ensures Boundary(txs, c, upper) ==> TotalCredit(txs, c, lower, upper) >= upper - c + 3
    decreases |txs|
  {
    var e := c + txs[0].size;
    assert EndPos(txs[1..], e) == EndPos(txs, c);
    if e < upper {
      InsideCredit(txs[1..], e, lower, upper);
    } else {
      SuffixCreditBound(txs[1..], e, lower, upper);
      BoundariesAhead(txs[1..], e, lower, upper);
      assert Boundary(txs, c, upper) <==> e == upper;
      assert TotalCredit(txs, c, lower, upper) ==
             Credit(c, txs[0].size, lower, upper) + TotalCredit(txs[1..], e, lower, upper);
    }
  }

  /** For a block that extends past the window, the weight is the window plus two exactly
      when no boundary falls on `lower`, and either no boundary falls on `upper` and some lies
      strictly inside, or one falls on `upper` and none lies inside. */
  lemma {:induction false} CreditIsWindowPlusTwoIff(txs: seq<Detail>, c: nat, lower: nat, upper: nat)
    requires PositiveSizes(txs) && c <= lower < upper < EndPos(txs, c)
    ensures TotalCredit(txs, c, lower, upper) == upper - lower + 2 <==>
            !Boundary(txs, c, lower) && Boundary(txs, c, upper) != InnerBoundary(txs, c, lower, upper)
    decreases |txs|
  {
    var e := c + txs[0].size;
    BoundariesAhead(txs[1..], e, lower, upper);
    if lower < e < upper {
      InsideCredit(txs[1..], e, lower, upper);
    } else if e <= lower {
      CreditIsWindowPlusTwoIff(txs[1..], e, lower, upper);
    } else {
      SuffixCreditBound(txs[1..], e, lower, upper);
    }
  }

  // ----- What that makes of the average -----

  lemma {:induction false} ScaledBy(p: real, most: real, w: nat)
    requires 0.0 <= p <= most
    ensures 0.0 <= Times(p, w) <= Times(most, w)
  {
    if w == 0 {
    } else {
      ScaledBy(p, most, w - 1);
    }
  }

  /** Transactions of one priority contribute that priority once per unit of credit. */
  lemma {:induction false} UniformPriority(txs: seq<Detail>, c: nat, lower: nat, upper: nat, p: real)
    requires forall i :: 0 <= i < |txs| ==> txs[i].feePriority == p
    ensures TotalFeePriority(txs, c, lower, upper) == Times(p, TotalCredit(txs, c, lower, upper))
    decreases |txs|
  {
    if txs == [] {
    } else {
      var e := c + txs[0].size;
      UniformPriority(txs[1..], e, lower, upper, p);
      Distribute(p, Credit(c, txs[0].size, lower, upper), TotalCredit(txs[1..], e, lower, upper));
    }
  }

  predicate PrioritiesUpTo(txs: seq<Detail>, most: real) {
    forall i :: 0 <= i < |txs| ==> 0.0 <= txs[i].feePriority <= most
  }

  lemma {:induction false} PriorityWithinCredit(txs: seq<Detail>, c: nat, lower: nat, upper: nat, most: real)
    requires PrioritiesUpTo(txs, most)
    ensures 0.0 <= TotalFeePriority(txs, c, lower, upper) <= Times(most, TotalCredit(txs, c, lower, upper))
    decreases |txs|
  {
    if txs == [] {
    } else {
      PriorityWithinCredit(txs[1..], c + txs[0].size, lower, upper, most);
      AddBounds(txs[0].feePriority, most, Credit(c, txs[0].size, lower, upper),
                TotalFeePriority(txs[1..], c + txs[0].size, lower, upper),
                TotalCredit(txs[1..], c + txs[0].size, lower, upper));
    }
  }

  lemma AddBounds(p: real, most: real, w: nat, total: real, rest: nat)
    requires 0.0 <= p <= most && 0.0 <= total <= Times(most, rest)
    ensures 0.0 <= Times(p, w) + total <= Times(most, w + rest)
  {
    ScaledBy(p, most, w);
    Distribute(most, w, rest);
  }

  /** With non-negative priorities the average lies between zero and three times the largest. */
  lemma AverageBound(mode: Mode, txs: seq<Detail>, most: real)
    requires PositiveSizes(txs) && 0.0 <= most
    requires PrioritiesUpTo(txs, most)
    ensures 0.0 <= AvgFeePerByte(mode, txs) <= 3.0 * most
  {
    var lower, upper := LowerBytePos(mode), UpperBytePos(mode);
    PriorityWithinCredit(txs, 0, lower, upper, most);
    CreditBound(txs, lower, upper);
    QuotientBound(TotalFeePriority(txs, 0, lower, upper), most, TotalCredit(txs, 0, lower, upper), upper - lower + 1);
  }

  lemma QuotientBound(total: real, most: real, credit: nat, width: nat)
    requires width > 0 && credit <= 3 * width && 0.0 <= most && 0.0 <= total <= Times(most, credit)
    ensures 0.0 <= total / width as real <= 3.0 * most
  {
    TimesIsProduct(most, credit);
    ScaledMonotone(most, credit, 3 * width);
    assert (3 * width) as real == 3.0 * width as real;
    assert total <= (3.0 * most) * width as real;
  }

  lemma ScaledMonotone(most: real, a: nat, b: nat)
    requires 0.0 <= most && a <= b
    ensures most * a as real <= most * b as real
  {
    assert a as real <= b as real;
  }
}
