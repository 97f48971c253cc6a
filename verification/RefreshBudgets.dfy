/** The refresh time of a DRAM bank, accumulated through mat, subarray and bank. */
module RefreshBudgets {
  import opened Common

  type Duration = x: real | x >= 0.0

  /** Per-row access and restore times, the predecoder's share, the delay of a wire as a
      function of its length, and the retention time of a cell. */
  datatype RefreshCosts = RefreshCosts(
    accessLatency: Duration,
    restoreDelay: Duration,
    predecoderLatency: Duration,
    retention: Duration,
    wireLatency: real -> Duration)
  {
    /** A destructive read and its restoration, for each row in turn. */
    function Mat(rows: nat): real {
      (accessLatency + restoreDelay) * rows as real
    }

    /** All mats along a row of the subarray. */
    function Subarray(rows: nat, matColumns: nat): real {
      (predecoderLatency + Mat(rows)) * matColumns as real
    }

    function WireTime(lengths: seq<real>): real {
      if lengths == [] then 0.0 else WireTime(lengths[..|lengths| - 1]) + wireLatency(lengths[|lengths| - 1])
    }

    lemma WireTimeStep(lengths: seq<real>, i: nat)
      requires i < |lengths|
      ensures WireTime(lengths[..i + 1]) == WireTime(lengths[..i]) + wireLatency(lengths[i])
    {
      assert lengths[..i + 1][..i] == lengths[..i];
    }

    function Bank(rows: nat, matColumns: nat, columns: nat, horizontal: seq<real>, vertical: seq<real>): real {
      Subarray(rows, matColumns) * columns as real + WireTime(horizontal) + WireTime(vertical)
    }
  }

  lemma {:induction false} WireTimeNonnegative(c: RefreshCosts, lengths: seq<real>)
    ensures c.WireTime(lengths) >= 0.0
  {
    if lengths != [] {
      WireTimeNonnegative(c, lengths[..|lengths| - 1]);
    }
  }

  /** The wire times are the sum of the delays of the wires. */
  lemma {:induction false} WireTimeIsSum(c: RefreshCosts, a: seq<real>, b: seq<real>, x: real)
    ensures c.WireTime(a + b) == c.WireTime(a) + c.WireTime(b)
    ensures c.WireTime([x]) == c.wireLatency(x)
    decreases |b|
  {
    assert [x][..0] == [];
    if b == [] {
      assert a + b == a;
    } else {
      WireTimeIsSum(c, a, b[..|b| - 1], x);
      assert (a + b)[..|a + b| - 1] == a + b[..|b| - 1];
    }
  }

  /** The time of a bank in full: every row of every mat along the way, the predecoders once per
      mat, and the wires of both directions. */
  lemma BankIsExact(c: RefreshCosts, rows: nat, matColumns: nat, columns: nat, horizontal: seq<real>, vertical: seq<real>)
    ensures c.Bank(rows, matColumns, columns, horizontal, vertical)
         == Times(rows as real * matColumns as real * columns as real, c.accessLatency + c.restoreDelay)
            + Times(matColumns as real * columns as real, c.predecoderLatency)
            + c.WireTime(horizontal) + c.WireTime(vertical)
  {
    hide RefreshCosts.WireTime;
    var x, p, r, m, n := c.accessLatency + c.restoreDelay, c.predecoderLatency, rows as real, matColumns as real, columns as real;
    Spread(x, p, r, m, n);
  }

  lemma Spread(x: real, p: real, r: real, m: real, n: real)
    ensures (p + x * r) * m * n == Times(r * m * n, x) + Times(m * n, p)
  {
    var y := x * r;
    assert (p + y) * m == p * m + y * m;
    assert (p * m + y * m) * n == p * m * n + y * m * n;
    Reorder(x, r, m, n);
  }

  /** Add the delay of each wire along a path. */
  method AddWireTimes(c: RefreshCosts, start: real, lengths: array<real>) returns (t: real)
    ensures t == start + c.WireTime(lengths[..])
  {
    t := start;
    for i := 0 to lengths.Length
      invariant t == start + c.WireTime(lengths[..i])
    {
      c.WireTimeStep(lengths[..], i);
      assert lengths[..][..i] == lengths[..i] && lengths[..][..i + 1] == lengths[..i + 1];
      t := t + c.wireLatency(lengths[i]);
    }
    assert lengths[..lengths.Length] == lengths[..];
  }

  lemma Reorder(x: real, r: real, m: real, s: real)
    ensures x * r * m * s == r * m * s * x
  {}

  /** A bank within its retention time has time for a full read cycle of every row: the
      multiplications and the wires only add. */
  lemma WithinBudget(c: RefreshCosts, rows: nat, matColumns: nat, columns: nat, horizontal: seq<real>, vertical: seq<real>)
    requires c.Bank(rows, matColumns, columns, horizontal, vertical) <= c.retention
    ensures Times(rows as real * matColumns as real * columns as real, c.accessLatency + c.restoreDelay) <= c.retention
  {
    WireTimeNonnegative(c, horizontal);
    WireTimeNonnegative(c, vertical);
    BankIsExact(c, rows, matColumns, columns, horizontal, vertical);
    TimesSign(matColumns as real, columns as real);
    TimesSign(matColumns as real * columns as real, c.predecoderLatency);
  }
}
