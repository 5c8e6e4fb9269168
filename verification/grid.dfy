/** The row-major counter grid of the CH sketches with `depth` rows of
    `width` counters: cell (row `i`, column `j`) is hierarchy counter
    `i * width + j` (`getCHIdx`, `getIndex`), and row `i` hashes a key to
    column `hash_fns[i](key) % width`. */
module Grid {
  import opened Common
  import H = Hierarchy

  datatype Config = Config(depth: nat, width: nat, h: Hash)

  predicate WellFormed(cf: Config)
  {
    cf.width > 0
  }

  /** Layer-0 size of the hierarchy: `depth * width`. */
  function N(cf: Config): nat { cf.depth * cf.width }

  predicate Valid(cf: Config, s: H.Store)
  {
    |s.cnt| == N(cf)
  }

  /** `clear()` of the sketches over one hierarchy: `ch->clear()` gives back
      a fresh hierarchy of the same size. */
  function Clear(cf: Config, s: H.Store): (r: H.Store)
    requires Valid(cf, s)
    ensures Valid(cf, r) && r == H.Fresh(N(cf))
  {
    H.Clear(s)
  }

  /** The width is rounded up to `NextPrime(width)`. */
  function MakeConfig(depth: nat, width: nat, h: Hash, np: nat -> nat): (cf: Config)
    requires IsNextPrime(np)
    ensures cf.depth == depth && cf.width >= width
  {
    Config(depth, np(width), h)
  }

  /** `getCHIdx(i, j)` and `getIndex(i, j)`. */
  function CHIdx(cf: Config, i: nat, j: nat): nat
  {
    i * cf.width + j
  }

  /** The cell index is row-major: inside the hierarchy, and one counter per cell. */
  lemma CHIdxLayout(cf: Config, i: nat, j: nat, i2: nat, j2: nat)
    requires i < cf.depth && j < cf.width && i2 < cf.depth && j2 < cf.width
    ensures CHIdx(cf, i, j) < N(cf)
    ensures CHIdx(cf, i, j) == CHIdx(cf, i2, j2) <==> i == i2 && j == j2
  {
    RowMajorBound(i, j, cf.depth, cf.width);
    if CHIdx(cf, i, j) == CHIdx(cf, i2, j2) {
      RowMajorInjective(i, j, i2, j2, cf.width);
    }
  }

  function Index(cf: Config, i: nat, key: FlowKey): (j: nat)
    requires WellFormed(cf)
    ensures j < cf.width
  {
    cf.h(i, key) % cf.width
  }

  /** The hierarchy counter row `i` uses for `key`. */
  function Slot(cf: Config, i: nat, key: FlowKey): (c: nat)
    requires WellFormed(cf) && i < cf.depth
    ensures c < N(cf)
  {
    CHIdxLayout(cf, i, Index(cf, i, key), i, Index(cf, i, key));
    CHIdx(cf, i, Index(cf, i, key))
  }

  /** Every hierarchy counter is the cell of some row and column. */
  lemma CellOf(cf: Config, c: nat) returns (i: nat, j: nat)
    requires WellFormed(cf) && c < N(cf)
    ensures i < cf.depth && j < cf.width && CHIdx(cf, i, j) == c
  {
    i := c / cf.width;
    j := c % cf.width;
    if i >= cf.depth {
      MulLeq(cf.depth, i, cf.width);
    }
  }
}
