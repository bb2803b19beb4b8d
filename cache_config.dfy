/** Cache geometry: the constants of the simulator, the size check made when the
    cache is configured, and the split of a 32-bit address into set index and tag. */
module CacheConfig {

  /** Upper bound on the modelled cache size, in bits of tag, valid bit and data. */
  const MAX_CACHE_SIZE: int := 10240
  /** Cycles charged for an instruction or data access that misses. */
  const CACHE_MISS_DELAY: nat := 10
  /** Number of pipeline stages. */
  const MAX_STAGES: nat := 5

  /** A C `uint`: the addresses of the trace are 32-bit unsigned values. */
  type Word = x: int | 0 <= x < 0x1_0000_0000

  datatype Result<+T, +E> = Success(value: T) | Failure(error: E)

  function Pow2(n: nat): (p: nat)
    ensures p >= 1
  {
    if n == 0 then 1 else 2 * Pow2(n - 1)
  }

  lemma {:induction false} Pow2Add(a: nat, b: nat)
    ensures Pow2(a + b) == Pow2(a) * Pow2(b)
  {
    if a > 0 {
      Pow2Add(a - 1, b);
      assert Pow2(a + b) == 2 * Pow2(a - 1 + b);
    }
  }

  lemma {:induction false} Pow2Increasing(a: nat, b: nat)
    requires a < b
    ensures Pow2(a) < Pow2(b)
  {
    if a + 1 < b {
      Pow2Increasing(a, b - 1);
    }
  }

  lemma {:induction false} Pow2AboveSelf(n: nat)
    ensures n < Pow2(n)
  {
    if n > 0 {
      Pow2AboveSelf(n - 1);
    }
  }

  /** The searching step of RoundLog2: k is the first candidate not yet ruled out. */
  function RoundLog2From(x: nat, k: nat): (r: nat)
    requires x >= 1 && Pow2(2 * k) <= 2 * (x * x)
    ensures Pow2(2 * r) <= 2 * (x * x) < Pow2(2 * r + 2)
    decreases 2 * (x * x) - Pow2(2 * k)
  {
    Pow2Add(2, 2 * k);
    if 2 * (x * x) < Pow2(2 * k + 2) then k else RoundLog2From(x, k + 1)
  }

  /** The integer the source obtains as rint(log(x) / log(2)): the integer nearest
      to log2(x). Its bracket 2^(2r) <= 2x^2 < 2^(2r+2) says r - 1/2 <= log2(x) < r + 1/2
      (a tie is impossible, x^2 is never an odd power of two). */
  function RoundLog2(x: nat): (r: nat)
    requires x >= 1
    ensures Pow2(2 * r) <= 2 * (x * x) < Pow2(2 * r + 2)
  {
    RoundLog2From(x, 0)
  }

  /** Only one r has 2^(2r) <= 2^(2j+1) < 2^(2r+2), namely j. */
  lemma OddPowerBracket(r: nat, j: nat)
    requires Pow2(2 * r) <= Pow2(2 * j + 1) < Pow2(2 * r + 2)
    ensures r == j
  {
    if r > j {
      Pow2Increasing(2 * j + 1, 2 * r);
    } else if r < j {
      Pow2Increasing(2 * r + 2, 2 * j + 1);
    }
  }

  lemma Pow2OddSquare(j: nat)
    ensures Pow2(2 * j + 1) == 2 * (Pow2(j) * Pow2(j))
  {
    Pow2Add(j, j);
  }

  /** On an exact power of two the rounding is exact. */
  lemma RoundLog2OfPow2(j: nat)
    ensures RoundLog2(Pow2(j)) == j
  {
    Pow2OddSquare(j);
    OddPowerBracket(RoundLog2(Pow2(j)), j);
  }

  /** Block offset bits for a block of `blocksize` four-byte words. */
  function BlockOffsetBits(blocksize: nat): (r: nat)
    requires blocksize >= 1
    ensures Pow2(2 * r) <= 2 * ((4 * blocksize) * (4 * blocksize)) < Pow2(2 * r + 2)
  {
    RoundLog2(blocksize * 4)
  }

  /** A block of 2^j words has exactly j + 2 offset bits. */
  lemma BlockOffsetBitsOfPow2(j: nat)
    ensures BlockOffsetBits(Pow2(j)) == j + 2
  {
    Pow2Add(j, 2);
    assert Pow2(j) * 4 == Pow2(j + 2);
    RoundLog2OfPow2(j + 2);
  }

  /** The size formula of the configuration check: one tag, one valid bit and 32
      bits per word for each of assoc * 2^index lines. */
  function CacheSize(index: nat, blocksize: nat, assoc: int, offsetBits: nat): (size: int)
    requires index <= 30 && blocksize >= 1 && offsetBits == BlockOffsetBits(blocksize)
    ensures size >= 0 <==> assoc >= 0
    ensures assoc >= 1 ==> size >= 31 * Pow2(index)
  {
    var lineSize := 32 * blocksize + 33 - index - offsetBits;
    PositiveLineSize(index, blocksize);
    SizeBounds(assoc, Pow2(index), lineSize);
    assoc * Pow2(index) * lineSize
  }

  /** A product of the associativity with positive factors has its sign, and with a
      positive associativity is at least the product of the other two. */
  lemma SizeBounds(assoc: int, sets: int, lineSize: int)
    requires sets >= 1 && lineSize >= 31
    ensures assoc * sets * lineSize >= 0 <==> assoc >= 0
    ensures assoc >= 1 ==> assoc * sets * lineSize >= 31 * sets
  {
    if assoc != 0 {
      SizeSign(assoc, sets, lineSize);
    }
    if assoc >= 1 {
      MulLe(1, assoc, sets, sets);
      MulLe(sets, assoc * sets, 31, lineSize);
    }
  }

  datatype Config = Config(indexBits: nat, blocksize: nat, assoc: nat, offsetBits: nat)
  {
    function NumSets(): nat { Pow2(indexBits) }
  }

  /** The size the configuration asked for; a negative one stands for the huge
      value it wraps to in the source's `unsigned long`. */
  datatype ConfigError = CacheTooBig(size: int)

  /** The configuration step: a cache whose size exceeds MAX_CACHE_SIZE is refused;
      so is a negative associativity, whose negative size wraps to a huge unsigned
      value. Outside the requires the source's arithmetic is undefined (shift by a
      negative amount, logarithm of a non-positive number) or the configuration is
      accepted with sets of no lines, which the first access then reads past. */
  function Configure(index: int, blocksize: int, assoc: int): (r: Result<Config, ConfigError>)
    requires 0 <= index <= 30 && blocksize >= 1 && assoc != 0
    ensures r.Success? <==> 0 <= CacheSize(index, blocksize, assoc, BlockOffsetBits(blocksize)) <= MAX_CACHE_SIZE
    ensures r.Success? <==> 1 <= assoc && CacheSize(index, blocksize, assoc, BlockOffsetBits(blocksize)) <= MAX_CACHE_SIZE
    ensures r.Success? ==> r.value == Config(index, blocksize, assoc, BlockOffsetBits(blocksize))
    ensures r.Failure? ==> r.error.size < 0 || r.error.size > MAX_CACHE_SIZE
  {
    var offsetBits := BlockOffsetBits(blocksize);
    var size := CacheSize(index, blocksize, assoc, offsetBits);
    if size < 0 || size > MAX_CACHE_SIZE then Failure(CacheTooBig(size))
    else Success(Config(index, blocksize, assoc, offsetBits))
  }

  /** The size has the sign of the associativity. */
  lemma SizeSign(assoc: int, sets: int, lineSize: int)
    requires assoc != 0 && sets >= 1 && lineSize >= 1
    ensures assoc * sets * lineSize >= 0 <==> assoc >= 1
  {
    if assoc >= 1 {
      MulLe(1, assoc, 1, sets);
      MulLe(1, assoc * sets, 1, lineSize);
    } else {
      MulLe(1, -assoc, 1, sets);
      assert assoc * sets == -((-assoc) * sets);
      MulLe(1, (-assoc) * sets, 1, lineSize);
      assert assoc * sets * lineSize == -(((-assoc) * sets) * lineSize);
    }
  }

  /** Each line costs at least 31 units: the rounded offset bits never exceed the
      block's byte count, so the per-line factor of the size formula is positive. */
  lemma PositiveLineSize(index: nat, blocksize: nat)
    requires index <= 30 && blocksize >= 1
    ensures 32 * blocksize + 33 - index - BlockOffsetBits(blocksize) >= 31
  {
    RoundLog2AtMost(blocksize * 4);
    assert BlockOffsetBits(blocksize) <= 4 * blocksize;
  }

  lemma RoundLog2AtMost(x: nat)
    requires x >= 1
    ensures RoundLog2(x) <= x
  {
    var r := RoundLog2(x);
    if r > x {
      Pow2AboveSelf(x);
      Pow2Add(x, x);
      MulLe(x + 1, Pow2(x), x + 1, Pow2(x));
      MulLe(x, x + 1, x, x + 1);
      assert x * x < (x + 1) * (x + 1);
      Pow2Add(1, 2 * x);
      Pow2Increasing(2 * x + 1, 2 * r);
    }
  }

  /** Every accepted configuration keeps offset and index bits far below 32, so the
      shifts of the address split are defined on a 32-bit word and the tag fits an int. */
  lemma AcceptedGeometryFitsWord(index: int, blocksize: int, assoc: int)
    requires 0 <= index <= 30 && blocksize >= 1 && assoc >= 1
    requires Configure(index, blocksize, assoc).Success?
    ensures var c := Configure(index, blocksize, assoc).value;
      c.indexBits <= 8 && c.offsetBits <= 11 && c.offsetBits + c.indexBits < 32
  {
    var off := BlockOffsetBits(blocksize);
    var p := Pow2(index);
    var f := 32 * blocksize + 33 - index - off;
    RoundLog2AtMost(blocksize * 4);
    assert f >= 31;
    assert (assoc * p) * f <= 10240;
    MulLe(1, assoc, p, p);
    MulLe(p, assoc * p, f, f);
    MulLe(p, p, 31, f);
    MulLe(1, p, f, f);
    assert Pow2(9) == 512;
    if index > 8 {
      Pow2Increasing(9, index);
    }
    var x := blocksize * 4;
    assert x <= 2047;
    MulLe(x, 2047, x, 2047);
    assert Pow2(11) == 2048;
    Pow2Add(11, 11);
    Pow2Add(1, 22);
    assert 2 * (x * x) < Pow2(23);
    if off > 11 {
      Pow2Increasing(23, 2 * off);
    }
  }

  /** Set index: the address shifted right by the block offset bits and masked to
      the index bits. */
  function SetIndex(address: Word, offsetBits: nat, indexBits: nat): (i: nat)
    ensures i < Pow2(indexBits)
  {
    (address / Pow2(offsetBits)) % Pow2(indexBits)
  }

  /** Tag: the address shifted right by offset bits plus index bits. */
  function Tag(address: Word, offsetBits: nat, indexBits: nat): (t: nat)
    ensures offsetBits + indexBits <= 32 ==> t < Pow2(32 - (offsetBits + indexBits))
  {
    var d := Pow2(offsetBits + indexBits);
    DivNonNegative(address, d);
    TagBound(address, offsetBits + indexBits);
    address / d
  }

  /** A word shifted right by k bits keeps its top 32 - k bits. */
  lemma TagBound(address: Word, k: nat)
    ensures k <= 32 ==> address / Pow2(k) < Pow2(32 - k)
  {
    if k <= 32 {
      Pow2Add(k, 32 - k);
      Pow2Word();
      DivBelow(address, Pow2(k), Pow2(32 - k));
    }
  }

  lemma Pow2Word()
    ensures Pow2(32) == 0x1_0000_0000
  {
    assert Pow2(8) == 256;
    Pow2Add(8, 8);
    Pow2Add(16, 16);
  }

  lemma DivBelow(a: nat, d: nat, q: nat)
    requires d >= 1 && a < d * q
    ensures a / d < q
  {
    if a / d >= q {
      MulLe(d, d, q, a / d);
    }
  }

  lemma DivNonNegative(a: nat, d: nat)
    requires d >= 1
    ensures a / d >= 0
  {
  }

  lemma MulLe(a: int, b: int, c: int, d: int)
    requires 0 <= a <= b && 0 <= c <= d
    ensures a * c <= b * d
  {
    assert a * c <= b * c;
    assert b * c <= b * d;
  }

  lemma DivModUnique(a: int, d: int, q: int, r: int)
    requires d > 0 && 0 <= r < d && a == q * d + r
    ensures a / d == q && a % d == r
  {
    var q', r' := a / d, a % d;
    assert a == q' * d + r';
    assert (q' - q) * d == r - r';
    if q' > q {
      MulLe(1, q' - q, d, d);
    } else if q' < q {
      assert (q - q') * d == r' - r;
      MulLe(1, q - q', d, d);
    }
  }

  lemma DivDiv(a: nat, b: nat, c: nat)
    requires b >= 1 && c >= 1
    ensures a / b / c == a / (b * c)
    ensures a == (a / b / c) * (b * c) + (a / b % c) * b + a % b
  {
    var q := a / b;
    var hi, lo := q / c, q % c;
    assert a == q * b + a % b;
    assert q == hi * c + lo;
    assert q * b == hi * (b * c) + lo * b by {
      assert q * b == (hi * c + lo) * b;
    }
    MulLe(lo, c - 1, b, b);
    assert lo * b + a % b < b * c;
    DivModUnique(a, b * c, hi, lo * b + a % b);
  }

  /** Tag, set index and block offset put back together give the address again. */
  lemma AddressSplits(address: Word, offsetBits: nat, indexBits: nat)
    ensures address == Tag(address, offsetBits, indexBits) * Pow2(offsetBits + indexBits)
                       + SetIndex(address, offsetBits, indexBits) * Pow2(offsetBits)
                       + address % Pow2(offsetBits)
  {
    Pow2Add(offsetBits, indexBits);
    DivDiv(address, Pow2(offsetBits), Pow2(indexBits));
  }

  /** Two addresses of the same block (equal above the offset bits) share set and tag. */
  lemma SameBlockSameLine(a: Word, b: Word, offsetBits: nat, indexBits: nat)
    requires a / Pow2(offsetBits) == b / Pow2(offsetBits)
    ensures SetIndex(a, offsetBits, indexBits) == SetIndex(b, offsetBits, indexBits)
    ensures Tag(a, offsetBits, indexBits) == Tag(b, offsetBits, indexBits)
  {
    Pow2Add(offsetBits, indexBits);
    DivDiv(a, Pow2(offsetBits), Pow2(indexBits));
    DivDiv(b, Pow2(offsetBits), Pow2(indexBits));
  }
}
