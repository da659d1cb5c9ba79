/**
 The erase, write and read loops of platform/hal/hal_norflash.c over a flash chip: an erase sets every bit
 of the aligned sector or block the address lies in, a program can only clear bits and wraps inside its
 page, as the parts in platform/drivers/norflash do.
*/
module NorFlash {
  import opened Modular

  type Byte = b: int | 0 <= b < 256

  const ERASED: Byte := 0xFF
  const RXFIFO: nat := 8

  datatype Geometry = Geometry(page: nat, sector: nat, block: nat, total: nat)

  predicate Proper(g: Geometry) {
    && 0 < g.page && 0 < g.sector && 0 < g.block && 0 < g.total
    && g.sector % g.page == 0 && g.block % g.sector == 0 && g.total % g.block == 0
  }

  // ---- Multiples ----

  lemma Multiple(x: int, n: int)
    requires 0 < n && x % n == 0
    ensures x == x / n * n
  {
  }

  lemma MultipleSum(a: int, b: int, n: int)
    requires 0 < n && a % n == 0 && b % n == 0
    ensures (a + b) % n == 0 && (a - b) % n == 0
  {
    var p, q := a / n, b / n;
    Multiple(a, n);
    Multiple(b, n);
    assert (p + q) * n == p * n + q * n && (p - q) * n == p * n - q * n;
    ModUnique(a + b, n, p + q, 0);
    ModUnique(a - b, n, p - q, 0);
  }

  /** Multiples of the larger unit are multiples of the smaller. */
  lemma MultipleOfMultiple(x: int, n: int, m: int)
    requires 0 < m && 0 < n && n % m == 0 && x % n == 0
    ensures x % m == 0
  {
    Multiple(x, n);
    Multiple(n, m);
    var p, q := x / n, n / m;
    assert p * (q * m) == (p * q) * m;
    ModUnique(x, m, p * q, 0);
  }

  /** Two different multiples are at least one unit apart. */
  lemma MultipleGap(a: int, b: int, n: int)
    requires 0 < n && a % n == 0 && b % n == 0 && a < b
    ensures a + n <= b
  {
    Multiple(a, n);
    Multiple(b, n);
    var p, q := a / n, b / n;
    if q <= p {
      MulMono(q, p, n);
    }
    MulMono(p + 1, q, n);
    assert (p + 1) * n == p * n + n;
  }

  // ---- Bits ----

  function BitAnd(a: nat, b: nat): (r: nat)
    ensures r <= a && r <= b
  {
    if a == 0 || b == 0 then 0
    else 2 * BitAnd(a / 2, b / 2) + if a % 2 == 1 && b % 2 == 1 then 1 else 0
  }

  function Bit(n: nat, k: nat): bool { if k == 0 then n % 2 == 1 else Bit(n / 2, k - 1) }

  /** The bits of both, and these decide the number. */
  lemma {:induction false} AndBits(a: nat, b: nat, k: nat)
    ensures Bit(BitAnd(a, b), k) <==> Bit(a, k) && Bit(b, k)
    decreases k
  {
    if k > 0 {
      AndBits(a / 2, b / 2, k - 1);
      assert BitAnd(a, b) / 2 == BitAnd(a / 2, b / 2) || a == 0 || b == 0;
      NoBits(k - 1);
    }
  }

  lemma {:induction false} NoBits(k: nat)
    ensures !Bit(0, k)
  {
    if k > 0 {
      NoBits(k - 1);
    }
  }

  lemma {:induction false} BitsDecide(a: nat, b: nat)
    requires forall k: nat :: Bit(a, k) == Bit(b, k)
    ensures a == b
    decreases a + b
  {
    assert Bit(a, 0) == Bit(b, 0);
    if a != 0 || b != 0 {
      forall k: nat ensures Bit(a / 2, k) == Bit(b / 2, k) {
        assert Bit(a, k + 1) == Bit(b, k + 1);
      }
      BitsDecide(a / 2, b / 2);
    }
  }

  function OnesBelow(k: nat): nat { if k == 0 then 0 else 2 * OnesBelow(k - 1) + 1 }

  lemma {:induction false} AndOnes(k: nat, b: nat)
    requires b <= OnesBelow(k)
    ensures BitAnd(OnesBelow(k), b) == b
  {
    if b != 0 {
      AndOnes(k - 1, b / 2);
    }
  }

  /** Programming an erased cell stores the byte. */
  lemma AndErased(b: Byte)
    ensures BitAnd(ERASED, b) == b
  {
    assert OnesBelow(4) == 15;
    assert OnesBelow(8) == 16 * OnesBelow(4) + 15;
    AndOnes(8, b);
  }

  lemma {:induction false} AndCommutes(a: nat, b: nat)
    ensures BitAnd(a, b) == BitAnd(b, a)
  {
    if a != 0 && b != 0 {
      AndCommutes(a / 2, b / 2);
    }
  }

  // ---- Erase ----

  datatype Kind = Sector | Block | Chip

  datatype Op = Op(at: nat, kind: Kind)

  function Size(g: Geometry, k: Kind): nat {
    match k
    case Sector => g.sector
    case Block => g.block
    case Chip => g.total
  }

  /** The length the erase loop starts with. */
  function Rounded(len: nat, sector: nat): nat
    requires 0 < sector
  {
    if len % sector == 0 then len else (len + sector) / sector * sector
  }

  /** The least multiple of the sector size that is no less than len. */
  lemma RoundedUp(len: nat, sector: nat)
    requires 0 < sector
    ensures Rounded(len, sector) % sector == 0 && len <= Rounded(len, sector) < len + sector
  {
    var q, r := len / sector, len % sector;
    assert len == q * sector + r;
    if r != 0 {
      assert (q + 1) * sector == q * sector + sector;
      ModUnique(len + sector, sector, q + 1, r);
      ModUnique((q + 1) * sector, sector, q + 1, 0);
    }
  }

  function Choose(g: Geometry, at: nat, remain: nat): Kind
    requires 0 < g.block
  {
    if remain == g.total then Chip else if remain >= g.block && at % g.block == 0 then Block else Sector
  }

  lemma PieceFits(g: Geometry, at: nat, remain: nat)
    requires Proper(g) && remain > 0 && remain % g.sector == 0
    ensures var n := Size(g, Choose(g, at, remain));
            0 < n <= remain && n % g.sector == 0 && (remain - n) % g.sector == 0
  {
    var n := Size(g, Choose(g, at, remain));
    MultipleGap(0, remain, g.sector);
    match Choose(g, at, remain) {
      case Chip => MultipleOfMultiple(g.total, g.block, g.sector);
      case Block =>
      case Sector => ModUnique(g.sector, g.sector, 1, 0);
    }
    MultipleSum(remain, n, g.sector);
  }

  /** The erases the loop issues, in order. */
  function Plan(g: Geometry, at: nat, remain: nat): seq<Op>
    requires Proper(g) && remain % g.sector == 0
    decreases remain
  {
    if remain == 0 then []
    else
      PieceFits(g, at, remain);
      var k := Choose(g, at, remain);
      [Op(at, k)] + Plan(g, at + Size(g, k), remain - Size(g, k))
  }

  /** An erase of an aligned unit, inside [from, from + n). */
  predicate Inside(g: Geometry, op: Op, from: nat, n: nat)
    requires Proper(g)
  {
    op.at % Size(g, op.kind) == 0 && from <= op.at && op.at + Size(g, op.kind) <= from + n
  }

  predicate Covers(g: Geometry, op: Op, x: nat) { op.at <= x < op.at + Size(g, op.kind) }

  /** Within a range on the chip, no aligned erase covers the starts of two different pieces of the plan. */
  lemma {:induction false} OneStartEach(g: Geometry, op: Op, at: nat, remain: nat, i: nat, j: nat)
    requires Proper(g) && remain % g.sector == 0 && at % g.sector == 0 && at + remain <= g.total
    requires Inside(g, op, at, remain) && i < j < |Plan(g, at, remain)|
    ensures !(Covers(g, op, Plan(g, at, remain)[i].at) && Covers(g, op, Plan(g, at, remain)[j].at))
    decreases remain
  {
    PieceFits(g, at, remain);
    var k := Choose(g, at, remain);
    var n := Size(g, k);
    var p := Plan(g, at, remain);
    var rest := Plan(g, at + n, remain - n);
    StartsFrom(g, at + n, remain - n);
    MultipleSum(at, n, g.sector);
    assert forall m | 1 <= m < |p| :: p[m] == rest[m - 1] && p[m].at >= at + n;
    FirstPieceOrRest(g, op, at, remain);
    if op.at + Size(g, op.kind) > at + n && i > 0 {
      OneStartEach(g, op, at + n, remain - n, i - 1, j - 1);
    }
  }

  lemma {:induction false} StartsFrom(g: Geometry, at: nat, remain: nat)
    requires Proper(g) && remain % g.sector == 0
    ensures forall m | 0 <= m < |Plan(g, at, remain)| :: at <= Plan(g, at, remain)[m].at
    decreases remain
  {
    if remain > 0 {
      PieceFits(g, at, remain);
      var n := Size(g, Choose(g, at, remain));
      StartsFrom(g, at + n, remain - n);
      assert forall m | 1 <= m < |Plan(g, at, remain)| ::
          Plan(g, at, remain)[m] == Plan(g, at + n, remain - n)[m - 1];
    }
  }

  /** An aligned erase inside the range lies within the first piece, or behind it. */
  lemma FirstPieceOrRest(g: Geometry, op: Op, at: nat, remain: nat)
    requires Proper(g) && remain % g.sector == 0 && at % g.sector == 0 && at + remain <= g.total && remain > 0
    requires Inside(g, op, at, remain)
    ensures var n := Size(g, Choose(g, at, remain));
            op.at + Size(g, op.kind) <= at + n || Inside(g, op, at + n, remain - n)
  {
    var n := Size(g, Choose(g, at, remain));
    if op.kind.Chip? {
      assert at == 0 && remain == g.total;
    } else if op.at < at + n {
      if op.kind.Sector? {
        PieceFits(g, at, remain);
        MultipleSum(at, n, g.sector);
        MultipleGap(op.at, at + n, g.sector);
      } else {
        BlockInPiece(g, op, at, remain);
      }
    }
  }

  lemma BlockInPiece(g: Geometry, op: Op, at: nat, remain: nat)
    requires Proper(g) && remain % g.sector == 0 && at % g.sector == 0 && at + remain <= g.total && remain > 0
    requires Inside(g, op, at, remain) && op.kind.Block? && op.at < at + Size(g, Choose(g, at, remain))
    ensures op.at + g.block <= at + Size(g, Choose(g, at, remain))
  {
    var n := Size(g, Choose(g, at, remain));
    MultipleOfMultiple(op.at, g.block, g.sector);
    if at < op.at {
      MultipleGap(at, op.at, g.sector);
      if at % g.block == 0 && remain != g.total {
        MultipleGap(at, op.at, g.block);
      }
    }
  }

  lemma {:induction false} DistinctBelow(w: seq<nat>, m: nat)
    requires forall i | 0 <= i < |w| :: w[i] < m
    requires forall i, j | 0 <= i < j < |w| :: w[i] != w[j]
    ensures |w| <= m
    decreases m
  {
    if w != [] {
      assert w[0] < m;
      if i :| 0 <= i < |w| && w[i] == m - 1 {
        var v := w[..i] + w[i + 1..];
        assert forall k | 0 <= k < |v| :: v[k] == if k < i then w[k] else w[k + 1];
        DistinctBelow(v, m - 1);
      } else {
        DistinctBelow(w, m - 1);
      }
    }
  }

  predicate CoversExactly(g: Geometry, ops: seq<Op>, from: nat, n: nat)
    requires Proper(g)
  {
    && (forall j | 0 <= j < |ops| :: Inside(g, ops[j], from, n))
    && (forall x | from <= x < from + n :: CoveredBy(g, ops, x))
  }

  predicate CoveredBy(g: Geometry, ops: seq<Op>, x: nat) { exists j | 0 <= j < |ops| :: Covers(g, ops[j], x) }

  /** Which of the erases covers the start of each of the first n pieces. */
  lemma {:induction false} Witnesses(g: Geometry, starts: seq<Op>, ops: seq<Op>, n: nat) returns (w: seq<nat>)
    requires n <= |starts| && forall i | 0 <= i < n :: CoveredBy(g, ops, starts[i].at)
    ensures |w| == n && forall i | 0 <= i < n :: w[i] < |ops| && Covers(g, ops[w[i]], starts[i].at)
  {
    w := [];
    if n > 0 {
      w := Witnesses(g, starts, ops, n - 1);
      assert CoveredBy(g, ops, starts[n - 1].at);
      var j :| 0 <= j < |ops| && Covers(g, ops[j], starts[n - 1].at);
      w := w + [j];
    }
  }

  lemma {:induction false} PlanInside(g: Geometry, at: nat, remain: nat)
    requires Proper(g) && remain % g.sector == 0 && at % g.sector == 0 && at + remain <= g.total
    ensures forall i | 0 <= i < |Plan(g, at, remain)| :: Inside(g, Plan(g, at, remain)[i], at, remain)
    decreases remain
  {
    if remain > 0 {
      PieceFits(g, at, remain);
      var k := Choose(g, at, remain);
      var n := Size(g, k);
      MultipleSum(at, n, g.sector);
      assert k.Chip? ==> at == 0;
      PlanInside(g, at + n, remain - n);
      var rest := Plan(g, at + n, remain - n);
      forall i | 0 <= i < |Plan(g, at, remain)| ensures Inside(g, Plan(g, at, remain)[i], at, remain) {
        if i > 0 {
          assert Plan(g, at, remain)[i] == rest[i - 1];
        }
      }
    }
  }

  lemma {:induction false} PlanCovers(g: Geometry, at: nat, remain: nat, x: nat)
    requires Proper(g) && remain % g.sector == 0 && at <= x < at + remain
    ensures CoveredBy(g, Plan(g, at, remain), x)
    decreases remain
  {
    PieceFits(g, at, remain);
    var n := Size(g, Choose(g, at, remain));
    var p := Plan(g, at, remain);
    if x < at + n {
      assert Covers(g, p[0], x);
    } else {
      var rest := Plan(g, at + n, remain - n);
      PlanCovers(g, at + n, remain - n, x);
      var j :| 0 <= j < |rest| && Covers(g, rest[j], x);
      assert p[j + 1] == rest[j];
    }
  }

  /**
   From a sector boundary, and within the chip, the loop issues aligned erases that cover exactly the rounded
   range, and no set of aligned erases that does so is smaller.
  */
  lemma ErasePlanIsMinimal(g: Geometry, start: nat, len: nat, ops: seq<Op>)
    requires Proper(g) && start % g.sector == 0 && start + Rounded(len, g.sector) <= g.total
    requires CoversExactly(g, ops, start, Rounded(len, g.sector))
    ensures Rounded(len, g.sector) % g.sector == 0
    ensures CoversExactly(g, Plan(g, start, Rounded(len, g.sector)), start, Rounded(len, g.sector))
    ensures |Plan(g, start, Rounded(len, g.sector))| <= |ops|
  {
    var n := Rounded(len, g.sector);
    RoundedUp(len, g.sector);
    var p := Plan(g, start, n);
    PlanInside(g, start, n);
    forall x | start <= x < start + n ensures CoveredBy(g, p, x) {
      PlanCovers(g, start, n, x);
    }
    forall i | 0 <= i < |p| ensures CoveredBy(g, ops, p[i].at) {
      assert Inside(g, p[i], start, n);
    }
    var w := Witnesses(g, p, ops, |p|);
    forall i, j | 0 <= i < j < |w| ensures w[i] != w[j] {
      OneStartEach(g, ops[w[i]], start, n, i, j);
    }
    DistinctBelow(w, |ops|);
  }

  // ---- Cells ----

  function Ones(n: nat): (r: seq<Byte>)
    ensures |r| == n && forall i | 0 <= i < n :: r[i] == ERASED
  {
    if n == 0 then [] else [ERASED] + Ones(n - 1)
  }

  /** Where the unit of size n that holds the address begins: the chip ignores the low address bits. */
  function Base(x: nat, n: nat): nat
    requires 0 < n
  {
    x - x % n
  }

  function Erase(cells: seq<Byte>, at: nat, n: nat): (r: seq<Byte>)
    requires at + n <= |cells|
    ensures |r| == |cells|
    ensures forall i | 0 <= i < |r| :: r[i] == if at <= i < at + n then ERASED else cells[i]
  {
    cells[..at] + Ones(n) + cells[at + n..]
  }

  /** One page program: byte i goes to offset (off + i) modulo the page size. */
  function PageProgram(cells: seq<Byte>, base: nat, off: nat, data: seq<Byte>, page: nat): (r: seq<Byte>)
    requires 0 < page && base + page <= |cells|
    ensures |r| == |cells|
    decreases |data|
  {
    if data == [] then cells
    else
      var x := base + off % page;
      PageProgram(cells[x := BitAnd(cells[x], data[0])], base, off + 1, data[1..], page)
  }

  function Program(cells: seq<Byte>, at: nat, data: seq<Byte>): (r: seq<Byte>)
    requires at + |data| <= |cells|
    ensures |r| == |cells|
    ensures forall i | 0 <= i < |r| ::
              r[i] == if at <= i < at + |data| then BitAnd(cells[i], data[i - at]) else cells[i]
    decreases |data|
  {
    if data == [] then cells
    else Program(cells[at := BitAnd(cells[at], data[0])], at + 1, data[1..])
  }

  lemma {:induction false} PageProgramExact(cells: seq<Byte>, base: nat, off: nat, at: nat, data: seq<Byte>, page: nat)
    requires 0 < page && base + page <= |cells| && off + |data| <= page && at == base + off
    ensures PageProgram(cells, base, off, data, page) == Program(cells, at, data)
    decreases |data|
  {
    if data != [] {
      ModUnique(off, page, 0, off);
      PageProgramExact(cells[at := BitAnd(cells[at], data[0])], base, off + 1, at + 1, data[1..], page);
    }
  }

  /** What the first round of the write loop programs. */
  function FirstProgram(cells: seq<Byte>, at: nat, data: seq<Byte>, page: nat): (r: seq<Byte>)
    requires 0 < page && |cells| % page == 0 && at + |data| <= |cells| && data != []
    ensures |r| == |cells|
  {
    BaseFits(at, page, |cells|);
    PageProgram(cells, Base(at, page), at % page, data[..if |data| >= page then page else |data|], page)
  }

  /** The write loop: one program per page-sized piece of the buffer, wherever the page boundaries are. */
  function Write(cells: seq<Byte>, at: nat, data: seq<Byte>, page: nat): (r: seq<Byte>)
    requires 0 < page && |cells| % page == 0 && at + |data| <= |cells|
    ensures |r| == |cells|
    decreases |data|
  {
    if data == [] then cells
    else
      var n := if |data| >= page then page else |data|;
      Write(FirstProgram(cells, at, data, page), at + n, data[n..], page)
  }

  lemma BaseFits(at: nat, n: nat, total: nat)
    requires 0 < n && total % n == 0 && at < total
    ensures Base(at, n) + n <= total && Base(at, n) % n == 0
  {
    var q := at / n;
    assert at == q * n + at % n;
    ModUnique(q * n, n, q, 0);
    MultipleGap(Base(at, n), total, n);
  }

  predicate StepCrosses(at: nat, n: nat, page: nat)
    requires 0 < page
  {
    at % page + n > page
  }

  /** Some program of the write loop runs over a page boundary. */
  predicate Crosses(at: nat, len: nat, page: nat)
    requires 0 < page
    decreases len
  {
    var n := if len >= page then page else len;
    len > 0 && (StepCrosses(at, n, page) || Crosses(at + n, len - n, page))
  }

  /** It does exactly when the start is unaligned and the data runs past its page. */
  lemma {:induction false} CrossesExactly(at: nat, len: nat, page: nat)
    requires 0 < page
    ensures Crosses(at, len, page) <==> at % page != 0 && at % page + len > page
    decreases len
  {
    if len >= page && at % page == 0 {
      MultipleSum(at, page, page) by { ModUnique(page, page, 1, 0); }
      CrossesExactly(at + page, len - page, page);
    }
  }

  lemma FirstPiece(cells: seq<Byte>, at: nat, data: seq<Byte>, page: nat, n: nat, first: seq<Byte>)
    requires 0 < page && |cells| % page == 0 && at + |data| <= |cells| == |first| && Base(at, page) + page <= |cells|
    requires data != [] && n == if |data| >= page then page else |data|
    requires PageProgram(cells, Base(at, page), at % page, data[..n], page) == first
    ensures Write(cells, at, data, page) == Write(first, at + n, data[n..], page)
  {
  }

  /** A write none of whose programs crosses a page clears bits exactly where it should. */
  lemma {:induction false} WriteExact(cells: seq<Byte>, at: nat, data: seq<Byte>, page: nat)
    requires 0 < page && |cells| % page == 0 && at + |data| <= |cells| && !Crosses(at, |data|, page)
    ensures Write(cells, at, data, page) == Program(cells, at, data)
    decreases |data|
  {
    if data != [] {
      var n := if |data| >= page then page else |data|;
      var first := Program(cells, at, data[..n]);
      BaseFits(at, page, |cells|);
      PageProgramExact(cells, Base(at, page), at % page, at, data[..n], page);
      FirstPiece(cells, at, data, page, n, first);
      WriteExact(first, at + n, data[n..], page);
      ProgramSplit(cells, at, data, n);
    }
  }

  lemma {:induction false} ProgramSplit(cells: seq<Byte>, at: nat, data: seq<Byte>, n: nat)
    requires at + |data| <= |cells| && n <= |data|
    ensures Program(Program(cells, at, data[..n]), at + n, data[n..]) == Program(cells, at, data)
    decreases n
  {
    if n > 0 {
      assert data[..n][1..] == data[1..][..n - 1];
      ProgramSplit(cells[at := BitAnd(cells[at], data[0])], at + 1, data[1..], n - 1);
    } else {
      assert data[n..] == data;
    }
  }

  lemma ProgramErased(cells: seq<Byte>, at: nat, data: seq<Byte>)
    requires at + |data| <= |cells| && forall i | at <= i < at + |data| :: cells[i] == ERASED
    ensures Program(cells, at, data)[at..at + |data|] == data
  {
    forall i | 0 <= i < |data| ensures Program(cells, at, data)[at + i] == data[i] {
      AndErased(data[i]);
    }
  }

  // ---- Writes that do cross a page ----

  lemma {:induction false} PageProgramLowers(cells: seq<Byte>, base: nat, off: nat, data: seq<Byte>, page: nat, x: nat)
    requires 0 < page && base + page <= |cells| && x < |cells|
    ensures PageProgram(cells, base, off, data, page)[x] <= cells[x]
    ensures !(base <= x < base + page) ==> PageProgram(cells, base, off, data, page)[x] == cells[x]
    decreases |data|
  {
    if data != [] {
      var y := base + off % page;
      PageProgramLowers(cells[y := BitAnd(cells[y], data[0])], base, off + 1, data[1..], page, x);
    }
  }

  /** A write clears bits only, and what its first program clears the later ones leave cleared. */
  lemma {:induction false} WriteLowers(cells: seq<Byte>, at: nat, data: seq<Byte>, page: nat, x: nat)
    requires 0 < page && |cells| % page == 0 && at + |data| <= |cells| && x < |cells|
    ensures Write(cells, at, data, page)[x] <= cells[x]
    ensures data != [] ==> Write(cells, at, data, page)[x] <= FirstProgram(cells, at, data, page)[x]
    decreases |data|
  {
    if data != [] {
      BaseFits(at, page, |cells|);
      var n := if |data| >= page then page else |data|;
      PageProgramLowers(cells, Base(at, page), at % page, data[..n], page, x);
      WriteLowers(PageProgram(cells, Base(at, page), at % page, data[..n], page), at + n, data[n..], page, x);
    }
  }

  /** Byte i of a page program clears bits of the cell at its offset modulo the page. */
  lemma {:induction false} PageProgramHits(cells: seq<Byte>, base: nat, off: nat, data: seq<Byte>, page: nat, i: nat,
                                           x: nat)
    requires 0 < page && base + page <= |cells| && i < |data| && x == base + (off + i) % page
    ensures PageProgram(cells, base, off, data, page)[x] <= data[i]
    decreases |data|
  {
    var y := base + off % page;
    var next := cells[y := BitAnd(cells[y], data[0])];
    if i == 0 {
      PageProgramLowers(next, base, off + 1, data[1..], page, x);
    } else {
      PageProgramHits(next, base, off + 1, data[1..], page, i - 1, x);
    }
  }

  /** In a crossing write the first program crosses, and byte k of the data is the first behind the boundary. */
  lemma FirstPieceCrosses(at: nat, len: nat, page: nat, n: nat, k: int)
    requires 0 < page && Crosses(at, len, page) && n == (if len >= page then page else len) && k == page - at % page
    ensures 0 < k < n && k < page && (at % page + k) % page == 0 && Base(at, page) + page == at + k
  {
    CrossesExactly(at, len, page);
    ModUnique(page, page, 1, 0);
  }

  lemma WrappedByte(cells: seq<Byte>, base: nat, off: nat, data: seq<Byte>, page: nat, n: nat, k: nat)
    requires 0 < page && base + page <= |cells| && k < n <= |data| && (off + k) % page == 0
    ensures PageProgram(cells, base, off, data[..n], page)[base] <= data[k]
  {
    PageProgramHits(cells, base, off, data[..n], page, k, base);
    assert data[..n][k] == data[k];
  }

  /**
   A write that crosses a page puts the first byte behind the page boundary at the beginning of the page it came
   from, where a write of this range has no business.
  */
  lemma CrossingWriteWraps(cells: seq<Byte>, at: nat, data: seq<Byte>, page: nat)
    requires 0 < page && |cells| % page == 0 && at + |data| <= |cells| && Crosses(at, |data|, page)
    ensures page - at % page < |data|
    ensures Base(at, page) < at && Write(cells, at, data, page)[Base(at, page)] <= data[page - at % page]
  {
    BaseFits(at, page, |cells|);
    var n, k, b := if |data| >= page then page else |data|, page - at % page, Base(at, page);
    FirstPieceCrosses(at, |data|, page, n, k);
    WrappedByte(cells, b, at % page, data, page, n, k);
    WriteLowers(cells, at, data, page, b);
  }

  function Zeros(n: nat): (r: seq<Byte>)
    ensures |r| == n && forall i | 0 <= i < n :: r[i] == 0
  {
    if n == 0 then [] else [0] + Zeros(n - 1)
  }

  ghost predicate WritesRight(at: nat, len: nat, page: nat, total: nat)
    requires 0 < page && total % page == 0 && at + len <= total
  {
    forall cells: seq<Byte>, data: seq<Byte> | |cells| == total && |data| == len ::
      Write(cells, at, data, page) == Program(cells, at, data)
  }

  /** Writing is right for all contents and all data exactly if no program crosses a page. */
  lemma WriteRightExactly(at: nat, len: nat, page: nat, total: nat)
    requires 0 < page && total % page == 0 && at + len <= total
    ensures WritesRight(at, len, page, total) <==> !Crosses(at, len, page)
  {
    if Crosses(at, len, page) {
      var cells, data := Ones(total), Zeros(len);
      CrossingWriteWraps(cells, at, data, page);
      assert Program(cells, at, data)[Base(at, page)] == ERASED;
      assert Write(cells, at, data, page) != Program(cells, at, data);
    } else {
      forall cells: seq<Byte>, data: seq<Byte> | |cells| == total && |data| == len
        ensures Write(cells, at, data, page) == Program(cells, at, data)
      {
        WriteExact(cells, at, data, page);
      }
    }
  }

  // ---- Erase, write, read back ----

  /** The rounded range is erased, from where the first sector begins; it is the requested one exactly if aligned. */
  lemma EraseRightExactly(start: nat, n: nat, sector: nat, total: nat)
    requires 0 < sector && start + n <= total
    ensures (forall cells: seq<Byte> | |cells| == total ::
              Erase(cells, Base(start, sector), n) == Erase(cells, start, n)) <==> n == 0 || start % sector == 0
  {
    if n > 0 && start % sector != 0 {
      var cells := Zeros(total);
      assert Erase(cells, Base(start, sector), n)[Base(start, sector)] == ERASED;
      assert Erase(cells, start, n)[Base(start, sector)] == 0;
    } else if n == 0 {
      forall cells: seq<Byte> | |cells| == total
        ensures Erase(cells, Base(start, sector), n) == Erase(cells, start, n)
      {
      }
    }
  }

  /** The range fits on the chip, erased sectors included. */
  predicate Fits(g: Geometry, start: nat, len: nat) {
    && Proper(g) && g.total % g.page == 0 && start + len <= g.total
    && Base(start, g.sector) + Rounded(len, g.sector) <= g.total
  }

  /** Erase, write, read back. */
  function Cycle(g: Geometry, cells: seq<Byte>, start: nat, data: seq<Byte>): (r: seq<Byte>)
    requires Fits(g, start, |data|) && |cells| == g.total
  {
    Write(Erase(cells, Base(start, g.sector), Rounded(|data|, g.sector)), start, data, g.page)[start..start + |data|]
  }

  /** The erased sectors reach to the end of the range. */
  predicate Reaches(g: Geometry, start: nat, len: nat)
    requires Proper(g)
  {
    start % g.sector + len <= Rounded(len, g.sector)
  }

  lemma EraseWriteReadBack(g: Geometry, cells: seq<Byte>, start: nat, data: seq<Byte>)
    requires Fits(g, start, |data|) && |cells| == g.total
    requires Reaches(g, start, |data|) && !Crosses(start, |data|, g.page)
    ensures Cycle(g, cells, start, data) == data
  {
    var erased := Erase(cells, Base(start, g.sector), Rounded(|data|, g.sector));
    WriteExact(erased, start, data, g.page);
    ProgramErased(erased, start, data);
  }

  predicate AllOnes(data: seq<Byte>) { forall i | 0 <= i < |data| :: data[i] == ERASED }

  /** Each program of the write loop is in another page than x or clears no bit. */
  predicate Spares(at: nat, data: seq<Byte>, page: nat, x: nat)
    requires 0 < page
    decreases |data|
  {
    data == []
    || (var n := if |data| >= page then page else |data|;
        (!(Base(at, page) <= x < Base(at, page) + page) || AllOnes(data[..n])) && Spares(at + n, data[n..], page, x))
  }

  lemma {:induction false} OnesSpare(at: nat, data: seq<Byte>, page: nat, x: nat)
    requires 0 < page && AllOnes(data)
    ensures Spares(at, data, page, x)
    decreases |data|
  {
    if data != [] {
      var n := if |data| >= page then page else |data|;
      OnesSpare(at + n, data[n..], page, x);
    }
  }

  lemma {:induction false} SparedStays(cells: seq<Byte>, at: nat, data: seq<Byte>, page: nat, x: nat)
    requires 0 < page && |cells| % page == 0 && at + |data| <= |cells| && x < |cells| && Spares(at, data, page, x)
    ensures Write(cells, at, data, page)[x] == cells[x]
    decreases |data|
  {
    if data != [] {
      BaseFits(at, page, |cells|);
      var n := if |data| >= page then page else |data|;
      if AllOnes(data[..n]) {
        PageProgramOnes(cells, Base(at, page), at % page, data[..n], page);
      }
      PageProgramLowers(cells, Base(at, page), at % page, data[..n], page, x);
      SparedStays(PageProgram(cells, Base(at, page), at % page, data[..n], page), at + n, data[n..], page, x);
    }
  }

  lemma {:induction false} PageProgramOnes(cells: seq<Byte>, base: nat, off: nat, data: seq<Byte>, page: nat)
    requires 0 < page && base + page <= |cells| && AllOnes(data)
    ensures PageProgram(cells, base, off, data, page) == cells
    decreases |data|
  {
    if data != [] {
      var y := base + off % page;
      AndCommutes(cells[y], ERASED);
      AndErased(cells[y]);
      assert cells[y := cells[y]] == cells;
      PageProgramOnes(cells, base, off + 1, data[1..], page);
    }
  }

  /** The first byte behind the page boundary does not arrive at its own address. */
  lemma CrossingWriteLoses(cells: seq<Byte>, at: nat, data: seq<Byte>, page: nat, k: nat)
    requires 0 < page && |cells| % page == 0 && at + |data| <= |cells| && Crosses(at, |data|, page)
    requires k == page - at % page && forall i | 0 <= i < |data| && i != k :: data[i] == ERASED
    ensures k < |data| && Write(cells, at, data, page)[at + k] == cells[at + k]
  {
    BaseFits(at, page, |cells|);
    var n := if |data| >= page then page else |data|;
    FirstPieceCrosses(at, |data|, page, n, k);
    OnesSpare(at + n, data[n..], page, at + k);
    SparedStays(cells, at, data, page, at + k);
  }

  lemma CycleAt(g: Geometry, cells: seq<Byte>, start: nat, data: seq<Byte>, i: nat)
    requires Fits(g, start, |data|) && |cells| == g.total && i < |data|
    ensures Cycle(g, cells, start, data)[i]
         == Write(Erase(cells, Base(start, g.sector), Rounded(|data|, g.sector)), start, data, g.page)[start + i]
  {
  }

  ghost predicate CyclesRight(g: Geometry, start: nat, len: nat)
    requires Fits(g, start, len)
  {
    forall cells: seq<Byte>, data: seq<Byte> | |cells| == g.total && |data| == len ::
      Cycle(g, cells, start, data) == data
  }

  /** Past the erased sectors an old bit stays cleared. */
  lemma UnreachedStays(g: Geometry, start: nat, len: nat)
    requires Fits(g, start, len) && !Reaches(g, start, len) && len > 0
    ensures !CyclesRight(g, start, len)
  {
    var cells, data := Zeros(g.total), Ones(len);
    var erased := Erase(cells, Base(start, g.sector), Rounded(len, g.sector));
    WriteLowers(erased, start, data, g.page, start + len - 1);
    assert erased[start + len - 1] == 0;
    CycleAt(g, cells, start, data, len - 1);
    assert Cycle(g, cells, start, data)[len - 1] != data[len - 1];
  }

  /** Behind a crossed page boundary a byte is lost. */
  lemma CrossedIsLost(g: Geometry, start: nat, len: nat)
    requires Fits(g, start, len) && Reaches(g, start, len) && Crosses(start, len, g.page)
    ensures !CyclesRight(g, start, len)
  {
    CrossesExactly(start, len, g.page);
    var k := g.page - start % g.page;
    var data := Ones(len)[k := 0];
    CrossedByteIsLost(g, start, data, k);
  }

  lemma CrossedByteIsLost(g: Geometry, start: nat, data: seq<Byte>, k: nat)
    requires Fits(g, start, |data|) && Reaches(g, start, |data|) && Crosses(start, |data|, g.page)
    requires k == g.page - start % g.page && k < |data|
    requires forall i | 0 <= i < |data| :: data[i] == if i == k then 0 else ERASED
    ensures !CyclesRight(g, start, |data|)
  {
    var cells := Ones(g.total);
    var erased := Erase(cells, Base(start, g.sector), Rounded(|data|, g.sector));
    CrossingWriteLoses(erased, start, data, g.page, k);
    CycleAt(g, cells, start, data, k);
    assert erased[start + k] == ERASED;
    assert Cycle(g, cells, start, data) != data;
  }

  /**
   Erase, write, read back return what was written, for all contents and all data, exactly if the erased sectors
   reach the end of the range and no program crosses a page.
  */
  lemma CycleRightExactly(g: Geometry, start: nat, len: nat)
    requires Fits(g, start, len)
    ensures CyclesRight(g, start, len) <==> len == 0 || (Reaches(g, start, len) && !Crosses(start, len, g.page))
  {
    if len > 0 {
      if !Reaches(g, start, len) {
        UnreachedStays(g, start, len);
      } else if Crosses(start, len, g.page) {
        CrossedIsLost(g, start, len);
      } else {
        forall cells: seq<Byte>, data: seq<Byte> | |cells| == g.total && |data| == len
          ensures Cycle(g, cells, start, data) == data
        {
          EraseWriteReadBack(g, cells, start, data);
        }
      }
    }
  }

  // ---- The read loop ----

  /** remain_len after n rounds, on 32 bits. */
  function RemainAfter(len: nat, n: nat): nat {
    if n == 0 then len % 0x1_0000_0000 else (RemainAfter(len, n - 1) + 0x1_0000_0000 - RXFIFO) % 0x1_0000_0000
  }

  lemma {:induction false} RemainKeepsResidue(len: nat, n: nat)
    ensures RemainAfter(len, n) % 8 == len % 8
  {
    if n > 0 {
      RemainKeepsResidue(len, n - 1);
      MinusEight(RemainAfter(len, n - 1));
    } else {
      LowBits(len);
    }
  }

  lemma MinusEight(r: nat)
    requires r < 0x1_0000_0000
    ensures (r + 0x1_0000_0000 - RXFIFO) % 0x1_0000_0000 % 8 == r % 8
  {
    assert (r + 0x1_0000_0000 - RXFIFO) % 0x1_0000_0000 == if r >= 8 then r - 8 else r + 0x1_0000_0000 - 8;
  }

  lemma LowBits(len: nat)
    ensures len % 0x1_0000_0000 % 8 == len % 8
  {
  }

  lemma {:induction false} RemainCountsDown(len: nat, n: nat)
    requires len < 0x1_0000_0000 && 8 * n <= len
    ensures RemainAfter(len, n) == len - 8 * n
  {
    if n > 0 {
      RemainCountsDown(len, n - 1);
    }
  }

  /** The read loop ends exactly for lengths divisible by the size of one read. */
  lemma ReadEndsExactly(len: nat)
    requires len < 0x1_0000_0000
    ensures (exists n: nat :: RemainAfter(len, n) == 0) <==> len % RXFIFO == 0
  {
    if len % 8 == 0 {
      RemainCountsDown(len, len / 8);
    } else {
      forall n: nat ensures RemainAfter(len, n) != 0 {
        RemainKeepsResidue(len, n);
      }
    }
  }

  // ---- The code ----

  lemma NextSector(at: nat, n: nat, sector: nat)
    requires 0 < sector && n % sector == 0
    ensures Base(at + n, sector) == Base(at, sector) + n
  {
    Multiple(n, sector);
    var q, k := at / sector, n / sector;
    assert at == q * sector + at % sector;
    assert (q + k) * sector == q * sector + k * sector;
    ModUnique(at + n, sector, q + k, at % sector);
  }

  /** Whatever unit the loop picks, the chip erases it from where the current sector begins. */
  lemma UnitBase(g: Geometry, at: nat, remain: nat)
    requires Proper(g) && remain % g.sector == 0 && remain > 0 && Base(at, g.sector) + remain <= g.total
    ensures Base(at, Size(g, Choose(g, at, remain))) == Base(at, g.sector)
  {
    var k := Choose(g, at, remain);
    if k.Chip? {
      assert at < g.sector + Base(at, g.sector) && Base(at, g.sector) == 0;
      MultipleOfMultiple(g.total, g.block, g.sector);
      MultipleGap(0, g.total, g.sector);
      ModUnique(at, g.total, 0, at);
    } else if k.Block? {
      MultipleOfMultiple(at, g.block, g.sector);
    }
  }

  /** One round of the erase loop. */
  lemma PlanStep(g: Geometry, at: nat, remain: nat, ops: seq<Op>, goal: seq<Op>)
    requires Proper(g) && remain % g.sector == 0 && 0 < remain && ops + Plan(g, at, remain) == goal
    ensures var k := Choose(g, at, remain);
            var n := Size(g, k);
            && n <= remain && (remain - n) % g.sector == 0 && Base(at + n, g.sector) == Base(at, g.sector) + n
            && ops + [Op(at, k)] + Plan(g, at + n, remain - n) == goal
  {
    PieceFits(g, at, remain);
    var k := Choose(g, at, remain);
    var n := Size(g, k);
    NextSector(at, n, g.sector);
    assert ops + ([Op(at, k)] + Plan(g, at + n, remain - n)) == ops + [Op(at, k)] + Plan(g, at + n, remain - n);
  }

  lemma EraseTwice(cells: seq<Byte>, at: nat, n: nat, m: nat)
    requires at + n + m <= |cells|
    ensures Erase(Erase(cells, at, n), at + n, m) == Erase(cells, at, n + m)
  {
  }

  /** The erase loop has come to `at`: the cells behind it and the erases issued are those of the plan so far. */
  ghost predicate Erasing(g: Geometry, was: seq<Byte>, now: seq<Byte>, start: nat, whole: nat, at: nat, remain: int,
                          ops: seq<Op>)
  {
    && Proper(g) && |was| == g.total && 0 <= remain <= whole && whole % g.sector == 0 && remain % g.sector == 0
    && Base(start, g.sector) + whole <= g.total && Base(at, g.sector) == Base(start, g.sector) + (whole - remain)
    && now == Erase(was, Base(start, g.sector), whole - remain)
    && ops + Plan(g, at, remain) == Plan(g, start, whole)
  }

  lemma EraseStarts(g: Geometry, was: seq<Byte>, start: nat, whole: nat)
    requires Proper(g) && |was| == g.total && whole % g.sector == 0 && Base(start, g.sector) + whole <= g.total
    ensures Erasing(g, was, was, start, whole, start, whole, [])
  {
    assert [] + Plan(g, start, whole) == Plan(g, start, whole);
  }

  lemma ErasingFits(g: Geometry, was: seq<Byte>, now: seq<Byte>, start: nat, whole: nat, at: nat, remain: nat,
                    ops: seq<Op>)
    requires Erasing(g, was, now, start, whole, at, remain, ops)
    ensures remain % g.sector == 0 && Base(at, g.sector) + remain <= g.total == |now|
  {
  }

  lemma ErasingStep(g: Geometry, was: seq<Byte>, now: seq<Byte>, start: nat, whole: nat, at: nat, remain: nat,
                    ops: seq<Op>)
    requires Erasing(g, was, now, start, whole, at, remain, ops) && 0 < remain
    ensures var k := Choose(g, at, remain);
            var n := Size(g, k);
            && n <= remain && Base(at, g.sector) + n <= |now|
            && Erasing(g, was, Erase(now, Base(at, g.sector), n), start, whole, at + n, remain - n, ops + [Op(at, k)])
  {
    PlanStep(g, at, remain, ops, Plan(g, start, whole));
    EraseTwice(was, Base(start, g.sector), whole - remain, Size(g, Choose(g, at, remain)));
  }

  lemma EraseEnds(g: Geometry, was: seq<Byte>, now: seq<Byte>, start: nat, whole: nat, at: nat, ops: seq<Op>)
    requires Erasing(g, was, now, start, whole, at, 0, ops)
    ensures ops == Plan(g, start, whole) && now == Erase(was, Base(start, g.sector), whole)
  {
    assert ops + [] == ops;
  }

  lemma Slices(s: seq<Byte>, a: nat, b: nat, c: nat)
    requires a <= b <= c <= |s|
    ensures s[a..c] == s[a..b] + s[b..c]
  {
  }

  class Flash {
    const g: Geometry
    const cells: array<Byte>

    ghost predicate Valid()
      reads this
    {
      Proper(g) && cells.Length == g.total
    }

    constructor (g: Geometry, cells: array<Byte>)
      requires Proper(g) && cells.Length == g.total
      ensures Valid() && this.g == g && this.cells == cells
    {
      this.g, this.cells := g, cells;
    }

    /** The chip erases the aligned unit of size n the address lies in. */
    method EraseUnit(at: nat, n: nat)
      requires Valid() && 0 < n && Base(at, n) + n <= cells.Length
      modifies cells
      ensures cells[..] == Erase(old(cells[..]), Base(at, n), n)
    {
      var base := at - at % n;
      var i := 0;
      while i < n
        invariant 0 <= i <= n
        invariant forall j | 0 <= j < cells.Length ::
                    cells[j] == if base <= j < base + i then ERASED else old(cells[j])
      {
        cells[base + i] := ERASED;
        i := i + 1;
      }
    }

    /** One unit, and the bookkeeping of the loop. */
    method EraseStep(at: nat, remain: nat) returns (k: Kind, n: nat)
      requires Valid() && 0 < remain && remain % g.sector == 0 && Base(at, g.sector) + remain <= g.total
      modifies cells
      ensures k == Choose(g, at, remain) && n == Size(g, k)
      ensures n <= remain && cells[..] == Erase(old(cells[..]), Base(at, g.sector), n)
    {
      PieceFits(g, at, remain);
      UnitBase(g, at, remain);
      if remain == g.total {
        k, n := Chip, g.total;
      } else if remain >= g.block && at % g.block == 0 {
        k, n := Block, g.block;
      } else {
        k, n := Sector, g.sector;
      }
      EraseUnit(at, n);
    }

    /** The loop of hal_norflash_erase. */
    method EraseLoop(start: nat, whole: nat) returns (ghost ops: seq<Op>)
      requires Valid() && whole % g.sector == 0 && Base(start, g.sector) + whole <= g.total
      modifies cells
      ensures ops == Plan(g, start, whole) && cells[..] == Erase(old(cells[..]), Base(start, g.sector), whole)
    {
      var at, remain := start, whole;
      ghost var was := cells[..];
      ops := [];
      EraseStarts(g, was, start, whole);
      while remain > 0
        invariant Erasing(g, was, cells[..], start, whole, at, remain, ops)
        decreases remain
      {
        ghost var now := cells[..];
        ErasingFits(g, was, now, start, whole, at, remain, ops);
        var k, n := EraseStep(at, remain);
        ErasingStep(g, was, now, start, whole, at, remain, ops);
        ops := ops + [Op(at, k)];
        at, remain := at + n, remain - n;
      }
      EraseEnds(g, was, cells[..], start, whole, at, ops);
    }

    /** hal_norflash_erase. The erased range begins where the first sector begins. */
    method EraseRange(start: nat, len: nat) returns (ghost ops: seq<Op>)
      requires Valid() && Base(start, g.sector) + Rounded(len, g.sector) <= g.total
      modifies cells
      ensures Rounded(len, g.sector) % g.sector == 0 && ops == Plan(g, start, Rounded(len, g.sector))
      ensures cells[..] == Erase(old(cells[..]), Base(start, g.sector), Rounded(len, g.sector))
    {
      RoundedUp(len, g.sector);
      ops := EraseLoop(start, if len % g.sector == 0 then len else (len + g.sector) / g.sector * g.sector);
    }

    /** The chip's page program. */
    method ProgramPage(at: nat, data: seq<Byte>)
      requires Valid() && cells.Length % g.page == 0 && at < cells.Length
      modifies cells
      ensures Base(at, g.page) + g.page <= cells.Length
      ensures cells[..] == PageProgram(old(cells[..]), Base(at, g.page), at % g.page, data, g.page)
    {
      BaseFits(at, g.page, cells.Length);
      var base, off, i := at - at % g.page, at % g.page, 0;
      ghost var goal := PageProgram(cells[..], base, off, data, g.page);
      while i < |data|
        invariant 0 <= i <= |data| && PageProgram(cells[..], base, off + i, data[i..], g.page) == goal
      {
        var x := base + (off + i) % g.page;
        ghost var was := cells[..];
        cells[x] := BitAnd(cells[x], data[i]);
        assert cells[..] == was[x := BitAnd(was[x], data[i])];
        assert data[i..][0] == data[i] && data[i..][1..] == data[i + 1..];
        i := i + 1;
      }
    }

    /** hal_norflash_write */
    method WriteRange(start: nat, data: seq<Byte>)
      requires Valid() && cells.Length % g.page == 0 && start + |data| <= cells.Length
      modifies cells
      ensures cells[..] == Write(old(cells[..]), start, data, g.page)
    {
      var at, done := start, 0;
      ghost var goal := Write(cells[..], start, data, g.page);
      while done < |data|
        invariant 0 <= done <= |data| && at == start + done
        invariant Write(cells[..], at, data[done..], g.page) == goal
        decreases |data| - done
      {
        var n := if |data| - done >= g.page then g.page else |data| - done;
        assert data[done..][..n] == data[done..done + n] && data[done..][n..] == data[done + n..];
        ProgramPage(at, data[done..done + n]);
        at, done := at + n, done + n;
      }
    }

    /** hal_norflash_read, for the lengths for which it ends. */
    method ReadRange(start: nat, len: nat) returns (buffer: seq<Byte>)
      requires start + len <= cells.Length && len % RXFIFO == 0
      ensures buffer == cells[start..start + len]
    {
      var at, remain := start, len;
      buffer := [];
      while remain > 0
        invariant 0 <= remain <= len && remain % RXFIFO == 0 && at + remain == start + len
        invariant buffer == cells[..][start..at]
      {
        Slices(cells[..], start, at, at + RXFIFO);
        buffer := buffer + cells[..][at..at + RXFIFO];
        at, remain := at + RXFIFO, remain - RXFIFO;
      }
    }

    /** Erase, write and read of one range. */
    method RoundTrip(start: nat, data: seq<Byte>) returns (buffer: seq<Byte>)
      requires Valid() && Fits(g, start, |data|) && |data| % RXFIFO == 0
      modifies cells
      ensures buffer == Cycle(g, old(cells[..]), start, data)
      ensures Reaches(g, start, |data|) && !Crosses(start, |data|, g.page) ==> buffer == data
    {
      ghost var was := cells[..];
      var _ := EraseRange(start, |data|);
      WriteRange(start, data);
      buffer := ReadRange(start, |data|);
      if Reaches(g, start, |data|) && !Crosses(start, |data|, g.page) {
        EraseWriteReadBack(g, was, start, data);
      }
    }
  }
}
