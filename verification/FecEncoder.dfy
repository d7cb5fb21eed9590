/** The FEC encoder (internal/fec/fec.go): each media packet is added to its row and
    its column, and a group that fills is put out and started again. Over a
    contiguous stream the packets put out are exactly the sums of whole rows and
    columns, on a fixed schedule. */
module FecEncoder {
  import opened Arith
  import opened Serial
  import opened Bits
  import opened FecCode
  import opened FecDecoder
  import opened FecPeeling
  import opened FecRun

  /** A row or column being accumulated. */
  datatype Group = Group(base: u32, collected: nat, sum: Vec)

  datatype Direction = Column | Row

  datatype Emission = Emission(direction: Direction, packet: FecPacket)

  datatype Encoder = Encoder(cfg: MatrixConfig, size: nat, rowBase: u32, row: Group, cols: seq<Group>) {
    predicate Valid() {
      && cfg.Valid() && |cols| == cfg.cols && |row.sum| == 3 + size
      && forall j :: 0 <= j < |cols| ==> |cols[j].sum| == 3 + size
    }
  }

  function Start(base: u32, size: nat): Group { Group(base, 0, Zero(3 + size)) }

  function Clip(g: Group, m: Media, size: nat): Group
    requires |g.sum| == 3 + size
  {
    g.(collected := g.collected + 1, sum := XorVec(g.sum, Pack(m, size)))
  }

  function Emit(cfg: MatrixConfig, g: Group, direction: Direction): Emission
    requires |g.sum| >= 3
  {
    var (offset, na) := if direction.Row? then (1, cfg.cols) else (cfg.cols, cfg.rows);
    Emission(direction, FecPacket(g.base % Span(cfg.variant), offset, na, g.sum[0], g.sum[1], g.sum[2], g.sum[3..]))
  }

  /** A packet joins the column at pos. */
  function IntoColumn(e: Encoder, pos: nat, s: u32, m: Media): (Encoder, seq<Emission>)
    requires e.Valid() && pos < |e.cols|
  {
    var g := e.cols[pos];
    var g0 := if Distance(g.base, s) >= e.cfg.Matrix() then Start(Plus(g.base, e.cfg.Matrix()), e.size) else g;
    var g1 := Clip(g0, m, e.size);
    if g1.collected >= e.cfg.rows then
      (e.(cols := e.cols[pos := Start(Plus(g1.base, e.cfg.Matrix()), e.size)]), [Emit(e.cfg, g1, Column)])
    else (e.(cols := e.cols[pos := g1]), [])
  }

  /** The next row begins. */
  function NextRow(e: Encoder): Encoder {
    var base := Plus(e.rowBase, e.cfg.cols);
    e.(rowBase := base, row := Start(base, e.size))
  }

  /** One media packet, in sequence order; the result lists the FEC packets due. */
  function Push(e: Encoder, s: u32, m: Media): (Encoder, seq<Emission>)
    requires e.Valid()
  {
    var e0 := if Distance(e.rowBase, s) >= e.cfg.cols then NextRow(e) else e;
    var pos := Distance(e0.rowBase, s);
    var e1 := e0.(row := Clip(e0.row, m, e.size));
    var (e2, out) := if 0 <= pos < |e1.cols| then IntoColumn(e1, pos, s, m) else (e1, []);
    if e2.row.collected >= e.cfg.cols then
      (NextRow(e2), if e.cfg.columnOnly then out else out + [Emit(e.cfg, e2.row, Row)])
    else (e2, out)
  }

  function NewEncoder(cfg: MatrixConfig, size: nat, isn: u32): Encoder {
    Encoder(cfg, size, isn, Start(isn, size), seq(cfg.cols, i => Start(Plus(isn, i), size)))
  }

  // ---- where the encoder stands after n packets ----

  /** n packets are `rows` full rows and c more; column j has Taken of them. */
  function Taken(rows: nat, c: nat, j: nat): nat { if j < c then rows + 1 else rows }

  /** How far t is into a cycle of d. */
  function Phase(t: nat, d: nat): (r: nat)
    requires d > 0
    ensures r < d && r <= t
  {
    ModAtMost(t, d);
    t % d
  }

  lemma ModAtMost(t: nat, d: nat)
    requires d > 0
    ensures t % d <= t
  {
    if t < d { DivModUnique(t, d, 0, t); }
  }

  /** The position where column j's current group starts. */
  function ColumnStart(cfg: MatrixConfig, rows: nat, c: nat, j: nat): int
    requires cfg.rows > 0
  {
    var t := Taken(rows, c, j);
    Mul(t - Phase(t, cfg.rows), cfg.cols) + j
  }

  predicate ColumnOk(st: Stream, e: Encoder, rows: nat, c: nat, j: nat)
    requires e.cfg.rows > 0 && j < |e.cols|
  {
    var (p, k) := (ColumnStart(e.cfg, rows, c, j), Phase(Taken(rows, c, j), e.cfg.rows));
    && st.HasGroup(p, e.cfg.cols, k)
    && e.cols[j] == Group(st.Key(p), k, GroupSum(st, p, e.cfg.cols, k, e.size))
  }

  /** The accumulators hold exactly the sums of their groups so far. */
  predicate Standing(st: Stream, e: Encoder, rows: nat, c: nat) {
    var p := Mul(rows, e.cfg.cols);
    && e.Valid() && c < e.cfg.cols
    && st.HasGroup(p, 1, c)
    && e.rowBase == st.Key(p) && e.row == Group(st.Key(p), c, GroupSum(st, p, 1, c, e.size))
    && forall j :: 0 <= j < e.cfg.cols ==> ColumnOk(st, e, rows, c, j)
  }

  lemma NewStanding(st: Stream, cfg: MatrixConfig, size: nat)
    requires cfg.Valid()
    ensures Standing(st, NewEncoder(cfg, size, st.isn), 0, 0)
  {
    hide MatrixConfig.Valid, MatrixConfig.Matrix, Mul, GroupSum, Stream.HasGroup;
    ConfigShape(cfg);
    var e := NewEncoder(cfg, size, st.isn);
    MulStep(0, cfg.cols);
    EmptyGroup(st, 0, 1, size);
    KeyZero(st);
    forall j | 0 <= j < cfg.cols ensures ColumnOk(st, e, 0, 0, j) {
      EmptyGroup(st, j, cfg.cols, size);
    }
  }

  lemma KeyZero(st: Stream)
    ensures st.Key(0) == st.isn && forall j :: st.Key(j) == Plus(st.isn, j)
  {
  }

  // ---- one push ----

  lemma PhaseStep(t: nat, d: nat)
    requires d >= 2
    ensures Phase(t + 1, d) == if Phase(t, d) == d - 1 then 0 else Phase(t, d) + 1
  {
    var q, k := t / d, t % d;
    assert t == d * q + k;
    if k == d - 1 {
      MulSpread(d, q);
      DivModUnique(t + 1, d, q + 1, 0);
    } else {
      DivModUnique(t + 1, d, q, k + 1);
    }
  }

  /** The next packet of a group extends its sum. */
  lemma Extend(st: Stream, p: int, stride: nat, k: nat, size: nat)
    requires st.HasGroup(p, stride, k) && st.Has(p + Mul(k, stride))
    ensures st.HasGroup(p, stride, k + 1)
    ensures GroupSum(st, p, stride, k + 1, size)
         == XorVec(GroupSum(st, p, stride, k, size), Pack(st.sent[p + Mul(k, stride)], size))
  {
  }

  /** A column fills with this packet. */
  predicate ColumnFull(cfg: MatrixConfig, rows: nat)
    requires cfg.rows > 0
  {
    Phase(rows, cfg.rows) == cfg.rows - 1
  }

  /** The column packet due after packet c of row `rows`, if any. */
  function ColumnDue(st: Stream, cfg: MatrixConfig, size: nat, rows: nat, c: nat): seq<Emission>
    requires cfg.rows > 0
    requires ColumnFull(cfg, rows) ==> st.HasGroup(Mul(rows - (cfg.rows - 1), cfg.cols) + c, cfg.cols, cfg.rows)
  {
    if ColumnFull(cfg, rows) then
      [Emission(Column, FecOf(st, Mul(rows - (cfg.rows - 1), cfg.cols) + c, cfg.cols, cfg.rows, size, cfg.variant))]
    else []
  }

  /** From e to r packet c of row `rows` has joined column c, and `out` is what that
      completes. */
  predicate ColumnStepped(st: Stream, e: Encoder, rows: nat, c: nat, r: Encoder, out: seq<Emission>)
    requires e.cfg.rows > 0 && c < |e.cols|
    requires ColumnFull(e.cfg, rows) ==> st.HasGroup(Mul(rows - (e.cfg.rows - 1), e.cfg.cols) + c, e.cfg.cols, e.cfg.rows)
  {
    && |r.cols| == |e.cols| && r == e.(cols := r.cols) && r.Valid()
    && (forall j :: 0 <= j < |e.cols| && j != c ==> r.cols[j] == e.cols[j])
    && ColumnOk(st, r, rows, c + 1, c)
    && out == ColumnDue(st, e.cfg, e.size, rows, c)
  }

  lemma ColumnStep(st: Stream, e: Encoder, rows: nat, c: nat)
    requires e.Valid() && c < e.cfg.cols && ColumnOk(st, e, rows, c, c)
    requires st.Has(Mul(rows, e.cfg.cols) + c)
    ensures ColumnFull(e.cfg, rows) ==>
      st.HasGroup(Mul(rows - (e.cfg.rows - 1), e.cfg.cols) + c, e.cfg.cols, e.cfg.rows)
    ensures var n := Mul(rows, e.cfg.cols) + c;
      var (r, out) := IntoColumn(e, c, st.Key(n), st.sent[n]);
      ColumnStepped(st, e, rows, c, r, out)
  {
    hide MatrixConfig.Valid, MatrixConfig.Matrix, Pack, GroupSum, Stream.Key, Distance, Mul, Stream.HasGroup,
         XorVec, ColumnStart, ColumnFull, Taken, Zero, Plus, IntoColumn, Phase;
    ConfigShape(e.cfg);
    ColumnPlace(e.cfg, rows, c);
    var (L, D, p) := (e.cfg.cols, e.cfg.rows, ColumnStart(e.cfg, rows, c, c));
    var (n, k) := (Mul(rows, L) + c, Phase(Taken(rows, c, c), D));
    Extend(st, p, L, k, e.size);
    KeyDistance(st, p, n);
    JoinColumn(e, c, st.Key(n), st.sent[n]);
    if k == D - 1 {
      KeyShift(st, p, e.cfg.Matrix());
      EmptyGroup(st, p + e.cfg.Matrix(), L, e.size);
    }
  }

  /** A packet of the group in hand joins it, and the group starts again if that fills
      it. */
  lemma JoinColumn(e: Encoder, c: nat, s: u32, m: Media)
    requires e.Valid() && c < |e.cols| && Distance(e.cols[c].base, s) < e.cfg.Matrix()
    ensures var (r, out) := IntoColumn(e, c, s, m);
      var g := Clip(e.cols[c], m, e.size);
      && |r.cols| == |e.cols| && r == e.(cols := r.cols) && r.Valid()
      && (forall j :: 0 <= j < |e.cols| && j != c ==> r.cols[j] == e.cols[j])
      && r.cols[c] == (if g.collected >= e.cfg.rows then Start(Plus(g.base, e.cfg.Matrix()), e.size) else g)
      && out == (if g.collected >= e.cfg.rows then [Emit(e.cfg, g, Column)] else [])
  {
    hide MatrixConfig.Valid, MatrixConfig.Matrix, Pack, Distance, XorVec, Plus;
  }

  /** Where packet c of row `rows` falls in the group its column is at. */
  lemma ColumnPlace(cfg: MatrixConfig, rows: nat, c: nat)
    requires cfg.Valid()
    ensures var (L, D) := (cfg.cols, cfg.rows);
      var (p, k) := (ColumnStart(cfg, rows, c, c), Phase(Taken(rows, c, c), D));
      && 0 <= p == Mul(rows - k, L) + c && p + Mul(k, L) == Mul(rows, L) + c
      && 0 <= Mul(k, L) < cfg.Matrix()
      && (ColumnFull(cfg, rows) <==> k == D - 1)
      && ColumnStart(cfg, rows, c + 1, c) == (if k == D - 1 then p + cfg.Matrix() else p)
      && Phase(Taken(rows, c + 1, c), D) == (if k == D - 1 then 0 else k + 1)
  {
    hide Mul, MatrixConfig.Matrix, MatrixConfig.Valid, Phase;
    ConfigShape(cfg);
    var (L, D) := (cfg.cols, cfg.rows);
    var k := Phase(rows, D);
    MatrixSpan(cfg, k);
    MulSub(rows, k, L);
    MulMono(0, rows - k, L);
    PhaseStep(rows, D);
    if k == D - 1 { MulSub(rows + 1, D, L); }
  }

  lemma ConfigShape(cfg: MatrixConfig)
    requires cfg.Valid()
    ensures cfg.cols >= 1 && cfg.rows >= 4 && cfg.cols <= 1020 && cfg.Matrix() <= 6000 && Mul(cfg.rows, cfg.cols) == cfg.Matrix()
  {
    WindowBound(cfg);
    MulIs(cfg.rows, cfg.cols);
  }

  lemma MatrixSpan(cfg: MatrixConfig, k: nat)
    requires cfg.Valid() && k < cfg.rows
    ensures 0 <= Mul(k, cfg.cols) < cfg.Matrix() <= 6000
  {
    hide Mul, MatrixConfig.Matrix;
    ConfigShape(cfg);
    MulMono(0, k, cfg.cols);
    MulMono(k + 1, cfg.rows, cfg.cols);
    MulStep(k, cfg.cols);
  }

  lemma EmptyGroup(st: Stream, p: int, stride: nat, size: nat)
    requires p >= 0
    ensures st.HasGroup(p, stride, 0) && GroupSum(st, p, stride, 0, size) == Zero(3 + size)
  {
  }

  /** The row packet due after packet c of row `rows`, if any. */
  function RowDue(st: Stream, cfg: MatrixConfig, size: nat, rows: nat, c: nat): seq<Emission>
    requires c + 1 == cfg.cols ==> st.HasGroup(Mul(rows, cfg.cols), 1, cfg.cols)
  {
    if c + 1 == cfg.cols && !cfg.columnOnly then
      [Emission(Row, FecOf(st, Mul(rows, cfg.cols), 1, cfg.cols, size, cfg.variant))]
    else []
  }

  /** Where packet c of row `rows` leaves the count. */
  function NextPlace(cfg: MatrixConfig, rows: nat, c: nat): (nat, nat) {
    if c + 1 == cfg.cols then (rows + 1, 0) else (rows, c + 1)
  }

  predicate Complete(st: Stream, cfg: MatrixConfig, rows: nat, c: nat)
    requires cfg.rows > 0
  {
    && (ColumnFull(cfg, rows) ==> st.HasGroup(Mul(rows - (cfg.rows - 1), cfg.cols) + c, cfg.cols, cfg.rows))
    && (c + 1 == cfg.cols ==> st.HasGroup(Mul(rows, cfg.cols), 1, cfg.cols))
  }

  lemma ColumnIgnoresRow(st: Stream, e: Encoder, r: Encoder, rows: nat, c: nat, rows': nat, c': nat, j: nat)
    requires e.cfg.rows > 0 && j < |e.cols| == |r.cols| && r.cfg == e.cfg && r.size == e.size && r.cols[j] == e.cols[j]
    requires Taken(rows, c, j) == Taken(rows', c', j)
    ensures ColumnOk(st, e, rows, c, j) == ColumnOk(st, r, rows', c', j)
  {
  }

  /** The row takes the packet in. */
  lemma RowStep(st: Stream, e: Encoder, rows: nat, c: nat)
    requires Standing(st, e, rows, c) && st.Has(Mul(rows, e.cfg.cols) + c)
    ensures var (p, n) := (Mul(rows, e.cfg.cols), Mul(rows, e.cfg.cols) + c);
      && st.HasGroup(p, 1, c + 1)
      && Clip(e.row, st.sent[n], e.size) == Group(st.Key(p), c + 1, GroupSum(st, p, 1, c + 1, e.size))
  {
    hide MatrixConfig.Valid, MatrixConfig.Matrix, Pack, GroupSum, Stream.Key, Mul, XorVec, ColumnOk, Stream.HasGroup;
    MulOne(c);
    Extend(st, Mul(rows, e.cfg.cols), 1, c, e.size);
  }

  /** What a push does to a standing encoder: the packet joins the row and column c, and
      the row is put out if that fills it. */
  lemma PushUnfold(st: Stream, e: Encoder, rows: nat, c: nat)
    requires Standing(st, e, rows, c) && st.Has(Mul(rows, e.cfg.cols) + c)
    ensures var n := Mul(rows, e.cfg.cols) + c;
      var e1 := e.(row := Clip(e.row, st.sent[n], e.size));
      && e1.Valid()
      && var (e2, out) := IntoColumn(e1, c, st.Key(n), st.sent[n]);
         && e2.row == e1.row
         && Push(e, st.Key(n), st.sent[n]) ==
              if c + 1 == e.cfg.cols
              then (NextRow(e2), if e.cfg.columnOnly then out else out + [Emit(e.cfg, e2.row, Row)])
              else (e2, out)
  {
    hide MatrixConfig.Valid, MatrixConfig.Matrix, Pack, GroupSum, Stream.Key, Distance, Mul, XorVec, ColumnOk,
         Stream.HasGroup, Plus;
    ConfigShape(e.cfg);
    KeyDistance(st, Mul(rows, e.cfg.cols), Mul(rows, e.cfg.cols) + c);
  }

  /** The columns after a push: column c has moved on, the others have not. */
  lemma ColumnsStep(st: Stream, e: Encoder, r: Encoder, rows: nat, c: nat)
    requires Standing(st, e, rows, c) && r.cfg == e.cfg && r.size == e.size && |r.cols| == |e.cols|
    requires ColumnOk(st, r, rows, c + 1, c) && forall j :: 0 <= j < |e.cols| && j != c ==> r.cols[j] == e.cols[j]
    ensures var (rows', c') := NextPlace(e.cfg, rows, c);
      forall j :: 0 <= j < e.cfg.cols ==> ColumnOk(st, r, rows', c', j)
  {
    hide MatrixConfig.Valid, ColumnOk, Stream.HasGroup, GroupSum, Mul, Stream.Key;
    var (rows', c') := NextPlace(e.cfg, rows, c);
    ConfigShape(e.cfg);
    forall j | 0 <= j < e.cfg.cols ensures ColumnOk(st, r, rows', c', j) {
      if j == c {
        ColumnIgnoresRow(st, r, r, rows, c + 1, rows', c', j);
      } else {
        ColumnIgnoresRow(st, e, r, rows, c, rows', c', j);
      }
    }
  }

  /** The next packet of a contiguous stream keeps the sums exact, and puts out
      exactly the packets of the groups it completes. */
  lemma PushStep(st: Stream, e: Encoder, rows: nat, c: nat)
    requires Standing(st, e, rows, c) && st.Has(Mul(rows, e.cfg.cols) + c)
    ensures Complete(st, e.cfg, rows, c)
    ensures var n := Mul(rows, e.cfg.cols) + c;
      var (r, out) := Push(e, st.Key(n), st.sent[n]);
      && r.cfg == e.cfg && r.size == e.size
      && Standing(st, r, NextPlace(e.cfg, rows, c).0, NextPlace(e.cfg, rows, c).1)
      && out == ColumnDue(st, e.cfg, e.size, rows, c) + RowDue(st, e.cfg, e.size, rows, c)
  {
    hide MatrixConfig.Valid, MatrixConfig.Matrix, Pack, GroupSum, Stream.Key, Distance, Mul, XorVec, IntoColumn,
         ColumnOk, ColumnDue, Stream.HasGroup, Plus, ColumnStart, ColumnFull, Zero, Push, Clip;
    ConfigShape(e.cfg);
    var (L, p) := (e.cfg.cols, Mul(rows, e.cfg.cols));
    var n := p + c;
    var e1 := e.(row := Clip(e.row, st.sent[n], e.size));
    RowStep(st, e, rows, c);
    PushUnfold(st, e, rows, c);
    ColumnIgnoresRow(st, e, e1, rows, c, rows, c, c);
    ColumnStep(st, e1, rows, c);
    var (e2, _) := IntoColumn(e1, c, st.Key(n), st.sent[n]);
    var (r, _) := Push(e, st.Key(n), st.sent[n]);
    ColumnIgnoresRow(st, e2, r, rows, c + 1, rows, c + 1, c);
    ColumnsStep(st, e, r, rows, c);
    if c + 1 == L {
      MulStep(rows, L);
      MulMono(0, rows, L);
      KeyShift(st, p, L);
      EmptyGroup(st, p + L, 1, e.size);
    }
  }

  // ---- whole streams ----

  /** Packet n's row and its place in the row. */
  function Place(cfg: MatrixConfig, n: nat): (nat, nat) {
    if n == 0 then (0, 0) else
    var (rows, c) := Place(cfg, n - 1);
    NextPlace(cfg, rows, c)
  }

  lemma {:induction false} PlaceIs(cfg: MatrixConfig, n: nat)
    requires cfg.cols >= 1
    ensures Place(cfg, n).0 == n / cfg.cols && Place(cfg, n).1 == n % cfg.cols
    ensures Mul(Place(cfg, n).0, cfg.cols) + Place(cfg, n).1 == n && Place(cfg, n).1 < cfg.cols
  {
    hide Mul;
    if n == 0 {
      MulStep(0, cfg.cols);
      DivModUnique(0, cfg.cols, 0, 0);
    } else {
      PlaceIs(cfg, n - 1);
      var (rows, c) := Place(cfg, n - 1);
      MulStep(rows, cfg.cols);
      var (q, r) := Place(cfg, n);
      MulIs(q, cfg.cols);
      DivModUnique(n, cfg.cols, q, r);
    }
  }

  /** The encoder after the first n packets of the stream. */
  function After(st: Stream, cfg: MatrixConfig, size: nat, n: nat): (e: Encoder)
    requires cfg.Valid() && n <= |st.sent|
    ensures e.cfg == cfg && e.size == size && e.Valid() && Standing(st, e, Place(cfg, n).0, Place(cfg, n).1)
  {
    if n == 0 then
      NewStanding(st, cfg, size);
      NewEncoder(cfg, size, st.isn)
    else
      var e := After(st, cfg, size, n - 1);
      Stands(st, e, n - 1);
      Push(e, st.Key(n - 1), st.sent[n - 1]).0
  }

  lemma Stands(st: Stream, e: Encoder, n: nat)
    requires Standing(st, e, Place(e.cfg, n).0, Place(e.cfg, n).1) && n < |st.sent|
    ensures var (rows, c) := Place(e.cfg, n);
      && Complete(st, e.cfg, rows, c)
      && var (r, out) := Push(e, st.Key(n), st.sent[n]);
         && r.cfg == e.cfg && r.size == e.size && r.Valid()
         && Standing(st, r, Place(e.cfg, n + 1).0, Place(e.cfg, n + 1).1)
         && out == ColumnDue(st, e.cfg, e.size, rows, c) + RowDue(st, e.cfg, e.size, rows, c)
  {
    hide Push, ColumnDue, RowDue, MatrixConfig.Matrix, Mul, Stream.HasGroup, GroupSum, Stream.Key, ColumnOk;
    PlaceIs(e.cfg, n);
    PushStep(st, e, Place(e.cfg, n).0, Place(e.cfg, n).1);
  }

  /** What packet n puts out. */
  function Emitted(st: Stream, cfg: MatrixConfig, size: nat, n: nat): seq<Emission>
    requires cfg.Valid() && n < |st.sent|
  {
    Push(After(st, cfg, size, n), st.Key(n), st.sent[n]).1
  }

  /** Packet n puts out its column's packet exactly when it is the last of D in its
      column, and its row's packet exactly when it is the last of L in its row. */
  lemma EmitsOnSchedule(st: Stream, cfg: MatrixConfig, size: nat, n: nat)
    requires cfg.Valid() && n < |st.sent|
    ensures Place(cfg, n).0 == n / cfg.cols && Place(cfg, n).1 == n % cfg.cols
    ensures Complete(st, cfg, Place(cfg, n).0, Place(cfg, n).1)
    ensures Emitted(st, cfg, size, n)
         == ColumnDue(st, cfg, size, Place(cfg, n).0, Place(cfg, n).1) + RowDue(st, cfg, size, Place(cfg, n).0, Place(cfg, n).1)
  {
    hide Push, Standing, ColumnDue, RowDue, MatrixConfig.Matrix, Place, After, Mul;
    PlaceIs(cfg, n);
    Stands(st, After(st, cfg, size, n), n);
  }

  /** Every packet put out is the packet of a whole group of the stream, ending with
      the packet just pushed, of a geometry the decoder accepts. */
  lemma EmitsGenuine(st: Stream, cfg: MatrixConfig, size: nat, n: nat, i: nat) returns (b: int, stride: nat, count: nat)
    requires cfg.Valid() && n < |st.sent| && i < |Emitted(st, cfg, size, n)|
    ensures cfg.GeometryOk(stride, count) && st.HasGroup(b, stride, count)
    ensures Emitted(st, cfg, size, n)[i].packet == FecOf(st, b, stride, count, size, cfg.variant)
    ensures b + Mul(count - 1, stride) == n
  {
    hide Push, Standing, FecOf, Stream.HasGroup, Mul, MatrixConfig.Matrix, Emitted, Place;
    EmitsOnSchedule(st, cfg, size, n);
    PlaceIs(cfg, n);
    var (rows, c) := Place(cfg, n);
    if ColumnFull(cfg, rows) && i == 0 {
      b, stride, count := Mul(rows - (cfg.rows - 1), cfg.cols) + c, cfg.cols, cfg.rows;
      MulSub(rows, cfg.rows - 1, cfg.cols);
    } else {
      b, stride, count := Mul(rows, cfg.cols), 1, cfg.cols;
      MulOne(cfg.cols - 1);
    }
  }
}
