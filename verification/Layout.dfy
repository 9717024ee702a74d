/**
 The gap-free dashboard layout of grafana/compiler.py: `_distribute_widths`,
 `_cols_for`, `plan_sections` and the placement loop of
 `compile_grafana_dashboard`.
 */
module Layout {
  import opened Arithmetic
  import opened Lists
  import opened Options

  datatype Role = Kpi | Trend | Breakdown | Detail

  datatype Viz =
    | Stat | Gauge | Bargauge | TimeseriesLine | TimeseriesArea | TimeseriesBar
    | BarchartVertical | BarchartHorizontal | Piechart | Histogram | Heatmap
    | StateTimeline | StatusHistory | Table

  /** A height override the panel schema accepts. */
  type GridHeight = h: int | 3 <= h <= 24 witness 3

  datatype Panel = Panel(title: string, role: Role, viz: Viz, height: Option<GridHeight>)

  const ROLE_ORDER: seq<Role> := [Kpi, Trend, Breakdown, Detail]
  const GRID_WIDTH := 24

  function RoleRank(role: Role): nat {
    match role
    case Kpi => 0
    case Trend => 1
    case Breakdown => 2
    case Detail => 3
  }

  function RoleMaxCols(role: Role): (m: nat)
    ensures 1 <= m <= 4
  {
    match role
    case Kpi => 4
    case Trend => 2
    case Breakdown => 3
    case Detail => 1
  }

  function SectionLabel(role: Role): string {
    match role
    case Kpi => "Key Metrics"
    case Trend => "Trends"
    case Breakdown => "Breakdowns"
    case Detail => "Detail"
  }

  function DefaultHeight(viz: Viz): GridHeight {
    match viz
    case Stat => 4
    case Gauge => 6
    case Bargauge => 6
    case BarchartHorizontal => 10
    case StateTimeline => 6
    case StatusHistory => 4
    case Table => 10
    case _ => 8
  }

  function PanelHeight(p: Panel): GridHeight {
    match p.height
    case Some(h) => h
    case None => DefaultHeight(p.viz)
  }

  // ----- columns and widths

  /** `_cols_for`. */
  function ColsFor(role: Role, n: nat): (c: nat)
    requires n > 0
    ensures c > 0
  {
    CeilDivIs(n, RoleMaxCols(role));
    var rows := CeilDiv(n, RoleMaxCols(role));
    CeilDivIs(n, rows);
    CeilDiv(n, rows)
  }

  /** `_distribute_widths`. */
  function DistributeWidths(n: nat): (ws: seq<nat>)
    requires n > 0
    ensures |ws| == n
  {
    Widths(n, GRID_WIDTH / n, GRID_WIDTH % n)
  }

  /** `[base + (1 if i < rem else 0) for i in range(n)]`. */
  function Widths(n: nat, base: nat, rem: nat): (ws: seq<nat>)
    ensures |ws| == n
  {
    seq(n, i => base + if i < rem then 1 else 0)
  }

  function Sum(ws: seq<nat>): nat {
    if ws == [] then 0 else ws[0] + Sum(ws[1..])
  }

  /**
   The column count never exceeds the role's maximum, and breaking a section
   into rows of that many columns needs no more rows than the maximum would.
   */
  lemma ColsForOptimal(role: Role, n: nat)
    requires n > 0
    ensures 1 <= ColsFor(role, n) <= RoleMaxCols(role)
    ensures CeilDiv(n, ColsFor(role, n)) == CeilDiv(n, RoleMaxCols(role))
  {
    CeilOfCeil(n, RoleMaxCols(role));
  }

  lemma OneMoreRow(total: nat, size: nat, m: nat)
    requires m > 0 && size <= m
    ensures CeilDiv(total + size, m) <= CeilDiv(total, m) + 1
  {
    var q := CeilDiv(total, m);
    CeilDivIs(total, m);
    assert (q + 1) * m == q * m + m;
    CeilDivLeast(total + size, m, q + 1);
  }

  /** No way of filling rows of at most `m` panels uses fewer rows. */
  lemma {:induction false} FewestRows(sizes: seq<nat>, m: nat)
    requires m > 0 && forall i :: 0 <= i < |sizes| ==> sizes[i] <= m
    ensures CeilDiv(Sum(sizes), m) <= |sizes|
  {
    if sizes == [] {
      CeilDivUnique(0, m, 0);
    } else {
      FewestRows(sizes[1..], m);
      OneMoreRow(Sum(sizes[1..]), sizes[0], m);
    }
  }

  lemma {:induction false} SumOfTail(n: nat, base: nat, rem: nat, k: nat)
    requires k <= n && rem <= n
    ensures Sum(Widths(n, base, rem)[k..]) == (n - k) * base + if k < rem then rem - k else 0
    decreases n - k
  {
    var ws := Widths(n, base, rem);
    if k < n {
      assert ws[k..][1..] == ws[k + 1..];
      SumOfTail(n, base, rem, k + 1);
      assert (n - k) * base == (n - (k + 1)) * base + base;
    }
  }

  lemma QuotientPositive(a: nat, n: nat)
    requires 0 < n <= a
    ensures a / n >= 1
  {
  }

  /** The widths fill the grid exactly and differ by at most one, the wider ones first. */
  lemma DistributeWidthsExact(n: nat)
    requires n > 0
    ensures Sum(DistributeWidths(n)) == GRID_WIDTH
    ensures forall i, j :: 0 <= i <= j < n ==>
              DistributeWidths(n)[j] <= DistributeWidths(n)[i] <= DistributeWidths(n)[j] + 1
    ensures n <= GRID_WIDTH ==> forall i :: 0 <= i < n ==> DistributeWidths(n)[i] >= 1
  {
    var base, rem := GRID_WIDTH / n, GRID_WIDTH % n;
    SumOfTail(n, base, rem, 0);
    assert Widths(n, base, rem)[0..] == Widths(n, base, rem);
    assert n * base + rem == GRID_WIDTH;
    if n <= GRID_WIDTH {
      QuotientPositive(GRID_WIDTH, n);
    }
  }

  // ----- the plan

  datatype Placed = Placed(panel: Panel, w: nat, h: nat)
  type Row = seq<Placed>
  datatype Section = Section(role: Role, title: Option<string>, rows: seq<Row>)

  /** `[p for p in panels if p.role == role]`. */
  function Group(panels: seq<Panel>, role: Role): seq<Panel> {
    Filter(panels, (p: Panel) => p.role == role)
  }

  function MaxHeight(chunk: seq<Panel>): GridHeight
    requires chunk != []
  {
    var h := PanelHeight(chunk[0]);
    if |chunk| == 1 then h
    else
      var rest := MaxHeight(chunk[1..]);
      if h > rest then h else rest
  }

  /** `zip(chunk, widths)`, all with the chunk's height. */
  function Place(chunk: seq<Panel>, widths: seq<nat>, h: nat): (row: Row)
    requires |widths| == |chunk|
    ensures |row| == |chunk|
  {
    seq(|chunk|, i requires 0 <= i < |chunk| => Placed(chunk[i], widths[i], h))
  }

  function PlanRow(chunk: seq<Panel>): (row: Row)
    requires chunk != []
    ensures |row| == |chunk|
  {
    Place(chunk, DistributeWidths(|chunk|), MaxHeight(chunk))
  }

  function PlanRows(group: seq<Panel>, cols: nat): (rows: seq<Row>)
    requires cols > 0
    ensures forall k :: 0 <= k < |rows| ==> rows[k] != []
  {
    if group == [] then []
    else if |group| <= cols then [PlanRow(group)]
    else [PlanRow(group[..cols])] + PlanRows(group[cols..], cols)
  }

  function PlanSection(panels: seq<Panel>, role: Role, useSections: bool): Section
    requires Group(panels, role) != []
  {
    Section(role, if useSections then Some(SectionLabel(role)) else None,
            PlanRows(Group(panels, role), ColsFor(role, |Group(panels, role)|)))
  }

  function Plan(panels: seq<Panel>, roles: seq<Role>, useSections: bool): seq<Section> {
    if roles == [] then []
    else
      var rest := Plan(panels, roles[1..], useSections);
      if Group(panels, roles[0]) == [] then rest else [PlanSection(panels, roles[0], useSections)] + rest
  }

  lemma RowsFrom(group: seq<Panel>, i: nat, cols: nat)
    requires i < |group| && cols > 0
    ensures PlanRows(group[i..], cols)
            == [PlanRow(group[i..Clip(group, i + cols)])] + PlanRows(group[Clip(group, i + cols)..], cols)
  {
    var rest := group[i..];
    if |rest| <= cols {
      assert group[i..Clip(group, i + cols)] == rest && group[Clip(group, i + cols)..] == [];
    } else {
      assert group[i..i + cols] == rest[..cols] && group[i + cols..] == rest[cols..];
    }
  }

  /** The inner loop of `plan_sections`: one row for each slice of `cols` panels. */
  method FillRows(group: seq<Panel>, cols: nat) returns (rows: seq<Row>)
    requires cols > 0
    ensures rows == PlanRows(group, cols)
  {
    rows := [];
    var i := 0;
    while i < |group|
      invariant 0 <= i
      invariant rows + PlanRows(group[Clip(group, i)..], cols) == PlanRows(group, cols)
    {
      var row := PlanRow(group[i..Clip(group, i + cols)]);
      RowsFrom(group, i, cols);
      Shift(rows, [row], PlanRows(group[Clip(group, i + cols)..], cols));
      rows := rows + [row];
      i := i + cols;
    }
  }

  lemma PlanFrom(panels: seq<Panel>, r: nat, useSections: bool)
    requires r < |ROLE_ORDER|
    ensures Plan(panels, ROLE_ORDER[r..], useSections)
            == (if Group(panels, ROLE_ORDER[r]) == [] then [] else [PlanSection(panels, ROLE_ORDER[r], useSections)])
               + Plan(panels, ROLE_ORDER[r + 1..], useSections)
  {
    assert ROLE_ORDER[r..][0] == ROLE_ORDER[r] && ROLE_ORDER[r..][1..] == ROLE_ORDER[r + 1..];
  }

  /** `plan_sections`. */
  method PlanSections(panels: seq<Panel>, useSections: bool) returns (sections: seq<Section>)
    ensures sections == Plan(panels, ROLE_ORDER, useSections)
  {
    sections := [];
    var r := 0;
    while r < |ROLE_ORDER|
      invariant 0 <= r <= |ROLE_ORDER|
      invariant sections + Plan(panels, ROLE_ORDER[r..], useSections) == Plan(panels, ROLE_ORDER, useSections)
    {
      var role := ROLE_ORDER[r];
      PlanFrom(panels, r, useSections);
      r := r + 1;
      var group := Group(panels, role);
      if group == [] {
        continue;
      }
      var rows := FillRows(group, ColsFor(role, |group|));
      var section := Section(role, if useSections then Some(SectionLabel(role)) else None, rows);
      Shift(sections, [section], Plan(panels, ROLE_ORDER[r..], useSections));
      sections := sections + [section];
    }
  }

  /** A grid row is non-empty, fills the 24 columns exactly and has one height. */
  ghost predicate FullRow(row: Row) {
    && row != []
    && Sum(RowWidths(row)) == GRID_WIDTH
    && forall k :: 0 <= k < |row| ==> row[k].w >= 1 && row[k].h == row[0].h >= 1
  }

  function RowWidths(row: Row): seq<nat> {
    seq(|row|, k requires 0 <= k < |row| => row[k].w)
  }

  function RowPanels(row: Row): seq<Panel> {
    seq(|row|, k requires 0 <= k < |row| => row[k].panel)
  }

  function RowsPanels(rows: seq<Row>): seq<Panel> {
    if rows == [] then [] else RowPanels(rows[0]) + RowsPanels(rows[1..])
  }

  /** The row's height is the largest its panels ask for. */
  ghost predicate TallEnough(row: Row) {
    && (forall k :: 0 <= k < |row| ==> PanelHeight(row[k].panel) <= row[k].h)
    && (exists k :: 0 <= k < |row| && PanelHeight(row[k].panel) == row[k].h)
  }

  lemma {:induction false} MaxHeightIs(chunk: seq<Panel>)
    requires chunk != []
    ensures forall k :: 0 <= k < |chunk| ==> PanelHeight(chunk[k]) <= MaxHeight(chunk)
    ensures exists k :: 0 <= k < |chunk| && PanelHeight(chunk[k]) == MaxHeight(chunk)
  {
    if |chunk| == 1 || MaxHeight(chunk) == PanelHeight(chunk[0]) {
      assert PanelHeight(chunk[0]) == MaxHeight(chunk);
    }
    if |chunk| > 1 {
      MaxHeightIs(chunk[1..]);
      var k :| 0 <= k < |chunk[1..]| && PanelHeight(chunk[1..][k]) == MaxHeight(chunk[1..]);
      assert PanelHeight(chunk[k + 1]) == MaxHeight(chunk[1..]);
      assert forall i :: 1 <= i < |chunk| ==> chunk[i] == chunk[1..][i - 1];
    }
  }

  lemma PlanRowTall(chunk: seq<Panel>)
    requires chunk != []
    ensures TallEnough(PlanRow(chunk))
  {
    MaxHeightIs(chunk);
    var row := PlanRow(chunk);
    var k :| 0 <= k < |chunk| && PanelHeight(chunk[k]) == MaxHeight(chunk);
    assert PanelHeight(row[k].panel) == row[k].h;
  }

  /** No panel of a section is cut off, and no row is taller than one of its panels needs. */
  lemma {:induction false} PlanRowsTall(group: seq<Panel>, cols: nat)
    requires cols > 0
    ensures forall k :: 0 <= k < |PlanRows(group, cols)| ==> TallEnough(PlanRows(group, cols)[k])
    decreases |group|
  {
    if group == [] {
    } else if |group| <= cols {
      PlanRowTall(group);
    } else {
      PlanRowTall(group[..cols]);
      PlanRowsTall(group[cols..], cols);
    }
  }

  lemma PlaceFull(chunk: seq<Panel>, widths: seq<nat>, h: nat)
    requires |widths| == |chunk| > 0 && h >= 1
    requires Sum(widths) == GRID_WIDTH && forall i :: 0 <= i < |widths| ==> widths[i] >= 1
    ensures FullRow(Place(chunk, widths, h)) && RowPanels(Place(chunk, widths, h)) == chunk
  {
    assert RowWidths(Place(chunk, widths, h)) == widths;
  }

  lemma PlanRowFull(chunk: seq<Panel>)
    requires 0 < |chunk| <= GRID_WIDTH
    ensures FullRow(PlanRow(chunk)) && RowPanels(PlanRow(chunk)) == chunk
  {
    DistributeWidthsExact(|chunk|);
    PlaceFull(chunk, DistributeWidths(|chunk|), MaxHeight(chunk));
  }

  /** Slicing by `cols` makes full rows and leaves no panel out. */
  lemma {:induction false} PlanRowsFull(group: seq<Panel>, cols: nat)
    requires 0 < cols <= GRID_WIDTH
    ensures forall k :: 0 <= k < |PlanRows(group, cols)| ==> FullRow(PlanRows(group, cols)[k])
    ensures RowsPanels(PlanRows(group, cols)) == group
    decreases |group|
  {
    if group == [] {
    } else if |group| <= cols {
      PlanRowFull(group);
      assert RowsPanels([PlanRow(group)]) == group + RowsPanels([]);
    } else {
      PlanRowFull(group[..cols]);
      PlanRowsFull(group[cols..], cols);
      assert group == group[..cols] + group[cols..];
    }
  }

  /** Every row but the last holds `cols` panels, and the last holds at least one. */
  lemma {:induction false} PlanRowsSizes(group: seq<Panel>, cols: nat)
    requires cols > 0
    ensures var rows := PlanRows(group, cols);
            && (forall k :: 0 <= k < |rows| - 1 ==> |rows[k]| == cols)
            && (rows != [] ==> 0 < |rows[|rows| - 1]| <= cols)
    decreases |group|
  {
    if |group| > cols {
      PlanRowsSizes(group[cols..], cols);
    }
  }

  /** Only the last row has places to spare. */
  lemma {:induction false} PlanRowsPlaces(group: seq<Panel>, cols: nat)
    requires cols > 0 && group != []
    ensures var rows := PlanRows(group, cols);
            rows != [] && |rows| * cols == |group| + cols - |rows[|rows| - 1]|
    decreases |group|
  {
    if |group| > cols {
      PlanRowsPlaces(group[cols..], cols);
      var n := |PlanRows(group[cols..], cols)|;
      assert (n + 1) * cols == n * cols + cols;
    }
  }

  lemma {:induction false} PlanRowsWidth(group: seq<Panel>, cols: nat)
    requires cols > 0
    ensures forall k :: 0 <= k < |PlanRows(group, cols)| ==> |PlanRows(group, cols)[k]| <= cols
    decreases |group|
  {
    if |group| > cols {
      PlanRowsWidth(group[cols..], cols);
    }
  }

  lemma PlanRowsCount(group: seq<Panel>, cols: nat)
    requires cols > 0
    ensures |PlanRows(group, cols)| == CeilDiv(|group|, cols)
  {
    if group == [] {
      CeilDivUnique(0, cols, 0);
    } else {
      PlanRowsSizes(group, cols);
      PlanRowsPlaces(group, cols);
      CeilDivUnique(|group|, cols, |PlanRows(group, cols)|);
    }
  }

  /** A section of `n` panels takes the fewest rows its role allows. */
  lemma SectionRowCount(panels: seq<Panel>, role: Role, useSections: bool)
    requires Group(panels, role) != []
    ensures var rows := PlanSection(panels, role, useSections).rows;
            && |rows| == CeilDiv(|Group(panels, role)|, RoleMaxCols(role))
            && forall k :: 0 <= k < |rows| ==> |rows[k]| <= RoleMaxCols(role)
  {
    var group := Group(panels, role);
    var cols := ColsFor(role, |group|);
    ColsForOptimal(role, |group|);
    PlanRowsCount(group, cols);
    PlanRowsWidth(group, cols);
  }

  /** The rows of a section are full and hold its panels in order. */
  lemma SectionRows(panels: seq<Panel>, role: Role, useSections: bool)
    requires Group(panels, role) != []
    ensures var rows := PlanSection(panels, role, useSections).rows;
            && (forall k :: 0 <= k < |rows| ==> FullRow(rows[k]))
            && RowsPanels(rows) == Group(panels, role)
  {
    ColsForOptimal(role, |Group(panels, role)|);
    PlanRowsFull(Group(panels, role), ColsFor(role, |Group(panels, role)|));
  }

  /** Row lengths differ by at most one. */
  ghost predicate Balanced(rows: seq<Row>) {
    forall i, j :: 0 <= i < |rows| && 0 <= j < |rows| ==> |rows[i]| <= |rows[j]| + 1
  }

  lemma BalancedRows(group: seq<Panel>, cols: nat, count: nat)
    requires group != [] && cols > 0 && count == |PlanRows(group, cols)|
    requires count == 1 ==> cols == |group|
    ensures Balanced(PlanRows(group, cols)) <==> count * cols <= |group| + 1
  {
    PlanRowsSizes(group, cols);
    PlanRowsPlaces(group, cols);
    if count > 1 {
      assert |PlanRows(group, cols)[0]| == cols;
    }
  }

  lemma SingleRowCols(role: Role, n: nat)
    requires n > 0 && CeilDiv(n, RoleMaxCols(role)) == 1
    ensures ColsFor(role, n) == n
  {
    CeilDivUnique(n, 1, n);
  }

  /**
   The columns are not always balanced across rows: the last row takes all of
   the shortfall, so balance holds exactly when at most one place stays empty.
   */
  lemma BalancedExactly(group: seq<Panel>, role: Role)
    requires group != []
    ensures Balanced(PlanRows(group, ColsFor(role, |group|)))
            <==> CeilDiv(|group|, RoleMaxCols(role)) * ColsFor(role, |group|) <= |group| + 1
  {
    var cols, count := ColsFor(role, |group|), CeilDiv(|group|, RoleMaxCols(role));
    ColsForOptimal(role, |group|);
    PlanRowsCount(group, cols);
    if count == 1 {
      SingleRowCols(role, |group|);
    }
    BalancedRows(group, cols, count);
  }

  /** The section sizes for which balance fails. */
  predicate Unbalanced(role: Role, n: nat) {
    match role
    case Kpi => n >= 10 && (n % 4 == 1 || n % 4 == 2)
    case Breakdown => n >= 7 && n % 3 == 1
    case Trend => false
    case Detail => false
  }

  lemma SparePlaces(role: Role, n: nat)
    requires n > 0
    ensures CeilDiv(n, RoleMaxCols(role)) * ColsFor(role, n) > n + 1 <==> Unbalanced(role, n)
  {
    if UsesMaximum(role, n) {
      FullCols(role, n);
      FullRowsSpare(role, n);
    } else {
      SmallSectionSpare(role, n);
    }
  }

  predicate UsesMaximum(role: Role, n: nat) {
    match role
    case Kpi => n >= 10
    case Breakdown => n >= 5
    case Trend => n >= 2
    case Detail => true
  }

  lemma FullRowsSpare(role: Role, n: nat)
    requires n > 0 && UsesMaximum(role, n)
    ensures CeilDiv(n, RoleMaxCols(role)) * RoleMaxCols(role) > n + 1 <==> Unbalanced(role, n)
  {
  }

  lemma SmallSectionSpare(role: Role, n: nat)
    requires n > 0 && !UsesMaximum(role, n)
    ensures CeilDiv(n, RoleMaxCols(role)) * ColsFor(role, n) <= n + 1
  {
    var m, cols := RoleMaxCols(role), ColsFor(role, n);
    var rows := CeilDiv(n, m);
    CeilDivIs(n, m);
    CeilDivIs(n, rows);
    assert n <= rows * m < n + m && n <= cols * rows < n + rows;
    assert rows <= 3 && (rows == 3 ==> n == 9);
    assert rows * cols == cols * rows;
  }

  /** Large sections use as many columns as the role allows. */
  lemma FullCols(role: Role, n: nat)
    requires n > 0 && UsesMaximum(role, n)
    ensures ColsFor(role, n) == RoleMaxCols(role)
  {
    var m, cols := RoleMaxCols(role), ColsFor(role, n);
    var rows := CeilDiv(n, m);
    ColsForOptimal(role, n);
    CeilDivIs(n, rows);
    assert rows * (m - 1) < n;
    if cols <= m - 1 {
      MulLe(cols, m - 1, rows);
    }
  }

  /** In terms of the section size alone: only KPI and breakdown sections of some sizes are unbalanced. */
  lemma BalancedBySize(group: seq<Panel>, role: Role)
    requires group != []
    ensures Balanced(PlanRows(group, ColsFor(role, |group|))) <==> !Unbalanced(role, |group|)
  {
    BalancedExactly(group, role);
    SparePlaces(role, |group|);
  }

  /** Thirteen KPI panels are laid out 4, 4, 4 and 1. */
  lemma ThirteenKpisUnbalanced(group: seq<Panel>)
    requires |group| == 13
    ensures !Balanced(PlanRows(group, ColsFor(Kpi, 13)))
  {
    BalancedExactly(group, Kpi);
  }
}
