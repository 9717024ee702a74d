/**
 What `compile_grafana_dashboard` (grafana/compiler.py) emits, read off its
 panels' `gridPos`: the exact cover of the grid, and the rows of every role.
 */
module Dashboard {
  import opened Arithmetic
  import opened Layout
  import opened Lists
  import opened Options
  import opened Tiling

  // ----- what a grid row looks like

  /** The height a panel asks for: its own, or its visualisation's. */
  function WantedHeight(p: Panel): int {
    if p.height.Some? then p.height.value else DefaultHeight(p.viz)
  }

  /**
   The tiles show these panels side by side in one full row: left to right,
   24 columns shared out to within one with the wider panels first, all as high
   as the highest of them wants to be.
   */
  ghost predicate IsGridRow(ts: seq<Tile>, ps: seq<Panel>) {
    var m := |ps|;
    && |ts| == m && 1 <= m <= 24
    && (forall j :: 0 <= j < m ==>
          && ts[j].content == Card(ps[j]) && ts[j].y == ts[0].y && ts[j].h == ts[0].h
          && ts[j].w == 24 / m + (if j < 24 % m then 1 else 0)
          && ts[j].x == j * (24 / m) + (if j < 24 % m then j else 24 % m)
          && WantedHeight(ps[j]) <= ts[0].h)
    && (exists j :: 0 <= j < m && WantedHeight(ps[j]) == ts[0].h)
  }

  /** The `q`-th stretch of `c` elements; the last one may be shorter. */
  function Block<T>(s: seq<T>, q: nat, c: nat): (b: seq<T>)
    ensures q * c < |s| && c > 0 ==> b != []
  {
    s[Clip(s, q * c)..Clip(s, q * c + c)]
  }

  /** The stretch after the `q`-th, if there is one, stands right below it. */
  ghost predicate RowBelow(ts: seq<Tile>, q: nat, c: nat)
    requires c > 0
  {
    (q + 1) * c < |ts| ==>
      assert (q + 1) * c == q * c + c;
      Block(ts, q + 1, c)[0].y == Block(ts, q, c)[0].y + Block(ts, q, c)[0].h
  }

  /** The tiles show the group in rows of `c`, one below the other, the last one perhaps shorter. */
  ghost predicate RowsOf(ts: seq<Tile>, group: seq<Panel>, c: nat) {
    && |ts| == |group| && c > 0
    && (forall q: nat :: q * c < |group| ==> IsGridRow(Block(ts, q, c), Block(group, q, c)))
    && (forall q: nat :: RowBelow(ts, q, c))
  }

  /** A section of `n` panels, at most `max` in a row: rows of ceil(n / ceil(n / max)). */
  ghost predicate LaidOut(ts: seq<Tile>, group: seq<Panel>, max: nat)
    requires max > 0
  {
    var n := |group|;
    var rows := (n + max - 1) / max;
    if n == 0 then ts == [] else rows > 0 && RowsOf(ts, group, (n + rows - 1) / rows)
  }

  /** The cards of a role, in the order in which they are emitted. */
  function CardsOfRole(tiles: seq<Tile>, role: Role): seq<Tile> {
    Filter(tiles, (t: Tile) => t.content.Card? && t.content.panel.role == role)
  }

  /** The header of a role, when it has panels. */
  function HeaderIf(panels: seq<Panel>, role: Role, title: string): seq<string> {
    if exists p :: p in panels && p.role == role then [title] else []
  }

  // ----- the compiler

  /** The panels and the final `y` of `compile_grafana_dashboard`. */
  method Compile(panels: seq<Panel>) returns (tiles: seq<Tile>, y: nat)
    ensures Tiles(tiles, 0, 24, 0, y)
    ensures forall i :: 0 <= i < |tiles| ==> tiles[i].id == i + 1
    ensures InRoleOrder(Cards(tiles)) && forall role :: Group(Cards(tiles), role) == Group(panels, role)
    ensures multiset(Cards(tiles)) == multiset(panels)
    ensures LaidOut(CardsOfRole(tiles, Kpi), Group(panels, Kpi), 4)
    ensures LaidOut(CardsOfRole(tiles, Trend), Group(panels, Trend), 2)
    ensures LaidOut(CardsOfRole(tiles, Breakdown), Group(panels, Breakdown), 3)
    ensures LaidOut(CardsOfRole(tiles, Detail), Group(panels, Detail), 1)
    ensures Headers(tiles) == if exists p, q :: p in panels && q in panels && p.role != q.role
                              then HeaderIf(panels, Kpi, "Key Metrics") + HeaderIf(panels, Trend, "Trends")
                                   + HeaderIf(panels, Breakdown, "Breakdowns") + HeaderIf(panels, Detail, "Detail")
                              else []
    ensures Headers(tiles) != [] ==> UnderOwnHeader(tiles, None)
  {
    var use := UseSections(panels);
    var sections := PlanSections(panels, use);
    PlanFull(panels, ROLE_ORDER, use);
    tiles, y := PlaceSections(sections);
    SectionsTile(sections, 0, 1);
    SectionsNumbered(sections, 0, 1);
    SectionsContent(sections, 0, 1);
    PlanContent(panels, ROLE_ORDER, use);
    CardsConserved(panels);
    RoleLaidOut(panels, Kpi, use);
    RoleLaidOut(panels, Trend, use);
    RoleLaidOut(panels, Breakdown, use);
    RoleLaidOut(panels, Detail, use);
    LabelsExactly(panels);
    UseSectionsExactly(panels);
    if use {
      PlanOwnRoles(panels, ROLE_ORDER);
      HeadersLead(sections, 0, 1, None);
    }
  }

  lemma UseSectionsExactly(panels: seq<Panel>)
    ensures UseSections(panels) <==> exists p, q :: p in panels && q in panels && p.role != q.role
  {
    var roles := set p | p in panels :: p.role;
    if p, q :| p in panels && q in panels && p.role != q.role {
      assert {p.role, q.role} <= roles;
      SubsetSize({p.role, q.role}, roles);
    } else if roles != {} {
      var r :| r in roles;
      assert roles == {r};
    }
  }

  lemma SubsetSize(a: set<Role>, b: set<Role>)
    requires a <= b
    ensures |a| <= |b|
  {
    assert b == a + (b - a);
  }

  /** The header of one role, before those of the roles after it. */
  lemma LabelsFirst(panels: seq<Panel>, role: Role, later: seq<Role>, title: string)
    requires title == SectionLabel(role)
    ensures Labels(panels, [role] + later) == HeaderIf(panels, role, title) + Labels(panels, later)
  {
    GroupMembers(panels, role);
    assert ([role] + later)[1..] == later;
  }

  lemma LabelsExactly(panels: seq<Panel>)
    ensures Labels(panels, ROLE_ORDER)
            == HeaderIf(panels, Kpi, "Key Metrics") + HeaderIf(panels, Trend, "Trends")
               + HeaderIf(panels, Breakdown, "Breakdowns") + HeaderIf(panels, Detail, "Detail")
  {
    LabelsOf(panels, Kpi, Trend, Breakdown, Detail, "Key Metrics", "Trends", "Breakdowns", "Detail");
  }

  lemma LabelsOf(panels: seq<Panel>, r1: Role, r2: Role, r3: Role, r4: Role,
                 t1: string, t2: string, t3: string, t4: string)
    requires t1 == SectionLabel(r1) && t2 == SectionLabel(r2) && t3 == SectionLabel(r3) && t4 == SectionLabel(r4)
    ensures Labels(panels, [r1, r2, r3, r4])
            == HeaderIf(panels, r1, t1) + HeaderIf(panels, r2, t2) + HeaderIf(panels, r3, t3) + HeaderIf(panels, r4, t4)
  {
    assert [r1, r2, r3, r4] == [r1] + ([r2] + ([r3] + ([r4] + [])));
    LabelsFirst(panels, r1, [r2] + ([r3] + ([r4] + [])), t1);
    LabelsFirst(panels, r2, [r3] + ([r4] + []), t2);
    LabelsFirst(panels, r3, [r4] + [], t3);
    LabelsFirst(panels, r4, [], t4);
    FourParts(HeaderIf(panels, r1, t1), HeaderIf(panels, r2, t2), HeaderIf(panels, r3, t3), HeaderIf(panels, r4, t4));
  }

  lemma FourParts<T>(a: seq<T>, b: seq<T>, c: seq<T>, d: seq<T>)
    ensures a + (b + (c + (d + []))) == a + b + c + d
  {
  }

  // ----- one row

  lemma {:induction false} SumSnoc(ws: seq<nat>, w: nat)
    ensures Sum(ws + [w]) == Sum(ws) + w
  {
    if ws == [] {
      assert ws + [w] == [w];
    } else {
      SumSnoc(ws[1..], w);
      assert (ws + [w])[1..] == ws[1..] + [w];
    }
  }

  lemma {:induction false} RowTilesAt(row: Row, x: nat, y: nat, id: nat, j: nat)
    requires j < |row|
    ensures |RowTiles(row, x, y, id)| == |row|
    ensures RowTiles(row, x, y, id)[j]
            == Tile(id + j, Card(row[j].panel), x + Sum(RowWidths(row)[..j]), y, row[j].w, row[j].h)
  {
    RowTilesShape(row, x, y, id);
    if j > 0 {
      RowTilesAt(row[1..], x + row[0].w, y, id + 1, j - 1);
      assert RowWidths(row)[..j][1..] == RowWidths(row[1..])[..j - 1];
    }
  }

  lemma {:induction false} WidthsBefore(n: nat, base: nat, rem: nat, j: nat)
    requires j <= n
    ensures Sum(Widths(n, base, rem)[..j]) == j * base + if j < rem then j else rem
  {
    var ws := Widths(n, base, rem);
    if j > 0 {
      WidthsBefore(n, base, rem, j - 1);
      assert ws[..j] == ws[..j - 1] + [ws[j - 1]];
      SumSnoc(ws[..j - 1], ws[j - 1]);
      assert j * base == (j - 1) * base + base;
    }
  }

  lemma PlanRowGrid(chunk: seq<Panel>, y: nat, id: nat)
    requires 1 <= |chunk| <= 24
    ensures IsGridRow(RowTiles(PlanRow(chunk), 0, y, id), chunk)
    ensures var first := RowTiles(PlanRow(chunk), 0, y, id)[0]; first.y == y && first.h == PlanRow(chunk)[0].h
  {
    var row, m := PlanRow(chunk), |chunk|;
    var ts := RowTiles(row, 0, y, id);
    RowTilesShape(row, 0, y, id);
    MaxHeightIs(chunk);
    assert forall p :: WantedHeight(p) == PanelHeight(p);
    assert RowWidths(row) == DistributeWidths(m) == Widths(m, 24 / m, 24 % m);
    forall j | 0 <= j < m
      ensures ts[j].content == Card(chunk[j]) && ts[j].y == y && ts[j].h == MaxHeight(chunk)
      ensures ts[j].w == 24 / m + (if j < 24 % m then 1 else 0)
      ensures ts[j].x == j * (24 / m) + (if j < 24 % m then j else 24 % m)
    {
      RowTilesAt(row, 0, y, id, j);
      WidthsBefore(m, 24 / m, 24 % m, j);
    }
  }

  // ----- the rows of a section

  lemma BlockOfShort<T>(s: seq<T>, q: nat, c: nat)
    requires s != [] && |s| <= c && q * c < |s|
    ensures q == 0 && Block(s, q, c) == s
  {
    if q > 0 {
      MulLe(1, q, c);
    }
  }

  lemma BlockFirst<T>(a: seq<T>, rest: seq<T>, c: nat)
    requires |a| == c
    ensures Block(a + rest, 0, c) == a
  {
  }

  lemma BlockNext<T>(a: seq<T>, rest: seq<T>, q: nat, c: nat)
    requires |a| == c
    ensures Block(a + rest, q + 1, c) == Block(rest, q, c)
  {
    assert (q + 1) * c == q * c + c;
  }

  lemma RowsStart(rows: seq<Row>, y: nat, id: nat)
    requires FullRows(rows) && rows != []
    ensures RowsTiles(rows, y, id) != [] && RowsTiles(rows, y, id)[0].y == y
  {
    RowTilesShape(rows[0], 0, y, id);
  }

  lemma RowsAboveNext(first: seq<Tile>, rest: seq<Tile>, a: seq<Panel>, b: seq<Panel>, q: nat, c: nat)
    requires |first| == |a| == c && IsGridRow(Block(rest, q, c), Block(b, q, c))
    ensures IsGridRow(Block(first + rest, q + 1, c), Block(a + b, q + 1, c))
  {
    BlockNext(first, rest, q, c);
    BlockNext(a, b, q, c);
  }

  lemma OneLess(q: nat, c: nat, n: nat)
    requires q > 0 && q * c < c + n
    ensures (q - 1) * c < n
  {
    assert (q - 1) * c == q * c - c;
  }

  lemma RowsAbove(first: seq<Tile>, rest: seq<Tile>, a: seq<Panel>, b: seq<Panel>, q: nat, c: nat)
    requires |a| == c && IsGridRow(first, a) && RowsOf(rest, b, c) && q * c < |a + b|
    ensures IsGridRow(Block(first + rest, q, c), Block(a + b, q, c))
  {
    if q == 0 {
      BlockFirst(first, rest, c);
      BlockFirst(a, b, c);
    } else {
      OneLess(q, c, |b|);
      RowsAboveNext(first, rest, a, b, q - 1, c);
    }
  }

  lemma NextBelow(first: seq<Tile>, rest: seq<Tile>, q: nat, c: nat)
    requires |first| == c > 0 && rest != [] && rest[0].y == first[0].y + first[0].h
    requires q > 0 ==> RowBelow(rest, q - 1, c)
    ensures RowBelow(first + rest, q, c)
  {
    BlockNext(first, rest, q, c);
    assert (q + 1) * c == q * c + c;
    if q == 0 {
      BlockFirst(first, rest, c);
      assert Block(rest, 0, c)[0] == rest[0];
    } else {
      BlockNext(first, rest, q - 1, c);
      assert (q - 1 + 1) * c == q * c;
    }
  }

  /** A first full row above rows of the same length. */
  lemma RowAbove(first: seq<Tile>, rest: seq<Tile>, a: seq<Panel>, b: seq<Panel>, c: nat)
    requires |a| == c && IsGridRow(first, a) && b != [] && RowsOf(rest, b, c)
    requires rest[0].y == first[0].y + first[0].h
    ensures RowsOf(first + rest, a + b, c)
  {
    forall q: nat | q * c < |a + b| ensures IsGridRow(Block(first + rest, q, c), Block(a + b, q, c)) {
      RowsAbove(first, rest, a, b, q, c);
    }
    forall q: nat ensures RowBelow(first + rest, q, c) {
      NextBelow(first, rest, q, c);
    }
  }

  lemma OneRow(ts: seq<Tile>, group: seq<Panel>, c: nat)
    requires IsGridRow(ts, group) && |group| <= c
    ensures RowsOf(ts, group, c)
  {
    forall q: nat | q * c < |group| ensures IsGridRow(Block(ts, q, c), Block(group, q, c)) {
      BlockOfShort(ts, q, c);
      BlockOfShort(group, q, c);
    }
    forall q: nat ensures RowBelow(ts, q, c) {
      MulLe(1, q + 1, c);
    }
  }

  /** A full row placed on top of rows of the same length. */
  lemma RowOnTop(row: Row, rest: seq<Row>, first: seq<Panel>, later: seq<Panel>, c: nat, y: nat, id: nat)
    requires FullRows([row] + rest) && FullRows(rest) && row != [] && rest != [] && later != [] && |first| == c
    requires var ts := RowTiles(row, 0, y, id); IsGridRow(ts, first) && ts[0].y == y && ts[0].h == row[0].h
    requires RowsOf(RowsTiles(rest, y + row[0].h, id + |row|), later, c)
    ensures RowsOf(RowsTiles([row] + rest, y, id), first + later, c)
  {
    assert ([row] + rest)[0] == row && ([row] + rest)[1..] == rest;
    RowsStart(rest, y + row[0].h, id + |row|);
    RowAbove(RowTiles(row, 0, y, id), RowsTiles(rest, y + row[0].h, id + |row|), first, later, c);
  }

  lemma ShortGrid(group: seq<Panel>, c: nat, y: nat, id: nat)
    requires group != [] && |group| <= c <= 24 && FullRows(PlanRows(group, c))
    ensures RowsOf(RowsTiles(PlanRows(group, c), y, id), group, c)
  {
    var rows := PlanRows(group, c);
    PlanRowGrid(group, y, id);
    assert rows[1..] == [];
    OneRow(RowTiles(rows[0], 0, y, id), group, c);
    assert RowsTiles(rows, y, id) == RowTiles(rows[0], 0, y, id);
  }

  lemma LongGrid(group: seq<Panel>, c: nat, y: nat, id: nat)
    requires 1 <= c <= 24 && |group| > c && FullRows(PlanRows(group, c)) && FullRows(PlanRows(group[c..], c))
    requires RowsOf(RowsTiles(PlanRows(group[c..], c), y + PlanRow(group[..c])[0].h, id + c), group[c..], c)
    ensures RowsOf(RowsTiles(PlanRows(group, c), y, id), group, c)
  {
    var first, later := group[..c], group[c..];
    PlanRowGrid(first, y, id);
    RowOnTop(PlanRow(first), PlanRows(later, c), first, later, c, y, id);
    assert group == first + later;
  }

  lemma {:induction false} PlanRowsGrid(group: seq<Panel>, c: nat, y: nat, id: nat)
    requires group != [] && 1 <= c <= 24 && FullRows(PlanRows(group, c))
    ensures RowsOf(RowsTiles(PlanRows(group, c), y, id), group, c)
    decreases |group|
  {
    if |group| <= c {
      ShortGrid(group, c, y, id);
    } else {
      assert PlanRows(group[c..], c) == PlanRows(group, c)[1..];
      PlanRowsGrid(group[c..], c, y + PlanRow(group[..c])[0].h, id + c);
      LongGrid(group, c, y, id);
    }
  }

  // ----- the section of a role

  lemma CardsOfRoleConcat(a: seq<Tile>, b: seq<Tile>, role: Role)
    ensures CardsOfRole(a + b, role) == CardsOfRole(a, role) + CardsOfRole(b, role)
  {
    FilterConcat(a, b, (t: Tile) => t.content.Card? && t.content.panel.role == role);
  }

  lemma CardsOfOneRole(cards: seq<Tile>, own: Role, role: Role)
    requires CardsOf(cards, own)
    ensures CardsOfRole(cards, role) == if own == role then cards else []
  {
    if own == role {
      FilterAll(cards, (t: Tile) => t.content.Card? && t.content.panel.role == role);
    } else {
      FilterNone(cards, (t: Tile) => t.content.Card? && t.content.panel.role == role);
    }
  }

  lemma HeaderCards(s: Section, y: nat, id: nat, role: Role)
    ensures CardsOfRole(HeaderTiles(s, y, id), role) == []
  {
    FilterNone(HeaderTiles(s, y, id), (t: Tile) => t.content.Card? && t.content.panel.role == role);
  }

  lemma RowsCards(rows: seq<Row>, own: Role, y: nat, id: nat, role: Role)
    requires FullRows(rows) && forall p :: p in RowsPanels(rows) ==> p.role == own
    ensures CardsOfRole(RowsTiles(rows, y, id), role) == if own == role then RowsTiles(rows, y, id) else []
  {
    RowsTilesShape(rows, y, id);
    OnlyCards(RowsTiles(rows, y, id), own);
    CardsOfOneRole(RowsTiles(rows, y, id), own, role);
  }

  /** Of a section, the cards of its own role are all but the header, and of others there are none. */
  lemma SectionCards(s: Section, y: nat, id: nat, role: Role)
    requires FullRows(s.rows) && forall p :: p in RowsPanels(s.rows) ==> p.role == s.role
    ensures CardsOfRole(SectionTiles(s, y, id), role)
            == if s.role == role then RowsTiles(s.rows, y + HeaderCount(s), id + HeaderCount(s)) else []
  {
    var n := HeaderCount(s);
    HeaderCards(s, y, id, role);
    RowsCards(s.rows, s.role, y + n, id + n, role);
    CardsOfRoleConcat(HeaderTiles(s, y, id), RowsTiles(s.rows, y + n, id + n), role);
  }

  lemma PlanSectionOwn(panels: seq<Panel>, role: Role, use: bool)
    requires Group(panels, role) != []
    ensures var s := PlanSection(panels, role, use);
            FullRows(s.rows) && s.role == role && forall p :: p in RowsPanels(s.rows) ==> p.role == role
  {
    SectionRows(panels, role, use);
    GroupMembers(panels, role);
  }

  /** What the sections after the first one emit. */
  ghost function RestTiles(sections: seq<Section>, y: nat, id: nat): seq<Tile>
    requires FullSections(sections) && sections != []
  {
    SectionsTiles(sections[1..], y + SectionHeight(sections[0]), id + |SectionTiles(sections[0], y, id)|)
  }

  /** What the first section emits for its own role. */
  ghost function OwnTiles(s: Section, y: nat, id: nat): seq<Tile>
    requires FullRows(s.rows)
  {
    RowsTiles(s.rows, y + HeaderCount(s), id + HeaderCount(s))
  }

  lemma SectionInFront(sections: seq<Section>, y: nat, id: nat, role: Role)
    requires FullSections(sections) && sections != []
    requires forall p :: p in RowsPanels(sections[0].rows) ==> p.role == sections[0].role
    ensures CardsOfRole(SectionsTiles(sections, y, id), role)
            == (if sections[0].role == role then OwnTiles(sections[0], y, id) else [])
               + CardsOfRole(RestTiles(sections, y, id), role)
  {
    SectionCards(sections[0], y, id, role);
    CardsOfRoleConcat(SectionTiles(sections[0], y, id), RestTiles(sections, y, id), role);
  }

  /** Every section holds only panels of its own role, and no two have the same. */
  ghost predicate OneEach(sections: seq<Section>) {
    && (forall k, p :: 0 <= k < |sections| && p in RowsPanels(sections[k].rows) ==> p.role == sections[k].role)
    && (forall j, k :: 0 <= j < k < |sections| ==> sections[j].role != sections[k].role)
  }

  lemma OneEachTail(sections: seq<Section>)
    requires FullSections(sections) && OneEach(sections) && sections != []
    ensures FullSections(sections[1..]) && OneEach(sections[1..])
    ensures forall k :: 0 <= k < |sections[1..]| ==> sections[1..][k].role != sections[0].role
  {
  }

  lemma LaterSection(sections: seq<Section>, y: nat, id: nat, role: Role)
    requires FullSections(sections) && OneEach(sections) && sections != [] && sections[0].role != role
    ensures CardsOfRole(SectionsTiles(sections, y, id), role) == CardsOfRole(RestTiles(sections, y, id), role)
  {
    SectionInFront(sections, y, id, role);
  }

  lemma {:induction false} SectionsWithout(sections: seq<Section>, y: nat, id: nat, role: Role)
    requires FullSections(sections) && OneEach(sections)
    requires forall k :: 0 <= k < |sections| ==> sections[k].role != role
    ensures CardsOfRole(SectionsTiles(sections, y, id), role) == []
  {
    if sections != [] {
      OneEachTail(sections);
      LaterSection(sections, y, id, role);
      var ym, idm := y + SectionHeight(sections[0]), id + |SectionTiles(sections[0], y, id)|;
      SectionsWithout(sections[1..], ym, idm, role);
    }
  }

  lemma FirstSection(sections: seq<Section>, y: nat, id: nat)
    requires FullSections(sections) && OneEach(sections) && sections != []
    ensures CardsOfRole(SectionsTiles(sections, y, id), sections[0].role) == OwnTiles(sections[0], y, id)
  {
    OneEachTail(sections);
    SectionInFront(sections, y, id, sections[0].role);
    var ym, idm := y + SectionHeight(sections[0]), id + |SectionTiles(sections[0], y, id)|;
    SectionsWithout(sections[1..], ym, idm, sections[0].role);
  }

  /** A role's cards are the rows of its section. */
  lemma {:induction false} SectionsWith(sections: seq<Section>, y: nat, id: nat, k: nat) returns (y': nat, id': nat)
    requires FullSections(sections) && OneEach(sections) && k < |sections|
    ensures CardsOfRole(SectionsTiles(sections, y, id), sections[k].role) == OwnTiles(sections[k], y', id')
  {
    if k == 0 {
      y', id' := y, id;
      FirstSection(sections, y, id);
    } else {
      OneEachTail(sections);
      LaterSection(sections, y, id, sections[k].role);
      var ym, idm := y + SectionHeight(sections[0]), id + |SectionTiles(sections[0], y, id)|;
      y', id' := SectionsWith(sections[1..], ym, idm, k - 1);
    }
  }

  lemma OneEachFirst(s: Section, later: seq<Section>)
    requires OneEach(later) && forall p :: p in RowsPanels(s.rows) ==> p.role == s.role
    requires forall k :: 0 <= k < |later| ==> later[k].role != s.role
    ensures OneEach([s] + later)
  {
  }

  lemma {:induction false} PlanOneEach(panels: seq<Panel>, roles: seq<Role>, use: bool)
    requires RolesAscend(roles)
    ensures var plan := Plan(panels, roles, use);
            && OneEach(plan)
            && forall k :: 0 <= k < |plan| ==>
                 && plan[k].role in roles && Group(panels, plan[k].role) != []
                 && plan[k] == PlanSection(panels, plan[k].role, use)
  {
    if roles != [] {
      PlanOneEach(panels, roles[1..], use);
      assert roles == [roles[0]] + roles[1..] && roles[0] !in roles[1..];
      if Group(panels, roles[0]) != [] {
        PlanSectionOwn(panels, roles[0], use);
        OneEachFirst(PlanSection(panels, roles[0], use), Plan(panels, roles[1..], use));
      }
    }
  }

  lemma {:induction false} PlanHas(panels: seq<Panel>, roles: seq<Role>, use: bool, role: Role) returns (k: nat)
    requires role in roles && Group(panels, role) != []
    ensures k < |Plan(panels, roles, use)| && Plan(panels, roles, use)[k] == PlanSection(panels, role, use)
  {
    assert roles == [roles[0]] + roles[1..];
    if roles[0] == role {
      k := 0;
    } else {
      k := PlanHas(panels, roles[1..], use, role);
      if Group(panels, roles[0]) != [] {
        k := k + 1;
      }
    }
  }

  lemma LaidOutByCols(ts: seq<Tile>, group: seq<Panel>, role: Role)
    requires group != [] && RowsOf(ts, group, ColsFor(role, |group|))
    ensures LaidOut(ts, group, RoleMaxCols(role))
  {
    CeilDivIs(|group|, RoleMaxCols(role));
  }

  lemma RowsLaidOut(group: seq<Panel>, role: Role, y: nat, id: nat)
    requires group != [] && FullRows(PlanRows(group, ColsFor(role, |group|)))
    ensures LaidOut(RowsTiles(PlanRows(group, ColsFor(role, |group|)), y, id), group, RoleMaxCols(role))
  {
    ColsForOptimal(role, |group|);
    PlanRowsGrid(group, ColsFor(role, |group|), y, id);
    LaidOutByCols(RowsTiles(PlanRows(group, ColsFor(role, |group|)), y, id), group, role);
  }

  lemma SectionLaidOut(panels: seq<Panel>, role: Role, use: bool, y: nat, id: nat)
    requires Group(panels, role) != []
    ensures var s := PlanSection(panels, role, use);
            FullRows(s.rows) && LaidOut(OwnTiles(s, y, id), Group(panels, role), RoleMaxCols(role))
  {
    var n := HeaderCount(PlanSection(panels, role, use));
    PlanSectionOwn(panels, role, use);
    RowsLaidOut(Group(panels, role), role, y + n, id + n);
  }

  lemma PresentLaidOut(panels: seq<Panel>, role: Role, use: bool)
    requires FullSections(Plan(panels, ROLE_ORDER, use)) && Group(panels, role) != []
    ensures LaidOut(CardsOfRole(SectionsTiles(Plan(panels, ROLE_ORDER, use), 0, 1), role), Group(panels, role),
                    RoleMaxCols(role))
  {
    var plan := Plan(panels, ROLE_ORDER, use);
    RoleOrderComplete();
    PlanOneEach(panels, ROLE_ORDER, use);
    var k := PlanHas(panels, ROLE_ORDER, use, role);
    var y, id := SectionsWith(plan, 0, 1, k);
    SectionLaidOut(panels, role, use, y, id);
  }

  /** The cards of every role stand in the rows `_cols_for` asks for. */
  lemma RoleLaidOut(panels: seq<Panel>, role: Role, use: bool)
    requires FullSections(Plan(panels, ROLE_ORDER, use))
    ensures LaidOut(CardsOfRole(SectionsTiles(Plan(panels, ROLE_ORDER, use), 0, 1), role), Group(panels, role),
                    RoleMaxCols(role))
  {
    if Group(panels, role) == [] {
      RoleOrderComplete();
      PlanOneEach(panels, ROLE_ORDER, use);
      SectionsWithout(Plan(panels, ROLE_ORDER, use), 0, 1, role);
    } else {
      PresentLaidOut(panels, role, use);
    }
  }
}
