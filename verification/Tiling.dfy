/**
 The placement loop of `compile_grafana_dashboard` (grafana/compiler.py): every
 grid cell is covered by exactly one rectangle, and no panel is lost.
 */
module Tiling {
  import opened Layout
  import opened Lists
  import opened Options

  datatype Content = Header(title: string) | Card(panel: Panel)

  /** One emitted panel: its id, what it shows and its `gridPos`. */
  datatype Tile = Tile(id: nat, content: Content, x: nat, y: nat, w: nat, h: nat) {
    predicate Covers(cx: int, cy: int) {
      x <= cx < x + w && y <= cy < y + h
    }

    predicate Inside(x0: int, x1: int, y0: int, y1: int) {
      x0 <= x && x + w <= x1 && y0 <= y && y + h <= y1
    }
  }

  /** The tiles lie in the rectangle and cover each of its cells exactly once. */
  ghost predicate Tiles(ts: seq<Tile>, x0: int, x1: int, y0: int, y1: int) {
    && (forall i :: 0 <= i < |ts| ==> ts[i].Inside(x0, x1, y0, y1))
    && (forall cx, cy :: x0 <= cx < x1 && y0 <= cy < y1 ==> Covered(ts, cx, cy))
    && (forall i, j, cx, cy :: 0 <= i < j < |ts| && ts[i].Covers(cx, cy) ==> !ts[j].Covers(cx, cy))
  }

  ghost predicate Covered(ts: seq<Tile>, cx: int, cy: int) {
    exists i :: 0 <= i < |ts| && ts[i].Covers(cx, cy)
  }

  lemma CoveredConcat(a: seq<Tile>, b: seq<Tile>, cx: int, cy: int)
    requires Covered(a, cx, cy) || Covered(b, cx, cy)
    ensures Covered(a + b, cx, cy)
  {
    if Covered(a, cx, cy) {
      var i :| 0 <= i < |a| && a[i].Covers(cx, cy);
      assert (a + b)[i].Covers(cx, cy);
    } else {
      var i :| 0 <= i < |b| && b[i].Covers(cx, cy);
      assert (a + b)[|a| + i].Covers(cx, cy);
    }
  }

  /** A tiling above a tiling of the same width tiles the whole. */
  lemma TilesBelow(a: seq<Tile>, b: seq<Tile>, x0: int, x1: int, y0: int, ym: int, y1: int)
    requires y0 <= ym <= y1 && Tiles(a, x0, x1, y0, ym) && Tiles(b, x0, x1, ym, y1)
    ensures Tiles(a + b, x0, x1, y0, y1)
  {
    forall cx, cy | x0 <= cx < x1 && y0 <= cy < y1 ensures Covered(a + b, cx, cy) {
      assert if cy < ym then Covered(a, cx, cy) else Covered(b, cx, cy);
      CoveredConcat(a, b, cx, cy);
    }
  }

  /** A tiling left of a tiling of the same height tiles the whole. */
  lemma TilesBeside(a: seq<Tile>, b: seq<Tile>, x0: int, xm: int, x1: int, y0: int, y1: int)
    requires x0 <= xm <= x1 && Tiles(a, x0, xm, y0, y1) && Tiles(b, xm, x1, y0, y1)
    ensures Tiles(a + b, x0, x1, y0, y1)
  {
    forall cx, cy | x0 <= cx < x1 && y0 <= cy < y1 ensures Covered(a + b, cx, cy) {
      assert if cx < xm then Covered(a, cx, cy) else Covered(b, cx, cy);
      CoveredConcat(a, b, cx, cy);
    }
  }

  // ----- the loop

  function RowTiles(row: Row, x: nat, y: nat, id: nat): seq<Tile> {
    if row == [] then []
    else [Tile(id, Card(row[0].panel), x, y, row[0].w, row[0].h)] + RowTiles(row[1..], x + row[0].w, y, id + 1)
  }

  ghost predicate FullRows(rows: seq<Row>) {
    forall k :: 0 <= k < |rows| ==> FullRow(rows[k])
  }

  ghost predicate FullSections(sections: seq<Section>) {
    forall k :: 0 <= k < |sections| ==> FullRows(sections[k].rows)
  }

  ghost function RowsHeight(rows: seq<Row>): nat
    requires FullRows(rows)
  {
    if rows == [] then 0 else rows[0][0].h + RowsHeight(rows[1..])
  }

  ghost function RowsTiles(rows: seq<Row>, y: nat, id: nat): seq<Tile>
    requires FullRows(rows)
  {
    if rows == [] then []
    else RowTiles(rows[0], 0, y, id) + RowsTiles(rows[1..], y + rows[0][0].h, id + |rows[0]|)
  }

  function HeaderTiles(section: Section, y: nat, id: nat): seq<Tile> {
    match section.title
    case None => []
    case Some(title) => [Tile(id, Header(title), 0, y, GRID_WIDTH, 1)]
  }

  function HeaderCount(section: Section): nat {
    if section.title.Some? then 1 else 0
  }

  /** A section: its header row, when it has one, above its grid rows. */
  ghost function SectionTiles(s: Section, y: nat, id: nat): seq<Tile>
    requires FullRows(s.rows)
  {
    HeaderTiles(s, y, id) + RowsTiles(s.rows, y + HeaderCount(s), id + HeaderCount(s))
  }

  ghost function SectionHeight(s: Section): nat
    requires FullRows(s.rows)
  {
    HeaderCount(s) + RowsHeight(s.rows)
  }

  ghost function SectionsTiles(sections: seq<Section>, y: nat, id: nat): seq<Tile>
    requires FullSections(sections)
  {
    if sections == [] then []
    else
      SectionTiles(sections[0], y, id)
      + SectionsTiles(sections[1..], y + SectionHeight(sections[0]), id + |SectionTiles(sections[0], y, id)|)
  }

  ghost function SectionsHeight(sections: seq<Section>): nat
    requires FullSections(sections)
  {
    if sections == [] then 0 else SectionHeight(sections[0]) + SectionsHeight(sections[1..])
  }

  /** `_use_sections`. */
  predicate UseSections(panels: seq<Panel>) {
    |set p | p in panels :: p.role| >= 2
  }

  method PlaceRow(row: Row, y: nat, id: nat) returns (tiles: seq<Tile>)
    ensures tiles == RowTiles(row, 0, y, id)
  {
    tiles := [];
    var k, x: nat, pid: nat := 0, 0, id;
    while k < |row|
      invariant 0 <= k <= |row| && pid == id + k
      invariant tiles + RowTiles(row[k..], x, y, pid) == RowTiles(row, 0, y, id)
    {
      tiles := tiles + [Tile(pid, Card(row[k].panel), x, y, row[k].w, row[k].h)];
      pid := pid + 1;
      x := x + row[k].w;
      assert row[k..][1..] == row[k + 1..];
      k := k + 1;
    }
  }

  method PlaceRows(rows: seq<Row>, y0: nat, id: nat) returns (tiles: seq<Tile>, y: nat)
    requires FullRows(rows)
    ensures tiles == RowsTiles(rows, y0, id) && y == y0 + RowsHeight(rows)
  {
    tiles, y := [], y0;
    var k, pid: nat := 0, id;
    while k < |rows|
      invariant 0 <= k <= |rows|
      invariant tiles + RowsTiles(rows[k..], y, pid) == RowsTiles(rows, y0, id)
      invariant y + RowsHeight(rows[k..]) == y0 + RowsHeight(rows)
    {
      var height := rows[k][0].h;
      var placed := PlaceRow(rows[k], y, pid);
      tiles := tiles + placed;
      pid := pid + |rows[k]|;
      y := y + height;
      assert rows[k..][1..] == rows[k + 1..];
      k := k + 1;
    }
  }

  method PlaceSection(s: Section, y0: nat, id: nat) returns (tiles: seq<Tile>, y: nat)
    requires FullRows(s.rows)
    ensures tiles == SectionTiles(s, y0, id) && y == y0 + SectionHeight(s)
  {
    var pid: nat := id;
    tiles, y := [], y0;
    if s.title.Some? {
      tiles := [Tile(pid, Header(s.title.value), 0, y, GRID_WIDTH, 1)];
      pid := pid + 1;
      y := y + 1;
    }
    var placed;
    placed, y := PlaceRows(s.rows, y, pid);
    tiles := tiles + placed;
  }

  /** The outer loop of `compile_grafana_dashboard`. */
  method PlaceSections(sections: seq<Section>) returns (tiles: seq<Tile>, y: nat)
    requires FullSections(sections)
    ensures tiles == SectionsTiles(sections, 0, 1) && y == SectionsHeight(sections)
  {
    tiles, y := [], 0;
    var k, pid: nat := 0, 1;
    while k < |sections|
      invariant 0 <= k <= |sections|
      invariant tiles + SectionsTiles(sections[k..], y, pid) == SectionsTiles(sections, 0, 1)
      invariant y + SectionsHeight(sections[k..]) == SectionsHeight(sections)
    {
      assert sections[k..][1..] == sections[k + 1..];
      ghost var rest := SectionsTiles(
        sections[k + 1..], y + SectionHeight(sections[k]), pid + |SectionTiles(sections[k], y, pid)|);
      var placed;
      placed, y := PlaceSection(sections[k], y, pid);
      Shift(tiles, placed, rest);
      tiles := tiles + placed;
      pid := pid + |placed|;
      k := k + 1;
    }
  }

  // ----- tiling

  lemma {:induction false} RowTile(row: Row, x: nat, y: nat, id: nat, h: nat)
    requires h >= 1 && forall k :: 0 <= k < |row| ==> row[k].w >= 1 && row[k].h == h
    ensures Tiles(RowTiles(row, x, y, id), x, x + Sum(RowWidths(row)), y, y + h)
  {
    if row != [] {
      var first := Tile(id, Card(row[0].panel), x, y, row[0].w, row[0].h);
      assert RowWidths(row)[1..] == RowWidths(row[1..]);
      RowTile(row[1..], x + row[0].w, y, id + 1, h);
      SingleTile(first);
      TilesBeside([first], RowTiles(row[1..], x + row[0].w, y, id + 1),
                  x, x + row[0].w, x + Sum(RowWidths(row)), y, y + h);
    }
  }

  lemma SingleTile(t: Tile)
    ensures Tiles([t], t.x, t.x + t.w, t.y, t.y + t.h)
  {
    forall cx, cy | t.x <= cx < t.x + t.w && t.y <= cy < t.y + t.h ensures Covered([t], cx, cy) {
      assert [t][0].Covers(cx, cy);
    }
  }

  lemma {:induction false} RowsTile(rows: seq<Row>, y: nat, id: nat)
    requires FullRows(rows)
    ensures Tiles(RowsTiles(rows, y, id), 0, GRID_WIDTH, y, y + RowsHeight(rows))
  {
    if rows != [] {
      var h := rows[0][0].h;
      RowTile(rows[0], 0, y, id, h);
      RowsTile(rows[1..], y + h, id + |rows[0]|);
      TilesBelow(RowTiles(rows[0], 0, y, id), RowsTiles(rows[1..], y + h, id + |rows[0]|),
                  0, GRID_WIDTH, y, y + h, y + RowsHeight(rows));
    }
  }

  lemma SectionTile(s: Section, y: nat, id: nat)
    requires FullRows(s.rows)
    ensures Tiles(SectionTiles(s, y, id), 0, GRID_WIDTH, y, y + SectionHeight(s))
  {
    var n := HeaderCount(s);
    if s.title.Some? {
      SingleTile(HeaderTiles(s, y, id)[0]);
    }
    RowsTile(s.rows, y + n, id + n);
    TilesBelow(HeaderTiles(s, y, id), RowsTiles(s.rows, y + n, id + n),
                0, GRID_WIDTH, y, y + n, y + SectionHeight(s));
  }

  /** The whole dashboard has no gap and no overlap, header rows included. */
  lemma {:induction false} SectionsTile(sections: seq<Section>, y: nat, id: nat)
    requires FullSections(sections)
    ensures Tiles(SectionsTiles(sections, y, id), 0, GRID_WIDTH, y, y + SectionsHeight(sections))
  {
    if sections != [] {
      var ym, idm := y + SectionHeight(sections[0]), id + |SectionTiles(sections[0], y, id)|;
      SectionTile(sections[0], y, id);
      SectionsTile(sections[1..], ym, idm);
      TilesBelow(SectionTiles(sections[0], y, id), SectionsTiles(sections[1..], ym, idm),
                  0, GRID_WIDTH, y, ym, y + SectionsHeight(sections));
    }
  }

  // ----- ids, headers and the panels themselves

  function CardOf(t: Tile): seq<Panel> {
    match t.content
    case Card(p) => [p]
    case Header(_) => []
  }

  function HeaderOf(t: Tile): seq<string> {
    match t.content
    case Card(_) => []
    case Header(title) => [title]
  }

  /** The panels shown, section headers dropped. */
  function Cards(tiles: seq<Tile>): seq<Panel> {
    FlatMap(tiles, CardOf)
  }

  function Headers(tiles: seq<Tile>): seq<string> {
    FlatMap(tiles, HeaderOf)
  }

  lemma CardsConcat(a: seq<Tile>, b: seq<Tile>)
    ensures Cards(a + b) == Cards(a) + Cards(b)
  {
    FlatMapConcat(a, b, CardOf);
  }

  lemma HeadersConcat(a: seq<Tile>, b: seq<Tile>)
    ensures Headers(a + b) == Headers(a) + Headers(b)
  {
    FlatMapConcat(a, b, HeaderOf);
  }

  /** Ids run on from `id`. */
  ghost predicate Numbered(tiles: seq<Tile>, id: nat) {
    forall i :: 0 <= i < |tiles| ==> tiles[i].id == id + i
  }

  lemma NumberedConcat(a: seq<Tile>, b: seq<Tile>, id: nat)
    requires Numbered(a, id) && Numbered(b, id + |a|)
    ensures Numbered(a + b, id)
  {
  }

  lemma {:induction false} RowTilesShape(row: Row, x: nat, y: nat, id: nat)
    ensures |RowTiles(row, x, y, id)| == |row| && Numbered(RowTiles(row, x, y, id), id)
    ensures Cards(RowTiles(row, x, y, id)) == RowPanels(row) && Headers(RowTiles(row, x, y, id)) == []
  {
    if row != [] {
      RowTilesShape(row[1..], x + row[0].w, y, id + 1);
      assert RowPanels(row) == [row[0].panel] + RowPanels(row[1..]);
    }
  }

  lemma {:induction false} RowsTilesShape(rows: seq<Row>, y: nat, id: nat)
    requires FullRows(rows)
    ensures Numbered(RowsTiles(rows, y, id), id)
    ensures Cards(RowsTiles(rows, y, id)) == RowsPanels(rows) && Headers(RowsTiles(rows, y, id)) == []
  {
    if rows != [] {
      var h := rows[0][0].h;
      RowTilesShape(rows[0], 0, y, id);
      RowsTilesShape(rows[1..], y + h, id + |rows[0]|);
      CardsConcat(RowTiles(rows[0], 0, y, id), RowsTiles(rows[1..], y + h, id + |rows[0]|));
      HeadersConcat(RowTiles(rows[0], 0, y, id), RowsTiles(rows[1..], y + h, id + |rows[0]|));
    }
  }

  function TitleOf(s: Section): seq<string> {
    match s.title
    case Some(t) => [t]
    case None => []
  }

  lemma HeaderTilesShape(s: Section, y: nat, id: nat)
    ensures |HeaderTiles(s, y, id)| == HeaderCount(s) && Numbered(HeaderTiles(s, y, id), id)
    ensures Cards(HeaderTiles(s, y, id)) == [] && Headers(HeaderTiles(s, y, id)) == TitleOf(s)
  {
    if s.title.Some? {
      var t := HeaderTiles(s, y, id)[0];
      assert HeaderTiles(s, y, id)[1..] == [];
      assert FlatMap([t], CardOf) == CardOf(t) + [] && FlatMap([t], HeaderOf) == HeaderOf(t) + [];
    }
  }

  lemma SectionTilesNumbered(s: Section, y: nat, id: nat)
    requires FullRows(s.rows)
    ensures Numbered(SectionTiles(s, y, id), id)
  {
    var n := HeaderCount(s);
    HeaderTilesShape(s, y, id);
    RowsTilesShape(s.rows, y + n, id + n);
    NumberedConcat(HeaderTiles(s, y, id), RowsTiles(s.rows, y + n, id + n), id);
  }

  lemma SectionTilesContent(s: Section, y: nat, id: nat)
    requires FullRows(s.rows)
    ensures Cards(SectionTiles(s, y, id)) == RowsPanels(s.rows)
    ensures Headers(SectionTiles(s, y, id)) == TitleOf(s)
  {
    var n := HeaderCount(s);
    var head, body := HeaderTiles(s, y, id), RowsTiles(s.rows, y + n, id + n);
    HeaderTilesShape(s, y, id);
    RowsTilesShape(s.rows, y + n, id + n);
    CardsConcat(head, body);
    HeadersConcat(head, body);
    assert [] + RowsPanels(s.rows) == RowsPanels(s.rows);
    assert TitleOf(s) + [] == TitleOf(s);
  }

  function SectionsPanels(sections: seq<Section>): seq<Panel> {
    if sections == [] then [] else RowsPanels(sections[0].rows) + SectionsPanels(sections[1..])
  }

  function SectionsTitles(sections: seq<Section>): seq<string> {
    if sections == [] then [] else TitleOf(sections[0]) + SectionsTitles(sections[1..])
  }

  /** Panel ids are consecutive across rows and sections. */
  lemma {:induction false} SectionsNumbered(sections: seq<Section>, y: nat, id: nat)
    requires FullSections(sections)
    ensures Numbered(SectionsTiles(sections, y, id), id)
  {
    if sections != [] {
      var first := SectionTiles(sections[0], y, id);
      SectionTilesNumbered(sections[0], y, id);
      SectionsNumbered(sections[1..], y + SectionHeight(sections[0]), id + |first|);
      NumberedConcat(first, SectionsTiles(sections[1..], y + SectionHeight(sections[0]), id + |first|), id);
    }
  }

  lemma SectionAndRest(s: Section, y: nat, id: nat, rest: seq<Tile>, panels: seq<Panel>, titles: seq<string>)
    requires FullRows(s.rows) && Cards(rest) == panels && Headers(rest) == titles
    ensures Cards(SectionTiles(s, y, id) + rest) == RowsPanels(s.rows) + panels
    ensures Headers(SectionTiles(s, y, id) + rest) == TitleOf(s) + titles
  {
    SectionTilesContent(s, y, id);
    CardsConcat(SectionTiles(s, y, id), rest);
    HeadersConcat(SectionTiles(s, y, id), rest);
  }

  /** What is emitted is the plan, section by section. */
  lemma {:induction false} SectionsContent(sections: seq<Section>, y: nat, id: nat)
    requires FullSections(sections)
    ensures Cards(SectionsTiles(sections, y, id)) == SectionsPanels(sections)
    ensures Headers(SectionsTiles(sections, y, id)) == SectionsTitles(sections)
  {
    if sections != [] {
      var s, others := sections[0], sections[1..];
      var y', id' := y + SectionHeight(s), id + |SectionTiles(s, y, id)|;
      SectionsContent(others, y', id');
      SectionAndRest(s, y, id, SectionsTiles(others, y', id'), SectionsPanels(others), SectionsTitles(others));
    }
  }

  lemma {:induction false} PlanFull(panels: seq<Panel>, roles: seq<Role>, useSections: bool)
    ensures FullSections(Plan(panels, roles, useSections))
  {
    if roles != [] {
      PlanFull(panels, roles[1..], useSections);
      if Group(panels, roles[0]) != [] {
        SectionRows(panels, roles[0], useSections);
      }
    }
  }

  /** The panels of each role in turn, in declaration order within a role. */
  function ByRole(panels: seq<Panel>, roles: seq<Role>): seq<Panel> {
    if roles == [] then [] else Group(panels, roles[0]) + ByRole(panels, roles[1..])
  }

  /** The labels of the roles that have panels. */
  function Labels(panels: seq<Panel>, roles: seq<Role>): seq<string> {
    if roles == [] then []
    else (if Group(panels, roles[0]) == [] then [] else [SectionLabel(roles[0])]) + Labels(panels, roles[1..])
  }

  lemma {:induction false} PlanContent(panels: seq<Panel>, roles: seq<Role>, useSections: bool)
    ensures SectionsPanels(Plan(panels, roles, useSections)) == ByRole(panels, roles)
    ensures SectionsTitles(Plan(panels, roles, useSections)) == if useSections then Labels(panels, roles) else []
  {
    if roles != [] {
      var rest := Plan(panels, roles[1..], useSections);
      PlanContent(panels, roles[1..], useSections);
      if Group(panels, roles[0]) != [] {
        var first := PlanSection(panels, roles[0], useSections);
        SectionRows(panels, roles[0], useSections);
        SectionsFirst(first, rest);
      }
    }
  }

  lemma SectionsFirst(first: Section, rest: seq<Section>)
    ensures SectionsPanels([first] + rest) == RowsPanels(first.rows) + SectionsPanels(rest)
    ensures SectionsTitles([first] + rest) == TitleOf(first) + SectionsTitles(rest)
  {
    assert ([first] + rest)[1..] == rest;
  }

  ghost predicate InRoleOrder(panels: seq<Panel>) {
    forall i, j :: 0 <= i < j < |panels| ==> RoleRank(panels[i].role) <= RoleRank(panels[j].role)
  }

  lemma GroupMembers(panels: seq<Panel>, role: Role)
    ensures forall i :: 0 <= i < |Group(panels, role)| ==> Group(panels, role)[i].role == role
    ensures Group(panels, role) != [] <==> exists p :: p in panels && p.role == role
  {
    var group := Group(panels, role);
    forall p ensures p in group <==> p in panels && p.role == role {
      FilterMembers(panels, (q: Panel) => q.role == role, p);
    }
    assert forall i :: 0 <= i < |group| ==> group[i] in group;
    assert group != [] ==> group[0] in group;
    if p :| p in panels && p.role == role {
      assert p in group;
    }
  }

  lemma GroupOfUniform(panels: seq<Panel>, role: Role, other: Role)
    requires forall i :: 0 <= i < |panels| ==> panels[i].role == role
    ensures Group(panels, other) == if other == role then panels else []
  {
    if other == role {
      FilterAll(panels, (p: Panel) => p.role == other);
    } else {
      FilterNone(panels, (p: Panel) => p.role == other);
    }
  }

  lemma GroupConcat(a: seq<Panel>, b: seq<Panel>, role: Role)
    ensures Group(a + b, role) == Group(a, role) + Group(b, role)
  {
    FilterConcat(a, b, (p: Panel) => p.role == role);
  }

  lemma GroupCount(panels: seq<Panel>, role: Role, p: Panel)
    ensures multiset(Group(panels, role))[p] == if p.role == role then multiset(panels)[p] else 0
  {
    FilterCount(panels, (q: Panel) => q.role == role, p);
  }

  lemma GroupsPartition(panels: seq<Panel>)
    ensures multiset(panels) == multiset(Group(panels, Kpi)) + multiset(Group(panels, Trend))
                                + multiset(Group(panels, Breakdown)) + multiset(Group(panels, Detail))
  {
    forall p: Panel
      ensures multiset(panels)[p] == multiset(Group(panels, Kpi))[p] + multiset(Group(panels, Trend))[p]
                                     + multiset(Group(panels, Breakdown))[p] + multiset(Group(panels, Detail))[p]
    {
      GroupCount(panels, Kpi, p);
      GroupCount(panels, Trend, p);
      GroupCount(panels, Breakdown, p);
      GroupCount(panels, Detail, p);
    }
  }

  ghost predicate RolesAscend(roles: seq<Role>) {
    forall i, j :: 0 <= i < j < |roles| ==> RoleRank(roles[i]) < RoleRank(roles[j])
  }

  /** Walking the roles in order keeps each role's panels, in order, and no others. */
  lemma {:induction false} ByRoleGroups(panels: seq<Panel>, roles: seq<Role>, role: Role)
    requires RolesAscend(roles)
    ensures Group(ByRole(panels, roles), role) == if role in roles then Group(panels, role) else []
  {
    if roles != [] {
      ByRoleGroups(panels, roles[1..], role);
      GroupConcat(Group(panels, roles[0]), ByRole(panels, roles[1..]), role);
      GroupMembers(panels, roles[0]);
      GroupOfUniform(Group(panels, roles[0]), roles[0], role);
      assert roles == [roles[0]] + roles[1..];
    }
  }

  /** Every panel's role is one of `roles`. */
  ghost predicate RolesAmong(panels: seq<Panel>, roles: seq<Role>) {
    forall i :: 0 <= i < |panels| ==> panels[i].role in roles
  }

  lemma OrderedConcat(a: seq<Panel>, b: seq<Panel>, role: Role, later: seq<Role>)
    requires RolesAmong(a, [role]) && RolesAmong(b, later) && InRoleOrder(b)
    requires forall r :: r in later ==> RoleRank(role) <= RoleRank(r)
    ensures InRoleOrder(a + b) && RolesAmong(a + b, [role] + later)
  {
    forall i, j | 0 <= i < j < |a + b| ensures RoleRank((a + b)[i].role) <= RoleRank((a + b)[j].role) {
      assert i < |a| ==> (a + b)[i].role in [role];
      assert j >= |a| ==> (a + b)[j].role in later;
    }
  }

  lemma {:induction false} ByRoleOrdered(panels: seq<Panel>, roles: seq<Role>)
    requires RolesAscend(roles)
    ensures InRoleOrder(ByRole(panels, roles)) && RolesAmong(ByRole(panels, roles), roles)
  {
    if roles != [] {
      ByRoleOrdered(panels, roles[1..]);
      GroupMembers(panels, roles[0]);
      OrderedConcat(Group(panels, roles[0]), ByRole(panels, roles[1..]), roles[0], roles[1..]);
      assert roles == [roles[0]] + roles[1..];
    }
  }

  lemma SameGroupsSamePanels(a: seq<Panel>, b: seq<Panel>)
    requires forall role :: Group(a, role) == Group(b, role)
    ensures multiset(a) == multiset(b)
  {
    GroupsPartition(a);
    GroupsPartition(b);
  }

  lemma RoleOrderComplete()
    ensures RolesAscend(ROLE_ORDER) && forall role: Role :: role in ROLE_ORDER
  {
    forall role: Role ensures role in ROLE_ORDER {
      assert role == ROLE_ORDER[RoleRank(role)];
    }
  }

  /** Nothing is dropped, repeated or reordered within its role. */
  lemma CardsConserved(panels: seq<Panel>)
    ensures InRoleOrder(ByRole(panels, ROLE_ORDER))
    ensures forall role :: Group(ByRole(panels, ROLE_ORDER), role) == Group(panels, role)
    ensures multiset(ByRole(panels, ROLE_ORDER)) == multiset(panels)
  {
    RoleOrderComplete();
    ByRoleOrdered(panels, ROLE_ORDER);
    forall role ensures Group(ByRole(panels, ROLE_ORDER), role) == Group(panels, role) {
      ByRoleGroups(panels, ROLE_ORDER, role);
    }
    SameGroupsSamePanels(ByRole(panels, ROLE_ORDER), panels);
  }

  ghost function Present(panels: seq<Panel>, roles: seq<Role>): set<Role> {
    set p | p in panels && p.role in roles :: p.role
  }

  lemma PresentStep(panels: seq<Panel>, roles: seq<Role>)
    requires RolesAscend(roles) && roles != []
    ensures Present(panels, roles)
            == (if Group(panels, roles[0]) == [] then {} else {roles[0]}) + Present(panels, roles[1..])
    ensures roles[0] !in Present(panels, roles[1..])
  {
    GroupMembers(panels, roles[0]);
    assert roles == [roles[0]] + roles[1..];
    assert roles[0] !in roles[1..];
  }

  lemma {:induction false} LabelsCount(panels: seq<Panel>, roles: seq<Role>)
    requires RolesAscend(roles)
    ensures |Labels(panels, roles)| == |Present(panels, roles)|
  {
    if roles == [] {
      assert Present(panels, roles) == {};
    } else {
      LabelsCount(panels, roles[1..]);
      PresentStep(panels, roles);
    }
  }

  /** With two roles or more there is one header row for each distinct role. */
  lemma OneHeaderPerRole(panels: seq<Panel>)
    ensures |Labels(panels, ROLE_ORDER)| == |set p | p in panels :: p.role|
  {
    RoleOrderComplete();
    LabelsCount(panels, ROLE_ORDER);
    assert Present(panels, ROLE_ORDER) == set p | p in panels :: p.role;
  }

  /** Every card stands under the header of its own role; `current` is the last header seen. */
  ghost predicate UnderOwnHeader(tiles: seq<Tile>, current: Option<string>) {
    tiles == [] ||
    match tiles[0].content
    case Header(title) => UnderOwnHeader(tiles[1..], Some(title))
    case Card(p) => current == Some(SectionLabel(p.role)) && UnderOwnHeader(tiles[1..], current)
  }

  /** Only cards, all of one role. */
  ghost predicate CardsOf(tiles: seq<Tile>, role: Role) {
    forall i :: 0 <= i < |tiles| ==> tiles[i].content.Card? && tiles[i].content.panel.role == role
  }

  lemma {:induction false} OnlyCards(tiles: seq<Tile>, role: Role)
    requires Headers(tiles) == [] && forall p :: p in Cards(tiles) ==> p.role == role
    ensures CardsOf(tiles, role)
  {
    if tiles != [] {
      assert Headers(tiles) == HeaderOf(tiles[0]) + Headers(tiles[1..]);
      assert Cards(tiles) == CardOf(tiles[0]) + Cards(tiles[1..]);
      OnlyCards(tiles[1..], role);
    }
  }

  lemma {:induction false} CardsUnderHeader(cards: seq<Tile>, rest: seq<Tile>, role: Role)
    requires CardsOf(cards, role) && forall current :: UnderOwnHeader(rest, current)
    ensures UnderOwnHeader(cards + rest, Some(SectionLabel(role)))
  {
    if cards == [] {
      assert cards + rest == rest;
    } else {
      CardsUnderHeader(cards[1..], rest, role);
      assert (cards + rest)[1..] == cards[1..] + rest;
    }
  }

  /** The section is titled after its role and holds only panels of that role. */
  ghost predicate OwnRole(s: Section) {
    && s.title == Some(SectionLabel(s.role))
    && forall p :: p in RowsPanels(s.rows) ==> p.role == s.role
  }

  ghost predicate OwnRoles(sections: seq<Section>) {
    forall k :: 0 <= k < |sections| ==> OwnRole(sections[k])
  }

  lemma SectionUnderHeader(s: Section, rest: seq<Tile>, y: nat, id: nat, current: Option<string>)
    requires FullRows(s.rows) && OwnRole(s)
    requires forall c :: UnderOwnHeader(rest, c)
    ensures UnderOwnHeader(SectionTiles(s, y, id) + rest, current)
  {
    var body := RowsTiles(s.rows, y + 1, id + 1);
    RowsTilesShape(s.rows, y + 1, id + 1);
    OnlyCards(body, s.role);
    CardsUnderHeader(body, rest, s.role);
    assert (SectionTiles(s, y, id) + rest)[1..] == body + rest;
  }

  lemma {:induction false} HeadersLead(sections: seq<Section>, y: nat, id: nat, current: Option<string>)
    requires FullSections(sections) && OwnRoles(sections)
    ensures UnderOwnHeader(SectionsTiles(sections, y, id), current)
  {
    if sections != [] {
      var ym, idm := y + SectionHeight(sections[0]), id + |SectionTiles(sections[0], y, id)|;
      forall c: Option<string> ensures UnderOwnHeader(SectionsTiles(sections[1..], ym, idm), c) {
        HeadersLead(sections[1..], ym, idm, c);
      }
      SectionUnderHeader(sections[0], SectionsTiles(sections[1..], ym, idm), y, id, current);
    }
  }

  lemma {:induction false} PlanOwnRoles(panels: seq<Panel>, roles: seq<Role>)
    ensures OwnRoles(Plan(panels, roles, true))
  {
    if roles != [] {
      PlanOwnRoles(panels, roles[1..]);
      if Group(panels, roles[0]) != [] {
        SectionRows(panels, roles[0], true);
        GroupMembers(panels, roles[0]);
      }
    }
  }
}
