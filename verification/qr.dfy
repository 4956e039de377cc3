/** `src/qr.rs`: turning a QR matrix into stone-wall entities, and the fixed
    sequence of builder calls with which `run` makes one blueprint for one
    URL or a book of blueprints for several.

    The matrix generator (`qrcode_generator::to_matrix_from_str`) is foreign
    code: it is the parameter `qr`, whose `None` is the error that
    `.unwrap()` turns into a panic. Printing is left to the caller: `Run`
    returns the bytes that `render` writes to stdout. */
module Qr {
  import opened Results
  import opened Json
  import opened Builder
  import opened Render

  /** Outer index = row = x offset, inner index = column = y offset. */
  type Grid = seq<seq<bool>>

  const WALL := "stone-wall"

  datatype Cell = Cell(row: nat, col: nat)

  // ---------------------------------------------------------------------
  // add_qr_code
  // ---------------------------------------------------------------------

  /** The inner loop over one row, from column `iy` on: one entity per
      `true` cell left in the row, appended after the existing ones, and
      nothing but the entities changes. It stops only on a u32 overflow,
      which cannot happen while the numbers fit. */
  function PlaceRow(b: Blueprint, x: real, y: real, ix: nat, row: seq<bool>, iy: nat): (r: Result<Blueprint>)
    requires iy <= |row|
    ensures r.Err? ==> r.fault == EntityNumberOverflow
    ensures |b.entities| + |RowCells(row, ix, iy)| <= U32_MAX ==> r.Ok?
    ensures r.Ok? ==>
      && |r.value.entities| == |b.entities| + |RowCells(row, ix, iy)|
      && r.value.entities[..|b.entities|] == b.entities
      && r.value.icons == b.icons && r.value.item == b.item
      && r.value.title == b.title && r.value.description == b.description
    decreases |row| - iy
  {
    if iy == |row| then Ok(b)
    else if row[iy] then
      var b' :- Add(b, WALL, x + ix as real, y + iy as real);
      PlaceRow(b', x, y, ix, row, iy + 1)
    else PlaceRow(b, x, y, ix, row, iy + 1)
  }

  /** The outer loop over the rows, from row `ix` on: one entity per
      `true` cell in those rows, with the same guarantees as a row. */
  function PlaceRows(b: Blueprint, x: real, y: real, grid: Grid, ix: nat): (r: Result<Blueprint>)
    requires ix <= |grid|
    ensures r.Err? ==> r.fault == EntityNumberOverflow
    ensures |b.entities| + |GridCells(grid, ix)| <= U32_MAX ==> r.Ok?
    ensures r.Ok? ==>
      && |r.value.entities| == |b.entities| + |GridCells(grid, ix)|
      && r.value.entities[..|b.entities|] == b.entities
      && r.value.icons == b.icons && r.value.item == b.item
      && r.value.title == b.title && r.value.description == b.description
    decreases |grid| - ix
  {
    if ix == |grid| then Ok(b)
    else
      var b' :- PlaceRow(b, x, y, ix, grid[ix], 0);
      PlaceRows(b', x, y, grid, ix + 1)
  }

  /** `add_qr_code`, given the matrix the generator produced: one entity
      per `true` cell of the matrix, appended, nothing else changed.
      `AddQrCodeAppends` says which entities. */
  function AddQrCode(b: Blueprint, x: real, y: real, grid: Grid): (r: Result<Blueprint>)
    ensures r.Err? ==> r.fault == EntityNumberOverflow
    ensures |b.entities| + |TrueSet(grid)| <= U32_MAX ==> r.Ok?
    ensures r.Ok? ==>
      && |r.value.entities| == |b.entities| + |TrueSet(grid)|
      && r.value.entities[..|b.entities|] == b.entities
      && r.value.icons == b.icons && r.value.item == b.item
      && r.value.title == b.title && r.value.description == b.description
  {
    assert TrueCells(grid) == GridCells(grid, 0);
    PlaceRows(b, x, y, grid, 0)
  }

  // ---------------------------------------------------------------------
  // What add_qr_code places
  // ---------------------------------------------------------------------

  predicate IsTrueCell(grid: Grid, c: Cell) {
    c.row < |grid| && c.col < |grid[c.row]| && grid[c.row][c.col]
  }

  /** The set of `true` cells of the matrix. */
  function TrueSet(grid: Grid): set<Cell> {
    set i, j | 0 <= i < |grid| && 0 <= j < |grid[i]| && grid[i][j] :: Cell(i, j)
  }

  /** Row-major order: by row, then by column. */
  predicate Before(a: Cell, b: Cell) {
    a.row < b.row || (a.row == b.row && a.col < b.col)
  }

  predicate StrictlySorted(cells: seq<Cell>) {
    forall i, j :: 0 <= i < j < |cells| ==> Before(cells[i], cells[j])
  }

  /** The `true` cells of `row` from column `iy` on, in order. */
  function RowCells(row: seq<bool>, ix: nat, iy: nat): seq<Cell>
    requires iy <= |row|
    decreases |row| - iy
  {
    if iy == |row| then []
    else (if row[iy] then [Cell(ix, iy)] else []) + RowCells(row, ix, iy + 1)
  }

  /** The `true` cells of the rows from `ix` on, in row-major order. */
  function GridCells(grid: Grid, ix: nat): seq<Cell>
    requires ix <= |grid|
    decreases |grid| - ix
  {
    if ix == |grid| then [] else RowCells(grid[ix], ix, 0) + GridCells(grid, ix + 1)
  }

  /** The cells `add_qr_code` covers with a wall: exactly the `true`
      cells, each once, in row-major order. */
  function TrueCells(grid: Grid): (cells: seq<Cell>)
    ensures forall c :: c in cells <==> IsTrueCell(grid, c)
    ensures StrictlySorted(cells)
    ensures |cells| == |TrueSet(grid)|
  {
    GridCellsExact(grid, 0);
    var cells := GridCells(grid, 0);
    assert (set c | c in cells) == TrueSet(grid) by {
      forall c | c in TrueSet(grid) ensures c in cells {
        assert IsTrueCell(grid, c);
      }
    }
    DistinctCardinality(cells);
    cells
  }

  /** One stone wall per cell, offset by `(x, y)`. */
  function Walls(x: real, y: real, cells: seq<Cell>): (ps: seq<Placement>)
    ensures |ps| == |cells|
  {
    seq(|cells|, k requires 0 <= k < |cells| =>
      Placement(WALL, Position(x + cells[k].row as real, y + cells[k].col as real)))
  }

  lemma {:induction false} RowCellsExact(row: seq<bool>, ix: nat, iy: nat)
    requires iy <= |row|
    ensures forall c :: c in RowCells(row, ix, iy) <==> c.row == ix && iy <= c.col < |row| && row[c.col]
    ensures forall i, j :: 0 <= i < j < |RowCells(row, ix, iy)| ==>
      RowCells(row, ix, iy)[i].col < RowCells(row, ix, iy)[j].col
    decreases |row| - iy
  {
    if iy < |row| {
      RowCellsExact(row, ix, iy + 1);
    }
  }

  lemma {:induction false} GridCellsExact(grid: Grid, ix: nat)
    requires ix <= |grid|
    ensures forall c :: c in GridCells(grid, ix) <==> ix <= c.row && IsTrueCell(grid, c)
    ensures StrictlySorted(GridCells(grid, ix))
    decreases |grid| - ix
  {
    if ix < |grid| {
      var head := RowCells(grid[ix], ix, 0);
      var tail := GridCells(grid, ix + 1);
      RowCellsExact(grid[ix], ix, 0);
      GridCellsExact(grid, ix + 1);
      var all := head + tail;
      forall i, j | 0 <= i < j < |all|
        ensures Before(all[i], all[j])
      {
        if j < |head| {
          assert all[i] == head[i] && all[j] == head[j];
        } else if i < |head| {
          assert all[i] in head && all[j] in tail;
        } else {
          assert all[i] == tail[i - |head|] && all[j] == tail[j - |head|];
        }
      }
    }
  }

  /** A sequence without repeats has as many elements as its set. */
  lemma {:induction false} DistinctCardinality(cells: seq<Cell>)
    requires StrictlySorted(cells)
    ensures |set c | c in cells| == |cells|
    decreases |cells|
  {
    if cells != [] {
      var rest := cells[1..];
      assert StrictlySorted(rest) by {
        forall i, j | 0 <= i < j < |rest| ensures Before(rest[i], rest[j]) {
          assert rest[i] == cells[i + 1] && rest[j] == cells[j + 1];
        }
      }
      DistinctCardinality(rest);
      assert cells[0] !in rest by {
        forall k | 0 <= k < |rest| ensures rest[k] != cells[0] {
          assert Before(cells[0], cells[k + 1]);
        }
      }
      assert (set c | c in cells) == {cells[0]} + (set c | c in rest);
    }
  }

  lemma WallsConcat(x: real, y: real, a: seq<Cell>, b: seq<Cell>)
    ensures Walls(x, y, a + b) == Walls(x, y, a) + Walls(x, y, b)
  {
  }

  /** Walling a cell and then some more cells is one `add` and then the rest. */
  lemma WallsCons(b: Blueprint, x: real, y: real, c: Cell, rest: seq<Cell>)
    ensures AddEntities(b, Walls(x, y, [c] + rest)) ==
      match Add(b, WALL, x + c.row as real, y + c.col as real)
      case Ok(b') => AddEntities(b', Walls(x, y, rest))
      case Err(f) => Err(f)
  {
    var ps := Walls(x, y, [c] + rest);
    assert ps[0] == Placement(WALL, Position(x + c.row as real, y + c.col as real));
    assert ps[1..] == Walls(x, y, rest);
  }

  /** A `false` cell is skipped. */
  lemma PlaceRowSkips(b: Blueprint, x: real, y: real, ix: nat, row: seq<bool>, iy: nat)
    requires iy < |row| && !row[iy]
    ensures PlaceRow(b, x, y, ix, row, iy) == PlaceRow(b, x, y, ix, row, iy + 1)
    ensures RowCells(row, ix, iy) == RowCells(row, ix, iy + 1)
  {
    assert RowCells(row, ix, iy) == [] + RowCells(row, ix, iy + 1);
  }

  /** A `true` cell gets one wall, then the row goes on. */
  lemma PlaceRowWalls(b: Blueprint, x: real, y: real, ix: nat, row: seq<bool>, iy: nat)
    requires iy < |row| && row[iy]
    ensures PlaceRow(b, x, y, ix, row, iy) ==
      match Add(b, WALL, x + ix as real, y + iy as real)
      case Ok(b') => PlaceRow(b', x, y, ix, row, iy + 1)
      case Err(f) => Err(f)
    ensures RowCells(row, ix, iy) == [Cell(ix, iy)] + RowCells(row, ix, iy + 1)
  {
  }

  /** The inner loop is the run of `add` calls for the row's `true` cells. */
  lemma {:induction false} PlaceRowIsAdds(b: Blueprint, x: real, y: real, ix: nat, row: seq<bool>, iy: nat)
    requires iy <= |row|
    ensures PlaceRow(b, x, y, ix, row, iy) == AddEntities(b, Walls(x, y, RowCells(row, ix, iy)))
    decreases |row| - iy
  {
    if iy == |row| {
      assert Walls(x, y, RowCells(row, ix, iy)) == [];
    } else if row[iy] {
      PlaceRowWalls(b, x, y, ix, row, iy);
      WallsCons(b, x, y, Cell(ix, iy), RowCells(row, ix, iy + 1));
      var r := Add(b, WALL, x + ix as real, y + iy as real);
      if r.Ok? {
        PlaceRowIsAdds(r.value, x, y, ix, row, iy + 1);
      }
    } else {
      PlaceRowSkips(b, x, y, ix, row, iy);
      PlaceRowIsAdds(b, x, y, ix, row, iy + 1);
    }
  }

  /** The outer loop is the run of `add` calls for all remaining rows. */
  lemma {:induction false} PlaceRowsIsAdds(b: Blueprint, x: real, y: real, grid: Grid, ix: nat)
    requires ix <= |grid|
    ensures PlaceRows(b, x, y, grid, ix) == AddEntities(b, Walls(x, y, GridCells(grid, ix)))
    decreases |grid| - ix
  {
    if ix < |grid| {
      var head := RowCells(grid[ix], ix, 0);
      var tail := GridCells(grid, ix + 1);
      WallsConcat(x, y, head, tail);
      AddEntitiesConcat(b, Walls(x, y, head), Walls(x, y, tail));
      PlaceRowIsAdds(b, x, y, ix, grid[ix], 0);
      var r := PlaceRow(b, x, y, ix, grid[ix], 0);
      if r.Ok? {
        PlaceRowsIsAdds(r.value, x, y, grid, ix + 1);
      }
    } else {
      assert Walls(x, y, GridCells(grid, ix)) == [];
    }
  }

  /** `add_qr_code` appends one `stone-wall` per `true` cell at
      `(x + row, y + column)`, in row-major order, numbered on from the
      existing entities; icons, label and description are untouched. It
      panics exactly when the entity numbers would leave the u32 range. */
  lemma AddQrCodeAppends(b: Blueprint, x: real, y: real, grid: Grid)
    requires |b.entities| <= U32_MAX
    ensures AddQrCode(b, x, y, grid).Ok? <==> |b.entities| + |TrueSet(grid)| <= U32_MAX
    ensures AddQrCode(b, x, y, grid).Err? ==> AddQrCode(b, x, y, grid).fault == EntityNumberOverflow
    ensures |b.entities| + |TrueSet(grid)| <= U32_MAX ==>
      AddQrCode(b, x, y, grid)
        == Ok(b.(entities := b.entities + Numbered(Walls(x, y, TrueCells(grid)), |b.entities|)))
  {
    PlaceRowsIsAdds(b, x, y, grid, 0);
    if |b.entities| + |TrueSet(grid)| <= U32_MAX {
      AddEntitiesAppends(b, Walls(x, y, TrueCells(grid)));
    } else {
      AddEntitiesOverflows(b, Walls(x, y, TrueCells(grid)));
    }
  }

  /** The same, entity by entity: the k-th new entity is number
      `old + k + 1`, a stone wall on the k-th `true` cell, and a blueprint
      that was well formed stays so. */
  lemma AddQrCodeEntities(b: Blueprint, x: real, y: real, grid: Grid)
    requires WellFormed(b) && |b.entities| + |TrueSet(grid)| <= U32_MAX
    ensures AddQrCode(b, x, y, grid).Ok?
    ensures var r := AddQrCode(b, x, y, grid).value;
      && WellFormed(r)
      && |r.entities| == |b.entities| + |TrueSet(grid)|
      && r.entities[..|b.entities|] == b.entities
      && r.icons == b.icons && r.title == b.title && r.description == b.description
      && forall k :: 0 <= k < |TrueCells(grid)| ==>
           var e := r.entities[|b.entities| + k];
           && e.number == |b.entities| + k + 1
           && e.name == WALL
           && IsTrueCell(grid, TrueCells(grid)[k])
           && e.position == Position(x + TrueCells(grid)[k].row as real, y + TrueCells(grid)[k].col as real)
  {
    AddQrCodeAppends(b, x, y, grid);
    var r := AddQrCode(b, x, y, grid).value;
    assert r.entities[..|b.entities|] == b.entities;
    forall k | 0 <= k < |TrueCells(grid)|
      ensures IsTrueCell(grid, TrueCells(grid)[k])
    {
      assert TrueCells(grid)[k] in TrueCells(grid);
    }
  }

  // ---------------------------------------------------------------------
  // run
  // ---------------------------------------------------------------------

  const BOOK_TITLE := "QR codes book"
  const FOUR_WALLS := [WALL, WALL, WALL, WALL]

  const QR_PREFIX := "QR code made from [item=stone-wall] that links to "
  const BOOK_PREFIX := "QR codes for the following URLs: \n\n - "
  const URL_SEP := "\n - "

  /** A blueprint's description: a rich-text stone-wall icon, then the URL
      at the very end. */
  function QrDescription(url: string): (d: string)
    ensures |d| == |QR_PREFIX| + |url|
    ensures d[..|QR_PREFIX|] == QR_PREFIX && d[|QR_PREFIX|..] == url
  {
    QR_PREFIX + url
  }

  /** The total length of `parts`. */
  function TotalLength(parts: seq<string>): nat
    decreases |parts|
  {
    if parts == [] then 0 else |parts[0]| + TotalLength(parts[1..])
  }

  /** `parts.join(sep)`: every part once, in order, with `sep` between
      neighbours only, so the first part opens it and the last closes it. */
  function Join(parts: seq<string>, sep: string): (r: string)
    ensures |parts| >= 1 ==> |r| == TotalLength(parts) + (|parts| - 1) * |sep|
    ensures parts == [] ==> r == ""
    ensures |parts| >= 1 ==> |parts[0]| <= |r| && r[..|parts[0]|] == parts[0]
    ensures |parts| >= 1 ==> |parts[|parts| - 1]| <= |r| && r[|r| - |parts[|parts| - 1]|..] == parts[|parts| - 1]
    decreases |parts|
  {
    if parts == [] then ""
    else if |parts| == 1 then
      assert TotalLength(parts[1..]) == 0;
      parts[0]
    else
      var rest := Join(parts[1..], sep);
      assert parts[1..][|parts[1..]| - 1] == parts[|parts| - 1];
      parts[0] + sep + rest
  }

  /** Joining from the back: one more part adds a separator and that part,
      so every part appears, in order, with `sep` between neighbours. */
  lemma {:induction false} JoinSnoc(parts: seq<string>, p: string, sep: string)
    requires parts != []
    ensures Join(parts + [p], sep) == Join(parts, sep) + sep + p
    decreases |parts|
  {
    var longer := parts + [p];
    var tail := parts[1..];
    assert longer[0] == parts[0];
    assert longer[1..] == tail + [p];
    JoinUnfold(longer, sep);
    if |parts| == 1 {
      assert tail + [p] == [p];
      assert Join(parts, sep) == parts[0];
    } else {
      JoinUnfold(parts, sep);
      JoinSnoc(tail, p, sep);
      Associative(parts[0] + sep, Join(tail, sep), sep + p);
      Associative(Join(parts, sep), sep, p);
    }
  }

  /** Joining from the front: the first part, a separator, then the rest. */
  lemma JoinUnfold(parts: seq<string>, sep: string)
    requires |parts| >= 2
    ensures Join(parts, sep) == parts[0] + sep + Join(parts[1..], sep)
  {
  }

  /** Concatenation can be regrouped. */
  lemma Associative(a: string, b: string, c: string)
    ensures a + (b + c) == (a + b) + c
  {
  }

  /** The book's description: a heading, then one ` - URL` line per URL,
      in order. */
  function BookDescription(urls: seq<string>): (d: string)
    ensures |d| == |BOOK_PREFIX| + |Join(urls, URL_SEP)| + 1
    ensures d[..|BOOK_PREFIX|] == BOOK_PREFIX
    ensures d[|BOOK_PREFIX|..|d| - 1] == Join(urls, URL_SEP)
    ensures d[|d| - 1] == '\n'
  {
    var list := Join(urls, URL_SEP);
    var head := BOOK_PREFIX + list;
    var d := head + ['\n'];
    assert d[..|head|] == head;
    d
  }

  /** The blueprint `run` builds for one URL: labelled with the URL, its
      description ending in the URL, the four stone-wall icons. It fails
      with `QrEncodeFailed` exactly when the generator does; any other
      failure is the u32 overflow. `UrlBlueprintShape` gives the entities. */
  function UrlBlueprint(url: string, qr: string -> Option<Grid>): (r: Result<Blueprint>)
    ensures qr(url).None? <==> r == Err(QrEncodeFailed)
    ensures r.Err? && qr(url).Some? ==> r.fault == EntityNumberOverflow
    ensures r.Ok? ==>
      && r.value.title == url && r.value.description == QrDescription(url)
      && r.value.item == BLUEPRINT_ITEM && r.value.icons == WallIcons()
  {
    var b := New(url, QrDescription(url));
    var grid :- qr(url).OrPanic(QrEncodeFailed);
    var b' :- AddQrCode(b, 0.0, 0.0, grid);
    AddIconsAppends(b', FOUR_WALLS);
    AddIcons(b', FOUR_WALLS)
  }

  /** The loop of `run` over the URLs: each turn builds one blueprint with
      `make` and adds it to the book, and the first failure stops the loop.
      On success there is one more blueprint per URL and nothing else has
      changed. */
  function AddEach(bk: Book, urls: seq<string>, make: string -> Result<Blueprint>): (r: Result<Book>)
    ensures r.Ok? ==>
      && |r.value.blueprints| == |bk.blueprints| + |urls|
      && r.value.blueprints[..|bk.blueprints|] == bk.blueprints
      && r.value.icons == bk.icons && r.value.item == bk.item
      && r.value.title == bk.title && r.value.description == bk.description
    decreases |urls|
  {
    if urls == [] then Ok(bk)
    else
      var b :- make(urls[0]);
      AddEach(AddBlueprint(bk, b), urls[1..], make)
  }

  /** What one turn of the loop builds. */
  function UrlMaker(qr: string -> Option<Grid>): string -> Result<Blueprint> {
    url => UrlBlueprint(url, qr)
  }

  /** The loop that adds one blueprint per URL to the book. */
  function AddUrlBlueprints(bk: Book, urls: seq<string>, qr: string -> Option<Grid>): Result<Book> {
    AddEach(bk, urls, UrlMaker(qr))
  }

  datatype Document = Single(blueprint: Blueprint) | Collection(book: Book)

  /** The builder calls of `run`: one URL gives a blueprint, any other
      number of URLs a book titled "QR codes book" with the four stone-wall
      icons and a description listing the URLs. */
  function Build(urls: seq<string>, qr: string -> Option<Grid>): (r: Result<Document>)
    ensures r.Ok? ==> (r.value.Single? <==> |urls| == 1)
    ensures r.Ok? && r.value.Collection? ==>
      && r.value.book.title == BOOK_TITLE
      && r.value.book.description == BookDescription(urls)
      && r.value.book.item == BOOK_ITEM
      && r.value.book.icons == WallIcons()
      && |r.value.book.blueprints| == |urls|
  {
    if |urls| == 1 then
      var b :- UrlBlueprint(urls[0], qr);
      Ok(Single(b))
    else
      var bk :- AddUrlBlueprints(EmptyQrBook(urls), urls, qr);
      Ok(Collection(bk))
  }

  /** The book before the loop: `BookBuilder::new` and the four
      `add_icon` calls, which cannot overflow. */
  function EmptyQrBook(urls: seq<string>): (bk: Book)
    ensures bk.blueprints == [] && bk.icons == WallIcons() && bk.item == BOOK_ITEM
    ensures bk.title == BOOK_TITLE && bk.description == BookDescription(urls)
  {
    var bk := NewBook(BOOK_TITLE, BookDescription(urls));
    AddBookIconsAppends(bk, FOUR_WALLS);
    AddBookIcons(bk, FOUR_WALLS).value
  }

  /** The JSON document `render` serializes for what `run` built. */
  function DocumentJson(doc: Document): (v: Value)
    ensures v.Object? && v.fields.Keys == {if doc.Single? then BLUEPRINT_ROOT else BOOK_ROOT}
  {
    match doc
    case Single(b) => BlueprintDocument(b)
    case Collection(bk) => BookDocument(bk)
  }

  /** The `render` call at the end of `run`: the marker, then the encoded
      document. */
  function RenderDocument(doc: Document, enc: Value -> seq<byte>): (out: seq<byte>)
    ensures |out| >= 1 && out[0] == MARKER && out[1..] == enc(DocumentJson(doc))
  {
    match doc
    case Single(b) => RenderBlueprint(b, enc)
    case Collection(bk) => RenderBook(bk, enc)
  }

  /** `run`: the bytes it writes to stdout, or the panic that stops it. It
      prints exactly when the builder calls succeed, and whatever it prints
      starts with the '0' marker, whatever the encoder. */
  function Run(urls: seq<string>, qr: string -> Option<Grid>, enc: Value -> seq<byte>): (r: Result<seq<byte>>)
    ensures r.Ok? <==> Build(urls, qr).Ok?
    ensures r.Err? ==> r.fault == Build(urls, qr).fault
    ensures r.Ok? ==> |r.value| >= 1 && r.value[0] == MARKER
  {
    var doc :- Build(urls, qr);
    Ok(RenderDocument(doc, enc))
  }

  /** The four icons `run` gives every blueprint and the book. */
  function WallIcons(): (icons: seq<Icon>)
    ensures |icons| == 4 && IconsContiguous(icons)
    ensures forall k :: 0 <= k < 4 ==> icons[k].signal == Signal(ITEM_SIGNAL, WALL)
  {
    IconsFor(FOUR_WALLS, 0)
  }

  /** One URL's blueprint: labelled with the URL, the QR walls numbered
      1..n, then exactly four stone-wall icons in slots 1..4. It fails
      exactly when the generator fails or the walls overflow u32. */
  lemma UrlBlueprintShape(url: string, qr: string -> Option<Grid>)
    ensures UrlBlueprint(url, qr).Ok? <==>
      qr(url).Some? && |TrueSet(qr(url).value)| <= U32_MAX
    ensures qr(url).None? ==> UrlBlueprint(url, qr) == Err(QrEncodeFailed)
    ensures UrlBlueprint(url, qr).Ok? ==>
      var grid := qr(url).value;
      var b := UrlBlueprint(url, qr).value;
      && b == Blueprint(WallIcons(), Numbered(Walls(0.0, 0.0, TrueCells(grid)), 0),
                        BLUEPRINT_ITEM, url, QrDescription(url))
      && WellFormed(b)
  {
    if qr(url).Some? {
      var grid := qr(url).value;
      var b := New(url, QrDescription(url));
      AddQrCodeAppends(b, 0.0, 0.0, grid);
      if |TrueSet(grid)| <= U32_MAX {
        AddQrCodeEntities(b, 0.0, 0.0, grid);
        var b' := AddQrCode(b, 0.0, 0.0, grid).value;
        AddIconsAppends(b', FOUR_WALLS);
        assert b'.entities == Numbered(Walls(0.0, 0.0, TrueCells(grid)), 0);
      }
    }
  }

  /** The loop succeeds exactly when every turn does. */
  lemma {:induction false} AddEachSucceeds(bk: Book, urls: seq<string>, make: string -> Result<Blueprint>)
    ensures AddEach(bk, urls, make).Ok? <==> forall i :: 0 <= i < |urls| ==> make(urls[i]).Ok?
    decreases |urls|
  {
    if urls != [] {
      var first := make(urls[0]);
      if first.Ok? {
        AddEachSucceeds(AddBlueprint(bk, first.value), urls[1..], make);
        assert forall i :: 1 <= i < |urls| ==> urls[i] == urls[1..][i - 1];
      }
    }
  }

  /** The `i`-th blueprint the loop appends is what the `i`-th turn built. */
  lemma {:induction false} AddEachAt(bk: Book, urls: seq<string>, make: string -> Result<Blueprint>, i: nat)
    requires AddEach(bk, urls, make).Ok? && i < |urls|
    ensures make(urls[i]).Ok?
    ensures Unwrap(AddEach(bk, urls, make).value.blueprints[|bk.blueprints| + i]) == Some(make(urls[i]).value)
    decreases |urls|
  {
    var bk' := AddBlueprint(bk, make(urls[0]).value);
    var rv := AddEach(bk', urls[1..], make).value;
    assert AddEach(bk, urls, make).value == rv;
    if i == 0 {
      assert rv.blueprints[..|bk'.blueprints|] == bk'.blueprints;
      assert rv.blueprints[|bk.blueprints|] == bk'.blueprints[|bk.blueprints|];
    } else {
      AddEachAt(bk', urls[1..], make, i - 1);
      assert urls[1..][i - 1] == urls[i];
      assert |bk'.blueprints| + (i - 1) == |bk.blueprints| + i;
    }
  }

  /** The book loop succeeds exactly when every URL's blueprint does. */
  lemma AddUrlBlueprintsSucceeds(bk: Book, urls: seq<string>, qr: string -> Option<Grid>)
    ensures AddUrlBlueprints(bk, urls, qr).Ok? <==>
      forall i :: 0 <= i < |urls| ==> UrlBlueprint(urls[i], qr).Ok?
  {
    AddEachSucceeds(bk, urls, UrlMaker(qr));
  }

  /** When it succeeds, the book loop appends every URL's blueprint,
      wrapped, in URL order, and changes nothing else. */
  lemma AddUrlBlueprintsAppends(bk: Book, urls: seq<string>, qr: string -> Option<Grid>)
    requires AddUrlBlueprints(bk, urls, qr).Ok?
    ensures var r := AddUrlBlueprints(bk, urls, qr).value;
      && |r.blueprints| == |bk.blueprints| + |urls|
      && r.blueprints[..|bk.blueprints|] == bk.blueprints
      && (forall i :: 0 <= i < |urls| ==>
            UrlBlueprint(urls[i], qr).Ok? &&
            Unwrap(r.blueprints[|bk.blueprints| + i]) == Some(UrlBlueprint(urls[i], qr).value))
      && r.icons == bk.icons && r.item == bk.item
      && r.title == bk.title && r.description == bk.description
  {
    forall i | 0 <= i < |urls|
      ensures UrlBlueprint(urls[i], qr).Ok?
      ensures Unwrap(AddUrlBlueprints(bk, urls, qr).value.blueprints[|bk.blueprints| + i])
           == Some(UrlBlueprint(urls[i], qr).value)
    {
      AddEachAt(bk, urls, UrlMaker(qr), i);
    }
  }

  /** `run` with one URL builds that URL's blueprint. */
  lemma BuildOneUrl(urls: seq<string>, qr: string -> Option<Grid>)
    requires |urls| == 1
    ensures Build(urls, qr).Ok? <==> UrlBlueprint(urls[0], qr).Ok?
    ensures Build(urls, qr).Ok? ==> Build(urls, qr).value == Single(UrlBlueprint(urls[0], qr).value)
  {
  }

  /** `run` with several URLs builds a book titled "QR codes book" with
      four stone-wall icons in slots 1..4 and one wrapped blueprint per URL,
      in URL order, each labelled with its URL. */
  lemma BuildManyUrls(urls: seq<string>, qr: string -> Option<Grid>)
    requires |urls| != 1
    ensures Build(urls, qr).Ok? <==> forall i :: 0 <= i < |urls| ==> UrlBlueprint(urls[i], qr).Ok?
    ensures Build(urls, qr).Ok? ==>
      var doc := Build(urls, qr).value;
      && doc.Collection?
      && doc.book.item == BOOK_ITEM
      && doc.book.title == BOOK_TITLE
      && doc.book.description == BookDescription(urls)
      && doc.book.icons == WallIcons()
      && |doc.book.blueprints| == |urls|
      && forall i :: 0 <= i < |urls| ==>
           && Unwrap(doc.book.blueprints[i]) == Some(UrlBlueprint(urls[i], qr).value)
           && UrlBlueprint(urls[i], qr).value.title == urls[i]
  {
    var bk := EmptyQrBook(urls);
    BuildBook(urls, qr);
    AddUrlBlueprintsSucceeds(bk, urls, qr);
    if AddUrlBlueprints(bk, urls, qr).Ok? {
      AddUrlBlueprintsAppends(bk, urls, qr);
    }
  }

  /** For any number of URLs but one, `run` builds the book the loop fills. */
  lemma BuildBook(urls: seq<string>, qr: string -> Option<Grid>)
    requires |urls| != 1
    ensures Build(urls, qr) ==
      match AddUrlBlueprints(EmptyQrBook(urls), urls, qr)
      case Ok(bk) => Ok(Collection(bk))
      case Err(f) => Err(f)
  {
  }

  /** What `run` prints reads back as the document it built, a blueprint
      for one URL and a book otherwise, for any decoder that undoes the
      encoder on that document. */
  lemma RunReadsBack(urls: seq<string>, qr: string -> Option<Grid>,
                     enc: Value -> seq<byte>, dec: seq<byte> -> Option<Value>)
    requires Build(urls, qr).Ok? ==> UndoesOn(dec, enc, DocumentJson(Build(urls, qr).value))
    ensures Run(urls, qr, enc).Ok? ==>
      var out := Run(urls, qr, enc).value;
      var doc := Build(urls, qr).value;
      && (|urls| == 1 ==> doc.Single? && ReadBlueprint(out, dec) == Some(doc.blueprint))
      && (|urls| != 1 ==> doc.Collection? && ReadBook(out, dec) == Some(doc.book))
  {
    var d := Build(urls, qr);
    if d.Ok? {
      assert Run(urls, qr, enc).value == RenderDocument(d.value, enc);
      match d.value
      case Single(b) => ReadRenderedBlueprint(b, enc, dec);
      case Collection(bk) => ReadRenderedBook(bk, enc, dec);
    }
  }
}
