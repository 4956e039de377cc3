/** The `Render` impls of `src/bp/builder.rs`, and the document shape that
    `#[derive(Serialize)]` gives the builder records.

    `render` writes the byte '0' and then the base64 text of the zlib stream
    of the JSON of a one-key wrapper: `{"blueprint": ...}` for a blueprint,
    `{"blueprint_book": ...}` for a book. The JSON/zlib/base64 stack is
    foreign code, so it is a parameter `enc` here. To state what the framing
    preserves, this module also gives a reader: for any decoder `dec` that
    undoes `enc` on the rendered document, reading the rendered bytes gives
    back the builder. */
module Render {
  import opened Results
  import opened Json
  import opened Builder

  const BLUEPRINT_ROOT := "blueprint"
  const BOOK_ROOT := "blueprint_book"

  // ---------------------------------------------------------------------
  // Serialization (`#[derive(Serialize)]`)
  // ---------------------------------------------------------------------

  /** A position is an object with exactly the float fields `x` and `y`. */
  function PositionJson(p: Position): (v: Value)
    ensures v.Object? && v.fields.Keys == {"x", "y"}
    ensures ParsePosition(v) == Some(p)
  {
    Object(map["x" := Float(p.x), "y" := Float(p.y)])
  }

  /** `type_` is renamed to `type`. */
  function SignalJson(s: Signal): (v: Value)
    ensures v.Object? && v.fields.Keys == {"type", "name"}
    ensures ParseSignal(v) == Some(s)
  {
    Object(map["type" := Str(s.kind), "name" := Str(s.name)])
  }

  /** The slot is written as an integer, not a float. */
  function IconJson(i: Icon): (v: Value)
    ensures v.Object? && v.fields.Keys == {"signal", "index"}
    ensures v.fields["index"] == Int(i.index)
    ensures ParseIcon(v) == Some(i)
  {
    Object(map["signal" := SignalJson(i.signal), "index" := Int(i.index)])
  }

  /** A plain entity has exactly these three fields and nothing else. */
  function EntityJson(e: Entity): (v: Value)
    ensures v.Object? && v.fields.Keys == {"entity_number", "name", "position"}
  {
    Object(map["entity_number" := Int(e.number), "name" := Str(e.name),
               "position" := PositionJson(e.position)])
  }

  function IconsJson(icons: seq<Icon>): (v: Value)
    ensures v.Array? && |v.items| == |icons|
  {
    Array(seq(|icons|, k requires 0 <= k < |icons| => IconJson(icons[k])))
  }

  function EntitiesJson(entities: seq<Entity>): (v: Value)
    ensures v.Array? && |v.items| == |entities|
  {
    Array(seq(|entities|, k requires 0 <= k < |entities| => EntityJson(entities[k])))
  }

  const BLUEPRINT_FIELDS: set<string> := {"icons", "entities", "item", "label", "description"}
  const BOOK_FIELDS: set<string> := {"icons", "blueprints", "item", "label", "description"}

  function BlueprintJson(b: Blueprint): (v: Value)
    ensures v.Object? && v.fields.Keys == BLUEPRINT_FIELDS
  {
    Object(map["icons" := IconsJson(b.icons), "entities" := EntitiesJson(b.entities),
               "item" := Str(b.item), "label" := Str(b.title),
               "description" := Str(b.description)])
  }

  /** Shows every value of a map with `show`, keeping the keys. */
  function ShowFields<T>(m: map<string, T>, show: T -> Value): (fields: map<string, Value>)
    ensures fields.Keys == m.Keys
  {
    map k | k in m :: show(m[k])
  }

  /** A `HashMap<&str, BlueprintBuilder>` element of a book. */
  function WrapperJson(m: map<string, Blueprint>): (v: Value)
    ensures v.Object? && v.fields.Keys == m.Keys
  {
    Object(ShowFields(m, BlueprintJson))
  }

  function WrappersJson(ms: seq<map<string, Blueprint>>): (v: Value)
    ensures v.Array? && |v.items| == |ms|
  {
    Array(seq(|ms|, k requires 0 <= k < |ms| => WrapperJson(ms[k])))
  }

  function BookJson(bk: Book): (v: Value)
    ensures v.Object? && v.fields.Keys == BOOK_FIELDS
  {
    Object(map["icons" := IconsJson(bk.icons), "blueprints" := WrappersJson(bk.blueprints),
               "item" := Str(bk.item), "label" := Str(bk.title),
               "description" := Str(bk.description)])
  }

  // ---------------------------------------------------------------------
  // Framing
  // ---------------------------------------------------------------------

  /** The document `render` serializes for a blueprint: `{"blueprint": ...}`. */
  function BlueprintDocument(b: Blueprint): (v: Value)
    ensures v.Object? && v.fields.Keys == {BLUEPRINT_ROOT}
  {
    Singleton(BLUEPRINT_ROOT, BlueprintJson(b))
  }

  /** The document `render` serializes for a book: `{"blueprint_book": ...}`. */
  function BookDocument(bk: Book): (v: Value)
    ensures v.Object? && v.fields.Keys == {BOOK_ROOT}
  {
    Singleton(BOOK_ROOT, BookJson(bk))
  }

  /** `BlueprintBuilder::render`. */
  function RenderBlueprint(b: Blueprint, enc: Value -> seq<byte>): (out: seq<byte>)
    ensures |out| >= 1 && out[0] == MARKER
    ensures out[1..] == enc(BlueprintDocument(b))
  {
    [MARKER] + enc(BlueprintDocument(b))
  }

  /** `BookBuilder::render`. */
  function RenderBook(bk: Book, enc: Value -> seq<byte>): (out: seq<byte>)
    ensures |out| >= 1 && out[0] == MARKER
    ensures out[1..] == enc(BookDocument(bk))
  {
    [MARKER] + enc(BookDocument(bk))
  }

  // ---------------------------------------------------------------------
  // Reading back
  // ---------------------------------------------------------------------

  function ParseString(v: Value): Option<string> {
    if v.Str? then Some(v.s) else None
  }

  function ParsePosition(v: Value): Option<Position> {
    if v.Object? && v.fields.Keys == {"x", "y"} && v.fields["x"].Float? && v.fields["y"].Float?
    then Some(Position(v.fields["x"].f, v.fields["y"].f))
    else None
  }

  function ParseSignal(v: Value): Option<Signal> {
    if v.Object? && v.fields.Keys == {"type", "name"} && v.fields["type"].Str? && v.fields["name"].Str?
    then Some(Signal(v.fields["type"].s, v.fields["name"].s))
    else None
  }

  function ParseIcon(v: Value): Option<Icon> {
    if v.Object? && v.fields.Keys == {"signal", "index"} then
      var signal :- ParseSignal(v.fields["signal"]);
      var index := v.fields["index"];
      if index.Int? && 0 <= index.i <= U8_MAX then Some(Icon(signal, index.i)) else None
    else None
  }

  function ParseEntity(v: Value): Option<Entity> {
    if v.Object? && v.fields.Keys == {"entity_number", "name", "position"} then
      var number := v.fields["entity_number"];
      var name :- ParseString(v.fields["name"]);
      var position :- ParsePosition(v.fields["position"]);
      if number.Int? && 0 <= number.i <= U32_MAX then Some(Entity(number.i, name, position)) else None
    else None
  }

  function ParseIcons(vs: seq<Value>): (r: Option<seq<Icon>>)
    ensures r.Some? ==> |r.value| == |vs|
    decreases |vs|
  {
    if vs == [] then Some([])
    else
      var icon :- ParseIcon(vs[0]);
      var rest :- ParseIcons(vs[1..]);
      Some([icon] + rest)
  }

  function ParseEntities(vs: seq<Value>): (r: Option<seq<Entity>>)
    ensures r.Some? ==> |r.value| == |vs|
    decreases |vs|
  {
    if vs == [] then Some([])
    else
      var entity :- ParseEntity(vs[0]);
      var rest :- ParseEntities(vs[1..]);
      Some([entity] + rest)
  }

  function ParseBlueprint(v: Value): Option<Blueprint> {
    if v.Object? && v.fields.Keys == BLUEPRINT_FIELDS
       && v.fields["icons"].Array? && v.fields["entities"].Array? then
      var icons :- ParseIcons(v.fields["icons"].items);
      var entities :- ParseEntities(v.fields["entities"].items);
      var item :- ParseString(v.fields["item"]);
      var title :- ParseString(v.fields["label"]);
      var description :- ParseString(v.fields["description"]);
      Some(Blueprint(icons, entities, item, title, description))
    else None
  }

  /** Parses every field of an object with `parse`. */
  function ParseFields<T>(fields: map<string, Value>, parse: Value -> Option<T>): Option<map<string, T>> {
    if forall k :: k in fields ==> parse(fields[k]).Some?
    then Some(map k | k in fields :: parse(fields[k]).value)
    else None
  }

  function ParseWrapper(v: Value): Option<map<string, Blueprint>> {
    if v.Object? then ParseFields(v.fields, ParseBlueprint) else None
  }

  function ParseWrappers(vs: seq<Value>): (r: Option<seq<map<string, Blueprint>>>)
    ensures r.Some? ==> |r.value| == |vs|
    decreases |vs|
  {
    if vs == [] then Some([])
    else
      var m :- ParseWrapper(vs[0]);
      var rest :- ParseWrappers(vs[1..]);
      Some([m] + rest)
  }

  function ParseBook(v: Value): Option<Book> {
    if v.Object? && v.fields.Keys == BOOK_FIELDS
       && v.fields["icons"].Array? && v.fields["blueprints"].Array? then
      var icons :- ParseIcons(v.fields["icons"].items);
      var blueprints :- ParseWrappers(v.fields["blueprints"].items);
      var item :- ParseString(v.fields["item"]);
      var title :- ParseString(v.fields["label"]);
      var description :- ParseString(v.fields["description"]);
      Some(Book(icons, blueprints, item, title, description))
    else None
  }

  /** The body of a rendered document under the given root key, if the
      marker is present and the decoded wrapper has that key and no other. */
  function Unframe(out: seq<byte>, root: string, dec: seq<byte> -> Option<Value>): (r: Option<Value>)
    ensures r.Some? ==> |out| >= 1 && out[0] == MARKER
  {
    if |out| == 0 || out[0] != MARKER then None
    else
      var wrapper :- dec(out[1..]);
      if wrapper.Object? && wrapper.fields.Keys == {root} then Some(wrapper.fields[root]) else None
  }

  function ReadBlueprint(out: seq<byte>, dec: seq<byte> -> Option<Value>): Option<Blueprint> {
    var body :- Unframe(out, BLUEPRINT_ROOT, dec);
    ParseBlueprint(body)
  }

  function ReadBook(out: seq<byte>, dec: seq<byte> -> Option<Value>): Option<Book> {
    var body :- Unframe(out, BOOK_ROOT, dec);
    ParseBook(body)
  }

  // ---------------------------------------------------------------------
  // Round trips
  // ---------------------------------------------------------------------

  /** `dec` undoes `enc` on the document `v`. Only the documents actually
      rendered are asked for: no byte encoding can undo every `Value`,
      since a `Float` may hold any real. */
  predicate UndoesOn(dec: seq<byte> -> Option<Value>, enc: Value -> seq<byte>, v: Value) {
    dec(enc(v)) == Some(v)
  }

  lemma {:induction false} IconsRoundTrip(icons: seq<Icon>)
    ensures ParseIcons(IconsJson(icons).items) == Some(icons)
    decreases |icons|
  {
    if icons != [] {
      assert IconsJson(icons).items[1..] == IconsJson(icons[1..]).items;
      IconsRoundTrip(icons[1..]);
      assert [icons[0]] + icons[1..] == icons;
    }
  }

  lemma {:induction false} EntitiesRoundTrip(entities: seq<Entity>)
    ensures ParseEntities(EntitiesJson(entities).items) == Some(entities)
    decreases |entities|
  {
    if entities != [] {
      assert EntitiesJson(entities).items[1..] == EntitiesJson(entities[1..]).items;
      EntitiesRoundTrip(entities[1..]);
      assert [entities[0]] + entities[1..] == entities;
    }
  }

  /** Every field of a blueprint survives serialization. */
  lemma BlueprintRoundTrip(b: Blueprint)
    ensures ParseBlueprint(BlueprintJson(b)) == Some(b)
  {
    IconsRoundTrip(b.icons);
    EntitiesRoundTrip(b.entities);
  }

  /** Parsing fields that were shown field by field gives the map back,
      when `parse` undoes `show`. */
  lemma ParseFieldsInverse<T>(m: map<string, T>, show: T -> Value, parse: Value -> Option<T>)
    requires forall t :: parse(show(t)) == Some(t)
    ensures ParseFields(ShowFields(m, show), parse) == Some(m)
  {
    var fields := ShowFields(m, show);
    assert (map k | k in fields :: parse(fields[k]).value) == m;
  }

  lemma BlueprintsRoundTrip()
    ensures forall b :: ParseBlueprint(BlueprintJson(b)) == Some(b)
  {
    forall b: Blueprint
      ensures ParseBlueprint(BlueprintJson(b)) == Some(b)
    {
      BlueprintRoundTrip(b);
    }
  }

  lemma WrapperRoundTrip(m: map<string, Blueprint>)
    ensures ParseWrapper(WrapperJson(m)) == Some(m)
  {
    BlueprintsRoundTrip();
    ParseFieldsInverse(m, BlueprintJson, ParseBlueprint);
  }

  lemma {:induction false} WrappersRoundTrip(ms: seq<map<string, Blueprint>>)
    ensures ParseWrappers(WrappersJson(ms).items) == Some(ms)
    decreases |ms|
  {
    if ms != [] {
      assert WrappersJson(ms).items[1..] == WrappersJson(ms[1..]).items;
      WrapperRoundTrip(ms[0]);
      WrappersRoundTrip(ms[1..]);
      assert [ms[0]] + ms[1..] == ms;
    }
  }

  /** Every field of a book survives serialization, and so does each
      wrapped blueprint it holds. */
  lemma BookRoundTrip(bk: Book)
    ensures ParseBook(BookJson(bk)) == Some(bk)
  {
    var v := BookJson(bk);
    IconsRoundTrip(bk.icons);
    assert v.fields["icons"] == IconsJson(bk.icons);
    WrappersRoundTrip(bk.blueprints);
    assert v.fields["blueprints"] == WrappersJson(bk.blueprints);
  }

  /** Reading a rendered blueprint gives back the blueprint, for any codec
      that decodes the rendered document. */
  lemma ReadRenderedBlueprint(b: Blueprint, enc: Value -> seq<byte>, dec: seq<byte> -> Option<Value>)
    requires UndoesOn(dec, enc, BlueprintDocument(b))
    ensures ReadBlueprint(RenderBlueprint(b, enc), dec) == Some(b)
  {
    var out := RenderBlueprint(b, enc);
    assert dec(out[1..]) == Some(BlueprintDocument(b));
    BlueprintRoundTrip(b);
  }

  /** Reading a rendered book gives back the book, for any codec that
      decodes the rendered document. */
  lemma ReadRenderedBook(bk: Book, enc: Value -> seq<byte>, dec: seq<byte> -> Option<Value>)
    requires UndoesOn(dec, enc, BookDocument(bk))
    ensures ReadBook(RenderBook(bk, enc), dec) == Some(bk)
  {
    var out := RenderBook(bk, enc);
    assert dec(out[1..]) == Some(BookDocument(bk));
    BookRoundTrip(bk);
  }

  /** The root key tells the two documents apart: a rendered book never
      reads as a blueprint, nor a rendered blueprint as a book. */
  lemma RootKeysDistinguish(b: Blueprint, bk: Book, enc: Value -> seq<byte>, dec: seq<byte> -> Option<Value>)
    requires UndoesOn(dec, enc, BookDocument(bk))
    requires UndoesOn(dec, enc, BlueprintDocument(b))
    ensures ReadBlueprint(RenderBook(bk, enc), dec) == None
    ensures ReadBook(RenderBlueprint(b, enc), dec) == None
  {
    assert |BLUEPRINT_ROOT| != |BOOK_ROOT|;
  }

  /** The per-document requirement can be met: a codec that writes every
      value as the empty string and reads it back as this one document. */
  lemma UndoesOnSatisfiable(b: Blueprint)
    ensures UndoesOn(_ => Some(BlueprintDocument(b)), _ => [], BlueprintDocument(b))
  {
  }
}
