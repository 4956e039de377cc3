# factorio-rs blueprint builder and QR placement, in Dafny

This project models the entity-layout builder of factorio-rs
(`src/bp/builder.rs`) and the QR-code generator that drives it
(`src/qr.rs`), and proves properties of the model.

- A **blueprint** (`BlueprintBuilder`) holds ordered icons, ordered entities,
  the fixed `item` `"blueprint"`, a label and a description. `add_icon` and
  `add` append one record each. The icon slot or entity number is taken from
  the list length at the moment of insertion: `len as u8 + 1` and
  `len as u32 + 1`.
- A **book** (`BookBuilder`) holds icons and blueprints. Each blueprint is
  stored wrapped in the one-key map `{"blueprint": bp}`.
- **Rendering** writes the byte `'0'`, then the base64 text of the zlib
  stream of the JSON of a one-key wrapper. The key is `"blueprint"` for a
  blueprint and `"blueprint_book"` for a book.
- **`add_qr_code`** walks a boolean matrix row by row. For every `true` cell
  at outer index `ix` and inner index `iy` it adds a `"stone-wall"` entity at
  `(x + ix, y + iy)`.
- **`run`** turns one URL into a blueprint, or several URLs into a book. Each
  blueprint gets the QR walls and then four stone-wall icons; the book also
  gets four stone-wall icons.

Modules, one per concern:

| file | module | models |
|---|---|---|
| `results.dfy` | `Results` | `Result`/`Option`, and `Fault`, the panics of the code |
| `json.dfy` | `Json` | the JSON value the serializer produces, bytes, the `'0'` marker |
| `builder.dfy` | `Builder` | the records and the two builders |
| `render.dfy` | `Render` | the `#[derive(Serialize)]` shape, both `render` impls, a reader |
| `qr.dfy` | `Qr` | `add_qr_code` and `run` |

Modelling choices:

- Every `&mut self` method is a pure function that returns the updated
  record.
- Rust's `as u8` / `as u32` casts truncate, and the following `+ 1` is an
  overflow panic in a debug build. `CastPlusOne` writes both out. An add
  whose index would overflow returns `Err`.
- The JSON, zlib and base64 crates are foreign code. `render` takes the
  encoder as a parameter `enc: Value -> seq<byte>`. The model fixes only the
  framing: the marker byte first, then `enc` of the one-key wrapper. What
  this framing preserves is stated with a reader. The reader needs a decoder
  `dec` that undoes `enc` on the one document that was rendered
  (`UndoesOn(dec, enc, BlueprintDocument(b))`, or the same with
  `BookDocument`). It does not ask `dec` to undo `enc` on every value: no
  byte encoding could do that, because a `Float` holds any real. With such
  a decoder, reading the rendered bytes gives back the blueprint or the book.
- The QR matrix generator is foreign code. `add_qr_code` takes the matrix as
  a `seq<seq<bool>>`. `run` takes the generator as a parameter
  `qr: string -> Option<Grid>`, and `None` stands for the error that
  `.unwrap()` turns into a panic.
- Coordinates are `real`. The source uses `f32`.
- Dafny reserves the word `label`, so the `label` field is named `title`.
  It still serializes under the key `"label"`.
- `src/trains.rs` calls `add_with_items`, `add_with_inventory` and
  `add_schedule`, but `src/bp/builder.rs` defines none of them, nor any
  schedule or inventory field. The model follows `src/bp/builder.rs`. A
  blueprint serializes exactly `icons`, `entities`, `item`, `label` and
  `description`. An entity serializes exactly `entity_number`, `name` and
  `position`.
- The loop of `run` over the URLs is `AddEach`, a fold that takes the
  per-URL step as a parameter. `AddUrlBlueprints` instantiates it with
  `UrlBlueprint`. The fold's lemmas therefore do not depend on how one
  blueprint is built.
- Icon contiguity holds for up to 255 icons, not just fewer than 255. The
  255th `add_icon` computes `254 + 1`. Only the 256th call overflows.

## Model

| member | source | states |
|---|---|---|
| `Builder.CastPlusOne` | src/bp/builder.rs:68 | `len as uN + 1` fails exactly when the truncated length is the type's maximum; otherwise it is the truncated length plus one, and it equals `len + 1` while `len` is below the maximum |
| `Builder.New` | src/bp/builder.rs:47-60 | a new blueprint has no icons and no entities, item `"blueprint"`, the given label and description, and is well formed |
| `Builder.AddIcon` | src/bp/builder.rs:62-71 | appends exactly one icon `{type "item", name}` with slot `len + 1`; the earlier icons, the entities, item, label and description are unchanged; panics exactly when `len % 256 == 255`; keeps a blueprint well formed |
| `Builder.Add` | src/bp/builder.rs:73-81 | appends exactly one entity with number `len + 1`, the given name and position; the earlier entities and all other fields are unchanged; panics exactly when `len % 2^32 == 2^32 - 1`; keeps a blueprint well formed |
| `Builder.AddIconsAppends` | src/bp/builder.rs:62-71 | while the total stays within 255, a run of `add_icon` calls appends one icon per name, with slots continuing from the current length, in call order |
| `Builder.AddIconsOverflows` | src/bp/builder.rs:68 | a run of `add_icon` calls that would take the list past 255 icons panics with the icon-index overflow |
| `Builder.FreshIconsContiguous` | src/bp/builder.rs:62-71 | n `add_icon` calls on a new blueprint succeed if and only if n <= 255; the slots are then exactly 1..n in call order, with the given names |
| `Builder.AddEntitiesAppends` | src/bp/builder.rs:73-81 | while the total stays within the u32 range, a run of `add` calls appends one entity per call, numbered on from the current length, in call order |
| `Builder.AddEntitiesOverflows` | src/bp/builder.rs:74 | a run of `add` calls that would pass entity number 4294967295 panics with the entity-number overflow |
| `Builder.AddEntitiesConcat` | src/bp/builder.rs:73-81 | two batches of `add` calls run one after the other give the same result as one batch of their concatenation |
| `Builder.FreshEntitiesContiguous` | src/bp/builder.rs:73-81 | n `add` calls on a new blueprint succeed if and only if n <= 2^32 - 1; the entity numbers are then exactly 1..n with no gaps or repeats, and names and positions are as given |
| `Builder.NewBook` | src/bp/builder.rs:104-117 | a new book has no icons and no blueprints, item `"blueprint-book"`, the given label and description |
| `Builder.AddBookIcon` | src/bp/builder.rs:119-128 | the book's `add_icon` follows the same rule: one icon appended at slot `len + 1`, same overflow, blueprints and other fields unchanged |
| `Builder.AddBookIconsAppends` | src/bp/builder.rs:119-128 | a run of book `add_icon` calls within 255 appends one icon per name at slots continuing from the current length |
| `Builder.Wrap` | src/bp/builder.rs:131 | the wrapper of a book element has the single key `"blueprint"`, mapped to the blueprint |
| `Builder.Unwrap` | src/bp/builder.rs:98 | a book element reads back as a blueprint exactly when its only key is `"blueprint"`, and then it is the wrapper of that blueprint |
| `Builder.AddBlueprint` | src/bp/builder.rs:129-132 | appends exactly one element, which unwraps to the given blueprint; existing elements keep their order; icons and other fields are unchanged |
| `Builder.AddBlueprintsAppends` | src/bp/builder.rs:129-132 | after a run of `add_blueprint` calls, the new elements unwrap to the given blueprints, one each, in call order, and nothing else changes |
| `Render.PositionJson` | src/bp/builder.rs:8-12 | a position serializes as an object with exactly the float fields `x` and `y`, and parses back to the same position |
| `Render.SignalJson` | src/bp/builder.rs:21-26 | a signal serializes as an object with exactly the fields `type` (renamed from `type_`) and `name`, and parses back to the same signal |
| `Render.IconJson` | src/bp/builder.rs:28-32 | an icon serializes as an object with exactly the fields `signal` and `index`, the slot written as an integer, and parses back to the same icon |
| `Render.EntityJson` | src/bp/builder.rs:14-19 | an entity serializes as an object with exactly the fields `entity_number`, `name`, `position`: no optional payload fields |
| `Render.BlueprintJson` | src/bp/builder.rs:34-41 | a blueprint serializes as an object with exactly the fields `icons`, `entities`, `item`, `label`, `description` |
| `Render.WrapperJson` | src/bp/builder.rs:98 | a book element serializes as an object with the same keys as the map it holds |
| `Render.BookJson` | src/bp/builder.rs:95-102 | a book serializes as an object with exactly the fields `icons`, `blueprints`, `item`, `label`, `description` |
| `Render.BlueprintDocument` | src/bp/builder.rs:89-90 | the document a blueprint's `render` serializes has the single root key `"blueprint"` |
| `Render.BookDocument` | src/bp/builder.rs:140-141 | the document a book's `render` serializes has the single root key `"blueprint_book"` |
| `Render.RenderBlueprint` | src/bp/builder.rs:84-93 | the output starts with the byte `'0'`, followed by the encoding of the one-key wrapper `{"blueprint": ...}` |
| `Render.RenderBook` | src/bp/builder.rs:135-144 | the output starts with the byte `'0'`, followed by the encoding of the one-key wrapper `{"blueprint_book": ...}` |
| `Render.IconsRoundTrip` | src/bp/builder.rs:28-32 | the serialized icon list parses back to the same icons, in order |
| `Render.EntitiesRoundTrip` | src/bp/builder.rs:14-19 | the serialized entity list parses back to the same entities, in order |
| `Render.BlueprintRoundTrip` | src/bp/builder.rs:34-41 | every field of a blueprint survives serialization |
| `Render.ParseFieldsInverse` | src/bp/builder.rs:98 | parsing a map whose values were serialized one by one gives the map back, whenever the value parser undoes the value serializer |
| `Render.WrapperRoundTrip` | src/bp/builder.rs:129-132 | a wrapped book element parses back to the same map |
| `Render.WrappersRoundTrip` | src/bp/builder.rs:98 | the serialized list of book elements parses back to the same list, in order |
| `Render.BookRoundTrip` | src/bp/builder.rs:95-102 | every field of a book, including each wrapped blueprint, survives serialization |
| `Render.ReadRenderedBlueprint` | src/bp/builder.rs:86-90 | with any decoder that undoes the encoder on the rendered document, reading the rendered bytes of a blueprint gives back that blueprint |
| `Render.ReadRenderedBook` | src/bp/builder.rs:137-141 | with any decoder that undoes the encoder on the rendered document, reading the rendered bytes of a book gives back that book |
| `Render.RootKeysDistinguish` | src/bp/builder.rs:140 | the root key tells the two documents apart: with a decoder that undoes the encoder on both documents, a rendered book never reads as a blueprint, and a rendered blueprint never reads as a book |
| `Qr.PlaceRow` | src/qr.rs:65-69 | the inner loop over one row appends one entity per remaining `true` cell of the row after the existing ones, and changes nothing but the entities; it succeeds whenever the numbers fit in u32, and its only failure is the entity-number overflow |
| `Qr.PlaceRows` | src/qr.rs:64-70 | the outer loop appends one entity per `true` cell of the remaining rows after the existing ones, and changes nothing but the entities; it succeeds whenever the numbers fit in u32, and its only failure is the entity-number overflow |
| `Qr.AddQrCode` | src/qr.rs:62-71 | `add_qr_code` appends one entity per `true` cell of the matrix after the existing entities and changes nothing else; it succeeds whenever the numbers fit in u32, and its only failure is the entity-number overflow |
| `Qr.TrueCells` | src/qr.rs:64-66 | the cells `add_qr_code` visits with a wall are exactly the `true` cells of the matrix, each once, in strictly increasing row-major order; there are as many of them as there are `true` cells |
| `Qr.PlaceRowIsAdds` | src/qr.rs:65-69 | the inner loop over one row performs exactly the `add` calls for that row's `true` cells, in column order |
| `Qr.PlaceRowsIsAdds` | src/qr.rs:64-70 | the outer loop performs exactly the `add` calls for all `true` cells, rows in order |
| `Qr.AddQrCodeAppends` | src/qr.rs:62-71 | `add_qr_code` succeeds if and only if the existing entities plus the `true` cells fit in u32; it then appends one numbered `stone-wall` per `true` cell at `(x + row, y + column)` and changes nothing else |
| `Qr.AddQrCodeEntities` | src/qr.rs:64-69 | entity by entity: the k-th new entity has number `old + k + 1`, is a `stone-wall`, stands on the k-th `true` cell offset by `(x, y)`; the count is the number of `true` cells; old entities, icons, label and description are unchanged; a well-formed blueprint stays well formed |
| `Qr.WallIcons` | src/qr.rs:23-26 | the four icons `run` adds are stone-wall item signals in slots 1..4 |
| `Qr.QrDescription` | src/qr.rs:20 | a blueprint's description is the fixed text with the rich-text stone-wall icon, followed by the URL, which ends it |
| `Qr.Join` | src/qr.rs:33 | `join` of a non-empty list starts with the first part and ends with the last one, and is as long as all parts plus one separator between each neighbouring pair; the join of no parts is empty; `JoinSnoc` places the middle parts |
| `Qr.JoinSnoc` | src/qr.rs:33 | joining one more part appends a separator and that part, so every part, middle ones included, appears in order with the separator between neighbours |
| `Qr.BookDescription` | src/qr.rs:31-34 | the book's description is the fixed heading, then the URLs joined by `"\n - "`, then a final newline |
| `Qr.UrlBlueprint` | src/qr.rs:17-26 | one URL's blueprint is labelled with the URL, described by `QrDescription(url)`, has item `"blueprint"` and the four stone-wall icons; it fails with the QR-encoding error exactly when the generator fails, and otherwise only with the entity-number overflow |
| `Qr.UrlBlueprintShape` | src/qr.rs:17-26 | one URL's blueprint is labelled with the URL, holds the QR walls numbered 1..n and then exactly four stone-wall icons in slots 1..4, and is well formed; it fails exactly when the generator fails or the walls overflow u32 |
| `Qr.AddEach` | src/qr.rs:40-51 | the loop over the URLs, when it succeeds, adds exactly one blueprint per URL after the existing ones and changes nothing else in the book |
| `Qr.AddEachSucceeds` | src/qr.rs:40-51 | the loop succeeds if and only if every turn succeeds |
| `Qr.AddEachAt` | src/qr.rs:40-51 | the i-th blueprint the loop appends unwraps to what the i-th turn built |
| `Qr.AddUrlBlueprintsSucceeds` | src/qr.rs:40-51 | the book loop succeeds if and only if every URL's blueprint does |
| `Qr.AddUrlBlueprintsAppends` | src/qr.rs:40-51 | when the book loop succeeds it appends every URL's blueprint, wrapped, in URL order, and changes nothing else in the book |
| `Qr.EmptyQrBook` | src/qr.rs:29-39 | before the loop, the book is titled "QR codes book", has the URL-list description, item `"blueprint-book"`, the four stone-wall icons and no blueprints |
| `Qr.Build` | src/qr.rs:15-54 | `run` builds a blueprint document exactly when given one URL; a book it builds is titled "QR codes book", has the URL-list description, item `"blueprint-book"`, the four stone-wall icons and one blueprint per URL |
| `Qr.BuildBook` | src/qr.rs:28-51 | for any number of URLs but one, `run` builds the book that the loop fills, starting from the book with the four icons |
| `Qr.DocumentJson` | src/bp/builder.rs:89-90 | the document rendered for `run`'s result has the root key `"blueprint"` for a blueprint (the wrapper of these lines) and `"blueprint_book"` for a book (the wrapper of src/bp/builder.rs:140-141) |
| `Qr.RenderDocument` | src/qr.rs:27 | the rendered bytes are the `'0'` marker followed by the encoding of the document, for the blueprint `render` call of this line and for the book `render` call of src/qr.rs:53 |
| `Qr.Run` | src/qr.rs:15-55 | `run` prints exactly when its builder calls succeed, and then, whatever the encoder, its output starts with the `'0'` marker; otherwise it stops with the panic the builder calls raised |
| `Qr.BuildOneUrl` | src/qr.rs:16-27 | with exactly one URL, `run` builds that URL's blueprint |
| `Qr.BuildManyUrls` | src/qr.rs:28-54 | with any other number of URLs, `run` builds a book titled "QR codes book" with the URL-list description and four stone-wall icons in slots 1..4, holding one wrapped blueprint per URL in input order, each labelled with its URL; it succeeds if and only if every URL's blueprint does |
| `Qr.RunReadsBack` | src/qr.rs:15-55 | with a decoder that undoes the encoder on the document `run` built, what `run` prints reads back as that document: a blueprint for one URL, a book otherwise |

## Left out

- The JSON text, zlib compression and base64 bytes come from the serde_json, flate2 and base64 crates. They are foreign code, so the encoder is a parameter and only the framing is modelled.
- Write errors are not modelled: `w.write` returning an error, or accepting fewer bytes than offered. Errors that occur while the encoders finalize on drop are not modelled either. All of this is I/O plumbing.
- `f32` arithmetic and rounding are not modelled. Positions are exact reals.
- `AddIcon`, `AddBookIcon` and `Add` model the debug-build panic on `len as uN + 1` overflow. A release build would wrap the index to 0 instead. That is not modelled, because it only happens past 255 icons or 2^32 - 1 entities.
- The QR generator `qrcode_generator::to_matrix_from_str` is not part of this model. Its matrix is an input, and its failure is `None`.
- Printing to stdout and the `expect("render")` on a render error are not modelled. `Run` returns the bytes that would be printed.
- The CLI's at-least-one-URL check is not modelled. `Build` follows the code for any list: an empty list takes the book branch.
- `src/trains.rs` is not part of this model. It calls builder operations that `src/bp/builder.rs` does not define.
- `src/cli.rs` and `src/main.rs` (argument parsing and command dispatch) are not part of this model.
