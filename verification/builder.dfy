/** The entity-layout builders of `src/bp/builder.rs`: a blueprint holds
    ordered icons and entities, a book holds icons and wrapped blueprints.
    Both are append-only; icon slots and entity numbers are 1-based and are
    derived from the list length at insertion time. Each mutating Rust method
    becomes a pure function returning the updated record. */
module Builder {
  import opened Results

  const U8_MAX := 0xFF
  const U32_MAX := 0xFFFF_FFFF

  type u8 = n: int | 0 <= n <= U8_MAX
  type u32 = n: int | 0 <= n <= U32_MAX

  /** Signal type of every icon. */
  const ITEM_SIGNAL := "item"
  /** The fixed `item` field of a blueprint and of a book. */
  const BLUEPRINT_ITEM := "blueprint"
  const BOOK_ITEM := "blueprint-book"
  /** The key under which a book stores each of its blueprints. */
  const BLUEPRINT_KEY := "blueprint"

  /** Coordinates are `f32` in the source; rounding is not modelled. */
  datatype Position = Position(x: real, y: real)

  datatype Signal = Signal(kind: string, name: string)

  datatype Icon = Icon(signal: Signal, index: u8)

  datatype Entity = Entity(number: u32, name: string, position: Position)

  datatype Blueprint = Blueprint(
    icons: seq<Icon>,
    entities: seq<Entity>,
    item: string,
    title: string,
    description: string)

  datatype Book = Book(
    icons: seq<Icon>,
    blueprints: seq<map<string, Blueprint>>,
    item: string,
    title: string,
    description: string)

  /** An entity still to be numbered: what one `add` call is given. */
  datatype Placement = Placement(name: string, position: Position)

  // ---------------------------------------------------------------------
  // Index assignment
  // ---------------------------------------------------------------------

  /** `len as uN + 1` for an N-bit unsigned type with `modulus == 2^N`: the
      cast truncates, and the checked addition panics when the truncated
      length is already the largest value of the type. */
  function CastPlusOne(len: nat, modulus: nat, overflow: Fault): (r: Result<nat>)
    requires modulus > 1
    ensures r.Ok? <==> len % modulus != modulus - 1
    ensures r.Ok? ==> 1 <= r.value < modulus && r.value == len % modulus + 1
    ensures len < modulus - 1 ==> r == Ok(len + 1)
    ensures r.Err? ==> r.fault == overflow
  {
    var truncated := len % modulus;
    if truncated == modulus - 1 then Err(overflow) else Ok(truncated + 1)
  }

  /** Appends an icon for `name` at the next slot; shared by both builders. */
  function PushIcon(icons: seq<Icon>, name: string): (r: Result<seq<Icon>>)
    ensures r.Ok? <==> |icons| % 0x100 != U8_MAX
    ensures r.Err? ==> r.fault == IconIndexOverflow
    ensures r.Ok? ==> |r.value| == |icons| + 1 && r.value[..|icons|] == icons
    ensures r.Ok? ==> r.value[|icons|].signal == Signal(ITEM_SIGNAL, name)
    ensures |icons| < U8_MAX ==> r.Ok? && r.value[|icons|].index == |icons| + 1
  {
    var index :- CastPlusOne(|icons|, 0x100, IconIndexOverflow);
    Ok(icons + [Icon(Signal(ITEM_SIGNAL, name), index)])
  }

  // ---------------------------------------------------------------------
  // BlueprintBuilder
  // ---------------------------------------------------------------------

  /** Icon slots are 1, 2, ..., n in list order. */
  predicate IconsContiguous(icons: seq<Icon>) {
    forall k :: 0 <= k < |icons| ==> icons[k].index == k + 1
  }

  /** Entity numbers are 1, 2, ..., n in list order. */
  predicate EntitiesContiguous(entities: seq<Entity>) {
    forall k :: 0 <= k < |entities| ==> entities[k].number == k + 1
  }

  /** What every blueprint built through the public API satisfies. */
  predicate WellFormed(b: Blueprint) {
    && b.item == BLUEPRINT_ITEM
    && |b.icons| <= U8_MAX
    && |b.entities| <= U32_MAX
    && IconsContiguous(b.icons)
    && EntitiesContiguous(b.entities)
  }

  function New(title: string, description: string): (r: Blueprint)
    ensures r.icons == [] && r.entities == []
    ensures r.item == BLUEPRINT_ITEM
    ensures r.title == title && r.description == description
    ensures WellFormed(r)
  {
    Blueprint([], [], BLUEPRINT_ITEM, title, description)
  }

  /** `add_icon`: appends one icon; panics when the 256th icon is added. */
  function AddIcon(b: Blueprint, name: string): (r: Result<Blueprint>)
    ensures r.Ok? <==> |b.icons| % 0x100 != U8_MAX
    ensures r.Err? ==> r.fault == IconIndexOverflow
    ensures r.Ok? ==>
      && |r.value.icons| == |b.icons| + 1
      && r.value.icons[..|b.icons|] == b.icons
      && r.value.icons[|b.icons|].signal == Signal(ITEM_SIGNAL, name)
      && r.value.entities == b.entities
      && r.value.item == b.item && r.value.title == b.title
      && r.value.description == b.description
    ensures |b.icons| < U8_MAX ==> r.Ok? && r.value.icons[|b.icons|].index == |b.icons| + 1
    ensures WellFormed(b) && r.Ok? ==> WellFormed(r.value)
  {
    var icons :- PushIcon(b.icons, name);
    Ok(b.(icons := icons))
  }

  /** `add`: appends one entity numbered `len + 1`; panics on the entity
      after number 4294967295. */
  function Add(b: Blueprint, name: string, x: real, y: real): (r: Result<Blueprint>)
    ensures r.Ok? <==> |b.entities| % 0x1_0000_0000 != U32_MAX
    ensures r.Err? ==> r.fault == EntityNumberOverflow
    ensures r.Ok? ==>
      && |r.value.entities| == |b.entities| + 1
      && r.value.entities[..|b.entities|] == b.entities
      && r.value.entities[|b.entities|].name == name
      && r.value.entities[|b.entities|].position == Position(x, y)
      && r.value.icons == b.icons
      && r.value.item == b.item && r.value.title == b.title
      && r.value.description == b.description
    ensures |b.entities| < U32_MAX ==>
      r.Ok? && r.value.entities[|b.entities|].number == |b.entities| + 1
    ensures WellFormed(b) && r.Ok? ==> WellFormed(r.value)
  {
    var number :- CastPlusOne(|b.entities|, 0x1_0000_0000, EntityNumberOverflow);
    Ok(b.(entities := b.entities + [Entity(number, name, Position(x, y))]))
  }

  /** A run of `add_icon` calls, in order. */
  function AddIcons(b: Blueprint, names: seq<string>): Result<Blueprint>
    decreases |names|
  {
    if names == [] then Ok(b)
    else
      var b' :- AddIcon(b, names[0]);
      AddIcons(b', names[1..])
  }

  /** A run of `add` calls, in order. */
  function AddEntities(b: Blueprint, ps: seq<Placement>): Result<Blueprint>
    decreases |ps|
  {
    if ps == [] then Ok(b)
    else
      var b' :- Add(b, ps[0].name, ps[0].position.x, ps[0].position.y);
      AddEntities(b', ps[1..])
  }

  /** The icons that `names` receive when the list already holds `start`. */
  function IconsFor(names: seq<string>, start: nat): (r: seq<Icon>)
    requires start + |names| <= U8_MAX
    ensures |r| == |names|
  {
    seq(|names|, k requires 0 <= k < |names| => Icon(Signal(ITEM_SIGNAL, names[k]), start + k + 1))
  }

  /** The entities that `ps` become when the list already holds `start`. */
  function Numbered(ps: seq<Placement>, start: nat): (r: seq<Entity>)
    requires start + |ps| <= U32_MAX
    ensures |r| == |ps|
  {
    seq(|ps|, k requires 0 <= k < |ps| => Entity(start + k + 1, ps[k].name, ps[k].position))
  }

  /** Within the u8 range, a run of `add_icon` calls appends exactly one
      icon per name, slots continuing from the current length. */
  lemma {:induction false} AddIconsAppends(b: Blueprint, names: seq<string>)
    requires |b.icons| + |names| <= U8_MAX
    ensures AddIcons(b, names) == Ok(b.(icons := b.icons + IconsFor(names, |b.icons|)))
    decreases |names|
  {
    if names != [] {
      var b' := AddIcon(b, names[0]).value;
      assert b'.icons == b.icons + [Icon(Signal(ITEM_SIGNAL, names[0]), |b.icons| + 1)];
      AddIconsAppends(b', names[1..]);
      assert IconsFor(names, |b.icons|) == [b'.icons[|b.icons|]] + IconsFor(names[1..], |b'.icons|);
      assert b.icons + IconsFor(names, |b.icons|)
          == b'.icons + IconsFor(names[1..], |b'.icons|);
      assert AddIcons(b, names) == AddIcons(b', names[1..]);
    } else {
      assert b.icons + IconsFor(names, |b.icons|) == b.icons;
    }
  }

  /** Once the u8 range is exhausted, the run panics. */
  lemma {:induction false} AddIconsOverflows(b: Blueprint, names: seq<string>)
    requires |b.icons| <= U8_MAX < |b.icons| + |names|
    ensures AddIcons(b, names) == Err(IconIndexOverflow)
    decreases |names|
  {
    if |b.icons| < U8_MAX {
      AddIconsOverflows(AddIcon(b, names[0]).value, names[1..]);
    }
  }

  /** After n `add_icon` calls on a fresh builder the slots are exactly
      1..n in call order, and this succeeds if and only if n <= 255. */
  lemma FreshIconsContiguous(title: string, description: string, names: seq<string>)
    ensures AddIcons(New(title, description), names).Ok? <==> |names| <= U8_MAX
    ensures |names| <= U8_MAX ==>
      var b := AddIcons(New(title, description), names).value;
      && |b.icons| == |names|
      && IconsContiguous(b.icons)
      && (forall k :: 0 <= k < |names| ==> b.icons[k].signal == Signal(ITEM_SIGNAL, names[k]))
      && b.entities == [] && b.title == title && b.description == description
  {
    if |names| <= U8_MAX {
      AddIconsAppends(New(title, description), names);
    } else {
      AddIconsOverflows(New(title, description), names);
    }
  }

  /** Within the u32 range, a run of `add` calls appends exactly one entity
      per placement, numbers continuing from the current length. */
  lemma {:induction false} AddEntitiesAppends(b: Blueprint, ps: seq<Placement>)
    requires |b.entities| + |ps| <= U32_MAX
    ensures AddEntities(b, ps) == Ok(b.(entities := b.entities + Numbered(ps, |b.entities|)))
    decreases |ps|
  {
    if ps != [] {
      var b' := Add(b, ps[0].name, ps[0].position.x, ps[0].position.y).value;
      assert b'.entities == b.entities + [Entity(|b.entities| + 1, ps[0].name, ps[0].position)];
      AddEntitiesAppends(b', ps[1..]);
      assert b.entities + Numbered(ps, |b.entities|)
          == b'.entities + Numbered(ps[1..], |b'.entities|);
    } else {
      assert b.entities + Numbered(ps, |b.entities|) == b.entities;
    }
  }

  /** Once the u32 range is exhausted, the run panics. */
  lemma {:induction false} AddEntitiesOverflows(b: Blueprint, ps: seq<Placement>)
    requires |b.entities| <= U32_MAX < |b.entities| + |ps|
    ensures AddEntities(b, ps) == Err(EntityNumberOverflow)
    decreases |ps|
  {
    if |b.entities| < U32_MAX {
      AddEntitiesOverflows(Add(b, ps[0].name, ps[0].position.x, ps[0].position.y).value, ps[1..]);
    }
  }

  /** Running two batches of `add` calls one after the other is running
      their concatenation. */
  lemma {:induction false} AddEntitiesConcat(b: Blueprint, ps: seq<Placement>, qs: seq<Placement>)
    ensures AddEntities(b, ps + qs) ==
      match AddEntities(b, ps)
      case Ok(b') => AddEntities(b', qs)
      case Err(f) => Err(f)
    decreases |ps|
  {
    if ps != [] {
      assert (ps + qs)[0] == ps[0];
      assert (ps + qs)[1..] == ps[1..] + qs;
      var r := Add(b, ps[0].name, ps[0].position.x, ps[0].position.y);
      if r.Ok? {
        AddEntitiesConcat(r.value, ps[1..], qs);
      }
    } else {
      assert ps + qs == qs;
    }
  }

  /** After n `add` calls on a fresh builder the entity numbers are exactly
      1..n in call order, with the given names and positions. */
  lemma FreshEntitiesContiguous(title: string, description: string, ps: seq<Placement>)
    ensures AddEntities(New(title, description), ps).Ok? <==> |ps| <= U32_MAX
    ensures |ps| <= U32_MAX ==>
      var b := AddEntities(New(title, description), ps).value;
      && |b.entities| == |ps|
      && EntitiesContiguous(b.entities)
      && (forall k :: 0 <= k < |ps| ==>
            b.entities[k].name == ps[k].name && b.entities[k].position == ps[k].position)
      && b.icons == [] && b.title == title && b.description == description
  {
    if |ps| <= U32_MAX {
      AddEntitiesAppends(New(title, description), ps);
    } else {
      AddEntitiesOverflows(New(title, description), ps);
    }
  }

  // ---------------------------------------------------------------------
  // BookBuilder
  // ---------------------------------------------------------------------

  function NewBook(title: string, description: string): (r: Book)
    ensures r.icons == [] && r.blueprints == []
    ensures r.item == BOOK_ITEM
    ensures r.title == title && r.description == description
  {
    Book([], [], BOOK_ITEM, title, description)
  }

  /** `BookBuilder::add_icon`: the same slot rule as a blueprint's. */
  function AddBookIcon(bk: Book, name: string): (r: Result<Book>)
    ensures r.Ok? <==> |bk.icons| % 0x100 != U8_MAX
    ensures r.Err? ==> r.fault == IconIndexOverflow
    ensures r.Ok? ==>
      && |r.value.icons| == |bk.icons| + 1
      && r.value.icons[..|bk.icons|] == bk.icons
      && r.value.icons[|bk.icons|].signal == Signal(ITEM_SIGNAL, name)
      && r.value.blueprints == bk.blueprints
      && r.value.item == bk.item && r.value.title == bk.title
      && r.value.description == bk.description
    ensures |bk.icons| < U8_MAX ==> r.Ok? && r.value.icons[|bk.icons|].index == |bk.icons| + 1
    ensures IconsContiguous(bk.icons) && r.Ok? && |bk.icons| < U8_MAX ==> IconsContiguous(r.value.icons)
  {
    var icons :- PushIcon(bk.icons, name);
    Ok(bk.(icons := icons))
  }

  /** A run of `BookBuilder::add_icon` calls, in order. */
  function AddBookIcons(bk: Book, names: seq<string>): Result<Book>
    decreases |names|
  {
    if names == [] then Ok(bk)
    else
      var bk' :- AddBookIcon(bk, names[0]);
      AddBookIcons(bk', names[1..])
  }

  lemma {:induction false} AddBookIconsAppends(bk: Book, names: seq<string>)
    requires |bk.icons| + |names| <= U8_MAX
    ensures AddBookIcons(bk, names) == Ok(bk.(icons := bk.icons + IconsFor(names, |bk.icons|)))
    decreases |names|
  {
    if names != [] {
      var bk' := AddBookIcon(bk, names[0]).value;
      assert bk'.icons == bk.icons + [Icon(Signal(ITEM_SIGNAL, names[0]), |bk.icons| + 1)];
      AddBookIconsAppends(bk', names[1..]);
      assert bk.icons + IconsFor(names, |bk.icons|)
          == bk'.icons + IconsFor(names[1..], |bk'.icons|);
    } else {
      assert bk.icons + IconsFor(names, |bk.icons|) == bk.icons;
    }
  }

  /** The single-key map `{"blueprint": bp}`. */
  function Wrap(bp: Blueprint): (m: map<string, Blueprint>)
    ensures m.Keys == {BLUEPRINT_KEY} && m[BLUEPRINT_KEY] == bp
  {
    map[BLUEPRINT_KEY := bp]
  }

  /** Reads back the blueprint of a single-key wrapper; inverse of `Wrap`. */
  function Unwrap(m: map<string, Blueprint>): (r: Option<Blueprint>)
    ensures r.Some? <==> m.Keys == {BLUEPRINT_KEY}
    ensures r.Some? ==> Wrap(r.value) == m
  {
    if m.Keys == {BLUEPRINT_KEY} then Some(m[BLUEPRINT_KEY]) else None
  }

  /** `add_blueprint`: the book takes the blueprint, wrapped. */
  function AddBlueprint(bk: Book, bp: Blueprint): (r: Book)
    ensures |r.blueprints| == |bk.blueprints| + 1
    ensures r.blueprints[..|bk.blueprints|] == bk.blueprints
    ensures Unwrap(r.blueprints[|bk.blueprints|]) == Some(bp)
    ensures r.icons == bk.icons && r.item == bk.item
    ensures r.title == bk.title && r.description == bk.description
  {
    bk.(blueprints := bk.blueprints + [Wrap(bp)])
  }

  /** A run of `add_blueprint` calls, in order. */
  function AddBlueprints(bk: Book, bps: seq<Blueprint>): Book
    decreases |bps|
  {
    if bps == [] then bk else AddBlueprints(AddBlueprint(bk, bps[0]), bps[1..])
  }

  /** After a run of `add_blueprint` calls the new elements unwrap to the
      given blueprints, one each, in call order; nothing else changes. */
  lemma {:induction false} AddBlueprintsAppends(bk: Book, bps: seq<Blueprint>)
    ensures var r := AddBlueprints(bk, bps);
      && |r.blueprints| == |bk.blueprints| + |bps|
      && r.blueprints[..|bk.blueprints|] == bk.blueprints
      && (forall k :: 0 <= k < |bps| ==> Unwrap(r.blueprints[|bk.blueprints| + k]) == Some(bps[k]))
      && r.icons == bk.icons && r.item == bk.item
      && r.title == bk.title && r.description == bk.description
    decreases |bps|
  {
    if bps != [] {
      var bk' := AddBlueprint(bk, bps[0]);
      AddBlueprintsAppends(bk', bps[1..]);
      var r := AddBlueprints(bk', bps[1..]);
      assert r.blueprints[..|bk.blueprints|] == r.blueprints[..|bk'.blueprints|][..|bk.blueprints|];
      forall k | 0 <= k < |bps|
        ensures Unwrap(r.blueprints[|bk.blueprints| + k]) == Some(bps[k])
      {
        if k == 0 {
          assert r.blueprints[|bk.blueprints|] == r.blueprints[..|bk'.blueprints|][|bk.blueprints|];
        } else {
          assert |bk.blueprints| + k == |bk'.blueprints| + (k - 1);
        }
      }
    }
  }
}
