/**
 The outer terminal, as the kitty terminal graphics protocol describes it (sections "Display images
 on screen" and "Deleting images"): images by id, placements by (image id, placement id).
 */
module KittyProtocol {
  import opened Prelude

  datatype Image = Image(format: u32, width: u32, height: u32, data: seq<byte>)

  /** What a display command says about one placement. */
  datatype Shown = Shown(
    x: u16, y: u16, cols: u32, rows: u32,
    sourceX: u32, sourceY: u32, sourceWidth: u32, sourceHeight: u32,
    xOffset: u32, yOffset: u32, z: i32)

  type Key = (u32, u32)

  datatype Command =
    | Upload(id: u32, image: Image)
    | TransmitAndDisplay(id: u32, image: Image, placement: u32, shown: Shown)
    | Display(id: u32, placement: u32, shown: Shown)
    | DeleteImage(id: u32)
    | DeletePlacement(id: u32, placement: u32)

  datatype Terminal = Terminal(images: map<u32, Image>, placements: map<Key, Shown>)

  /** The entries of `m` whose image is not `id`. */
  function Without<V>(m: map<Key, V>, id: u32): map<Key, V> {
    map k | k in m && k.0 != id :: m[k]
  }

  /** One command. Transmitting an id again drops the placements of the old image; displaying an
      image the terminal does not hold is an error and changes nothing. */
  function Apply(t: Terminal, c: Command): Terminal {
    match c
    case Upload(id, image) =>
      Terminal(t.images[id := image], Without(t.placements, id))
    case TransmitAndDisplay(id, image, placement, shown) =>
      Terminal(t.images[id := image], Without(t.placements, id)[(id, placement) := shown])
    case Display(id, placement, shown) =>
      if id in t.images then t.(placements := t.placements[(id, placement) := shown]) else t
    case DeleteImage(id) =>
      Terminal(t.images - {id}, Without(t.placements, id))
    case DeletePlacement(id, placement) =>
      t.(placements := t.placements - {(id, placement)})
  }

  function Interpret(t: Terminal, commands: seq<Command>): Terminal {
    if commands == [] then t
    else Apply(Interpret(t, commands[..|commands| - 1]), commands[|commands| - 1])
  }

  lemma InterpretOne(t: Terminal, c: Command)
    ensures Interpret(t, [c]) == Apply(t, c)
  {
    assert [c][..0] == [];
  }

  lemma {:induction false} InterpretConcat(t: Terminal, a: seq<Command>, b: seq<Command>)
    ensures Interpret(t, a + b) == Interpret(Interpret(t, a), b)
  {
    if b == [] {
      assert a + b == a;
    } else {
      InterpretConcat(t, a, b[..|b| - 1]);
      assert (a + b)[..|a + b| - 1] == a + b[..|b| - 1];
    }
  }

  /** The placements that `commands` put on the screen. */
  function Displayed(commands: seq<Command>): set<Key> {
    set c | c in commands && (c.Display? || c.TransmitAndDisplay?) :: (c.id, c.placement)
  }

  /** Whether `commands` deletes exactly the images of `ids`, in any order, and does nothing else. */
  predicate DeletesImages(commands: seq<Command>, ids: set<u32>) {
    && (forall c :: c in commands ==> c.DeleteImage? && c.id in ids)
    && (forall id :: id in ids ==> DeleteImage(id) in commands)
  }

  /** Whether `commands` deletes exactly the placements of `keys`, in any order, and does nothing else. */
  predicate DeletesPlacements(commands: seq<Command>, keys: set<Key>) {
    && (forall c :: c in commands ==> c.DeletePlacement? && (c.id, c.placement) in keys)
    && (forall k :: k in keys ==> DeletePlacement(k.0, k.1) in commands)
  }

  /** The order of image deletions does not matter: the ids and all their placements are gone. */
  lemma {:induction false} InterpretDeletesImages(t: Terminal, commands: seq<Command>, ids: set<u32>)
    requires DeletesImages(commands, ids)
    ensures Interpret(t, commands) ==
            Terminal(t.images - ids, map k | k in t.placements && k.0 !in ids :: t.placements[k])
  {
    if commands == [] {
      assert ids == {};
      assert t.images - ids == t.images;
    } else {
      var n := |commands| - 1;
      var done := set c | c in commands[..n] :: c.id;
      assert commands == commands[..n] + [commands[n]];
      forall id | id in done ensures DeleteImage(id) in commands[..n] {
        var c :| c in commands[..n] && c.id == id;
        assert c in commands;
      }
      InterpretDeletesImages(t, commands[..n], done);
      assert ids == done + {commands[n].id} by {
        forall id | id in ids ensures id in done + {commands[n].id} {
          assert DeleteImage(id) in commands;
          assert DeleteImage(id) in commands[..n] || DeleteImage(id) == commands[n];
        }
      }
      assert t.images - done - {commands[n].id} == t.images - ids;
    }
  }

  lemma {:induction false} InterpretDeletesPlacements(t: Terminal, commands: seq<Command>, keys: set<Key>)
    requires DeletesPlacements(commands, keys)
    ensures Interpret(t, commands) == t.(placements := t.placements - keys)
  {
    if commands == [] {
      assert keys == {};
      assert t.placements - keys == t.placements;
    } else {
      var n := |commands| - 1;
      var last := (commands[n].id, commands[n].placement);
      var done := set c | c in commands[..n] :: (c.id, c.placement);
      assert commands == commands[..n] + [commands[n]];
      forall k | k in done ensures DeletePlacement(k.0, k.1) in commands[..n] {
        var c :| c in commands[..n] && (c.id, c.placement) == k;
        assert c in commands;
      }
      InterpretDeletesPlacements(t, commands[..n], done);
      assert keys == done + {last} by {
        forall k | k in keys ensures k in done + {last} {
          assert DeletePlacement(k.0, k.1) in commands;
          assert DeletePlacement(k.0, k.1) in commands[..n] || DeletePlacement(k.0, k.1) == commands[n];
        }
      }
      assert t.placements - done - {last} == t.placements - keys;
    }
  }
}
