/**
 * The shapes of the later revision that the behaviour, map-setup and canvas
 * files use. Their declarations (in the later physics.rs, character.rs and
 * map_brain.rs) are not part of this model; the variants below are the ones
 * those files construct or match on.
 */
module World {
  import opened Wrappers
  import Physics

  type Position = Physics.Position

  datatype CharacterType = Player | Lerain | Rumdare | Werewolf

  datatype WereForm = Human | Beast

  /** Per-kind data; `Other` stands for every non-werewolf variant. */
  datatype CharacterData = Werewolf(form: WereForm) | Other

  datatype NewObjective = WanderButExclude(index: nat)

  /** Civilian state; the index is the wander or hiding cluster in use. */
  datatype HumanState = Idle(objective: Option<NewObjective>) | Moving(index: nat) | Panic(index: nat)

  datatype WerewolfState =
    | Hunt(target: Option<Position>)
    | Panic(target: Option<Position>, enemies: seq<Position>, excludeTargetIndex: Option<nat>, calmCooldown: nat)

  datatype CharacterBehaviorData =
    | Human(humanState: HumanState)
    | Werewolf(humanState: HumanState, werewolfState: WerewolfState)

  datatype Priority = Low | Medium | High

  /** Only `Solid` is named in the shown files; `NonSolid` stands for the other classes. */
  datatype CollisionType = Solid | NonSolid

  /** What a tile knows about the actor standing on it; `entity` is an arena handle. */
  datatype Occupier = Occupier(entity: nat, sprite: char, characterType: Option<CharacterType>)

  datatype KrillTheaterZone = Free | LineUp(target: Position) | Exit

  datatype Zone = Home | KrillTheater(zone: KrillTheaterZone)

  datatype Tile =
    | Ground(occupier: Option<Occupier>, zone: Zone)
    | Wall
    | Obstacle(occupier: Option<Occupier>)

  /** The occupier of a Ground or Obstacle tile; a Wall has none. */
  function OccupierOf(t: Tile): (r: Option<Occupier>)
    ensures t.Wall? ==> r.None?
    ensures t.Ground? || t.Obstacle? ==> r == t.occupier
  {
    match t
    case Ground(o, _) => o
    case Obstacle(o) => o
    case Wall => None
  }

  /** `Tile::krill_theater`: the krill-theater zone of a Ground tile, if it has one. */
  function KrillTheaterOf(t: Tile): (r: Option<KrillTheaterZone>)
    ensures r.Some? <==> t.Ground? && t.zone.KrillTheater?
  {
    if t.Ground? && t.zone.KrillTheater? then Some(t.zone.zone) else None
  }

  /** The tile grid of the later revision, `get_size_x()` columns by `get_size_y()` rows. */
  class Map {
    const cells: array2<Tile>

    constructor (cells: array2<Tile>)
      ensures this.cells == cells
    {
      this.cells := cells;
    }

    function SizeX(): nat
    {
      cells.Length0
    }

    function SizeY(): nat
    {
      cells.Length1
    }

    /**
     * `get(x as usize, y as usize)`: the tile, or None off the grid. A negative
     * coordinate wraps to a huge usize when cast, so it is off the grid too.
     */
    function Get(x: int, y: int): (r: Option<Tile>)
      reads cells
      ensures r.Some? <==> 0 <= x < SizeX() && 0 <= y < SizeY()
      ensures r.Some? ==> r.value == cells[x, y]
    {
      if 0 <= x < cells.Length0 && 0 <= y < cells.Length1 then Some(cells[x, y]) else None
    }

    /** The tile at a position, or None off the grid. */
    function At(p: Position): (r: Option<Tile>)
      reads cells
      ensures r.Some? <==> 0 <= p.x < SizeX() && 0 <= p.y < SizeY()
      ensures r.Some? ==> r.value == cells[p.x, p.y]
    {
      Get(p.x, p.y)
    }
  }
}
