/** Shared vocabulary of the card game: optional values, board positions,
    catalog cards, and the JavaScript comparison rules the servers rely on. */
module Common {

  datatype Option<+T> = None | Some(value: T)

  /** A grid cell of the cross-shaped board; the origin card sits at (0, 0). */
  datatype Pos = Pos(x: int, y: int)

  /** The two arms of the cross. */
  datatype Axis = Horizontal | Vertical

  /** The orientation a catalog entry declares: 'hochformat' (`Hoch`), 'querformat' (`Quer`) or anything else. */
  datatype CatalogOrientation = Hoch | Quer | OtherOrientation

  type PlayerId = string

  /** One record of the static card catalog. A numeric field that is `None` stands for
      JSON `null`; `allowedAxes == None` means the record has no `allowed_axes` list.
      `orientation` and `metricValue` are the fields the plain and fastify servers read. */
  datatype CatalogCard = CatalogCard(
    id: int,
    name: string,
    height: Option<int>,
    width: Option<int>,
    allowedAxes: Option<set<Axis>>,
    orientation: CatalogOrientation,
    metricValue: Option<int>)

  /** The four grid neighbours of a cell. */
  function Right(p: Pos): Pos { Pos(p.x + 1, p.y) }
  function Left(p: Pos): Pos { Pos(p.x - 1, p.y) }
  function Above(p: Pos): Pos { Pos(p.x, p.y + 1) }
  function Below(p: Pos): Pos { Pos(p.x, p.y - 1) }

  /** True when one of the four neighbours of `p` is a key of `board`. */
  predicate HasAnyNeighbour<C>(board: map<Pos, C>, p: Pos) {
    Right(p) in board || Left(p) in board || Above(p) in board || Below(p) in board
  }

  /** The first catalog card with the given id, as `Array.prototype.find` returns it. */
  function Find(catalog: seq<CatalogCard>, id: int): (r: Option<CatalogCard>)
    ensures r.Some? ==> r.value in catalog && r.value.id == id
    ensures r.None? <==> forall c :: c in catalog ==> c.id != id
  {
    if catalog == [] then None
    else if catalog[0].id == id then Some(catalog[0])
    else Find(catalog[1..], id)
  }

  /** Whether a hand holds a card with the given id. */
  predicate HoldsCard(hand: seq<CatalogCard>, id: int) {
    exists i :: 0 <= i < |hand| && hand[i].id == id
  }

  /** `hand.filter(c => c.id !== id)`: every card with that id leaves the hand, the
      others keep their order. */
  function WithoutCard(hand: seq<CatalogCard>, id: int): (r: seq<CatalogCard>)
    ensures |r| <= |hand|
    ensures forall c :: c in r <==> c in hand && c.id != id
    ensures HoldsCard(hand, id) ==> |r| < |hand|
  {
    if hand == [] then []
    else if hand[0].id == id then WithoutCard(hand[1..], id)
    else [hand[0]] + WithoutCard(hand[1..], id)
  }

  /** JavaScript `a >= b` for two numeric fields: `null` converts to 0. */
  predicate JsGe(a: Option<int>, b: Option<int>) {
    (if a.Some? then a.value else 0) >= (if b.Some? then b.value else 0)
  }

  /** JavaScript `a <= b` for two numeric fields: `null` converts to 0. */
  predicate JsLe(a: Option<int>, b: Option<int>) {
    (if a.Some? then a.value else 0) <= (if b.Some? then b.value else 0)
  }
}
