/** The string-to-player factory: exact, case-sensitive names; any other
    name builds nothing. */
module PlayerFactory {
  import opened Options
  import opened Players

  /** The name each player type is built from. */
  function NameOf(s: Strategy): string {
    match s
    case Human => "human"
    case Clever => "clever"
    case Whatever => "whatever"
    case Genius => "genius"
  }

  /** buildPlayer: the strategy whose name is exactly the given string, or
      None (buildPlayer's null) for every other string. */
  function BuildPlayer(name: string): (r: Option<Strategy>)
    ensures r.Some? ==> NameOf(r.value) == name
    ensures r.None? ==> forall s: Strategy :: NameOf(s) != name
  {
    if name == "human" then Some(Human)
    else if name == "clever" then Some(Clever)
    else if name == "whatever" then Some(Whatever)
    else if name == "genius" then Some(Genius)
    else None
  }

  /** Every strategy is built from its own name, so the names are distinct. */
  lemma BuildNameOf(s: Strategy)
    ensures BuildPlayer(NameOf(s)) == Some(s)
  {
  }

  /** Matching is exact: a capitalised name builds nothing. */
  lemma CapitalisedNameBuildsNothing()
    ensures BuildPlayer("Human") == None
    ensures BuildPlayer("invalid") == None
  {
  }
}

/** The string-to-renderer factory: "console" and "none" only, exact and
    case-sensitive; any other string builds nothing rather than failing. */
module RendererFactory {
  import opened Options

  /** A renderer is an inert tag here: drawing the board is left out. */
  datatype Renderer = ConsoleRenderer(size: int) | VoidRenderer

  /** The name each renderer kind is built from. */
  function KindName(r: Renderer): string {
    match r
    case ConsoleRenderer(_) => "console"
    case VoidRenderer => "none"
  }

  /** buildRenderer: a console renderer carrying the size for "console", the
      void renderer for "none", None (buildRenderer's null) otherwise. */
  function BuildRenderer(kind: string, size: int): (r: Option<Renderer>)
    ensures r.Some? ==> KindName(r.value) == kind
    ensures r.Some? && r.value.ConsoleRenderer? ==> r.value.size == size
    ensures r.None? ==> kind != "console" && kind != "none"
  {
    if kind == "console" then Some(ConsoleRenderer(size))
    else if kind == "none" then Some(VoidRenderer)
    else None
  }

  /** Building from a renderer's own name gives that renderer back, for the
      console renderer at the size it carries. */
  lemma BuildKindName(r: Renderer)
    ensures BuildRenderer(KindName(r), if r.ConsoleRenderer? then r.size else 0) == Some(r)
  {
  }

  /** The void renderer ignores the size; unknown and capitalised names build nothing. */
  lemma RendererNames()
    ensures BuildRenderer("none", 3) == BuildRenderer("none", 5) == Some(VoidRenderer)
    ensures BuildRenderer("console", 3) == Some(ConsoleRenderer(3))
    ensures BuildRenderer("invalid", 3) == None && BuildRenderer("invalid", 5) == None
    ensures BuildRenderer("Console", 3) == None
  {
  }
}
