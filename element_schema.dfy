/**
 * The element schema of the MSH parser: the `elementTypes` enumeration,
 * the fixed-size fields of an element record, and the `switch` that says
 * how many node ids follow an element's tag list.
 */
module ElementSchema {
  import opened MshTokens

  /** Capacity of the `tags[10]` field of an element record. */
  const TagsCapacity: nat := 10

  /** Capacity of the `nodes[8]` field of an element record. */
  const NodesCapacity: nat := 8

  /**
   * The constants of `enum elementTypes`, in declaration order. Note that
   * the hexahedron comes before the prism and the pyramid, as in the MSH
   * version 2 numbering.
   */
  datatype ElementType =
    | TwoNodeLine
    | ThreeNodeTriangle
    | FourNodeQuadrangle
    | FourNodeTetrahedron
    | EightNodeHexahedron
    | SixNodePrism
    | FiveNodePyramid

  /** The enumeration value: 1 for the first constant, one more for each following one. */
  function Code(t: ElementType): (c: int)
    ensures 1 <= c <= 7
  {
    match t
    case TwoNodeLine => 1
    case ThreeNodeTriangle => 2
    case FourNodeQuadrangle => 3
    case FourNodeTetrahedron => 4
    case EightNodeHexahedron => 5
    case SixNodePrism => 6
    case FiveNodePyramid => 7
  }

  /** The number of nodes that each constant's name announces. */
  function NodeCount(t: ElementType): (n: nat)
    ensures 2 <= n <= NodesCapacity
  {
    match t
    case TwoNodeLine => 2
    case ThreeNodeTriangle => 3
    case FourNodeQuadrangle => 4
    case FourNodeTetrahedron => 4
    case EightNodeHexahedron => 8
    case SixNodePrism => 6
    case FiveNodePyramid => 5
  }

  /**
   * The number of node ids read for an element whose type field is `code`:
   * the bound of the `for` loop in the `case` that matches, or None when no
   * case matches (the `switch` has no `default`).
   */
  function Arity(code: int): (r: Option<nat>)
    ensures r.Some? <==> 1 <= code <= 7
    ensures r.Some? ==> 2 <= r.value <= NodesCapacity
  {
    if code == Code(TwoNodeLine) then Some(2)
    else if code == Code(ThreeNodeTriangle) then Some(3)
    else if code == Code(FourNodeQuadrangle) then Some(4)
    else if code == Code(FourNodeTetrahedron) then Some(4)
    else if code == Code(FiveNodePyramid) then Some(5)
    else if code == Code(SixNodePrism) then Some(6)
    else if code == Code(EightNodeHexahedron) then Some(8)
    else None
  }

  /** How many node fields an element record really holds: none when the type is unknown. */
  function NodeFieldCount(code: int): (n: nat)
    ensures n <= NodesCapacity
    ensures n == 0 <==> Arity(code).None?
  {
    match Arity(code)
    case Some(a) => a
    case None => 0
  }

  /** Every loop bound in the `switch` agrees with the name of the constant its `case` names. */
  lemma ArityMatchesEnum(t: ElementType)
    ensures Arity(Code(t)) == Some(NodeCount(t))
  {
  }

  /** The `switch` handles exactly the enumeration's values. */
  lemma ArityDefinedExactlyOnEnum(code: int)
    ensures Arity(code).Some? <==> exists t: ElementType :: Code(t) == code
  {
    if 1 <= code <= 7 {
      var t :=
        if code == 1 then TwoNodeLine else if code == 2 then ThreeNodeTriangle
        else if code == 3 then FourNodeQuadrangle else if code == 4 then FourNodeTetrahedron
        else if code == 5 then EightNodeHexahedron else if code == 6 then SixNodePrism
        else FiveNodePyramid;
      assert Code(t) == code;
    }
  }

  /** The table itself, code by code: 1..7 give 2, 3, 4, 4, 8, 6, 5 nodes. */
  lemma ArityTable()
    ensures Arity(1) == Some(2) && Arity(2) == Some(3) && Arity(3) == Some(4) && Arity(4) == Some(4)
    ensures Arity(5) == Some(8) && Arity(6) == Some(6) && Arity(7) == Some(5)
    ensures forall code :: code < 1 || code > 7 ==> Arity(code) == None
  {
  }
}
