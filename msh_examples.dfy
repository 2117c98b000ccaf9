/**
 * Two concrete inputs: a small complete file, read back to its tables, and
 * an element of a type the `switch` does not know, which throws every
 * following record out of step.
 */
module MshExamples {
  import opened MshTokens
  import opened ElementSchema
  import opened MshFormat
  import opened MshRoundTrip

  /** A two-node, one-line mesh without a `$PhysicalNames` section. */
  const LineFile: seq<Token> := [
    "$MeshFormat", "2.2", "0", "8", "$EndMeshFormat",
    "$Nodes", "2", "1", "0.0", "0.0", "0.0", "2", "1.0", "0.0", "0.0", "$EndNodes",
    "$Elements", "1", "1", "1", "2", "100", "200", "1", "2", "$EndElements"]

  const LineMesh: Mesh := Mesh(
    Header(2, 2, 0, 8),
    None,
    Section(2, [NodeInfo(1, "0.0", "0.0", "0.0"), NodeInfo(2, "1.0", "0.0", "0.0")]),
    Section(1, [ElementInfo(1, 1, 2, [100, 200], [1, 2])]))

  /**
   * The file reads as version 2.2 ASCII with 8-byte data, no regions, two
   * nodes with their coordinate tokens, and one 2-node line with tags 100
   * and 200 joining nodes 1 and 2.
   */
  lemma LineFileParses()
    ensures ParseFile(LineFile) == Ok(LineMesh)
    ensures LineMesh.header.IsAscii() && LineMesh.Regions() == []
    ensures Arity(LineMesh.elements.records[0].elementType) == Some(NodeCount(TwoNodeLine))
  {
    hide IntToString, ParseInt, ParseFile;
    assert ElementShaped(LineMesh.elements.records[0]);
    assert WellFormed(LineMesh);
    MeshRoundTrip(LineMesh, []);
    LineFileHeader();
    LineFileNodes();
    LineFileElements();
    assert RenderMesh(IntToString, LineMesh) + [] == LineFile;
  }

  lemma LineFileHeader()
    ensures RenderHeader(IntToString, LineMesh.header) == LineFile[..5]
  {
    DecimalLiterals();
    hide IntToString;
    assert VersionToken(IntToString, 2, 2) == "2.2";
  }

  lemma LineFileNodes()
    ensures RenderSection(RenderNode, IntToString, NodesKeyword, EndNodesKeyword, LineMesh.nodes) == LineFile[5..16]
  {
    DecimalLiterals();
    var nodes := LineMesh.nodes.records;
    RenderTwo(RenderNode, IntToString, nodes[0], nodes[1]);
    hide IntToString, RenderAll;
    assert RenderNode(IntToString, nodes[0]) == ["1", "0.0", "0.0", "0.0"];
    assert RenderNode(IntToString, nodes[1]) == ["2", "1.0", "0.0", "0.0"];
  }

  lemma LineFileElements()
    ensures RenderSection(RenderElement, IntToString, ElementsKeyword, EndElementsKeyword, LineMesh.elements)
            == LineFile[16..]
  {
    DecimalLiterals();
    var e := LineMesh.elements.records[0];
    RenderTwo(IntToken, IntToString, 100, 200);
    RenderTwo(IntToken, IntToString, 1, 2);
    RenderOne(RenderElement, IntToString, e);
    hide IntToString, RenderAll;
    assert RenderElement(IntToString, e) == ["1", "1", "2", "100", "200", "1", "2"];
  }

  /** Writing one record. */
  lemma RenderOne<T>(render: (int -> Token, T) -> seq<Token>, sp: int -> Token, a: T)
    ensures RenderAll(render, sp, [a]) == render(sp, a)
  {
    assert [a][..0] == [];
  }

  /** Writing two records is writing the first, then the second. */
  lemma RenderTwo<T>(render: (int -> Token, T) -> seq<Token>, sp: int -> Token, a: T, b: T)
    ensures RenderAll(render, sp, [a, b]) == render(sp, a) + render(sp, b)
  {
    assert [a, b][..1] == [a];
    RenderOne(render, sp, a);
  }

  /** The decimal forms written in the example files. */
  lemma DecimalLiterals()
    ensures IntToString(0) == "0" && IntToString(1) == "1" && IntToString(2) == "2" && IntToString(8) == "8"
    ensures IntToString(100) == "100" && IntToString(200) == "200"
  {
  }

  /** The integers read in the example files. */
  lemma IntegerLiterals()
    ensures ParseInt("0") == Some(0) && ParseInt("1") == Some(1) && ParseInt("2") == Some(2)
    ensures ParseInt("5") == Some(5) && ParseInt("15") == Some(15)
  {
  }

  /**
   * A 1-node point (type 15) followed by a 2-node line. Type 15 has no
   * `case`, so its node id is taken for the number of the next record,
   * whose own number becomes its type; the second record is then read as a
   * triangle and the section ends one token early, at the line's last node
   * id, where `$EndElements` is required.
   */
  const PointThenLine: seq<Token> := [
    "1", "15", "2", "0", "1", "5",
    "2", "1", "2", "0", "1", "5", "6"]

  lemma UnknownTypeDesynchronises()
    ensures Repeat(ParseElement, PointThenLine, 0, 2) ==
            Ok(Parsed([ElementInfo(1, 15, 2, [0, 1], []), ElementInfo(5, 2, 1, [2], [0, 1, 5])], 12))
    ensures PointThenLine[12] != EndElementsKeyword
  {
    var first := ElementInfo(1, 15, 2, [0, 1], []);
    var second := ElementInfo(5, 2, 1, [2], [0, 1, 5]);
    assert Repeat(ParseElement, PointThenLine, 0, 0) == Ok(Parsed([], 0));
    hide ParseInt, ParseElement, Repeat;
    PointRecord();
    MisreadRecord();
    RepeatSnoc(ParseElement, PointThenLine, 0, 1, [], 0, first, 5);
    assert [] + [first] == [first];
    RepeatSnoc(ParseElement, PointThenLine, 0, 2, [first], 5, second, 12);
    assert [first] + [second] == [first, second];
  }

  /** The point record: its two tags are read, its node id is not. */
  lemma PointRecord()
    ensures ParseElement(PointThenLine, 0) == Ok(Parsed(ElementInfo(1, 15, 2, [0, 1], []), 5))
  {
    IntegerLiterals();
    hide ParseInt, ParseElement, Repeat;
    assert IntsAt(PointThenLine, 3, [0, 1]);
    assert IntsAt(PointThenLine, 5, []);
    ElementFromInts(PointThenLine, 0, ElementInfo(1, 15, 2, [0, 1], []));
  }

  /** The record read from the point's node id on: a triangle numbered 5. */
  lemma MisreadRecord()
    ensures ParseElement(PointThenLine, 5) == Ok(Parsed(ElementInfo(5, 2, 1, [2], [0, 1, 5]), 12))
  {
    IntegerLiterals();
    hide ParseInt, ParseElement, Repeat;
    assert IntsAt(PointThenLine, 8, [2]);
    assert IntsAt(PointThenLine, 9, [0, 1, 5]);
    ElementFromInts(PointThenLine, 5, ElementInfo(5, 2, 1, [2], [0, 1, 5]));
  }
}
