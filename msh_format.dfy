/**
 * The grammar that `parse_input_file_` reads, as functions on a token
 * sequence: a `$MeshFormat` header, an optional `$PhysicalNames` section,
 * a `$Nodes` section and an `$Elements` section, in that order.
 */
module MshFormat {
  import opened MshTokens
  import opened ElementSchema

  const MeshFormatKeyword: Token := "$MeshFormat"
  const EndMeshFormatKeyword: Token := "$EndMeshFormat"
  const PhysicalNamesKeyword: Token := "$PhysicalNames"
  const EndPhysicalNamesKeyword: Token := "$EndPhysicalNames"
  const NodesKeyword: Token := "$Nodes"
  const EndNodesKeyword: Token := "$EndNodes"
  const ElementsKeyword: Token := "$Elements"
  const EndElementsKeyword: Token := "$EndElements"

  /** The `version fileType dataSize` line. */
  datatype Header = Header(versionMajor: int, versionMinor: int, fileType: int, dataSize: int) {
    /** A file type of 0 is reported as ASCII; the value is never branched on otherwise. */
    predicate IsAscii() {
      fileType == 0
    }
  }

  /** One `dimension physicalNumber name` record. */
  datatype PhysicalNameInfo = PhysicalNameInfo(dimension: int, physicalNumber: int, name: Token)

  /** One `number x y z` record; the coordinates are kept as the tokens that denote them. */
  datatype NodeInfo = NodeInfo(number: int, x: Token, y: Token, z: Token)

  /**
   * One `number type tagCount tag... node...` record, holding the tags and
   * node ids that were read, in file order.
   */
  datatype ElementInfo = ElementInfo(number: int, elementType: int, tagCount: int, tags: seq<int>, nodes: seq<int>) {
    /** The record fits the `tags[10]` and `nodes[8]` fields of the C structure. */
    predicate FitsRecordFields() {
      |tags| <= TagsCapacity && |nodes| <= NodesCapacity
    }
  }

  /** The count read after a section keyword and the records read under it. */
  datatype Section<T> = Section(count: int, records: seq<T>)

  /** Everything one parse produces. */
  datatype Mesh = Mesh(header: Header, physicalNames: Option<Section<PhysicalNameInfo>>,
                       nodes: Section<NodeInfo>, elements: Section<ElementInfo>)
  {
    /** The region table: explicitly empty when the optional section is absent. */
    function Regions(): seq<PhysicalNameInfo> {
      match physicalNames
      case Some(s) => s.records
      case None => []
    }
  }

  // ---------------------------------------------------------------------
  // Records

  function ParsePhysicalName(toks: seq<Token>, pos: nat): (r: Result<Parsed<PhysicalNameInfo>>)
    ensures r.Ok? ==> r.value.next == pos + 3
  {
    var dimension :- ReadInt(toks, pos);
    var physicalNumber :- ReadInt(toks, dimension.next);
    var name :- ReadToken(toks, physicalNumber.next);
    Ok(Parsed(PhysicalNameInfo(dimension.value, physicalNumber.value, name.value), name.next))
  }

  function ParseNode(toks: seq<Token>, pos: nat): (r: Result<Parsed<NodeInfo>>)
    ensures r.Ok? ==> r.value.next == pos + 4
  {
    var number :- ReadInt(toks, pos);
    var x :- ReadToken(toks, number.next);
    var y :- ReadToken(toks, x.next);
    var z :- ReadToken(toks, y.next);
    Ok(Parsed(NodeInfo(number.value, x.value, y.value, z.value), z.next))
  }

  /**
   * An element record: three integers, `tagCount` tags, then as many node
   * ids as the element type's arity (none for an unknown type).
   */
  function ParseElement(toks: seq<Token>, pos: nat): Result<Parsed<ElementInfo>> {
    var number :- ReadInt(toks, pos);
    var elementType :- ReadInt(toks, number.next);
    var tagCount :- ReadInt(toks, elementType.next);
    var tags :- Repeat(ReadInt, toks, tagCount.next, LoopCount(tagCount.value));
    var nodes :- Repeat(ReadInt, toks, tags.next, NodeFieldCount(elementType.value));
    Ok(Parsed(ElementInfo(number.value, elementType.value, tagCount.value, tags.value, nodes.value), nodes.next))
  }

  // ---------------------------------------------------------------------
  // Sections

  function ParseHeader(toks: seq<Token>): (r: Result<Parsed<Header>>)
    ensures r.Ok? ==> r.value.next == 5
  {
    var start :- ExpectKeyword(toks, 0, MeshFormatKeyword);
    var version :- ReadVersion(toks, start);
    var fileType :- ReadInt(toks, version.next);
    var dataSize :- ReadInt(toks, fileType.next);
    var stop :- ExpectKeyword(toks, dataSize.next, EndMeshFormatKeyword);
    Ok(Parsed(Header(version.value.0, version.value.1, fileType.value, dataSize.value), stop))
  }

  /** `begin`, a count, that many records read by `f`, then `end`. */
  function ParseSection<T>(f: (seq<Token>, nat) -> Result<Parsed<T>>, toks: seq<Token>, pos: nat,
                           begin: Token, end: Token): (r: Result<Parsed<Section<T>>>)
    ensures r.Ok? ==> |r.value.value.records| == LoopCount(r.value.value.count)
  {
    var start :- ExpectKeyword(toks, pos, begin);
    var count :- ReadInt(toks, start);
    var records :- Repeat(f, toks, count.next, LoopCount(count.value));
    var stop :- ExpectKeyword(toks, records.next, end);
    Ok(Parsed(Section(count.value, records.value), stop))
  }

  /**
   * The optional section: one token of lookahead decides. When it is not
   * `$PhysicalNames` the position is restored and nothing is read.
   */
  function ParsePhysicalNames(toks: seq<Token>, pos: nat): Result<Parsed<Option<Section<PhysicalNameInfo>>>> {
    if pos < |toks| && toks[pos] == PhysicalNamesKeyword then
      var s :- ParseSection(ParsePhysicalName, toks, pos, PhysicalNamesKeyword, EndPhysicalNamesKeyword);
      Ok(Parsed(Some(s.value), s.next))
    else
      Ok(Parsed(None, pos))
  }

  /** The whole file. Tokens after `$EndElements` are not read. */
  function ParseFile(toks: seq<Token>): Result<Mesh> {
    var header :- ParseHeader(toks);
    var names :- ParsePhysicalNames(toks, header.next);
    var nodes :- ParseSection(ParseNode, toks, names.next, NodesKeyword, EndNodesKeyword);
    var elements :- ParseSection(ParseElement, toks, nodes.next, ElementsKeyword, EndElementsKeyword);
    Ok(Mesh(header.value, names.value, nodes.value, elements.value))
  }

  // ---------------------------------------------------------------------
  // Properties of records

  /** What a successful element parse consists of, field group by field group. */
  lemma ElementSteps(toks: seq<Token>, pos: nat)
    requires ParseElement(toks, pos).Ok?
    ensures ReadInt(toks, pos).Ok? && ReadInt(toks, pos + 1).Ok? && ReadInt(toks, pos + 2).Ok?
    ensures var elementType := ReadInt(toks, pos + 1).value.value;
            var tagCount := ReadInt(toks, pos + 2).value.value;
            var tags := Repeat(ReadInt, toks, pos + 3, LoopCount(tagCount));
            && tags.Ok?
            && var nodes := Repeat(ReadInt, toks, tags.value.next, NodeFieldCount(elementType));
               && nodes.Ok?
               && ParseElement(toks, pos).value ==
                  Parsed(ElementInfo(ReadInt(toks, pos).value.value, elementType, tagCount,
                                     tags.value.value, nodes.value.value), nodes.value.next)
  {
    hide ParseInt;
  }

  /**
   * An element record occupies exactly 3 + tagCount + arity tokens (3 +
   * tagCount for an unknown type), and its tags and node ids are the
   * integers in those positions, in file order.
   */
  lemma ElementRecordLayout(toks: seq<Token>, pos: nat)
    requires ParseElement(toks, pos).Ok?
    ensures var Parsed(e, next) := ParseElement(toks, pos).value;
            && next <= |toks|
            && |e.tags| == LoopCount(e.tagCount)
            && |e.nodes| == NodeFieldCount(e.elementType)
            && next == pos + 3 + LoopCount(e.tagCount) + NodeFieldCount(e.elementType)
            && ParseInt(toks[pos]) == Some(e.number)
            && ParseInt(toks[pos + 1]) == Some(e.elementType)
            && ParseInt(toks[pos + 2]) == Some(e.tagCount)
  {
    hide ParseInt, ParseElement, Repeat, ReadInt;
    ElementSteps(toks, pos);
    var elementType := ReadInt(toks, pos + 1).value.value;
    var t := LoopCount(ReadInt(toks, pos + 2).value.value);
    ReadIntsValues(toks, pos + 3, t);
    ReadIntsValues(toks, pos + 3 + t, NodeFieldCount(elementType));
  }

  /** The tags are the integers right after the three leading fields, in file order. */
  lemma ElementTagsInOrder(toks: seq<Token>, pos: nat)
    requires ParseElement(toks, pos).Ok?
    ensures pos + 3 <= |toks| && IntsAt(toks, pos + 3, ParseElement(toks, pos).value.value.tags)
  {
    hide ParseInt, ParseElement, Repeat, ReadInt;
    ElementSteps(toks, pos);
    var t := LoopCount(ReadInt(toks, pos + 2).value.value);
    ReadIntsValues(toks, pos + 3, t);
  }

  /** The node ids are the integers right after the tags, in file order. */
  lemma ElementNodesInOrder(toks: seq<Token>, pos: nat)
    requires ParseElement(toks, pos).Ok?
    ensures var e := ParseElement(toks, pos).value.value;
            IntsAt(toks, pos + 3 + |e.tags|, e.nodes)
  {
    hide ParseInt, ParseElement, Repeat, ReadInt;
    ElementSteps(toks, pos);
    var elementType := ReadInt(toks, pos + 1).value.value;
    var t := LoopCount(ReadInt(toks, pos + 2).value.value);
    ReadIntsValues(toks, pos + 3, t);
    ReadIntsValues(toks, pos + 3 + t, NodeFieldCount(elementType));
  }

  /** A known type fills nodes[0..arity); an unknown one reads no node id at all. */
  lemma ElementNodes(toks: seq<Token>, pos: nat)
    requires ParseElement(toks, pos).Ok?
    ensures var Parsed(e, next) := ParseElement(toks, pos).value;
            && (Arity(e.elementType).Some? ==> |e.nodes| == Arity(e.elementType).value <= NodesCapacity)
            && (Arity(e.elementType).None? ==> e.nodes == [] && next == pos + 3 + LoopCount(e.tagCount))
  {
    hide ParseInt, ParseElement, Repeat, ReadInt;
    ElementRecordLayout(toks, pos);
  }

  /**
   * Node ids always fit `nodes[8]`, and the tags fit `tags[10]` exactly
   * when tagCount is at most 10 (a negative count reads no tag).
   */
  lemma ElementFitsRecordFields(toks: seq<Token>, pos: nat)
    requires ParseElement(toks, pos).Ok?
    ensures var e := ParseElement(toks, pos).value.value;
            |e.nodes| <= NodesCapacity && (e.FitsRecordFields() <==> e.tagCount <= TagsCapacity)
  {
    hide ParseInt, ParseElement, Repeat, ReadInt;
    ElementRecordLayout(toks, pos);
  }

  /** Node record i is the four tokens `number x y z` at pos + 4 * i. */
  lemma NodeRecordsLayout(toks: seq<Token>, pos: nat, n: nat)
    requires Repeat(ParseNode, toks, pos, n).Ok?
    ensures var r := Repeat(ParseNode, toks, pos, n).value;
            && r.next == pos + 4 * n
            && (n > 0 ==> r.next <= |toks|)
            && forall i :: 0 <= i < n ==>
                 && ParseInt(toks[pos + 4 * i]) == Some(r.value[i].number)
                 && r.value[i].x == toks[pos + 4 * i + 1]
                 && r.value[i].y == toks[pos + 4 * i + 2]
                 && r.value[i].z == toks[pos + 4 * i + 3]
  {
    hide ParseInt;
    RepeatFixedWidth(ParseNode, toks, pos, n, 4);
    var r := Repeat(ParseNode, toks, pos, n).value;
    if n > 0 {
      assert ParseNode(toks, pos + (n - 1) * 4).Ok?;
    }
    forall i | 0 <= i < n
      ensures ParseInt(toks[pos + 4 * i]) == Some(r.value[i].number)
      ensures r.value[i].x == toks[pos + 4 * i + 1]
      ensures r.value[i].y == toks[pos + 4 * i + 2]
      ensures r.value[i].z == toks[pos + 4 * i + 3]
    {
      assert ParseNode(toks, pos + i * 4) == Ok(Parsed(r.value[i], pos + i * 4 + 4));
    }
  }

  /** Region record i is the three tokens `dimension physicalNumber name` at pos + 3 * i. */
  lemma PhysicalNameRecordsLayout(toks: seq<Token>, pos: nat, n: nat)
    requires Repeat(ParsePhysicalName, toks, pos, n).Ok?
    ensures var r := Repeat(ParsePhysicalName, toks, pos, n).value;
            && r.next == pos + 3 * n
            && (n > 0 ==> r.next <= |toks|)
            && forall i :: 0 <= i < n ==>
                 && ParseInt(toks[pos + 3 * i]) == Some(r.value[i].dimension)
                 && ParseInt(toks[pos + 3 * i + 1]) == Some(r.value[i].physicalNumber)
                 && r.value[i].name == toks[pos + 3 * i + 2]
  {
    hide ParseInt;
    RepeatFixedWidth(ParsePhysicalName, toks, pos, n, 3);
    var r := Repeat(ParsePhysicalName, toks, pos, n).value;
    if n > 0 {
      assert ParsePhysicalName(toks, pos + (n - 1) * 3).Ok?;
    }
    forall i | 0 <= i < n
      ensures ParseInt(toks[pos + 3 * i]) == Some(r.value[i].dimension)
      ensures ParseInt(toks[pos + 3 * i + 1]) == Some(r.value[i].physicalNumber)
      ensures r.value[i].name == toks[pos + 3 * i + 2]
    {
      assert ParsePhysicalName(toks, pos + i * 3) == Ok(Parsed(r.value[i], pos + i * 3 + 3));
    }
  }

  // ---------------------------------------------------------------------
  // Properties of sections and of the whole file

  /** What a successful section parse consists of, token by token. */
  lemma SectionSteps<T>(f: (seq<Token>, nat) -> Result<Parsed<T>>, toks: seq<Token>, pos: nat,
                        begin: Token, end: Token)
    requires ParseSection(f, toks, pos, begin, end).Ok?
    ensures var Parsed(s, next) := ParseSection(f, toks, pos, begin, end).value;
            && pos + 1 < |toks| && toks[pos] == begin
            && ParseInt(toks[pos + 1]) == Some(s.count)
            && Repeat(f, toks, pos + 2, LoopCount(s.count)) == Ok(Parsed(s.records, next - 1))
            && next - 1 < |toks| && toks[next - 1] == end
  {
    hide ParseInt;
  }

  /** A section fails at once, with the keyword error, when its begin keyword is missing. */
  lemma SectionNeedsBegin<T>(f: (seq<Token>, nat) -> Result<Parsed<T>>, toks: seq<Token>, pos: nat,
                             begin: Token, end: Token)
    requires !(pos < |toks| && toks[pos] == begin)
    ensures ParseSection(f, toks, pos, begin, end) == Err(ExpectKeyword(toks, pos, begin).error)
  {
    hide ParseInt;
  }

  /** What a successful file parse consists of, section by section. */
  lemma FileSteps(toks: seq<Token>)
    requires ParseFile(toks).Ok?
    ensures ParseHeader(toks).Ok? && ParsePhysicalNames(toks, 5).Ok?
    ensures var names := ParsePhysicalNames(toks, 5).value;
            var nodes := ParseSection(ParseNode, toks, names.next, NodesKeyword, EndNodesKeyword);
            && nodes.Ok?
            && var elements := ParseSection(ParseElement, toks, nodes.value.next, ElementsKeyword, EndElementsKeyword);
               && elements.Ok?
               && ParseFile(toks).value ==
                  Mesh(ParseHeader(toks).value.value, names.value, nodes.value.value, elements.value.value)
  {
    hide ParseInt;
  }

  /**
   * Without `$PhysicalNames` at `pos` nothing is consumed and no section
   * results; with it, exactly `count` triples are read and then
   * `$EndPhysicalNames` must follow.
   */
  lemma PhysicalNamesLookahead(toks: seq<Token>, pos: nat)
    ensures !(pos < |toks| && toks[pos] == PhysicalNamesKeyword) ==>
              ParsePhysicalNames(toks, pos) == Ok(Parsed(None, pos))
    ensures var r := ParsePhysicalNames(toks, pos);
            pos < |toks| && toks[pos] == PhysicalNamesKeyword && r.Ok? ==>
              && r.value.value.Some?
              && var s := r.value.value.value;
                 && ParseInt(toks[pos + 1]) == Some(s.count)
                 && |s.records| == LoopCount(s.count)
                 && r.value.next == pos + 3 + 3 * LoopCount(s.count) <= |toks|
                 && toks[r.value.next - 1] == EndPhysicalNamesKeyword
  {
    hide ParseInt;
    var r := ParsePhysicalNames(toks, pos);
    if pos < |toks| && toks[pos] == PhysicalNamesKeyword && r.Ok? {
      SectionSteps(ParsePhysicalName, toks, pos, PhysicalNamesKeyword, EndPhysicalNamesKeyword);
      var s := r.value.value.value;
      PhysicalNameRecordsLayout(toks, pos + 2, LoopCount(s.count));
    }
  }

  /**
   * A parsed file holds exactly the declared number of records in each
   * table, and the optional section is present exactly when the token
   * after `$EndMeshFormat` is `$PhysicalNames` (else `$Nodes` stands there).
   */
  lemma ParseFileTables(toks: seq<Token>)
    requires ParseFile(toks).Ok?
    ensures var m := ParseFile(toks).value;
            && |m.nodes.records| == LoopCount(m.nodes.count)
            && |m.elements.records| == LoopCount(m.elements.count)
            && (m.physicalNames.Some? ==>
                  toks[5] == PhysicalNamesKeyword &&
                  |m.Regions()| == LoopCount(m.physicalNames.value.count))
            && (m.physicalNames.None? ==> toks[5] == NodesKeyword && m.Regions() == [])
  {
    hide ParseInt, ParseFile, ParseHeader, ParseNode, ParseElement, Repeat;
    FileSteps(toks);
    PhysicalNamesLookahead(toks, 5);
    var names := ParsePhysicalNames(toks, 5).value;
    SectionSteps(ParseNode, toks, names.next, NodesKeyword, EndNodesKeyword);
  }

  /** Every element a run of element records yields has the shape its fields dictate. */
  lemma {:induction false} ElementRecordsShaped(toks: seq<Token>, pos: nat, n: nat)
    requires Repeat(ParseElement, toks, pos, n).Ok?
    ensures forall e :: e in Repeat(ParseElement, toks, pos, n).value.value ==> ElementShaped(e)
    decreases n
  {
    hide ParseInt, ParseElement, ReadInt;
    if n > 0 {
      ElementRecordsShaped(toks, pos, n - 1);
      var prev := Repeat(ParseElement, toks, pos, n - 1).value;
      ElementRecordLayout(toks, prev.next);
      assert Repeat(ParseElement, toks, pos, n).value.value ==
             prev.value + [ParseElement(toks, prev.next).value.value];
    }
  }

  /** Every element of a parsed file has the shape its type and tag count dictate. */
  lemma ParseFileElements(toks: seq<Token>)
    requires ParseFile(toks).Ok?
    ensures forall e :: e in ParseFile(toks).value.elements.records ==> ElementShaped(e)
  {
    hide ParseInt, ParseFile, ParseHeader, ParsePhysicalNames, ParseNode, ParseElement, Repeat;
    FileSteps(toks);
    var names := ParsePhysicalNames(toks, 5).value;
    var nodes := ParseSection(ParseNode, toks, names.next, NodesKeyword, EndNodesKeyword).value;
    SectionSteps(ParseElement, toks, nodes.next, ElementsKeyword, EndElementsKeyword);
    var sec := ParseSection(ParseElement, toks, nodes.next, ElementsKeyword, EndElementsKeyword).value;
    ElementRecordsShaped(toks, nodes.next + 2, LoopCount(sec.value.count));
  }

  /** The shape of an element record as the parser leaves it. */
  predicate ElementShaped(e: ElementInfo) {
    |e.tags| == LoopCount(e.tagCount) && |e.nodes| == NodeFieldCount(e.elementType)
  }
}
