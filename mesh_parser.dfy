/**
 * The imperative parser: the global buffers and counters that
 * `parse_input_file_` fills, the `for` loops that fill them, and the two
 * helpers around them. Every loop is proved to compute what the grammar
 * functions of MshFormat describe.
 */
module MeshParser {
  import opened MshTokens
  import opened ElementSchema
  import opened MshFormat

  /** count_string_length: the number of characters before the first NUL. */
  method CountStringLength(str: array<char>) returns (length: int)
    requires exists k :: 0 <= k < str.Length && str[k] == '\0'
    ensures 0 <= length < str.Length && str[length] == '\0'
    ensures forall j :: 0 <= j < length ==> str[j] != '\0'
  {
    var i := 0;
    length := 0;
    while str[i] != '\0'
      invariant 0 <= i < str.Length
      invariant length == i
      invariant forall j :: 0 <= j < i ==> str[j] != '\0'
      invariant exists k :: i <= k < str.Length && str[k] == '\0'
      decreases str.Length - i
    {
      length := length + 1;
      i := i + 1;
    }
  }

  // ---------------------------------------------------------------------
  // The loops of one element record

  /** `for (j = 0; j < n; j++) fscanf(file, "%d", ...)`: n integers, none when n <= 0. */
  method ReadInts(toks: seq<Token>, pos: nat, n: int) returns (r: Result<Parsed<seq<int>>>)
    ensures r == Repeat(ReadInt, toks, pos, LoopCount(n))
  {
    var xs: seq<int> := [];
    var p := pos;
    var j := 0;
    while j < n
      invariant 0 <= j <= LoopCount(n)
      invariant Repeat(ReadInt, toks, pos, j) == Ok(Parsed(xs, p))
    {
      var x := ReadInt(toks, p);
      if x.Err? {
        RepeatStops(ReadInt, toks, pos, j + 1, LoopCount(n));
        return Err(x.error);
      }
      xs := xs + [x.value.value];
      p := x.value.next;
      j := j + 1;
    }
    return Ok(Parsed(xs, p));
  }

  /**
   * One turn of the elements loop: number, type and tagCount, the tag loop,
   * then the `switch` on the type, whose matching case reads that many node
   * ids and whose absence of a `default` reads none.
   */
  method ReadElement(toks: seq<Token>, pos: nat) returns (r: Result<Parsed<ElementInfo>>)
    ensures r == ParseElement(toks, pos)
  {
    var number := ReadInt(toks, pos);
    if number.Err? {
      return Err(number.error);
    }
    var elementType := ReadInt(toks, pos + 1);
    if elementType.Err? {
      return Err(elementType.error);
    }
    var tagCount := ReadInt(toks, pos + 2);
    if tagCount.Err? {
      return Err(tagCount.error);
    }
    var tags := ReadInts(toks, pos + 3, tagCount.value.value);
    if tags.Err? {
      return Err(tags.error);
    }
    var nodes: Result<Parsed<seq<int>>>;
    match Arity(elementType.value.value) {
      case Some(k) =>
        nodes := ReadInts(toks, tags.value.next, k);
      case None =>
        nodes := Ok(Parsed([], tags.value.next));
    }
    if nodes.Err? {
      return Err(nodes.error);
    }
    var e := ElementInfo(number.value.value, elementType.value.value, tagCount.value.value,
                         tags.value.value, nodes.value.value);
    return Ok(Parsed(e, nodes.value.next));
  }

  // ---------------------------------------------------------------------
  // The loops that fill a table

  /** What a table-filling loop leaves behind, given what the grammar says the run of records is. */
  ghost predicate Filled<T>(run: Result<Parsed<seq<T>>>, contents: seq<T>, r: Result<nat>) {
    match run
    case Ok(Parsed(xs, next)) => r == Ok(next) && contents == xs
    case Err(e) => r == Err(e)
  }

  /** `for (i = 0; i < count; i++) fscanf(...)` into a calloc'd table, one record per turn. */
  method FillRecords<T>(f: (seq<Token>, nat) -> Result<Parsed<T>>, toks: seq<Token>, pos: nat, buf: array<T>)
    returns (r: Result<nat>)
    modifies buf
    ensures Filled(Repeat(f, toks, pos, buf.Length), buf[..], r)
  {
    var p := pos;
    var i := 0;
    ghost var xs: seq<T> := [];
    while i < buf.Length
      invariant i <= buf.Length
      invariant buf[..i] == xs
      invariant Repeat(f, toks, pos, i) == Ok(Parsed(xs, p))
    {
      var x := f(toks, p);
      if x.Err? {
        RepeatStops(f, toks, pos, i + 1, buf.Length);
        return Err(x.error);
      }
      buf[i] := x.value.value;
      xs := xs + [x.value.value];
      assert buf[..i + 1] == buf[..i] + [buf[i]];
      p := x.value.next;
      i := i + 1;
    }
    assert buf[..] == buf[..i];
    return Ok(p);
  }

  /** The elements loop: the same shape as FillRecords, one ReadElement per turn. */
  method FillElements(toks: seq<Token>, pos: nat, buf: array<ElementInfo>) returns (r: Result<nat>)
    modifies buf
    ensures Filled(Repeat(ParseElement, toks, pos, buf.Length), buf[..], r)
  {
    var p := pos;
    var i := 0;
    ghost var xs: seq<ElementInfo> := [];
    while i < buf.Length
      invariant i <= buf.Length
      invariant buf[..i] == xs
      invariant Repeat(ParseElement, toks, pos, i) == Ok(Parsed(xs, p))
    {
      var x := ReadElement(toks, p);
      if x.Err? {
        RepeatStops(ParseElement, toks, pos, i + 1, buf.Length);
        return Err(x.error);
      }
      buf[i] := x.value.value;
      xs := xs + [x.value.value];
      assert buf[..i + 1] == buf[..i] + [buf[i]];
      p := x.value.next;
      i := i + 1;
    }
    assert buf[..] == buf[..i];
    return Ok(p);
  }

  /**
   * A section whose begin keyword stands at `start`: the count, a table of
   * that many records (zeroed as calloc leaves it), the records, and the
   * end keyword.
   */
  method ReadTable<T>(f: (seq<Token>, nat) -> Result<Parsed<T>>, toks: seq<Token>, start: nat,
                      begin: Token, end: Token, zero: T)
    returns (r: Result<Parsed<Section<T>>>, buf: array<T>)
    requires start < |toks| && toks[start] == begin
    ensures fresh(buf)
    ensures r == ParseSection(f, toks, start, begin, end)
    ensures r.Ok? ==> buf[..] == r.value.value.records
  {
    var count := ReadInt(toks, start + 1);
    if count.Err? {
      buf := new T[0];
      return Err(count.error), buf;
    }
    buf := new T[LoopCount(count.value.value)](_ => zero);
    var records := FillRecords(f, toks, start + 2, buf);
    if records.Err? {
      return Err(records.error), buf;
    }
    var stop := ExpectKeyword(toks, records.value, end);
    if stop.Err? {
      return Err(stop.error), buf;
    }
    r := Ok(Parsed(Section(count.value.value, buf[..]), stop.value));
  }

  /** ReadTable for the `$Elements` section, whose records are read by ReadElement. */
  method ReadElementTable(toks: seq<Token>, start: nat, zero: ElementInfo)
    returns (r: Result<Parsed<Section<ElementInfo>>>, buf: array<ElementInfo>)
    requires start < |toks| && toks[start] == ElementsKeyword
    ensures fresh(buf)
    ensures r == ParseSection(ParseElement, toks, start, ElementsKeyword, EndElementsKeyword)
    ensures r.Ok? ==> buf[..] == r.value.value.records
  {
    var count := ReadInt(toks, start + 1);
    if count.Err? {
      buf := new ElementInfo[0];
      return Err(count.error), buf;
    }
    buf := new ElementInfo[LoopCount(count.value.value)](_ => zero);
    var records := FillElements(toks, start + 2, buf);
    if records.Err? {
      return Err(records.error), buf;
    }
    var stop := ExpectKeyword(toks, records.value, EndElementsKeyword);
    if stop.Err? {
      return Err(stop.error), buf;
    }
    r := Ok(Parsed(Section(count.value.value, buf[..]), stop.value));
  }

  /**
   * The optional `$PhysicalNames` section: the position is saved, one token
   * is read, and when it is not the keyword the position is restored and
   * nothing else is read.
   */
  method LookAheadPhysicalNames(toks: seq<Token>, pos: nat)
    returns (names: Result<Parsed<Option<Section<PhysicalNameInfo>>>>, buf: array?<PhysicalNameInfo>)
    ensures names == ParsePhysicalNames(toks, pos)
    ensures buf != null ==> fresh(buf)
    ensures names.Ok? && names.value.value.Some? ==>
              buf != null && buf[..] == names.value.value.value.records
  {
    var seekPos := pos;
    var currentRegionName := ReadToken(toks, pos);
    if currentRegionName.Ok? && currentRegionName.value.value == PhysicalNamesKeyword {
      var table, tableBuf := ReadTable(ParsePhysicalName, toks, seekPos, PhysicalNamesKeyword,
                                       EndPhysicalNamesKeyword, ZeroPhysicalName);
      if table.Err? {
        return Err(table.error), null;
      }
      return Ok(Parsed(Some(table.value.value), table.value.next)), tableBuf;
    }
    return Ok(Parsed(None, seekPos)), null;
  }

  /**
   * The body of parse_input_file_ once the file is open: the header, the
   * optional section, `$Nodes` and `$Elements`, each table read into a
   * fresh buffer.
   */
  method ReadMesh(toks: seq<Token>)
    returns (r: Result<Mesh>, namesBuf: array?<PhysicalNameInfo>, nodesBuf: array<NodeInfo>,
             elementsBuf: array<ElementInfo>)
    ensures r == ParseFile(toks)
    ensures fresh(nodesBuf) && fresh(elementsBuf) && (namesBuf != null ==> fresh(namesBuf))
    ensures r.Ok? ==>
              && nodesBuf[..] == r.value.nodes.records
              && elementsBuf[..] == r.value.elements.records
              && (r.value.physicalNames.Some? ==>
                    namesBuf != null && namesBuf[..] == r.value.physicalNames.value.records)
  {
    hide ParseHeader, ParsePhysicalNames, ParseSection, ParseInt, ParseNode, ParseElement, ParsePhysicalName;
    namesBuf, nodesBuf, elementsBuf := null, new NodeInfo[0], new ElementInfo[0];

    // $MeshFormat, the version line, $EndMeshFormat
    var header := ParseHeader(toks);
    if header.Err? {
      return Err(header.error), namesBuf, nodesBuf, elementsBuf;
    }

    // The optional $PhysicalNames section
    var names;
    names, namesBuf := LookAheadPhysicalNames(toks, header.value.next);
    if names.Err? {
      return Err(names.error), namesBuf, nodesBuf, elementsBuf;
    }

    // $Nodes
    var pos := names.value.next;
    if !(pos < |toks| && toks[pos] == NodesKeyword) {
      SectionNeedsBegin(ParseNode, toks, pos, NodesKeyword, EndNodesKeyword);
      return Err(ExpectKeyword(toks, pos, NodesKeyword).error), namesBuf, nodesBuf, elementsBuf;
    }
    var nodes;
    nodes, nodesBuf := ReadTable(ParseNode, toks, pos, NodesKeyword, EndNodesKeyword, ZeroNode);
    if nodes.Err? {
      return Err(nodes.error), namesBuf, nodesBuf, elementsBuf;
    }

    // $Elements
    pos := nodes.value.next;
    if !(pos < |toks| && toks[pos] == ElementsKeyword) {
      SectionNeedsBegin(ParseElement, toks, pos, ElementsKeyword, EndElementsKeyword);
      return Err(ExpectKeyword(toks, pos, ElementsKeyword).error), namesBuf, nodesBuf, elementsBuf;
    }
    var elements;
    elements, elementsBuf := ReadElementTable(toks, pos, ZeroElement);
    if elements.Err? {
      return Err(elements.error), namesBuf, nodesBuf, elementsBuf;
    }
    r := Ok(Mesh(header.value.value, names.value.value, nodes.value.value, elements.value.value));
  }

  // ---------------------------------------------------------------------
  // The parser state

  /** What parse_input_file_ reports on standard output at the end of a call. */
  datatype Outcome = CannotOpen | ReadFailed(error: ParseError) | ReadSuccess

  /** The outcome that goes with a parse result. */
  function OutcomeOf(m: Result<Mesh>): (o: Outcome)
    ensures o == ReadSuccess <==> m.Ok?
    ensures m.Err? ==> o == ReadFailed(m.error)
  {
    match m
    case Ok(_) => ReadSuccess
    case Err(e) => ReadFailed(e)
  }

  /** Zeroed records, as calloc leaves a fresh table. */
  const ZeroPhysicalName := PhysicalNameInfo(0, 0, "")
  const ZeroNode := NodeInfo(0, "", "", "")
  const ZeroElement := ElementInfo(0, 0, 0, [], [])

  /** The file-scope variables of the parser: three tables and seven counters. */
  class Parser {
    var physicalNamesInfo: array?<PhysicalNameInfo>
    var nodesInfo: array?<NodeInfo>
    var elementsInfo: array?<ElementInfo>
    var versionCodeMacro: int
    var versionCodeMicro: int
    var fileType: int
    var dataSize: int
    var nodesCount: int
    var elementsCount: int
    var physicalNamesCount: int

    /** The counters, which free_memory_ leaves alone. */
    function Counters(): seq<int>
      reads this
    {
      [versionCodeMacro, versionCodeMicro, fileType, dataSize, nodesCount, elementsCount, physicalNamesCount]
    }

    /**
     * The state holds the parse result `m`: the header, the counts and the
     * tables as read. A file without `$PhysicalNames` leaves the table NULL
     * and physicalNamesCount at `staleCount`, its value before the call.
     */
    ghost predicate Holds(m: Mesh, staleCount: int)
      reads this, physicalNamesInfo, nodesInfo, elementsInfo
    {
      && versionCodeMacro == m.header.versionMajor
      && versionCodeMicro == m.header.versionMinor
      && fileType == m.header.fileType
      && dataSize == m.header.dataSize
      && nodesCount == m.nodes.count
      && nodesInfo != null && nodesInfo[..] == m.nodes.records
      && elementsCount == m.elements.count
      && elementsInfo != null && elementsInfo[..] == m.elements.records
      && match m.physicalNames
         case Some(s) =>
           physicalNamesCount == s.count && physicalNamesInfo != null && physicalNamesInfo[..] == s.records
         case None =>
           physicalNamesCount == staleCount && physicalNamesInfo == null
    }

    /** The initial values of the file-scope variables: NULL tables and zero counters. */
    constructor ()
      ensures physicalNamesInfo == null && nodesInfo == null && elementsInfo == null
      ensures Counters() == [0, 0, 0, 0, 0, 0, 0]
    {
      physicalNamesInfo := null;
      nodesInfo := null;
      elementsInfo := null;
      versionCodeMacro := 0;
      versionCodeMicro := 0;
      fileType := 0;
      dataSize := 0;
      nodesCount := 0;
      elementsCount := 0;
      physicalNamesCount := 0;
    }

    /** free_memory_: every table that is set is released and reset to NULL; the counters stay. */
    method FreeMemory()
      modifies this
      ensures nodesInfo == null && physicalNamesInfo == null && elementsInfo == null
      ensures Counters() == old(Counters())
    {
      if nodesInfo != null {
        nodesInfo := null;
      }
      if physicalNamesInfo != null {
        physicalNamesInfo := null;
      }
      if elementsInfo != null {
        elementsInfo := null;
      }
    }

    /**
     * parse_input_file_ over a file given as its tokens (None: it cannot be
     * opened). The out-parameters are None where the source does not write
     * through the pointer.
     */
    method ParseInputFile(file: Option<seq<Token>>)
      returns (outcome: Outcome, outPhysicalNamesCount: Option<int>, outNodesCount: Option<int>,
               outElementsCount: Option<int>)
      modifies this
      ensures file.None? ==>
                && outcome == CannotOpen
                && physicalNamesInfo == null && nodesInfo == null && elementsInfo == null
                && Counters() == old(Counters())
                && outPhysicalNamesCount.None? && outNodesCount.None? && outElementsCount.None?
      ensures file.Some? ==> outcome == OutcomeOf(ParseFile(file.value))
      ensures file.Some? && ParseFile(file.value).Ok? ==>
                var m := ParseFile(file.value).value;
                && Holds(m, old(physicalNamesCount))
                && fresh(nodesInfo) && fresh(elementsInfo)
                && (physicalNamesInfo != null ==> fresh(physicalNamesInfo))
                && outPhysicalNamesCount == (if m.physicalNames.Some? then Some(m.physicalNames.value.count) else None)
                && outNodesCount == Some(m.nodes.count)
                && outElementsCount == Some(m.elements.count)
    {
      hide ParseFile, ParseHeader, ParsePhysicalNames, ParseSection, ParseNode, ParseElement, ParsePhysicalName;
      hide Repeat, ReadInt, ReadToken, ExpectKeyword, ReadVersion, ParseInt, ParseVersion, ParseNat, LoopCount;
      FreeMemory();
      outPhysicalNamesCount, outNodesCount, outElementsCount := None, None, None;
      if file.None? {
        return CannotOpen, outPhysicalNamesCount, outNodesCount, outElementsCount;
      }
      var r, namesBuf, nodesBuf, elementsBuf := ReadMesh(file.value);
      if r.Err? {
        return ReadFailed(r.error), outPhysicalNamesCount, outNodesCount, outElementsCount;
      }
      var m := r.value;
      versionCodeMacro := m.header.versionMajor;
      versionCodeMicro := m.header.versionMinor;
      fileType := m.header.fileType;
      dataSize := m.header.dataSize;
      if m.physicalNames.Some? {
        physicalNamesCount := m.physicalNames.value.count;
        outPhysicalNamesCount := Some(physicalNamesCount);
        physicalNamesInfo := namesBuf;
      }
      nodesCount := m.nodes.count;
      outNodesCount := Some(nodesCount);
      nodesInfo := nodesBuf;
      elementsCount := m.elements.count;
      outElementsCount := Some(elementsCount);
      elementsInfo := elementsBuf;
      outcome := ReadSuccess;
    }

    /**
     * retrieve_read_data_: the first `count` records of each table are
     * copied to the caller's buffers, which must hold them; the rest of
     * those buffers is left as it was.
     */
    method RetrieveReadData(outPhysicalNamesInfo: array<PhysicalNameInfo>, outNodesInfo: array<NodeInfo>,
                            outElementsInfo: array<ElementInfo>)
      requires CopyFits(physicalNamesInfo, physicalNamesCount, outPhysicalNamesInfo)
      requires CopyFits(nodesInfo, nodesCount, outNodesInfo)
      requires CopyFits(elementsInfo, elementsCount, outElementsInfo)
      modifies outPhysicalNamesInfo, outNodesInfo, outElementsInfo
      ensures forall i :: 0 <= i < physicalNamesCount ==> outPhysicalNamesInfo[i] == old(physicalNamesInfo[i])
      ensures forall i :: 0 <= i < nodesCount ==> outNodesInfo[i] == old(nodesInfo[i])
      ensures forall i :: 0 <= i < elementsCount ==> outElementsInfo[i] == old(elementsInfo[i])
      ensures forall i :: LoopCount(physicalNamesCount) <= i < outPhysicalNamesInfo.Length ==>
                outPhysicalNamesInfo[i] == old(outPhysicalNamesInfo[i])
      ensures forall i :: LoopCount(nodesCount) <= i < outNodesInfo.Length ==> outNodesInfo[i] == old(outNodesInfo[i])
      ensures forall i :: LoopCount(elementsCount) <= i < outElementsInfo.Length ==>
                outElementsInfo[i] == old(outElementsInfo[i])
    {
      CopyPrefix(physicalNamesInfo, physicalNamesCount, outPhysicalNamesInfo);
      CopyPrefix(nodesInfo, nodesCount, outNodesInfo);
      CopyPrefix(elementsInfo, elementsCount, outElementsInfo);
    }
  }

  /** A copy of `count` records out of `src` is in bounds of both tables (nothing is read when count <= 0). */
  predicate CopyFits<T>(src: array?<T>, count: int, dst: array<T>) {
    count > 0 ==> src != null && count <= src.Length && count <= dst.Length
  }

  /** `for (i = 0; i < count; i++) dst[i] = src[i];` */
  method CopyPrefix<T>(src: array?<T>, count: int, dst: array<T>)
    requires CopyFits(src, count, dst)
    modifies dst
    ensures forall i :: 0 <= i < count ==> dst[i] == old(src[i])
    ensures forall i :: LoopCount(count) <= i < dst.Length ==> dst[i] == old(dst[i])
  {
    var i := 0;
    while i < count
      invariant 0 <= i <= LoopCount(count)
      invariant forall j :: 0 <= j < i ==> dst[j] == old(src[j])
      invariant forall j :: i <= j < dst.Length ==> dst[j] == old(dst[j])
      invariant forall j :: i <= j < count ==> src[j] == old(src[j])
    {
      dst[i] := src[i];
      i := i + 1;
    }
  }

  /**
   * parse_input_file_ on a file with regions, then on one without: the
   * second call keeps the first file's region count but has freed its
   * table, so `retrieve_read_data_` would copy that many records out of
   * NULL, whatever buffer the caller passes.
   */
  method StaleRegionCount(withRegions: seq<Token>, withoutRegions: seq<Token>) returns (p: Parser)
    requires ParseFile(withRegions).Ok? && ParseFile(withRegions).value.physicalNames.Some?
    requires ParseFile(withRegions).value.physicalNames.value.count > 0
    requires ParseFile(withoutRegions).Ok? && ParseFile(withoutRegions).value.physicalNames.None?
    ensures p.physicalNamesInfo == null
    ensures p.physicalNamesCount == ParseFile(withRegions).value.physicalNames.value.count
    ensures forall dst: array<PhysicalNameInfo> :: !CopyFits(p.physicalNamesInfo, p.physicalNamesCount, dst)
  {
    hide ParseFile;
    p := new Parser();
    var _, _, _, _ := p.ParseInputFile(Some(withRegions));
    var _, _, _, _ := p.ParseInputFile(Some(withoutRegions));
  }
}
