/**
 * The inverse direction of the MSH grammar: a mesh written out as tokens.
 * Parsing what was written gives the mesh back, which pins down what each
 * section and record parser reads.
 *
 * The writer is parameterised by the spelling `sp` of integers: any
 * spelling that `%d` reads back (see Spells) will do, the decimal one
 * (IntToString) among them.
 */
module MshRoundTrip {
  import opened MshTokens
  import opened ElementSchema
  import opened MshFormat

  function RenderHeader(sp: int -> Token, h: Header): seq<Token> {
    [MeshFormatKeyword, VersionToken(sp, h.versionMajor, h.versionMinor),
     sp(h.fileType), sp(h.dataSize), EndMeshFormatKeyword]
  }

  function RenderPhysicalName(sp: int -> Token, n: PhysicalNameInfo): seq<Token> {
    [sp(n.dimension), sp(n.physicalNumber), n.name]
  }

  function RenderNode(sp: int -> Token, n: NodeInfo): seq<Token> {
    [sp(n.number), n.x, n.y, n.z]
  }

  function RenderElement(sp: int -> Token, e: ElementInfo): seq<Token> {
    [sp(e.number), sp(e.elementType), sp(e.tagCount)]
      + RenderAll(IntToken, sp, e.tags) + RenderAll(IntToken, sp, e.nodes)
  }

  function RenderSection<T>(render: (int -> Token, T) -> seq<Token>, sp: int -> Token,
                            begin: Token, end: Token, s: Section<T>): seq<Token> {
    [begin, sp(s.count)] + RenderAll(render, sp, s.records) + [end]
  }

  function RenderPhysicalNames(sp: int -> Token, names: Option<Section<PhysicalNameInfo>>): seq<Token> {
    match names
    case Some(s) => RenderSection(RenderPhysicalName, sp, PhysicalNamesKeyword, EndPhysicalNamesKeyword, s)
    case None => []
  }

  function RenderMesh(sp: int -> Token, m: Mesh): seq<Token> {
    RenderHeader(sp, m.header)
      + RenderPhysicalNames(sp, m.physicalNames)
      + RenderSection(RenderNode, sp, NodesKeyword, EndNodesKeyword, m.nodes)
      + RenderSection(RenderElement, sp, ElementsKeyword, EndElementsKeyword, m.elements)
  }

  /** A mesh whose counts and record shapes are the ones a parse produces. */
  predicate WellFormed(m: Mesh) {
    && (m.physicalNames.Some? ==> |m.physicalNames.value.records| == LoopCount(m.physicalNames.value.count))
    && |m.nodes.records| == LoopCount(m.nodes.count)
    && |m.elements.records| == LoopCount(m.elements.count)
    && forall e :: e in m.elements.records ==> ElementShaped(e)
  }

  // ---------------------------------------------------------------------
  // Records

  /** Written integers stand where they were written, as integers. */
  lemma {:induction false} RenderedInts(sp: int -> Token, toks: seq<Token>, pos: nat, xs: seq<int>)
    requires Spells(sp)
    requires PartAt(toks, pos, RenderAll(IntToken, sp, xs))
    ensures IntsAt(toks, pos, xs)
    decreases |xs|
  {
    hide ParseInt;
    if xs != [] {
      var n := |xs|;
      var init := xs[..n - 1];
      var front := RenderAll(IntToken, sp, init);
      RenderIntsLength(sp, init);
      assert RenderAll(IntToken, sp, xs) == front + IntToken(sp, xs[n - 1]) + [];
      PartsOfPart(toks, pos, front, IntToken(sp, xs[n - 1]), []);
      RenderedInts(sp, toks, pos, init);
      assert toks[pos + n - 1] == sp(xs[n - 1]) by {
        assert toks[pos + n - 1..pos + n][0] == toks[pos + n - 1];
      }
      forall j | 0 <= j < n ensures ParseInt(toks[pos + j]) == Some(xs[j]) {
        if j < n - 1 {
          assert xs[j] == init[j];
        }
      }
    }
  }

  lemma PhysicalNameDecodes(sp: int -> Token, n: PhysicalNameInfo)
    requires Spells(sp)
    ensures Decodes(ParsePhysicalName, RenderPhysicalName, sp, n)
  {
    hide ParseInt;
    forall toks: seq<Token>, p: nat | PartAt(toks, p, RenderPhysicalName(sp, n))
      ensures ParsePhysicalName(toks, p) == Ok(Parsed(n, p + 3))
    {
      assert toks[p] == toks[p..p + 3][0];
      assert toks[p + 1] == toks[p..p + 3][1];
      assert toks[p + 2] == toks[p..p + 3][2];
    }
  }

  lemma NodeDecodes(sp: int -> Token, n: NodeInfo)
    requires Spells(sp)
    ensures Decodes(ParseNode, RenderNode, sp, n)
  {
    hide ParseInt;
    forall toks: seq<Token>, p: nat | PartAt(toks, p, RenderNode(sp, n))
      ensures ParseNode(toks, p) == Ok(Parsed(n, p + 4))
    {
      assert toks[p] == toks[p..p + 4][0];
      assert toks[p + 1] == toks[p..p + 4][1];
      assert toks[p + 2] == toks[p..p + 4][2];
      assert toks[p + 3] == toks[p..p + 4][3];
    }
  }

  /** The converse of ElementSteps: the field groups, read one after the other, make the record. */
  lemma ElementAssembled(toks: seq<Token>, p: nat, e: ElementInfo, q: nat, stop: nat)
    requires ReadInt(toks, p) == Ok(Parsed(e.number, p + 1))
    requires ReadInt(toks, p + 1) == Ok(Parsed(e.elementType, p + 2))
    requires ReadInt(toks, p + 2) == Ok(Parsed(e.tagCount, p + 3))
    requires ElementShaped(e)
    requires Repeat(ReadInt, toks, p + 3, |e.tags|) == Ok(Parsed(e.tags, q))
    requires Repeat(ReadInt, toks, q, |e.nodes|) == Ok(Parsed(e.nodes, stop))
    ensures ParseElement(toks, p) == Ok(Parsed(e, stop))
  {
    hide ParseInt;
  }

  /** The integers of a record, standing at `p`, read back as that record. */
  lemma ElementFromInts(toks: seq<Token>, p: nat, e: ElementInfo)
    requires ElementShaped(e)
    requires p + 3 <= |toks|
    requires ParseInt(toks[p]) == Some(e.number)
    requires ParseInt(toks[p + 1]) == Some(e.elementType)
    requires ParseInt(toks[p + 2]) == Some(e.tagCount)
    requires IntsAt(toks, p + 3, e.tags)
    requires IntsAt(toks, p + 3 + |e.tags|, e.nodes)
    ensures ParseElement(toks, p) == Ok(Parsed(e, p + 3 + |e.tags| + |e.nodes|))
  {
    hide ParseInt;
    ReadIntsFrom(toks, p + 3, e.tags);
    ReadIntsFrom(toks, p + 3 + |e.tags|, e.nodes);
    ElementAssembled(toks, p, e, p + 3 + |e.tags|, p + 3 + |e.tags| + |e.nodes|);
  }

  /** The tokens of a written record stand as its integers, field group by field group. */
  lemma ElementTokens(sp: int -> Token, e: ElementInfo, toks: seq<Token>, p: nat)
    requires Spells(sp)
    requires PartAt(toks, p, RenderElement(sp, e))
    ensures |RenderElement(sp, e)| == 3 + |e.tags| + |e.nodes|
    ensures p + 3 <= |toks|
    ensures ParseInt(toks[p]) == Some(e.number)
    ensures ParseInt(toks[p + 1]) == Some(e.elementType)
    ensures ParseInt(toks[p + 2]) == Some(e.tagCount)
    ensures IntsAt(toks, p + 3, e.tags) && IntsAt(toks, p + 3 + |e.tags|, e.nodes)
  {
    hide ParseInt;
    var head := [sp(e.number), sp(e.elementType), sp(e.tagCount)];
    var tags, nodes := RenderAll(IntToken, sp, e.tags), RenderAll(IntToken, sp, e.nodes);
    RenderIntsLength(sp, e.tags);
    RenderIntsLength(sp, e.nodes);
    assert RenderElement(sp, e) == head + tags + nodes;
    PartsOfPart(toks, p, head, tags, nodes);
    assert toks[p] == head[0] && toks[p + 1] == head[1] && toks[p + 2] == head[2] by {
      assert toks[p..p + 3][0] == toks[p];
      assert toks[p..p + 3][1] == toks[p + 1];
      assert toks[p..p + 3][2] == toks[p + 2];
    }
    RenderedInts(sp, toks, p + 3, e.tags);
    RenderedInts(sp, toks, p + 3 + |e.tags|, e.nodes);
  }

  lemma ElementDecodes(sp: int -> Token, e: ElementInfo)
    requires Spells(sp)
    requires ElementShaped(e)
    ensures Decodes(ParseElement, RenderElement, sp, e)
  {
    hide ParseInt;
    forall toks: seq<Token>, p: nat | PartAt(toks, p, RenderElement(sp, e))
      ensures ParseElement(toks, p) == Ok(Parsed(e, p + |RenderElement(sp, e)|))
    {
      ElementTokens(sp, e, toks, p);
      ElementFromInts(toks, p, e);
    }
  }

  // ---------------------------------------------------------------------
  // Sections and the whole file

  lemma SectionReadBack<T>(f: (seq<Token>, nat) -> Result<Parsed<T>>, render: (int -> Token, T) -> seq<Token>,
                           sp: int -> Token, toks: seq<Token>, pos: nat, begin: Token, end: Token, s: Section<T>)
    requires Spells(sp)
    requires forall i :: 0 <= i < |s.records| ==> Decodes(f, render, sp, s.records[i])
    requires |s.records| == LoopCount(s.count)
    requires PartAt(toks, pos, RenderSection(render, sp, begin, end, s))
    ensures ParseSection(f, toks, pos, begin, end) == Ok(Parsed(s, pos + |RenderSection(render, sp, begin, end, s)|))
  {
    hide ParseInt;
    var head := [begin, sp(s.count)];
    var body := RenderAll(render, sp, s.records);
    assert RenderSection(render, sp, begin, end, s) == head + body + [end];
    PartsOfPart(toks, pos, head, body, [end]);
    assert toks[pos] == begin && toks[pos + 1] == sp(s.count) by {
      assert toks[pos..pos + 2][0] == toks[pos];
      assert toks[pos..pos + 2][1] == toks[pos + 1];
    }
    assert toks[pos + 2 + |body|] == end by {
      assert toks[pos + 2 + |body|..pos + 3 + |body|][0] == toks[pos + 2 + |body|];
    }
    RepeatRendered(f, render, sp, toks, pos + 2, s.records);
  }

  lemma HeaderReadBack(sp: int -> Token, h: Header, toks: seq<Token>)
    requires Spells(sp)
    requires PartAt(toks, 0, RenderHeader(sp, h))
    ensures ParseHeader(toks) == Ok(Parsed(h, 5))
  {
    hide ParseInt;
    assert toks[0] == toks[..5][0] && toks[1] == toks[..5][1] && toks[2] == toks[..5][2];
    assert toks[3] == toks[..5][3] && toks[4] == toks[..5][4];
    VersionRoundTrip(sp, h.versionMajor, h.versionMinor);
  }

  /** The optional section reads back as written, and as absent when nothing was written. */
  lemma NamesReadBack(sp: int -> Token, m: Mesh, toks: seq<Token>, pn: seq<Token>, ns: seq<Token>)
    requires Spells(sp)
    requires WellFormed(m)
    requires pn == RenderPhysicalNames(sp, m.physicalNames)
    requires ns == RenderSection(RenderNode, sp, NodesKeyword, EndNodesKeyword, m.nodes)
    requires PartAt(toks, 5, pn) && PartAt(toks, 5 + |pn|, ns)
    ensures ParsePhysicalNames(toks, 5) == Ok(Parsed(m.physicalNames, 5 + |pn|))
  {
    hide ParseInt;
    match m.physicalNames {
      case Some(s) =>
        assert toks[5] == PhysicalNamesKeyword by {
          assert toks[5..5 + |pn|][0] == toks[5];
        }
        forall i | 0 <= i < |s.records|
          ensures Decodes(ParsePhysicalName, RenderPhysicalName, sp, s.records[i])
        {
          PhysicalNameDecodes(sp, s.records[i]);
        }
        SectionReadBack(ParsePhysicalName, RenderPhysicalName, sp, toks, 5,
                        PhysicalNamesKeyword, EndPhysicalNamesKeyword, s);
      case None =>
        assert toks[5] == NodesKeyword by {
          assert toks[5..5 + |ns|][0] == toks[5];
        }
    }
  }

  lemma NodesReadBack(sp: int -> Token, s: Section<NodeInfo>, toks: seq<Token>, pos: nat)
    requires Spells(sp)
    requires |s.records| == LoopCount(s.count)
    requires PartAt(toks, pos, RenderSection(RenderNode, sp, NodesKeyword, EndNodesKeyword, s))
    ensures ParseSection(ParseNode, toks, pos, NodesKeyword, EndNodesKeyword)
            == Ok(Parsed(s, pos + |RenderSection(RenderNode, sp, NodesKeyword, EndNodesKeyword, s)|))
  {
    hide ParseInt;
    forall i | 0 <= i < |s.records|
      ensures Decodes(ParseNode, RenderNode, sp, s.records[i])
    {
      NodeDecodes(sp, s.records[i]);
    }
    SectionReadBack(ParseNode, RenderNode, sp, toks, pos, NodesKeyword, EndNodesKeyword, s);
  }

  lemma ElementsReadBack(sp: int -> Token, s: Section<ElementInfo>, toks: seq<Token>, pos: nat)
    requires Spells(sp)
    requires |s.records| == LoopCount(s.count)
    requires forall e :: e in s.records ==> ElementShaped(e)
    requires PartAt(toks, pos, RenderSection(RenderElement, sp, ElementsKeyword, EndElementsKeyword, s))
    ensures ParseSection(ParseElement, toks, pos, ElementsKeyword, EndElementsKeyword)
            == Ok(Parsed(s, pos + |RenderSection(RenderElement, sp, ElementsKeyword, EndElementsKeyword, s)|))
  {
    hide ParseInt;
    forall i | 0 <= i < |s.records|
      ensures Decodes(ParseElement, RenderElement, sp, s.records[i])
    {
      ElementDecodes(sp, s.records[i]);
    }
    SectionReadBack(ParseElement, RenderElement, sp, toks, pos, ElementsKeyword, EndElementsKeyword, s);
  }

  lemma PartsOfConcat(a: seq<Token>, b: seq<Token>, c: seq<Token>, d: seq<Token>, rest: seq<Token>)
    ensures var toks := a + b + c + d + rest;
            && PartAt(toks, 0, a)
            && PartAt(toks, |a|, b)
            && PartAt(toks, |a| + |b|, c)
            && PartAt(toks, |a| + |b| + |c|, d)
  {
    hide ParseInt;
    var toks := a + b + c + d + rest;
    assert toks[0..|a|] == a;
    assert toks[|a|..|a| + |b|] == b;
    assert toks[|a| + |b|..|a| + |b| + |c|] == c;
    assert toks[|a| + |b| + |c|..|a| + |b| + |c| + |d|] == d;
  }

  /** The converse of FileSteps: the sections, read one after the other, make the mesh. */
  lemma FileAssembled(toks: seq<Token>, m: Mesh, p1: nat, p2: nat, p3: nat)
    requires ParseHeader(toks) == Ok(Parsed(m.header, 5))
    requires ParsePhysicalNames(toks, 5) == Ok(Parsed(m.physicalNames, p1))
    requires ParseSection(ParseNode, toks, p1, NodesKeyword, EndNodesKeyword) == Ok(Parsed(m.nodes, p2))
    requires ParseSection(ParseElement, toks, p2, ElementsKeyword, EndElementsKeyword) == Ok(Parsed(m.elements, p3))
    ensures ParseFile(toks) == Ok(m)
  {
    hide ParseInt;
  }

  /**
   * Parsing a written mesh gives the mesh back, whatever the spelling of
   * its integers and whatever follows its `$EndElements`.
   */
  lemma SpelledMeshRoundTrip(sp: int -> Token, m: Mesh, trailing: seq<Token>)
    requires Spells(sp)
    requires WellFormed(m)
    ensures ParseFile(RenderMesh(sp, m) + trailing) == Ok(m)
  {
    hide ParseInt, ParseFile, ParseHeader, ParsePhysicalNames, ParseSection, ParseElement, ParseNode, ParsePhysicalName;
    hide RenderSection, RenderPhysicalNames, RenderAll, RenderElement, RenderNode, RenderPhysicalName;
    var h := RenderHeader(sp, m.header);
    var pn := RenderPhysicalNames(sp, m.physicalNames);
    var ns := RenderSection(RenderNode, sp, NodesKeyword, EndNodesKeyword, m.nodes);
    var es := RenderSection(RenderElement, sp, ElementsKeyword, EndElementsKeyword, m.elements);
    var toks := h + pn + ns + es + trailing;
    assert toks == RenderMesh(sp, m) + trailing;
    PartsOfConcat(h, pn, ns, es, trailing);
    HeaderReadBack(sp, m.header, toks);
    NamesReadBack(sp, m, toks, pn, ns);
    NodesReadBack(sp, m.nodes, toks, 5 + |pn|);
    ElementsReadBack(sp, m.elements, toks, 5 + |pn| + |ns|);
    FileAssembled(toks, m, 5 + |pn|, 5 + |pn| + |ns|, 5 + |pn| + |ns| + |es|);
  }

  /** The decimal writer in particular. */
  lemma MeshRoundTrip(m: Mesh, trailing: seq<Token>)
    requires WellFormed(m)
    ensures ParseFile(RenderMesh(IntToString, m) + trailing) == Ok(m)
  {
    hide ParseInt;
    DecimalSpells();
    SpelledMeshRoundTrip(IntToString, m, trailing);
  }

  /** Every mesh a parse yields is well formed: WellFormed is exactly what a parse can produce. */
  lemma ParsedMeshIsWellFormed(toks: seq<Token>)
    requires ParseFile(toks).Ok?
    ensures WellFormed(ParseFile(toks).value)
  {
    hide ParseInt, ParseFile;
    ParseFileTables(toks);
    ParseFileElements(toks);
  }

  /** Reading a file, writing the result in decimal and reading that again gives the first result. */
  lemma ReparseIsStable(toks: seq<Token>)
    requires ParseFile(toks).Ok?
    ensures ParseFile(RenderMesh(IntToString, ParseFile(toks).value)) == ParseFile(toks)
  {
    hide ParseInt, ParseFile, RenderMesh;
    var m := ParseFile(toks).value;
    ParsedMeshIsWellFormed(toks);
    MeshRoundTrip(m, []);
    assert RenderMesh(IntToString, m) + [] == RenderMesh(IntToString, m);
  }
}
