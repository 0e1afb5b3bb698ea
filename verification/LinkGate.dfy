/**
 The link gate over the sources of one application: every file is extracted, what it
 gives is put together, and a green verdict speaks of the source texts.
 */
module LinkGate {
  import opened Text
  import opened RouteMatcher
  import opened ShapeMatcher
  import opened TemplateScanner
  import opened TemplateExpansion
  import opened ExpansionMeaning
  import opened LinkLedger
  import opened LinkEndToEnd
  import CommentStripper

  /** A file with the unions declared for its expressions and the lines that navigate. */
  datatype Source = Source(text: string, name: string, unions: Unions, hrefLike: nat -> bool)

  function Executable(source: Source): string {
    CommentStripper.Stripped(source.text)
  }

  /** The template literals of a file, as they close in its text without comments. */
  function LiteralsOf(source: Source): seq<Literal> {
    ScanOf(Executable(source)).templates
  }

  function SitesOf(source: Source): (sites: seq<Site>)
    ensures WithinText(sites, Executable(source))
  {
    ScannedWithinText(Executable(source));
    SitesWithinText(LiteralsOf(source), source.unions, Executable(source));
    ReadAll(LiteralsOf(source), source.unions).sites
  }

  function ReferencesOf(source: Source): seq<Reference> {
    Cite(SitesOf(source), Executable(source), source.name, source.hrefLike)
  }

  function RowsOf(source: Source): seq<Row> {
    RowsUnfinished(ScanOf(Executable(source)).unterminated) + ReadAll(LiteralsOf(source), source.unions).rows
  }

  function AllReferences(sources: seq<Source>): seq<Reference> {
    if sources == [] then []
    else AllReferences(sources[..|sources| - 1]) + ReferencesOf(sources[|sources| - 1])
  }

  function AllRows(sources: seq<Source>): seq<Row> {
    if sources == [] then [] else AllRows(sources[..|sources| - 1]) + RowsOf(sources[|sources| - 1])
  }

  /** One pass over the files of an application. */
  method ScanSources(sources: seq<Source>) returns (references: seq<Reference>, rows: seq<Row>)
    ensures references == AllReferences(sources) && rows == AllRows(sources)
  {
    references, rows := [], [];
    for k := 0 to |sources|
      invariant references == AllReferences(sources[..k]) && rows == AllRows(sources[..k])
    {
      assert sources[..k + 1][..k] == sources[..k];
      var source := sources[k];
      var executable, found, cited := ExtractTemplates(source.text, source.name, source.unions, source.hrefLike);
      references, rows := references + cited, rows + found;
    }
    assert sources[..|sources|] == sources;
  }

  lemma {:induction false} ReferencesReach(sources: seq<Source>, source: Source)
    requires source in sources
    ensures forall r | r in ReferencesOf(source) :: r in AllReferences(sources)
  {
    if source != sources[|sources| - 1] {
      assert source in sources[..|sources| - 1];
      ReferencesReach(sources[..|sources| - 1], source);
    }
  }

  lemma SourceIsGathered(sources: seq<Source>, source: Source, quoted: seq<Reference>)
    requires source in sources
    ensures Gathered(LiteralsOf(source), source.unions, quoted + AllReferences(sources))
  {
    ReferencesReach(sources, source);
    CitedIsGathered(SitesOf(source), Executable(source), source.name, source.hrefLike, quoted + AllReferences(sources));
  }

  /** The verdict on one application: what its files give, with the quoted links besides. */
  ghost predicate Green(sources: seq<Source>, quoted: seq<Reference>, routes: seq<string>, baseline: seq<Entry>,
                        deadShapes: seq<Entry>)
  {
    Clean(GateInput(quoted + AllReferences(sources), routes, baseline, AllRows(sources), deadShapes))
  }

  /**
   A green gate on an empty baseline, said of sources: every fully declared template in the
   text of any file resolves for every in-scope value it takes at run time, whatever
   comments, strings and other templates stand around it.
   */
  lemma GreenSourcesResolve(sources: seq<Source>, quoted: seq<Reference>, routes: seq<string>, deadShapes: seq<Entry>,
                            source: Source, literal: Literal, value: nat -> string)
    requires Green(sources, quoted, routes, [], deadShapes)
    requires source in sources && literal in LiteralsOf(source) && FullyDeclared(literal.raw, source.unions)
    requires IsRun(PathPieces(PiecesFrom(literal.raw, 0, 0).value), source.unions, value)
    requires IsInternalRouteTarget(NormalizeTarget(RunTarget(literal.raw, value)))
    ensures Classify(RunTarget(literal.raw, value), routes) in {Exact, CatchAll}
  {
    SourceIsGathered(sources, source, quoted);
    GreenMeansEveryRunResolves(LiteralsOf(source), source.unions, literal, value, quoted + AllReferences(sources),
                               routes, AllRows(sources), deadShapes);
  }

  lemma {:induction false} LiteralRows(literals: seq<Literal>, unions: Unions, literal: Literal)
    requires literal in literals
    ensures forall r | r in RowsRead(literal.raw, unions) :: r in ReadAll(literals, unions).rows
  {
    if literal != literals[|literals| - 1] {
      assert literal in literals[..|literals| - 1];
      LiteralRows(literals[..|literals| - 1], unions, literal);
    }
  }

  lemma {:induction false} RowsReach(sources: seq<Source>, source: Source)
    requires source in sources
    ensures forall r | r in RowsOf(source) :: r in AllRows(sources)
  {
    if source != sources[|sources| - 1] {
      assert source in sources[..|sources| - 1];
      RowsReach(sources[..|sources| - 1], source);
    }
  }

  /**
   And of the templates that are not fully declared: behind a green gate every in-scope
   one that begins with a slash was read, and with no shape in the baseline its shape is
   alive.
   */
  lemma GreenSourcesAreRead(sources: seq<Source>, quoted: seq<Reference>, routes: seq<string>, baseline: seq<Entry>,
                            source: Source, literal: Literal)
    requires Green(sources, quoted, routes, baseline, [])
    requires source in sources && literal in LiteralsOf(source) && StartsWith(literal.raw, "/")
    ensures var read := Expand(literal.raw, source.unions);
            && !read.Unparsed?
            && (read.Shape? && IsShapeInScope(read.pattern) ==> ShapeAlive(read.pattern, routes))
  {
    var read := Expand(literal.raw, source.unions);
    var input := GateInput(quoted + AllReferences(sources), routes, baseline, AllRows(sources), []);
    assert read.Unparsed? ==> UnparsedRow in RowsRead(literal.raw, source.unions);
    LiteralRows(LiteralsOf(source), source.unions, literal);
    RowsReach(sources, source);
    CleanRows(input);
    if read.Shape? && IsShapeInScope(read.pattern) {
      assert ShapeRow(read.pattern) in RowsRead(literal.raw, source.unions);
      assert IsPattern(input, read.pattern);
      CleanShape(input, read.pattern);
    }
  }
}
