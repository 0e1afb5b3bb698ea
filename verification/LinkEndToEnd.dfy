/**
 The link gate as one pipeline, from a source file to what its links do at run time:
 strip, scan, expand, reconcile.
 */
module LinkEndToEnd {
  import opened Text
  import opened RouteMatcher
  import opened ShapeMatcher
  import opened TemplateScanner
  import opened TemplateExpansion
  import opened ExpansionMeaning
  import opened LinkLedger
  import opened SourceLines
  import CommentStripper

  // ------------------------------------------------------------ scope

  predicate Contains(s: string, part: string) {
    exists k | 0 <= k <= |s| :: part <= s[k..]
  }

  predicate IsPathChar(c: char) {
    IsWordChar(c) || c in "-.~/"
  }

  predicate IsInternalRouteTarget(value: string) {
    var segments := SegmentsOf(value);
    && value != "/" && !Contains(value, "://") && !StartsWith(value, "//") && !Contains(value, "${")
    && !StartsWith(value, "/_next") && !StartsWith(value, "/api/v1/") && value != "/api/v1"
    && segments != []
    && '.' !in segments[|segments| - 1]
    && ('A' <= segments[0][0] <= 'Z' || 'a' <= segments[0][0] <= 'z' || segments[0][0] == '_')
    && StartsWith(value, "/") && forall c | c in value :: IsPathChar(c)
  }

  /** A shape is in scope when a placeholder in every unknown place makes it so. */
  predicate IsShapeInScope(pattern: string) {
    var parts := Split(pattern, '/');
    IsInternalRouteTarget(Join(seq(|parts|, i requires 0 <= i < |parts| =>
      if parts[i] == WILDCARD then "x" else parts[i]), '/'))
  }

  // ------------------------------------------------------------ one file

  /** A reference to be: a target and the offset of the literal it came from. */
  datatype Site = Site(target: string, index: nat)

  datatype Reading = Reading(rows: seq<Row>, sites: seq<Site>)

  function TargetsRead(raw: string, unions: Unions): seq<string> {
    match Expand(raw, unions)
    case Expanded(targets) => if StartsWith(raw, "/") then Filter(targets, IsInternalRouteTarget) else []
    case _ => []
  }

  /** The row for one terminated template literal. Only text that begins with a slash is read. */
  function RowsRead(raw: string, unions: Unions): seq<Row> {
    if !StartsWith(raw, "/") then []
    else
      match Expand(raw, unions)
      case Unparsed => [UnparsedRow]
      case Shape(pattern) => if IsShapeInScope(pattern) then [ShapeRow(pattern)] else []
      case Expanded(_) => if TargetsRead(raw, unions) == [] then [] else [ExpandedRow]
  }

  function SitesRead(literal: Literal, unions: Unions): (sites: seq<Site>) {
    var targets := TargetsRead(literal.raw, unions);
    seq(|targets|, k requires 0 <= k < |targets| => Site(targets[k], literal.index))
  }

  /** The rows and sites of one file, in reading order. */
  function ReadAll(literals: seq<Literal>, unions: Unions): Reading {
    if literals == [] then Reading([], [])
    else
      var before := ReadAll(literals[..|literals| - 1], unions);
      var last := literals[|literals| - 1];
      Reading(before.rows + RowsRead(last.raw, unions), before.sites + SitesRead(last, unions))
  }

  /** Literals left open are failures of the file, when they begin like a path. */
  function RowsUnfinished(literals: seq<Literal>): seq<Row> {
    if literals == [] then []
    else
      RowsUnfinished(literals[..|literals| - 1]) +
      if StartsWith(literals[|literals| - 1].raw, "/") then [UnparsedRow] else []
  }

  predicate WithinText(sites: seq<Site>, text: string) {
    forall k | 0 <= k < |sites| :: sites[k].index <= |text|
  }

  /** Every site cited at the line its literal opens on. */
  function Cite(sites: seq<Site>, text: string, file: string, hrefLike: nat -> bool): (cited: seq<Reference>)
    requires WithinText(sites, text)
    ensures |cited| == |sites|
  {
    seq(|sites|, k requires 0 <= k < |sites| =>
      Reference(sites[k].target, file, LineNumber(text, sites[k].index), hrefLike(LineNumber(text, sites[k].index))))
  }

  method ReadUnfinished(literals: seq<Literal>) returns (rows: seq<Row>)
    ensures rows == RowsUnfinished(literals)
  {
    rows := [];
    for k := 0 to |literals|
      invariant rows == RowsUnfinished(literals[..k])
    {
      assert literals[..k + 1][..k] == literals[..k];
      if StartsWith(literals[k].raw, "/") {
        rows := rows + [UnparsedRow];
      }
    }
    assert literals[..|literals|] == literals;
  }

  method ReadLiterals(literals: seq<Literal>, unions: Unions) returns (rows: seq<Row>, sites: seq<Site>)
    ensures Reading(rows, sites) == ReadAll(literals, unions)
  {
    rows, sites := [], [];
    for k := 0 to |literals|
      invariant Reading(rows, sites) == ReadAll(literals[..k], unions)
    {
      assert literals[..k + 1][..k] == literals[..k];
      rows := rows + RowsRead(literals[k].raw, unions);
      sites := sites + SitesRead(literals[k], unions);
    }
    assert literals[..|literals|] == literals;
  }

  method CiteSites(sites: seq<Site>, text: string, file: string, hrefLike: nat -> bool)
    returns (references: seq<Reference>)
    requires WithinText(sites, text)
    ensures references == Cite(sites, text, file, hrefLike)
  {
    var starts := FindLineStarts(text);
    references := [];
    for k := 0 to |sites|
      invariant references == Cite(sites[..k], text, file, hrefLike)
    {
      var line := LineOf(text, starts, sites[k].index);
      references := references + [Reference(sites[k].target, file, line, hrefLike(line))];
    }
    assert sites[..|sites|] == sites;
  }

  lemma {:induction false} SitesWithinText(literals: seq<Literal>, unions: Unions, text: string)
    requires forall k | 0 <= k < |literals| :: literals[k].index <= |text|
    ensures WithinText(ReadAll(literals, unions).sites, text)
  {
    if literals != [] {
      SitesWithinText(literals[..|literals| - 1], unions, text);
    }
  }

  lemma ScannedWithinText(text: string)
    ensures forall k | 0 <= k < |ScanOf(text).templates| :: ScanOf(text).templates[k].index <= |text|
  {
    ScanStructure(text);
  }

  /**
   The extraction over one file: comments go, literals are scanned over the whole
   text, and each becomes rows and references that cite the line it opens on.
   */
  method ExtractTemplates(source: string, file: string, unions: Unions, hrefLike: nat -> bool)
    returns (executable: string, rows: seq<Row>, references: seq<Reference>)
    ensures executable == CommentStripper.Stripped(source)
    ensures var scan := ScanOf(executable);
            && rows == RowsUnfinished(scan.unterminated) + ReadAll(scan.templates, unions).rows
            && WithinText(ReadAll(scan.templates, unions).sites, executable)
            && references == Cite(ReadAll(scan.templates, unions).sites, executable, file, hrefLike)
  {
    executable := CommentStripper.StripCommentsPreservingLines(source);
    var scan := ScanTemplateLiterals(executable);
    var open := ReadUnfinished(scan.unterminated);
    var sites;
    rows, sites := ReadLiterals(scan.templates, unions);
    rows := open + rows;
    ScannedWithinText(executable);
    SitesWithinText(scan.templates, unions, executable);
    references := CiteSites(sites, executable, file, hrefLike);
  }

  lemma {:induction false} LiteralIsRead(literals: seq<Literal>, unions: Unions, literal: Literal, target: string)
    requires literal in literals && target in TargetsRead(literal.raw, unions)
    ensures exists k | 0 <= k < |ReadAll(literals, unions).sites| :: ReadAll(literals, unions).sites[k].target == target
  {
    hide TargetsRead, RowsRead;
    var last := literals[|literals| - 1];
    var before := ReadAll(literals[..|literals| - 1], unions).sites;
    if literal == last {
      var targets := TargetsRead(last.raw, unions);
      var k :| 0 <= k < |targets| && targets[k] == target;
      assert ReadAll(literals, unions).sites[|before| + k].target == target;
    } else {
      assert literal in literals[..|literals| - 1];
      LiteralIsRead(literals[..|literals| - 1], unions, literal, target);
      var k :| 0 <= k < |before| && before[k].target == target;
      assert ReadAll(literals, unions).sites[k].target == target;
    }
  }

  /** The literal gives the site: a target of its expansion that the gate looks at, at its own offset. */
  ghost predicate Gives(literal: Literal, unions: Unions, site: Site) {
    && literal.raw != "" && literal.raw[0] == '/' && site.index == literal.index
    && Expand(literal.raw, unions).Expanded? && site.target in Expand(literal.raw, unions).targets
    && IsInternalRouteTarget(site.target)
  }

  lemma SitesGiven(literal: Literal, unions: Unions, site: Site)
    ensures site in SitesRead(literal, unions) <==> Gives(literal, unions, site)
  {
    var targets := TargetsRead(literal.raw, unions);
    if Expand(literal.raw, unions).Expanded? {
      FilterMembers(Expand(literal.raw, unions).targets, IsInternalRouteTarget, site.target);
    }
    assert StartsWith(literal.raw, "/") <==> literal.raw != "" && literal.raw[0] == '/';
    hide Expand, IsInternalRouteTarget;
    if k :| 0 <= k < |targets| && targets[k] == site.target && site.index == literal.index {
      assert SitesRead(literal, unions)[k] == site;
    }
  }

  lemma {:induction false} SitesIff(literals: seq<Literal>, unions: Unions, site: Site)
    ensures site in ReadAll(literals, unions).sites
       <==> exists k :: 0 <= k < |literals| && Gives(literals[k], unions, site)
  {
    hide Gives, SitesRead, RowsRead;
    if literals != [] {
      var last := |literals| - 1;
      SitesIff(literals[..last], unions, site);
      SitesGiven(literals[last], unions, site);
      assert forall k | 0 <= k < last :: literals[..last][k] == literals[k];
    }
  }

  /** The reference is to a target of the literal, on the line the literal opens on. */
  ghost predicate Cites(literal: Literal, unions: Unions, text: string, file: string, hrefLike: nat -> bool,
                        r: Reference)
  {
    && literal.index <= |text| && Gives(literal, unions, Site(r.target, literal.index)) && r.file == file
    && r.line == LineNumber(text, literal.index) && r.hrefLike == hrefLike(r.line)
  }

  /**
   What a file cites: exactly the in-scope targets of its literals, each on the line its
   literal opens on, and as a navigation exactly where that line is one.
   */
  lemma CitedIff(literals: seq<Literal>, unions: Unions, text: string, file: string, hrefLike: nat -> bool,
                 r: Reference)
    requires WithinText(ReadAll(literals, unions).sites, text)
    ensures r in Cite(ReadAll(literals, unions).sites, text, file, hrefLike)
       <==> exists k :: 0 <= k < |literals| && Cites(literals[k], unions, text, file, hrefLike, r)
  {
    var sites := ReadAll(literals, unions).sites;
    hide *;
    if r in Cite(sites, text, file, hrefLike) {
      var j := CitedSite(sites, text, file, hrefLike, r);
      SitesIff(literals, unions, sites[j]);
      var k :| 0 <= k < |literals| && Gives(literals[k], unions, sites[j]);
      SiteCited(literals[k], sites[j], unions, text, file, hrefLike, r);
    }
    if k :| 0 <= k < |literals| && Cites(literals[k], unions, text, file, hrefLike, r) {
      var site := Site(r.target, literals[k].index);
      GivenByCites(literals[k], unions, text, file, hrefLike, r);
      SitesIff(literals, unions, site);
      SiteIsCited(sites, text, file, hrefLike, site, r);
    }
  }

  predicate IsCitation(site: Site, text: string, file: string, hrefLike: nat -> bool, r: Reference) {
    site.index <= |text| && r == Reference(site.target, file, LineNumber(text, site.index),
                                           hrefLike(LineNumber(text, site.index)))
  }

  lemma CitedSite(sites: seq<Site>, text: string, file: string, hrefLike: nat -> bool, r: Reference) returns (j: nat)
    requires WithinText(sites, text) && r in Cite(sites, text, file, hrefLike)
    ensures j < |sites| && IsCitation(sites[j], text, file, hrefLike, r)
  {
    j :| 0 <= j < |sites| && Cite(sites, text, file, hrefLike)[j] == r;
  }

  lemma SiteIsCited(sites: seq<Site>, text: string, file: string, hrefLike: nat -> bool, site: Site, r: Reference)
    requires WithinText(sites, text) && site in sites && IsCitation(site, text, file, hrefLike, r)
    ensures r in Cite(sites, text, file, hrefLike)
  {
    var j :| 0 <= j < |sites| && sites[j] == site;
    assert Cite(sites, text, file, hrefLike)[j] == r;
  }

  lemma SiteCited(literal: Literal, site: Site, unions: Unions, text: string, file: string, hrefLike: nat -> bool,
                  r: Reference)
    requires Gives(literal, unions, site) && IsCitation(site, text, file, hrefLike, r)
    ensures Cites(literal, unions, text, file, hrefLike, r)
  {
    hide LineNumber, Expand, IsInternalRouteTarget;
  }

  lemma GivenByCites(literal: Literal, unions: Unions, text: string, file: string, hrefLike: nat -> bool, r: Reference)
    requires Cites(literal, unions, text, file, hrefLike, r)
    ensures Gives(literal, unions, Site(r.target, literal.index))
    ensures IsCitation(Site(r.target, literal.index), text, file, hrefLike, r)
  {
    hide LineNumber, Gives;
  }

  ghost predicate SomeInScope(targets: seq<string>) {
    exists t | t in targets :: IsInternalRouteTarget(t)
  }

  /** The row of one literal that begins with a slash; no other literal has one. */
  ghost predicate HasRow(raw: string, unions: Unions, row: Row) {
    && raw != "" && raw[0] == '/'
    && match row
       case UnparsedRow => Expand(raw, unions) == Unparsed
       case ShapeRow(pattern) => Expand(raw, unions) == Shape(pattern) && IsShapeInScope(pattern)
       case ExpandedRow =>
         Expand(raw, unions).Expanded? && SomeInScope(Expand(raw, unions).targets)
       case OtherRow => false
  }

  lemma InScopeIff(targets: seq<string>)
    ensures Filter(targets, IsInternalRouteTarget) == [] <==> !SomeInScope(targets)
  {
    hide IsInternalRouteTarget;
    FilterEmptyIff(targets, IsInternalRouteTarget);
    if t :| t in targets && IsInternalRouteTarget(t) { var k :| 0 <= k < |targets| && targets[k] == t; }
  }

  lemma RowGiven(raw: string, unions: Unions, row: Row)
    ensures row in RowsRead(raw, unions) <==> HasRow(raw, unions, row)
  {
    assert StartsWith(raw, "/") <==> raw != "" && raw[0] == '/';
    hide Expand, IsInternalRouteTarget, IsShapeInScope, Filter, SomeInScope;
    match Expand(raw, unions)
    case Expanded(targets) => InScopeIff(targets);
    case _ =>
  }

  /** The rows of a file: those of its literals, and one for every open literal that begins with a slash. */
  lemma {:induction false} RowsIff(literals: seq<Literal>, open: seq<Literal>, unions: Unions, row: Row)
    ensures row in RowsUnfinished(open) + ReadAll(literals, unions).rows <==>
              || (exists k :: 0 <= k < |literals| && HasRow(literals[k].raw, unions, row))
              || (row == UnparsedRow && exists k :: 0 <= k < |open| && open[k].raw != "" && open[k].raw[0] == '/')
    decreases |literals| + |open|
  {
    hide HasRow, RowsRead, SitesRead;
    if open != [] {
      var last := |open| - 1;
      RowsIff(literals, open[..last], unions, row);
      assert StartsWith(open[last].raw, "/") <==> open[last].raw != "" && open[last].raw[0] == '/';
      assert forall k | 0 <= k < last :: open[..last][k] == open[k];
    } else if literals != [] {
      var last := |literals| - 1;
      RowsIff(literals[..last], open, unions, row);
      RowGiven(literals[last].raw, unions, row);
      assert forall k | 0 <= k < last :: literals[..last][k] == literals[k];
    }
  }

  // ------------------------------------------------------------ the end-to-end claims

  predicate HasTarget(references: seq<Reference>, t: string) {
    exists k :: 0 <= k < |references| && references[k].target == t
  }

  predicate AllGathered(sites: seq<Site>, references: seq<Reference>) {
    forall k | 0 <= k < |sites| :: HasTarget(references, sites[k].target)
  }

  /** Every target read from the literals has reached the gate's references. */
  predicate Gathered(literals: seq<Literal>, unions: Unions, references: seq<Reference>) {
    AllGathered(ReadAll(literals, unions).sites, references)
  }

  /** Passing on every reference the extraction cites is enough. */
  lemma CitedIsGathered(sites: seq<Site>, text: string, file: string, hrefLike: nat -> bool, references: seq<Reference>)
    requires WithinText(sites, text)
    requires forall r | r in Cite(sites, text, file, hrefLike) :: r in references
    ensures AllGathered(sites, references)
  {
    var cited := Cite(sites, text, file, hrefLike);
    forall k | 0 <= k < |sites|
      ensures HasTarget(references, sites[k].target)
    {
      assert cited[k] in cited;
      var j :| 0 <= j < |references| && references[j] == cited[k];
      assert references[j].target == sites[k].target;
    }
  }

  /** The targets read from a fully declared literal include every in-scope run of it. */
  lemma RunIsRead(raw: string, unions: Unions, value: nat -> string)
    requires FullyDeclared(raw, unions) && IsRun(PathPieces(PiecesFrom(raw, 0, 0).value), unions, value)
    requires IsInternalRouteTarget(NormalizeTarget(RunTarget(raw, value)))
    ensures NormalizeTarget(RunTarget(raw, value)) in TargetsRead(raw, unions)
  {
    var t := NormalizeTarget(RunTarget(raw, value));
    ExpansionIsExact(raw, unions);
    assert t in Expand(raw, unions).targets;
    FilterMembers(Expand(raw, unions).targets, IsInternalRouteTarget, t);
  }

  /** On an empty baseline a green gate leaves no target dead or captured. */
  lemma GreenMeansAlive(input: Input, t: string)
    requires Clean(input) && input.baseline == [] && IsTarget(input, t)
    ensures input.classify(t) in {Exact, CatchAll}
  {
    CleanMeansRatchet(input);
    assert !DeadTarget(input, t);
  }

  lemma ClassifyNormalized(target: string, routes: seq<string>)
    ensures Classify(NormalizeTarget(target), routes) == Classify(target, routes)
  {
    NormalizeIdempotent(target);
  }

  /**
   A green gate on an empty baseline: every in-scope value that a fully declared
   template can take at run time resolves, as an exact route or through a
   catch-all, and never by a parameter swallowing a literal.
   */
  lemma GreenMeansEveryRunResolves(
    literals: seq<Literal>, unions: Unions, literal: Literal, value: nat -> string,
    references: seq<Reference>, routes: seq<string>, rows: seq<Row>, deadShapes: seq<Entry>)
    requires Clean(GateInput(references, routes, [], rows, deadShapes))
    requires Gathered(literals, unions, references) && literal in literals
    requires FullyDeclared(literal.raw, unions)
    requires IsRun(PathPieces(PiecesFrom(literal.raw, 0, 0).value), unions, value)
    requires IsInternalRouteTarget(NormalizeTarget(RunTarget(literal.raw, value)))
    ensures Classify(RunTarget(literal.raw, value), routes) in {Exact, CatchAll}
  {
    var run := RunTarget(literal.raw, value);
    RunIsRead(literal.raw, unions, value);
    TargetIsGathered(literals, unions, literal, references, NormalizeTarget(run));
    var input := GateInput(references, routes, [], rows, deadShapes);
    GreenMeansAlive(input, NormalizeTarget(run));
    ClassifyNormalized(run, routes);
  }

  lemma TargetIsGathered(literals: seq<Literal>, unions: Unions, literal: Literal, references: seq<Reference>,
                         t: string)
    requires Gathered(literals, unions, references) && literal in literals && t in TargetsRead(literal.raw, unions)
    ensures exists r | r in references :: r.target == t
  {
    var sites := ReadAll(literals, unions).sites;
    LiteralIsRead(literals, unions, literal, t);
    var k :| 0 <= k < |sites| && sites[k].target == t;
    assert HasTarget(references, sites[k].target);
  }

  lemma {:induction false} FilterPairs(shape: seq<string>, inst: seq<string>)
    requires |shape| == |inst|
    requires forall i | 0 <= i < |shape| :: '/' !in inst[i]
               && (shape[i] == inst[i] || (shape[i] == WILDCARD && inst[i] != []))
    ensures IsInstance(Filter(shape, (s: string) => |s| > 0), Filter(inst, (s: string) => |s| > 0))
  {
    if shape != [] { FilterPairs(shape[1..], inst[1..]); }
  }

  lemma SegmentsOfSpell(texts: seq<string>)
    requires forall t | t in texts :: '/' !in t
    ensures SegmentsOf(Spell(texts)) == Filter(texts, (s: string) => |s| > 0)
  {
    if texts == [] {
      assert Split("/", '/') == [[], []] by { assert "/"[1..] == []; }
      FilterConcat<string>([[]], [[]], (s: string) => |s| > 0);
    } else {
      SplitLead(texts, '/');
      FilterConcat([[]], texts, (s: string) => |s| > 0);
    }
  }

  /** The text of a segment when every value is `*`. */
  lemma StarSegment(raw: string, i: nat)
    requires PathLike(raw) && i < |PathPieces(PiecesFrom(raw, 0, 0).value)|
    ensures var segment := PathPieces(PiecesFrom(raw, 0, 0).value)[i];
            var text := Render(segment, Mask);
            Render(segment, STAR) == if MaskAt(text).None? then text else WILDCARD
  {
    SegmentReadsBack(raw, i);
  }

  const STAR: nat -> string := (k: nat) => WILDCARD

  lemma ShapePattern(raw: string, unions: Unions)
    requires PathLike(raw) && Expand(raw, unions).Shape?
    ensures Expand(raw, unions).pattern == PatternOf(RenderAll(PathPieces(PiecesFrom(raw, 0, 0).value), Mask))
  {
    hide PatternOf, PathPieces, RenderAll, Truncated, PathOf, AllResolved, Products, Distinct, Normalized,
        NormalizeTarget;
    MaskedPath(raw);
  }

  lemma PatternSpells(segments: seq<string>, stars: seq<string>)
    requires |stars| == |segments|
    requires forall i | 0 <= i < |segments| :: stars[i] == if MaskAt(segments[i]).None? then segments[i] else WILDCARD
    ensures PatternOf(segments) == NormalizeTarget(Spell(stars))
  {
    var marked := seq(|segments|, i requires 0 <= i < |segments| =>
      if MaskAt(segments[i]).None? then segments[i] else "*");
    assert marked == stars;
    LeadIsJoin(stars, '/');
    assert stars == [] ==> "/" + Join(stars, '/') == "/";
  }

  lemma StarRun(raw: string)
    requires PathLike(raw)
    ensures var path := PathPieces(PiecesFrom(raw, 0, 0).value);
            NormalizeTarget(Spell(RenderAll(path, STAR))) == Spell(RenderAll(path, STAR))
  {
    var pieces := PiecesFrom(raw, 0, 0).value;
    PathPiecesFromRaw(raw);
    hide NormalizeTarget, Spell, RenderAll, PathPieces, PiecesFrom, CutPieces;
    PathRender(pieces, STAR);
    NormalizeIdempotent(Render(pieces, STAR));
  }

  /** The pattern of a path-like template is the run in which every value is `*`. */
  lemma PatternIsStarRun(raw: string, unions: Unions)
    requires PathLike(raw) && Expand(raw, unions).Shape?
    ensures var path := PathPieces(PiecesFrom(raw, 0, 0).value);
            && Expand(raw, unions).pattern == NormalizeTarget(Spell(RenderAll(path, STAR)))
            && NormalizeTarget(Spell(RenderAll(path, STAR))) == Spell(RenderAll(path, STAR))
  {
    var pieces := PiecesFrom(raw, 0, 0).value;
    var path := PathPieces(pieces);
    ShapePattern(raw, unions);
    forall i | 0 <= i < |path|
      ensures RenderAll(path, STAR)[i] ==
                if MaskAt(RenderAll(path, Mask)[i]).None? then RenderAll(path, Mask)[i] else WILDCARD
    {
      StarSegment(raw, i);
    }
    hide MaskAt, PatternOf, NormalizeTarget, Spell, RenderAll, PathPieces, PiecesFrom;
    PatternSpells(RenderAll(path, Mask), RenderAll(path, STAR));
    StarRun(raw);
  }

  /** Segment by segment, a run carries the pattern's text or a value where it has `*`. */
  lemma StarOrSame(raw: string, value: nat -> string, i: nat)
    requires PathLike(raw) && i < |PathPieces(PiecesFrom(raw, 0, 0).value)|
    requires CleanOn(CutPieces(PiecesFrom(raw, 0, 0).value), value)
    ensures var segment := PathPieces(PiecesFrom(raw, 0, 0).value)[i];
            var text, star := Render(segment, value), Render(segment, STAR);
            '/' !in text && '/' !in star && (star == text || (star == WILDCARD && text != []))
  {
    var pieces := PiecesFrom(raw, 0, 0).value;
    var segment := PathPieces(pieces)[i];
    PathSegmentIsLocal(pieces, i);
    NoSlashInSegment(segment, value);
    NoSlashInSegment(segment, STAR);
    SegmentReadsBack(raw, i);
    if IsHoleSegment(segment) {
      assert segment[0] in segment;
      assert Render(segment, value) == value(segment[0].k) && Render(segment, STAR) == WILDCARD;
    }
  }

  /** Whatever clean values its holes take, a template runs to an instance of its pattern. */
  lemma RunsAreInstances(raw: string, unions: Unions, value: nat -> string)
    requires PathLike(raw) && Expand(raw, unions).Shape?
    requires CleanOn(CutPieces(PiecesFrom(raw, 0, 0).value), value)
    ensures IsInstance(SegmentsOf(NormalizeTarget(Expand(raw, unions).pattern)),
                       SegmentsOf(NormalizeTarget(RunTarget(raw, value))))
  {
    var pieces := PiecesFrom(raw, 0, 0).value;
    var path := PathPieces(pieces);
    PatternIsStarRun(raw, unions);
    PathPiecesFromRaw(raw);
    PathRender(pieces, value);
    forall i | 0 <= i < |path|
      ensures var text, star := RenderAll(path, value)[i], RenderAll(path, STAR)[i];
              '/' !in text && '/' !in star && (star == text || (star == WILDCARD && text != []))
    {
      StarOrSame(raw, value, i);
    }
    InstanceOfSpells(RenderAll(path, STAR), RenderAll(path, value));
  }

  lemma InstanceOfSpells(stars: seq<string>, texts: seq<string>)
    requires |stars| == |texts|
    requires forall i | 0 <= i < |texts| ::
               '/' !in texts[i] && '/' !in stars[i] && (stars[i] == texts[i]
                   || (stars[i] == WILDCARD && texts[i] != []))
    ensures IsInstance(SegmentsOf(Spell(stars)), SegmentsOf(Spell(texts)))
  {
    SegmentsOfSpell(stars);
    SegmentsOfSpell(texts);
    FilterPairs(stars, texts);
  }
}
