/**
 The tenant census: the set of tables a row policy must reach, read from the foreign
 keys alone, and the assertions that together force the policied tables to be that set.
 */
module TenantCensus {
  import opened Text

  // ------------------------------------------------------------ the catalog

  /** One foreign key by its leading column: `child.column` references `parent`. */
  datatype ForeignKey = ForeignKey(child: string, parent: string, column: string)

  /** The public base tables, those with a `tenant_id`, and every foreign key. */
  datatype Catalog = Catalog(tables: set<string>, scoped: set<string>, keys: set<ForeignKey>) {
    predicate Valid() {
      && scoped <= tables
      && forall k | k in keys :: k.child in tables
    }
  }

  /** A chain of foreign keys, each starting where the one before points. */
  predicate Chain(c: Catalog, path: seq<ForeignKey>) {
    && path != []
    && (forall i | 0 <= i < |path| :: path[i] in c.keys)
    && (forall i | 0 <= i < |path| - 1 :: path[i].parent == path[i + 1].child)
    && path[|path| - 1].parent in c.scoped
  }

  ghost predicate ReachesTenant(c: Catalog, table: string) {
    exists path: seq<ForeignKey> :: Chain(c, path) && path[0].child == table
  }

  /** The unscoped tables with some chain of foreign keys to a table carrying `tenant_id`. */
  ghost function Derived(c: Catalog): (tables: set<string>)
    requires c.Valid()
    ensures tables <= c.tables && tables !! c.scoped
  {
    set t | t in c.tables && t !in c.scoped && ReachesTenant(c, t)
  }

  /** The parents of every foreign key whose leading column is `tenant_id`. */
  function AutoDiscriminant(c: Catalog): set<string> {
    set k | k in c.keys && k.column == "tenant_id" :: k.parent
  }

  // ------------------------------------------------------------ the closure

  predicate IsUnscoped(c: Catalog, k: ForeignKey) {
    k in c.keys && k.child !in c.scoped
  }

  function Base(c: Catalog): set<ForeignKey> {
    set k | k in c.keys && IsUnscoped(c, k) && k.parent in c.scoped
  }

  /** The recursive term: keys of unscoped tables that point at a child found in the last round. */
  function Onward(c: Catalog, working: set<ForeignKey>): set<ForeignKey> {
    set k | k in c.keys && IsUnscoped(c, k) && exists w :: w in working && w.child == k.parent
  }

  function Children(rows: set<ForeignKey>): set<string> {
    set k | k in rows :: k.child
  }

  predicate IsClosed(c: Catalog, rows: set<ForeignKey>) {
    Base(c) <= rows && Onward(c, rows) <= rows
  }

  /** Every row starts a chain to a scoped table. */
  ghost predicate Grounded(c: Catalog, rows: set<ForeignKey>) {
    forall k | k in rows :: IsUnscoped(c, k) && ReachesTenant(c, k.child)
  }

  lemma BaseIsGrounded(c: Catalog)
    ensures Grounded(c, Base(c))
  {
    forall k | k in Base(c)
      ensures ReachesTenant(c, k.child)
    {
      assert Chain(c, [k]) && [k][0].child == k.child;
    }
  }

  lemma OnwardIsGrounded(c: Catalog, rows: set<ForeignKey>)
    requires Grounded(c, rows)
    ensures Grounded(c, Onward(c, rows))
  {
    forall k | k in Onward(c, rows)
      ensures ReachesTenant(c, k.child)
    {
      var w :| w in rows && w.child == k.parent;
      var path: seq<ForeignKey> :| Chain(c, path) && path[0].child == w.child;
      assert Chain(c, [k] + path) && ([k] + path)[0].child == k.child;
    }
  }

  /** A closed set of rows holds the first key of every chain that starts at an unscoped table. */
  lemma {:induction false} ClosedHoldsChains(c: Catalog, rows: set<ForeignKey>, path: seq<ForeignKey>)
    requires IsClosed(c, rows) && Chain(c, path) && path[0].child !in c.scoped
    ensures path[0] in rows
  {
    if path[0].parent in c.scoped {
      assert path[0] in Base(c);
    } else {
      var rest := path[1..];
      assert Chain(c, rest);
      ClosedHoldsChains(c, rows, rest);
      assert rest[0].child == path[0].parent;
      assert path[0] in Onward(c, rows);
    }
  }

  /** The derived set is the least solution: every closed set of rows reaches it. */
  lemma DerivedIsLeast(c: Catalog, rows: set<ForeignKey>)
    requires c.Valid() && IsClosed(c, rows)
    ensures Derived(c) <= Children(rows)
  {
    forall t | t in Derived(c)
      ensures t in Children(rows)
    {
      var path: seq<ForeignKey> :| Chain(c, path) && path[0].child == t;
      ClosedHoldsChains(c, rows, path);
    }
  }

  lemma GroundedIsDerived(c: Catalog, rows: set<ForeignKey>)
    requires c.Valid() && Grounded(c, rows)
    ensures Children(rows) <= Derived(c)
  {
  }

  /**
   The recursive query, evaluated as the database does: each round joins only the rows
   the last round added, and rows already found are dropped. It stops on cyclic foreign
   keys and yields the tables with some chain to `tenant_id`.
   */
  method DerivedSet(c: Catalog) returns (children: set<string>)
    requires c.Valid()
    ensures children == Derived(c)
  {
    var closure := Base(c);
    var working := closure;
    BaseIsGrounded(c);
    while working != {}
      invariant working <= closure <= c.keys && Base(c) <= closure
      invariant Grounded(c, closure) && Grounded(c, working)
      invariant Onward(c, closure - working) <= closure
      decreases c.keys - closure, |working|
    {
      OnwardIsGrounded(c, working);
      var added := Onward(c, working) - closure;
      assert Onward(c, closure) <= Onward(c, closure - working) + Onward(c, working) by {
        SplitOnward(c, closure, working);
      }
      if added == {} {
        assert closure + added == closure;
      } else {
        var k :| k in added;
        assert k in c.keys - closure && k !in c.keys - (closure + added);
      }
      assert closure + added - added == closure;
      closure, working := closure + added, added;
    }
    assert closure - working == closure;
    DerivedIsLeast(c, closure);
    GroundedIsDerived(c, closure);
    children := Children(closure);
  }

  lemma SplitOnward(c: Catalog, closure: set<ForeignKey>, working: set<ForeignKey>)
    requires working <= closure
    ensures Onward(c, closure) <= Onward(c, closure - working) + Onward(c, working)
  {
    forall k | k in Onward(c, closure)
      ensures k in Onward(c, closure - working) + Onward(c, working)
    {
      var w :| w in closure && w.child == k.parent;
      if w in working {
        assert k in Onward(c, working);
      } else {
        assert w in closure - working;
      }
    }
  }

  // ------------------------------------------------------------ the assertions

  const LEDGER_TABLE := "_prisma_migrations"

  const NON_DERIVED_EXPECTED: set<string> := {"_prisma_migrations", "permission"}

  const REFERENCE_SURFACE: set<string> := {"_prisma_migrations", "permission"}

  function Present(names: set<string>, ledger: bool): set<string> {
    if ledger then names else names - {LEDGER_TABLE}
  }

  /** What the census reads: structure, and who has a policy, row security or a grant. */
  datatype Census = Census(tables: set<string>, scoped: set<string>, derived: set<string>, autoDisc: set<string>,
                           rlsOn: set<string>, policied: set<string>, granted: set<string>) {
    predicate Valid() {
      && scoped <= tables && derived <= tables
      && rlsOn <= tables && policied <= tables
    }

    predicate LedgerPresent() {
      LEDGER_TABLE in tables
    }

    function Surface(): set<string> {
      Present(REFERENCE_SURFACE, LedgerPresent())
    }

    /** The tables a policy must reach. */
    function MustBePolicied(): set<string> {
      scoped + derived + autoDisc
    }

    function Expected(): nat {
      |scoped| + |derived| + |autoDisc|
    }

    predicate ResidueNamed() {
      tables - scoped - derived - autoDisc == Present(NON_DERIVED_EXPECTED, LedgerPresent())
    }

    predicate PoliciesCounted() {
      |policied| == Expected()
    }

    predicate GrantsNamed() {
      granted == policied + Surface()
    }

    predicate GrantsCounted() {
      |granted| == Expected() + |Surface()|
    }

    predicate RowSecurityCounted() {
      |rlsOn| == Expected()
    }
  }

  lemma {:induction false} SizeOfUnion(a: set<string>, b: set<string>)
    ensures |a + b| <= |a| + |b|
    ensures |a + b| == |a| + |b| <==> a !! b
  {
    assert a + b == a + (b - a) && a !! (b - a);
    assert |a + b| == |a| + |b - a|;
    assert b == (b - a) + (a * b);
    assert |b| == |b - a| + |a * b|;
    assert a * b == {} <==> a !! b;
    assert |a * b| == 0 <==> a * b == {};
  }

  lemma SameSizeSubset(part: set<string>, whole: set<string>)
    requires part <= whole && |part| >= |whole|
    ensures part == whole
  {
    var rest := whole - part;
    assert whole == part + rest && |whole| == |part| + |rest|;
    assert rest == {};
  }

  /** A union as large as its parts together has nothing in common. */
  lemma PoliciesApartFromSurface(policied: set<string>, surface: set<string>, granted: set<string>, expected: nat)
    requires granted == policied + surface && |policied| == expected && |granted| == expected + |surface|
    ensures policied !! surface
  {
    SizeOfUnion(policied, surface);
  }

  lemma PoliciesWithinMust(c: Census)
    requires c.Valid() && c.ResidueNamed() && c.policied !! c.Surface()
    ensures c.policied <= c.MustBePolicied()
  {
    forall t | t in c.policied
      ensures t in c.MustBePolicied()
    {
      assert t !in c.Surface();
      assert t !in c.tables - c.scoped - c.derived - c.autoDisc;
    }
  }

  lemma ThreePartsApart(a: set<string>, b: set<string>, d: set<string>, whole: set<string>)
    requires whole <= a + b + d && |whole| == |a| + |b| + |d|
    ensures whole == a + b + d && a !! b && (a + b) !! d
  {
    SizeOfUnion(a, b);
    SizeOfUnion(a + b, d);
    SameSizeSubset(whole, a + b + d);
  }

  /**
   The four assertions together: the policied tables are exactly the tenant-scoped, the
   derived and the auto-discriminant ones, no table is counted twice, and the reference
   surface is granted without a policy.
   */
  lemma CensusForcesThePolicies(c: Census)
    requires c.Valid() && c.ResidueNamed() && c.PoliciesCounted() && c.GrantsNamed() && c.GrantsCounted()
    ensures c.policied == c.MustBePolicied()
    ensures c.scoped !! c.derived && (c.scoped + c.derived) !! c.autoDisc
    ensures c.policied !! c.Surface() && c.granted == c.MustBePolicied() + c.Surface()
  {
    PoliciesApartFromSurface(c.policied, c.Surface(), c.granted, c.Expected());
    PoliciesWithinMust(c);
    ThreePartsApart(c.scoped, c.derived, c.autoDisc, c.policied);
  }

  /** And only then: where the policies, grants and names are right, all four assertions hold. */
  lemma CensusAcceptsTheRightPolicies(c: Census)
    requires c.Valid() && c.ResidueNamed()
    requires c.policied == c.MustBePolicied() && c.granted == c.policied + c.Surface()
    requires c.scoped !! c.derived && (c.scoped + c.derived) !! c.autoDisc
    ensures c.PoliciesCounted() && c.GrantsNamed() && c.GrantsCounted()
  {
    SizeOfUnion(c.scoped, c.derived);
    SizeOfUnion(c.scoped + c.derived, c.autoDisc);
    assert c.policied !! c.Surface() by {
      forall t | t in c.Surface()
        ensures t !in c.policied
      {
        assert t in c.tables - c.scoped - c.derived - c.autoDisc;
      }
    }
    SizeOfUnion(c.policied, c.Surface());
  }

  // Each of the four is needed: with one left out, a table escapes its policy or the
  // reference surface gains one.

  /** A schema of one scoped, one derived, one auto-discriminant and one reference table. */
  function Small(policied: set<string>, granted: set<string>): Census {
    Census({"school", "role", "tenant", "permission"}, {"school"}, {"role"}, {"tenant"},
           {"school", "role", "tenant"}, policied, granted)
  }

  lemma SmallIsNamed(policied: set<string>, granted: set<string>)
    ensures Small(policied, granted).ResidueNamed() && Small(policied, granted).Surface() == {"permission"}
    ensures Small(policied, granted).Expected() == 3
    ensures Small(policied, granted).MustBePolicied() == {"school", "role", "tenant"}
  {
    var c := Small(policied, granted);
    assert c.tables - {"school"} - {"role"} - {"tenant"} == {"permission"};
    assert {"school"} + {"role"} + {"tenant"} == {"school", "role", "tenant"};
  }

  /** Without the names of the residue, a table nobody expected takes the policy of `role`. */
  lemma ResidueIsNeeded()
    ensures exists c: Census ::
              c.Valid() && c.PoliciesCounted() && c.GrantsNamed() && c.GrantsCounted()
                  && "role" in c.derived - c.policied
  {
    var policied := {"school", "tenant", "audit"};
    var granted := {"school", "tenant", "audit", "permission"};
    SmallIsNamed(policied, granted);
    var c := Small(policied, granted).(tables := {"school", "role", "tenant", "permission", "audit"});
    assert c.Surface() == {"permission"} && policied + {"permission"} == granted;
    assert |policied| == 3 && |granted| == 4;
  }

  /** Without the count of the policies, the reference surface gains one. */
  lemma PolicyCountIsNeeded()
    ensures exists c: Census ::
              c.Valid() && c.ResidueNamed() && c.GrantsNamed() && c.GrantsCounted() && c.policied != c.MustBePolicied()
  {
    var all := {"school", "role", "tenant", "permission"};
    SmallIsNamed(all, all);
    var c := Small(all, all);
    assert all + {"permission"} == all && |all| == 4;
    assert "permission" in c.policied - c.MustBePolicied();
  }

  /** Without the names of the grants, `permission` takes the policy of `role`. */
  lemma GrantNamesAreNeeded()
    ensures exists c: Census ::
              c.Valid() && c.ResidueNamed() && c.PoliciesCounted() && c.GrantsCounted()
                  && "role" in c.derived - c.policied
  {
    var swapped, all := {"school", "tenant", "permission"}, {"school", "role", "tenant", "permission"};
    SmallIsNamed(swapped, all);
    var c := Small(swapped, all);
    assert |swapped| == 3 && |all| == 4;
  }

  /** Without the count of the grants, the same swap hides behind a grant too few. */
  lemma GrantCountIsNeeded()
    ensures exists c: Census ::
              c.Valid() && c.ResidueNamed() && c.PoliciesCounted() && c.GrantsNamed()
                  && "role" in c.derived - c.policied
  {
    var swapped := {"school", "tenant", "permission"};
    SmallIsNamed(swapped, swapped);
    var c := Small(swapped, swapped);
    assert swapped + {"permission"} == swapped && |swapped| == 3;
  }

  /** Row security is only counted: it may be on for a table without a policy and off for one with. */
  lemma RowSecurityIsOnlyCounted()
    ensures exists c: Census ::
              && c.Valid() && c.ResidueNamed() && c.PoliciesCounted() && c.GrantsNamed() && c.GrantsCounted()
              && c.RowSecurityCounted() && c.rlsOn != c.policied
  {
    var must, all := {"school", "role", "tenant"}, {"school", "role", "tenant", "permission"};
    SmallIsNamed(must, all);
    var c := Small(must, all).(rlsOn := {"school", "role", "permission"});
    assert c.ResidueNamed() && c.Surface() == {"permission"};
    assert must + {"permission"} == all && |must| == 3 && |all| == 4 && |c.rlsOn| == 3;
    assert "tenant" in must && "tenant" !in c.rlsOn;
  }

  /** Counting is exact where row security is on for policied tables only. */
  lemma RowSecurityIffPolicied(c: Census)
    requires c.Valid() && c.ResidueNamed() && c.PoliciesCounted() && c.GrantsNamed() && c.GrantsCounted()
    ensures c.RowSecurityCounted() && c.rlsOn <= c.policied <==> c.rlsOn == c.policied
  {
    if c.RowSecurityCounted() && c.rlsOn <= c.policied { SameSizeSubset(c.rlsOn, c.policied); }
  }

  // ------------------------------------------------------------ reading it from the query output

  function Elements(list: seq<string>): set<string> {
    set x | x in list
  }

  /** The rows of the census query, counts as numbers and name lists as one cell each. */
  datatype Cells = Cells(tenantCols: nat, derivedExpected: nat, autoDiscExpected: nat, rlsOn: nat, policies: nat,
                         granted: nat, derivedNames: string, autoDiscNames: string, residueNames: string,
                         policiedNames: string, grantedNames: string, ledger: bool)

  const DERIVED_TABLES: seq<string> :=
    ["announcement_receipt", "branding", "grade_revision", "import_row", "user_role", "role", "role_permission"]

  predicate NamesPass(c: Cells, surface: set<string>) {
    && Elements(ListItems(c.autoDiscNames)) == {"tenant"}
    && Elements(ListItems(c.derivedNames)) == Elements(DERIVED_TABLES)
    && Elements(ListItems(c.residueNames)) == Present(NON_DERIVED_EXPECTED, c.ledger)
    && Elements(ListItems(c.grantedNames)) == Elements(ListItems(c.policiedNames)) + surface
  }

  predicate CountsPass(c: Cells, expected: nat, surface: nat) {
    c.rlsOn == expected && c.policies == expected && c.granted == expected + surface
  }

  /** What the script asserts of one reading. */
  predicate Passes(c: Cells) {
    var surface := Present(REFERENCE_SURFACE, c.ledger);
    && c.tenantCols >= 1 && c.derivedExpected >= 1 && c.autoDiscExpected >= 1
    && NamesPass(c, surface)
    && CountsPass(c, c.tenantCols + c.derivedExpected + c.autoDiscExpected, |surface|)
  }

  /** The verdict under construction: what failed, and one line of evidence per assertion. */
  class Verdict {
    var failures: seq<string>
    var evidence: seq<(bool, string)>

    constructor ()
      ensures failures == [] && evidence == []
    {
      failures, evidence := [], [];
    }

    method Record(subject: string)
      modifies this
      ensures failures == old(failures) && evidence == old(evidence) + [(true, subject)]
    {
      evidence := evidence + [(true, subject)];
    }

    method Fail(subject: string)
      modifies this
      ensures failures == old(failures) + [subject] && evidence == old(evidence) + [(false, subject)]
    {
      failures := failures + [subject];
      evidence := evidence + [(false, subject)];
    }

    method ExpectEqual(subject: string, actual: nat, expected: nat)
      modifies this
      ensures failures == old(failures) + if actual == expected then [] else [subject]
      ensures evidence == old(evidence) + [(actual == expected, subject)]
    {
      if actual == expected { Record(subject); } else { Fail(subject); }
    }

    /** Set equality, in both directions; an empty name is never counted as found. */
    method ExpectSetEqual(subject: string, actual: seq<string>, expected: set<string>)
      modifies this
      ensures failures == old(failures) + if Elements(actual) - {""} == expected then [] else [subject]
      ensures evidence == old(evidence) + [(Elements(actual) - {""} == expected, subject)]
    {
      var got: set<string> := {};
      for k := 0 to |actual|
        invariant failures == old(failures) && evidence == old(evidence)
        invariant got == Elements(actual[..k]) - {""}
      {
        assert actual[..k + 1] == actual[..k] + [actual[k]];
        if actual[k] != "" { got := got + {actual[k]}; }
      }
      assert actual[..|actual|] == actual;
      var missing, unexpected := expected - got, got - expected;
      assert missing == {} && unexpected == {} <==> got == expected;
      if missing == {} && unexpected == {} { Record(subject); } else { Fail(subject); }
    }

    /** The census section of the script: nothing new fails exactly when the reading passes. */
    method RunCensus(c: Cells)
      modifies this
      ensures failures == old(failures) <==> Passes(c)
      ensures old(failures) <= failures
    {
      if c.tenantCols < 1 {
        Fail("tenant-scoped tables");
        return;
      }
      if c.derivedExpected < 1 {
        Fail("tenant-derived tables");
        return;
      }
      if c.autoDiscExpected < 1 {
        Fail("auto-discriminant tables");
        return;
      }
      var surface := Present(REFERENCE_SURFACE, c.ledger);
      CheckNames(c, surface);
      CheckCounts(c, c.tenantCols + c.derivedExpected + c.autoDiscExpected, |surface|);
    }

    method CheckNames(c: Cells, surface: set<string>)
      modifies this
      ensures old(failures) <= failures
      ensures |failures| == |old(failures)| <==> NamesPass(c, surface)
    {
      NamesAreNonEmpty(c.autoDiscNames);
      NamesAreNonEmpty(c.derivedNames);
      NamesAreNonEmpty(c.residueNames);
      NamesAreNonEmpty(c.grantedNames);
      ExpectSetEqual("auto-discriminant names", ListItems(c.autoDiscNames), {"tenant"});
      ExpectSetEqual("derived names", ListItems(c.derivedNames), Elements(DERIVED_TABLES));
      ExpectSetEqual("residue names", ListItems(c.residueNames), Present(NON_DERIVED_EXPECTED, c.ledger));
      ExpectSetEqual("granted names", ListItems(c.grantedNames), Elements(ListItems(c.policiedNames)) + surface);
    }

    method CheckCounts(c: Cells, expected: nat, surface: nat)
      modifies this
      ensures old(failures) <= failures
      ensures |failures| == |old(failures)| <==> CountsPass(c, expected, surface)
    {
      ExpectEqual("row security", c.rlsOn, expected);
      ExpectEqual("policies", c.policies, expected);
      ExpectEqual("granted", c.granted, expected + surface);
    }
  }

  lemma NamesAreNonEmpty(cell: string)
    ensures Elements(ListItems(cell)) - {""} == Elements(ListItems(cell))
  {
  }

  /** A cell that spells a set of table names. */
  ghost predicate Spells(cell: string, tables: set<string>) {
    exists list: seq<string> ::
      cell == Join(list, ',') && Elements(list) == tables && forall k | 0 <= k < |list| :: IsItem(list[k])
  }

  predicate CountsRead(cells: Cells, c: Census) {
    && cells.tenantCols == |c.scoped| && cells.derivedExpected == |c.derived| && cells.autoDiscExpected == |c.autoDisc|
    && cells.rlsOn == |c.rlsOn| && cells.policies == |c.policied| && cells.granted == |c.granted|
    && cells.ledger == c.LedgerPresent()
  }

  function ResidueOf(c: Census): set<string> {
    c.tables - c.scoped - c.derived - c.autoDisc
  }

  /** The reading of one database. */
  ghost predicate Reads(cells: Cells, c: Census) {
    && CountsRead(cells, c)
    && Spells(cells.residueNames, ResidueOf(c)) && Spells(cells.policiedNames, c.policied)
    && Spells(cells.grantedNames, c.granted)
  }

  lemma SpelledNames(cell: string, tables: set<string>)
    requires Spells(cell, tables)
    ensures Elements(ListItems(cell)) == tables
  {
    var list: seq<string> :|
      cell == Join(list, ',') && Elements(list) == tables && forall k | 0 <= k < |list| :: IsItem(list[k]);
    ItemsOfJoined(list);
  }

  /** The three name lists, read back. */
  ghost predicate NamesRead(cells: Cells, residue: set<string>, policied: set<string>, granted: set<string>) {
    && Elements(ListItems(cells.residueNames)) == residue
    && Elements(ListItems(cells.policiedNames)) == policied
    && Elements(ListItems(cells.grantedNames)) == granted
  }

  lemma SpelledLists(cells: Cells, residue: set<string>, policied: set<string>, granted: set<string>)
    requires Spells(cells.residueNames, residue) && Spells(cells.policiedNames, policied)
               && Spells(cells.grantedNames, granted)
    ensures NamesRead(cells, residue, policied, granted)
  {
    SpelledNames(cells.residueNames, residue);
    SpelledNames(cells.policiedNames, policied);
    SpelledNames(cells.grantedNames, granted);
  }

  lemma NamesForce(cells: Cells, surface: set<string>, residue: set<string>, policied: set<string>,
                   granted: set<string>)
    requires NamesPass(cells, surface) && NamesRead(cells, residue, policied, granted)
    ensures residue == Present(NON_DERIVED_EXPECTED, cells.ledger) && granted == policied + surface
  {
  }

  lemma CountsForce(cells: Cells, c: Census, surface: set<string>)
    requires CountsRead(cells, c) && surface == c.Surface()
    requires CountsPass(cells, cells.tenantCols + cells.derivedExpected + cells.autoDiscExpected, |surface|)
    ensures c.PoliciesCounted() && c.GrantsCounted()
  {
  }

  lemma PassesMeans(cells: Cells, surface: set<string>)
    requires Passes(cells) && surface == Present(REFERENCE_SURFACE, cells.ledger)
    ensures NamesPass(cells, surface)
    ensures CountsPass(cells, cells.tenantCols + cells.derivedExpected + cells.autoDiscExpected, |surface|)
  {
  }

  lemma PassingIsForcing(cells: Cells, c: Census, residue: set<string>, surface: set<string>)
    requires CountsRead(cells, c) && NamesRead(cells, residue, c.policied, c.granted) && Passes(cells)
    requires residue == ResidueOf(c) && surface == c.Surface()
    ensures c.ResidueNamed() && c.PoliciesCounted() && c.GrantsNamed() && c.GrantsCounted()
  {
    PassesMeans(cells, surface);
    NamesForce(cells, surface, residue, c.policied, c.granted);
    CountsForce(cells, c, surface);
  }

  /**
   A passing census of a database whose derived set is the recursive query's: every table
   that reaches a tenant carries the policy, and nothing else does.
   */
  lemma PassingCensusIsSafe(cells: Cells, c: Census, catalog: Catalog)
    requires Reads(cells, c) && c.Valid() && Passes(cells)
    requires catalog.Valid() && c.tables == catalog.tables && c.scoped == catalog.scoped
    requires c.derived == Derived(catalog) && c.autoDisc == AutoDiscriminant(catalog)
    ensures forall t | t in c.tables ::
              t in c.policied <==> t in c.scoped || ReachesTenant(catalog, t) || t in c.autoDisc
    ensures c.granted == c.policied + c.Surface() && c.policied !! c.Surface()
  {
    SpelledLists(cells, ResidueOf(c), c.policied, c.granted);
    PassingIsForcing(cells, c, ResidueOf(c), c.Surface());
    CensusForcesThePolicies(c);
  }

  // ------------------------------------------------------------ what the section asserts, name by name

  /** The tables that hold no tenant's rows: the permission catalogue and, where it stands, the ledger. */
  function SharedTables(ledger: bool): set<string> {
    if ledger then {"permission", "_prisma_migrations"} else {"permission"}
  }

  lemma SharedIs(ledger: bool)
    ensures Present(NON_DERIVED_EXPECTED, ledger) == SharedTables(ledger)
    ensures Present(REFERENCE_SURFACE, ledger) == SharedTables(ledger)
  {
  }

  /** The tables without a tenant column that the isolation checks are written for. */
  const PROVED_TABLES: set<string> :=
    {"announcement_receipt", "branding", "grade_revision", "import_row", "user_role", "role", "role_permission"}

  lemma ProvedAre()
    ensures Elements(DERIVED_TABLES) == PROVED_TABLES
  {
    assert forall x :: x in DERIVED_TABLES <==> x in PROVED_TABLES;
  }

  /** What must hold of a database for its census to pass. */
  ghost predicate IsAsProved(c: Census) {
    var shared := SharedTables("_prisma_migrations" in c.tables);
    && c.scoped != {} && c.derived == PROVED_TABLES && c.autoDisc == {"tenant"}
    && c.tables - c.scoped - c.derived - c.autoDisc == shared
    && c.granted == c.policied + shared
    && |c.policied| == |c.rlsOn| == |c.scoped| + |c.derived| + |c.autoDisc|
    && |c.granted| == |c.scoped| + |c.derived| + |c.autoDisc| + |shared|
  }

  /** A reading that holds the two lists of derived names as well. */
  ghost predicate ReadsAll(cells: Cells, c: Census) {
    Reads(cells, c) && Spells(cells.derivedNames, c.derived) && Spells(cells.autoDiscNames, c.autoDisc)
  }

  /** The census passes exactly for a database whose tables, policies and grants are the ones named here. */
  lemma CensusPassesIff(cells: Cells, c: Census)
    requires ReadsAll(cells, c)
    ensures Passes(cells) <==> IsAsProved(c)
  {
    SpelledLists(cells, ResidueOf(c), c.policied, c.granted);
    SpelledNames(cells.derivedNames, c.derived);
    SpelledNames(cells.autoDiscNames, c.autoDisc);
    NotEmpty(c.scoped);
    SharedIs(cells.ledger);
    hide ListItems, Elements, Present, Spells, NamesPass, PROVED_TABLES;
    NamesAsProved(cells, c, ResidueOf(c));
    NotNone(c.derived, c.autoDisc);
  }

  lemma NamesAsProved(cells: Cells, c: Census, residue: set<string>)
    requires NamesRead(cells, residue, c.policied, c.granted)
    requires Elements(ListItems(cells.derivedNames)) == c.derived
               && Elements(ListItems(cells.autoDiscNames)) == c.autoDisc
    ensures NamesPass(cells, SharedTables(cells.ledger)) <==>
              && c.derived == PROVED_TABLES && c.autoDisc == {"tenant"} && residue == SharedTables(cells.ledger)
              && c.granted == c.policied + SharedTables(cells.ledger)
  {
    hide ListItems, Elements, Present;
    SharedIs(cells.ledger);
    ProvedAre();
  }

  lemma NotNone(derived: set<string>, autoDisc: set<string>)
    ensures derived == PROVED_TABLES ==> |derived| >= 1
    ensures autoDisc == {"tenant"} ==> |autoDisc| >= 1
  {
    if derived == PROVED_TABLES { assert "role" in derived; }
    if autoDisc == {"tenant"} { assert "tenant" in autoDisc; }
  }

  lemma NotEmpty(names: set<string>)
    ensures |names| >= 1 <==> names != {}
  {
  }

  /** The tenant dimension is found by the column that points to it. */
  lemma AutoDiscriminantIff(catalog: Catalog, table: string)
    ensures table in AutoDiscriminant(catalog)
       <==> exists child :: ForeignKey(child, table, "tenant_id") in catalog.keys
  {
    if k :| k in catalog.keys && k.column == "tenant_id" && k.parent == table {
      assert ForeignKey(k.child, table, "tenant_id") in catalog.keys;
    }
    if child :| ForeignKey(child, table, "tenant_id") in catalog.keys {
      assert ForeignKey(child, table, "tenant_id").parent == table;
    }
  }
}
