/**
 A label called like an aggregation. The scanner of the check reads tokens, not labels:
 within the braces of a selector `sum` opens an aggregation whose argument is missing, and
 a correct expression is reported as unreadable.
 */
module PromLabels {
  import opened Text
  import opened PromText
  import opened PromWalk
  import opened PromRender
  import opened PromRoundTrip
  import opened PromMask

  // ------------------------------------------------------------ text without parentheses

  lemma FlatBlock(scan: string, start: nat, op: string)
    requires IsFlat(scan) && op != [] && start + |op| <= |scan|
    ensures BlockAt(scan, start, op) == None
  {
  }

  lemma {:induction false} FlatBlocks(scan: string, p: nat)
    requires IsFlat(scan) && p <= |scan|
    ensures forall k | 0 <= k < |BlocksFrom(scan, p)| :: BlocksFrom(scan, p)[k] == None
    ensures BlocksFrom(scan, p) == [] <==> NoOps(scan, p, |scan|)
    decreases |scan| - p
  {
    hide OpAt, BlockAt, IsFlat;
    if p < |scan| {
      if OpAt(scan, p) != [] { FlatBlock(scan, p, OpAt(scan, p)); }
      FlatBlocks(scan, p + 1);
    }
  }

  lemma {:induction false} NothingReadable(text: string, blocks: seq<Option<Block>>, gauges: set<string>,
                                           shielded: bool)
    requires text != [] && BlocksFit(blocks, |text|) && forall k | 0 <= k < |blocks| :: blocks[k] == None
    ensures WalkBlocks(text, blocks, gauges, shielded) == Reading({}, blocks != [])
  {
    if blocks != [] {
      assert forall k | 0 <= k < |blocks| - 1 :: blocks[..|blocks| - 1][k] == blocks[k];
      NothingReadable(text, blocks[..|blocks| - 1], gauges, shielded);
    }
  }

  lemma FlatArgument(scan: string, at: nat)
    requires IsFlat(scan) && at <= |scan|
    ensures ArgumentAfter(scan, at) == None
  {
  }

  /** Some `sum` stands as a token from `p` on. */
  predicate HasToken(scan: string, p: nat) {
    exists k | p <= k <= |scan| :: TokenAt(scan, k, "sum")
  }

  lemma {:induction false} FlatSums(scan: string, p: nat)
    requires IsFlat(scan) && p <= |scan|
    ensures None in SumsFrom(scan, p) <==> HasToken(scan, p)
    decreases |scan| - p
  {
    hide TokenAt, ArgumentAfter, IsFlat;
    if p == |scan| {
      NoTokenAtEnd(scan);
    } else {
      FlatSums(scan, p + 1);
      if TokenAt(scan, p, "sum") {
        TokenFits(scan, p);
        FlatArgument(scan, p + 3);
        assert SumsFrom(scan, p)[0] == None;
      }
    }
  }

  lemma NoTokenAtEnd(scan: string)
    ensures !TokenAt(scan, |scan|, "sum")
  {
  }

  lemma TokenFits(scan: string, p: nat)
    requires TokenAt(scan, p, "sum")
    ensures p + 3 <= |scan|
  {
  }

  // ------------------------------------------------------------ what the check reads in a selector

  /**
   A metric reference with closed quotes can be read, as an expression and as the argument
   of a `sum`, exactly when no label of it is called like an aggregation, or like `sum`.
   */
  lemma ReferenceIsReadIff(reference: string, gauges: set<string>, shielded: bool)
    requires reference != [] && !Unterminated(reference) && IsFlat(Masked(reference))
    ensures !Walk(reference, gauges, shielded).unscannable <==> NoOperator(Masked(reference))
    ensures None !in SumsFrom(Masked(reference), 0) <==> !HasToken(Masked(reference), 0)
  {
    var scan := Masked(reference);
    hide Masked, IsFlat, Unterminated, SumsFrom, HasToken, WalkBlocks, OpAt;
    FlatBlocks(scan, 0);
    FlatSums(scan, 0);
    NothingReadable(reference, BlocksFrom(scan, 0), gauges, shielded);
  }

  const LABELLED := "x{sum=\"a\"}"
  const LABELLED_SCAN := "x{sum=\" \"}"
  const FRONT := "x{sum="
  const QUOTED := "\"a\""
  const BACK := "}"

  lemma QuotedMask()
    ensures Masked(QUOTED) == "\" \"" && !Unterminated(QUOTED)
  {
    var text := QUOTED;
    MaskUnfolds(text, None);
    assert text[1..] == "a\"" && text[1..][1..] == "\"" && text[1..][1..][1..] == [];
    MaskUnfolds(text[1..], Some('"'));
    MaskUnfolds(text[1..][1..], Some('"'));
  }

  lemma LabelledPieces()
    ensures LABELLED == FRONT + QUOTED + BACK && LABELLED_SCAN == FRONT + "\" \"" + BACK
    ensures Unquoted(FRONT) && Unquoted(BACK)
  {
  }

  lemma LabelledMask()
    ensures !Unterminated(LABELLED) && Masked(LABELLED) == LABELLED_SCAN
  {
    hide *;
    LabelledPieces();
    MaskPlain(FRONT);
    MaskPlain(BACK);
    QuotedMask();
    MaskJoin(FRONT, QUOTED);
    MaskJoin(FRONT + QUOTED, BACK);
  }

  lemma LabelledTokens()
    ensures TokenAt(LABELLED_SCAN, 2, "sum") && OpAt(LABELLED_SCAN, 2) == "sum" && IsFlat(LABELLED_SCAN)
  {
    assert LABELLED_SCAN[2..5] == "sum";
    NameEndIs(LABELLED_SCAN, 2, 5);
  }

  /** So with a label called `sum` a reference is unreadable, under a `sum` and by itself. */
  lemma LabelCalledSum(gauges: set<string>, shielded: bool)
    ensures None in SumsFrom(Masked(LABELLED), 0) && Walk(LABELLED, gauges, shielded).unscannable
  {
    hide Masked, Unterminated, TokenAt, OpAt, SumsFrom, Walk, IsFlat;
    LabelledMask();
    LabelledTokens();
    assert !NoOperator(LABELLED_SCAN) && HasToken(LABELLED_SCAN, 0);
    ReferenceIsReadIff(LABELLED, gauges, shielded);
  }
}
