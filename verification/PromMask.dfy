/**
 The mask of a written expression is the expression as the mask shows it, written out:
 what is quoted in its selectors is blanked and nothing else changes.
 */
module PromMask {
  import opened Text
  import opened PromText
  import opened PromShield
  import opened PromRender
  import opened PromRoundTrip

  lemma MaskJoin(a: string, b: string)
    requires !Unterminated(a)
    ensures Masked(a + b) == Masked(a) + Masked(b) && (Unterminated(a + b) <==> Unterminated(b))
  {
    MaskConcat(a, b, None);
  }

  lemma MaskPlain(text: string)
    requires Unquoted(text)
    ensures Masked(text) == text && !Unterminated(text)
  {
    MaskOfUnquoted(text);
  }

  /** Between texts without quotes only the inner text is masked. */
  lemma MaskBetween(front: string, inner: string, back: string)
    requires Unquoted(front) && !Unterminated(inner) && Unquoted(back)
    ensures Masked(front + (inner + back)) == front + (Masked(inner) + back)
    ensures !Unterminated(front + (inner + back))
  {
    hide Masked, Unterminated, Unquoted;
    MaskPlain(front);
    MaskPlain(back);
    MaskJoin(front, inner + back);
    MaskJoin(inner, back);
  }

  lemma WrappedBetween(front: string, inner: string, back: string)
    ensures front + (Wrapped(inner) + back) == front + ['('] + (inner + ([')'] + back))
  {
  }

  lemma MaskWrapped(front: string, inner: string, back: string)
    requires Unquoted(front) && !Unterminated(inner) && Unquoted(back)
    ensures Masked(front + (Wrapped(inner) + back)) == front + (Wrapped(Masked(inner)) + back)
    ensures !Unterminated(front + (Wrapped(inner) + back))
  {
    hide Masked, Unterminated;
    MaskBetween(front + ['('], inner, [')'] + back);
    WrappedBetween(front, inner, back);
    WrappedBetween(front, Masked(inner), back);
  }

  lemma MaskPair(l: string, r: string)
    requires !Unterminated(l) && !Unterminated(r)
    ensures Masked(Wrapped(l + PLUS + r)) == Wrapped(Masked(l) + PLUS + Masked(r))
    ensures !Unterminated(Wrapped(l + PLUS + r))
  {
    hide Masked, Unterminated;
    MaskPlain(PLUS);
    MaskJoin(l, PLUS);
    MaskJoin(l + PLUS, r);
    MaskAlone([], l + PLUS + r);
    assert [] + Wrapped(l + PLUS + r) == Wrapped(l + PLUS + r);
    assert [] + Wrapped(Masked(l + PLUS + r)) == Wrapped(Masked(l + PLUS + r));
  }

  lemma MaskAlone(fn: string, inner: string)
    requires Unquoted(fn) && !Unterminated(inner)
    ensures Masked(fn + Wrapped(inner)) == fn + Wrapped(Masked(inner)) && !Unterminated(fn + Wrapped(inner))
  {
    hide Masked, Unterminated;
    MaskWrapped(fn, inner, []);
    assert fn + (Wrapped(inner) + []) == fn + Wrapped(inner);
    assert fn + (Wrapped(Masked(inner)) + []) == fn + Wrapped(Masked(inner));
  }

  lemma UnquotedConcat(a: string, b: string)
    requires Unquoted(a) && Unquoted(b)
    ensures Unquoted(a + b)
  {
  }

  lemma ModifierIsUnquoted(op: string, grouping: Grouping, trailing: bool)
    requires op in ACROSS_SERIES_AGGREGATIONS && (grouping.Bare? || AreLabels(grouping.labels))
    ensures Unquoted(FrontOf(op, grouping, trailing)) && Unquoted(BackOf(grouping, trailing, []))
  {
    OpIsName(op);
    assert Unquoted(op);
    if !grouping.Bare? {
      var labels := Join(grouping.labels, ',');
      JoinedLabels(grouping.labels);
      assert Unquoted(labels) && Unquoted(Keyword(grouping.By?) + [' '] + ['(']) && Unquoted([')']);
      hide Unquoted;
      UnquotedConcat(Keyword(grouping.By?) + [' '] + ['('], labels);
      UnquotedConcat(Keyword(grouping.By?) + [' '] + ['('] + labels, [')']);
      SpelledUnquoted(op, grouping);
    }
  }

  lemma SpelledUnquoted(op: string, grouping: Grouping)
    requires Unquoted(op) && !grouping.Bare?
    requires Unquoted(Keyword(grouping.By?) + [' '] + ['('] + Join(grouping.labels, ',') + [')'])
    ensures var spelled := SpellGrouping(grouping.By?, grouping.labels);
            Unquoted(op + [' '] + spelled + [' ']) && Unquoted([' '] + (spelled + []))
  {
    var spelled := SpellGrouping(grouping.By?, grouping.labels);
    assert spelled == Keyword(grouping.By?) + [' '] + ['('] + Join(grouping.labels, ',') + [')'];
    hide SpellGrouping;
  }

  lemma MaskAgg(op: string, grouping: Grouping, inner: string, trailing: bool)
    requires op in ACROSS_SERIES_AGGREGATIONS && (grouping.Bare? || AreLabels(grouping.labels))
    requires !Unterminated(inner)
    ensures Masked(SpellAgg(op, grouping, inner, trailing)) == SpellAgg(op, grouping, Masked(inner), trailing)
    ensures !Unterminated(SpellAgg(op, grouping, inner, trailing))
  {
    hide Masked, Unterminated, SpellAgg, FrontOf, BackOf, Wrapped;
    AroundArgument(op, grouping, inner, trailing, []);
    AroundArgument(op, grouping, Masked(inner), trailing, []);
    ModifierIsUnquoted(op, grouping, trailing);
    MaskWrapped(FrontOf(op, grouping, trailing), inner, BackOf(grouping, trailing, []));
    assert SpellAgg(op, grouping, inner, trailing) + [] == SpellAgg(op, grouping, inner, trailing);
    assert SpellAgg(op, grouping, Masked(inner), trailing) + [] == SpellAgg(op, grouping, Masked(inner), trailing);
  }

  lemma NameIsUnquoted(name: string)
    requires IsIdentifier(name)
    ensures Unquoted(name)
  {
  }

  /** The mask of a written expression is the expression with its references masked, written out. */
  lemma {:induction false} MaskOfRender(e: Expr, style: Style)
    requires WellNamed(e)
    ensures Masked(Render(e, style)) == Render(Seen(e), style) && !Unterminated(Render(e, style))
  {
    hide Masked, Unterminated, IsReference, SpellAgg, Wrapped, Unquoted, IsIdentifier;
    match e
    case Metric(reference) =>
      assert !Unterminated(reference) by { ReferenceIsClosed(reference); }
    case PerSeries(fn, arg) =>
      MaskOfRender(arg, First(style));
      NameIsUnquoted(fn);
      MaskAlone(fn, Render(arg, First(style)));
    case Paired(left, right) =>
      MaskOfRender(left, First(style));
      MaskOfRender(right, Second(style));
      MaskPair(Render(left, First(style)), Render(right, Second(style)));
    case Agg(op, grouping, arg) =>
      MaskOfRender(arg, First(style));
      MaskAgg(op, grouping, Render(arg, First(style)), Trails(style));
  }

  lemma ReferenceIsClosed(reference: string)
    requires IsReference(reference)
    ensures !Unterminated(reference)
  {
  }

  lemma SeenLength(e: Expr, style: Style)
    requires WellNamed(e)
    ensures |Render(Seen(e), style)| == |Render(e, style)|
  {
    MaskOfRender(e, style);
  }

  lemma SameBlock(op: string, grouping: Grouping, inner: string, other: string, trailing: bool, start: nat)
    requires |inner| == |other|
    ensures BlockOf(op, grouping, inner, trailing, start) == BlockOf(op, grouping, other, trailing, start)
  {
    hide SpellGrouping;
  }

  /** The aggregations stand on the mask where they stand in the text. */
  lemma {:induction false} SeenBlocks(e: Expr, style: Style, start: nat)
    requires WellNamed(e)
    ensures TopBlocks(Seen(e), style, start) == TopBlocks(e, style, start)
  {
    hide Render, BlockOf, Masked, IsReference;
    match e
    case Metric(_) =>
    case PerSeries(fn, arg) => SeenBlocks(arg, First(style), start + |fn| + 1);
    case Paired(left, right) =>
      SeenLength(left, First(style));
      SeenBlocks(left, First(style), start + 1);
      SeenBlocks(right, Second(style), start + 1 + |Render(left, First(style))| + 3);
    case Agg(op, grouping, arg) =>
      SeenLength(arg, First(style));
      SameBlock(op, grouping, Render(Seen(arg), First(style)), Render(arg, First(style)), Trails(style), start);
  }

  /** The mask leaves the metric's name. */
  lemma MaskKeepsName(reference: string)
    ensures MetricName(Masked(reference)) == MetricName(reference)
  {
    var name := MetricName(reference);
    var rest := reference[|name|..];
    MaskPlain(name);
    MaskJoin(name, rest);
    assert reference == name + rest;
    if rest != [] { MaskUnfolds(rest, None); }
    NameEndIs(Masked(reference), 0, |name|);
  }

  lemma {:induction false} SeenNames(e: Expr)
    ensures TopNames(Seen(e)) == TopNames(e)
  {
    hide Masked, MetricName;
    match e
    case Metric(reference) => MaskKeepsName(reference);
    case PerSeries(_, arg) => SeenNames(arg);
    case Paired(left, right) =>
      SeenNames(left);
      SeenNames(right);
    case Agg(_, _, _) =>
  }
}
