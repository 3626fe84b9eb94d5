/** The per-student report of `generate_student_report.py`: the same label
    filters as the attribution preparation, and a second top-k attribution
    selector that sorts once, takes the head for the positive list and the
    reversed tail for the negative list, and pads with "-". The classifier's
    predictions and the attribution array are given as inputs. */
module StudentReport {
  import opened Sequences
  import opened Attribution
  import UnifiedPrediction
  import LabelPipeline

  /** A report cell: `"-"` or `f"{feature} ({value:.2f})"` (the two-decimal
      rendering of the value is not modelled). */
  datatype ReportEntry = Dash | Shown(name: string, value: real)

  function Render(s: seq<Entry>): (r: seq<ReportEntry>)
    ensures |r| == |s|
    ensures forall k :: 0 <= k < |s| ==> r[k] == Shown(s[k].name, s[k].value)
  {
    seq(|s|, k requires 0 <= k < |s| => Shown(s[k].name, s[k].value))
  }

  /** `while len(s) < n: s.append("-")`: never shortens. */
  function PadWithDashes(s: seq<ReportEntry>, n: nat): (r: seq<ReportEntry>)
    ensures |r| == if |s| < n then n else |s|
    ensures forall k :: 0 <= k < |r| ==> r[k] == if k < |s| then s[k] else Dash
  {
    if |s| < n then s + seq(n - |s|, _ => Dash) else s
  }

  /** `feature_shap` after `feature_shap.sort(key=value, reverse=True)`. */
  function Ranked(values: seq<real>, names: seq<string>): seq<Entry>
  {
    SortBy(true, Pair(names, values))
  }

  /** `[... for feat, val in feature_shap[:n] if val > 0]`. */
  function ReportPositives(values: seq<real>, names: seq<string>, n: nat): seq<Entry>
  {
    Filter(Take(Ranked(values, names), n), Signed(Positive))
  }

  /** Python's `s[-n:]`: since `-0 == 0`, for `n = 0` it is the whole list. */
  function NegativeIndexSlice<T>(s: seq<T>, n: nat): (r: seq<T>)
    ensures n == 0 ==> r == s
    ensures n > 0 ==> r == Last(s, n)
  {
    if n == 0 then s else Last(s, n)
  }

  /** `[... for feat, val in feature_shap[-n:][::-1] if val < 0]` as written. */
  function ReportNegativesAsWritten(values: seq<real>, names: seq<string>, n: nat): seq<Entry>
  {
    Filter(Reverse(NegativeIndexSlice(Ranked(values, names), n)), Signed(Negative))
  }

  /** The negative list as evidently intended: from the last `n` entries only. */
  function ReportNegatives(values: seq<real>, names: seq<string>, n: nat): seq<Entry>
  {
    Filter(Reverse(Last(Ranked(values, names), n)), Signed(Negative))
  }

  /** `while len(s) < n: s.append("-")`. */
  method PadInPlace(s: seq<ReportEntry>, n: nat) returns (r: seq<ReportEntry>)
    ensures r == PadWithDashes(s, n)
  {
    r := s;
    while |r| < n
      invariant |s| < n ==> |s| <= |r| <= n && r == s + seq(|r| - |s|, _ => Dash)
      invariant |s| >= n ==> r == s
      decreases n - |r|
    {
      r := r + [Dash];
    }
  }

  /** The two report lists of one student, each exactly `n` cells. */
  method GetTopShapFeatures(values: seq<real>, names: seq<string>, n: nat)
    returns (pos: seq<ReportEntry>, neg: seq<ReportEntry>)
    ensures |pos| == n && |neg| == n
    ensures pos == PositiveCells(values, names, n)
    ensures neg == NegativeCells(values, names, n)
  {
    var featureShap := Pair(names, values);
    featureShap := SortBy(true, featureShap);
    var head := Render(Filter(Take(featureShap, n), Signed(Positive)));
    var tail := Render(Filter(Reverse(Last(featureShap, n)), Signed(Negative)));
    pos := PadInPlace(head, n);
    neg := PadInPlace(tail, n);
  }

  /** The positive list is the same selection as the v4 selector's: filtering
      the first `n` of the descending order equals taking the first `n`
      positives, because the positives come first. */
  lemma ReportPositivesMatchUnified(values: seq<real>, names: seq<string>, n: nat)
    ensures ReportPositives(values, names, n) == UnifiedPrediction.TopPositive(values, names, n)
  {
    var entries := Pair(names, values);
    PairIndicesIncreasing(names, values);
    SortByOrdered(true, entries);
    DescendingPositivesFirst(SortBy(true, entries));
    FilterTakeCommute(SortBy(true, entries), Signed(Positive), n);
  }

  /** The intended negative list is a selection from the reversed ranking:
      its first `n` negatives. */
  lemma ReportNegativesFromReversed(values: seq<real>, names: seq<string>, n: nat)
    ensures var ranked := Ranked(values, names);
      && Ordered(Order(false, false), Reverse(ranked))
      && multiset(Reverse(ranked)) == multiset(Pair(names, values))
      && ReportNegatives(values, names, n) == Take(Filter(Reverse(ranked), Signed(Negative)), n)
  {
    var ranked := Ranked(values, names);
    PairIndicesIncreasing(names, values);
    SortByOrdered(true, Pair(names, values));
    SortByPermutation(true, Pair(names, values));
    ReverseOrdered(ranked);
    ReverseLast(ranked, n);
    AscendingNegativesFirst(Reverse(ranked));
    FilterTakeCommute(Reverse(ranked), Signed(Negative), n);
    ReverseMultiset(ranked);
  }

  /** The negative list: only values < 0, each paired with the name at its
      own index, most negative first; among equal values the LATER feature
      comes first (the reversal inverts the stable order); and every negative
      feature is listed unless `n` features at least as negative already are. */
  lemma ReportNegativesProperties(values: seq<real>, names: seq<string>, n: nat)
    ensures var sel := ReportNegatives(values, names, n);
      && |sel| <= n
      && (forall x :: x in sel ==>
            && x.value < 0.0 && x.index < |values| && x.index < |names|
            && x.name == names[x.index] && x.value == values[x.index])
      && (forall j, k :: 0 <= j < k < |sel| ==>
            sel[j].value < sel[k].value || (sel[j].value == sel[k].value && sel[j].index > sel[k].index))
      && (forall i :: 0 <= i < |values| && i < |names| && values[i] < 0.0 ==>
            Entry(i, names[i], values[i]) in sel || (|sel| == n && forall x :: x in sel ==> x.value <= values[i]))
  {
    var entries := Pair(names, values);
    var ranked := Ranked(values, names);
    ReportNegativesFromReversed(values, names, n);
    SelectionProperties(Order(false, false), Reverse(ranked), entries, Negative, n);
    var sel := ReportNegatives(values, names, n);
    assert sel == Take(Filter(Reverse(ranked), Signed(Negative)), n);
    forall i | 0 <= i < |values| && i < |names| && values[i] < 0.0
      ensures Entry(i, names[i], values[i]) in sel || (|sel| == n && forall x :: x in sel ==> x.value <= values[i])
    {
      var e := entries[i];
      assert e == Entry(i, names[i], values[i]);
      assert e in entries && HasSign(e, Negative);
      if e !in sel {
        assert |sel| == n && forall x :: x in sel ==> Before(Order(false, false), x, e);
      }
    }
  }

  /** Two equally negative features: this report lists the later one, the v4
      selector the earlier one. */
  lemma TiedNegativesDiffer()
    ensures ReportNegatives([-1.0, -1.0], ["a", "b"], 1) == [Entry(1, "b", -1.0)]
    ensures UnifiedPrediction.TopNegative([-1.0, -1.0], ["a", "b"], 1) == [Entry(0, "a", -1.0)]
  {
    var entries := Pair(["a", "b"], [-1.0, -1.0]);
    assert entries == [Entry(0, "a", -1.0), Entry(1, "b", -1.0)];
    assert entries[1..] == [Entry(1, "b", -1.0)];
    assert SortBy(true, entries[1..]) == [Entry(1, "b", -1.0)] by {
      assert entries[1..][1..] == [];
    }
    assert SortBy(true, entries) == entries;
    assert SortBy(false, entries[1..]) == [Entry(1, "b", -1.0)] by {
      assert entries[1..][1..] == [];
    }
    assert SortBy(false, entries) == entries;
    var last := Last(entries, 1);
    assert last == [Entry(1, "b", -1.0)];
    assert Reverse(last) == last;
    assert Filter(last, Signed(Negative)) == last by {
      assert last[1..] == [];
    }
    var firstOnly := Take(Filter(entries, Signed(Negative)), 1);
    assert Filter(entries, Signed(Negative)) == entries by {
      assert entries[1..][1..] == [];
    }
    assert firstOnly == [Entry(0, "a", -1.0)];
  }

  /** For `n > 0` the code as written selects exactly the intended list. */
  lemma AsWrittenAgreesForPositiveN(values: seq<real>, names: seq<string>, n: nat)
    requires n > 0
    ensures ReportNegativesAsWritten(values, names, n) == ReportNegatives(values, names, n)
  {
  }

  /** For `n = 0` the slice `[-0:]` is the whole list, so a single negative
      feature is still listed although no entry was asked for. */
  lemma NegativeSliceAtZero()
    ensures |ReportNegativesAsWritten([-1.0], ["a"], 0)| == 1
    ensures |ReportNegatives([-1.0], ["a"], 0)| == 0
  {
    var entries := Pair(["a"], [-1.0]);
    assert entries == [Entry(0, "a", -1.0)];
    assert SortBy(true, entries) == entries by {
      assert entries[1..] == [];
    }
    assert Reverse(entries) == entries;
    assert Filter(entries, Signed(Negative)) == entries by {
      assert entries[1..] == [];
    }
  }

  // ---------------------------------------------------------------------
  // The per-student loop
  // ---------------------------------------------------------------------

  /** Every feature of a student's row has an entry for class `c`. */
  ghost predicate HasClass(row: seq<seq<real>>, c: nat)
  {
    forall f :: 0 <= f < |row| ==> c < |row[f]|
  }

  /** `shap_values[i, :, c]`: the attribution of every feature to class `c`. */
  function Column(row: seq<seq<real>>, c: nat): seq<real>
    requires HasClass(row, c)
  {
    seq(|row|, f requires 0 <= f < |row| => row[f][c])
  }

  /** Every student has a row in the array, and its predicted class is a
      valid last index. */
  ghost predicate Covers(cells: seq<seq<seq<real>>>, predicted: seq<nat>)
  {
    && |predicted| <= |cells|
    && forall i :: 0 <= i < |predicted| ==> HasClass(cells[i], predicted[i])
  }

  /** The report cells of one student: `n` cells each. */
  function PositiveCells(values: seq<real>, names: seq<string>, n: nat): (r: seq<ReportEntry>)
    ensures |r| == n
  {
    PadWithDashes(Render(ReportPositives(values, names, n)), n)
  }

  function NegativeCells(values: seq<real>, names: seq<string>, n: nat): (r: seq<ReportEntry>)
    ensures |r| == n
  {
    PadWithDashes(Render(ReportNegatives(values, names, n)), n)
  }

  /** The report cells of every student, computed by `cellsOf` from the
      attribution column of its predicted class, in student order. */
  function Table(cells: seq<seq<seq<real>>>, predicted: seq<nat>, cellsOf: seq<real> -> seq<ReportEntry>): seq<seq<ReportEntry>>
    requires Covers(cells, predicted)
  {
    if predicted == [] then []
    else
      var last := |predicted| - 1;
      Table(cells, predicted[..last], cellsOf) + [cellsOf(Column(cells[last], predicted[last]))]
  }

  /** Row `i` of the table holds the cells of student `i`. */
  lemma {:induction false} TableAt(cells: seq<seq<seq<real>>>, predicted: seq<nat>, cellsOf: seq<real> -> seq<ReportEntry>)
    requires Covers(cells, predicted)
    ensures |Table(cells, predicted, cellsOf)| == |predicted|
    ensures forall i :: 0 <= i < |predicted| ==>
      Table(cells, predicted, cellsOf)[i] == cellsOf(Column(cells[i], predicted[i]))
  {
    if predicted != [] {
      var last := |predicted| - 1;
      var front := predicted[..last];
      TableAt(cells, front, cellsOf);
      var t := Table(cells, predicted, cellsOf);
      var rest := Table(cells, front, cellsOf);
      assert t == rest + [cellsOf(Column(cells[last], predicted[last]))];
      forall i | 0 <= i < last
        ensures t[i] == cellsOf(Column(cells[i], predicted[i]))
      {
        assert front[i] == predicted[i];
        assert t[i] == rest[i];
      }
    }
  }

  /** Extending the students by one appends that student's cells. */
  lemma TableStep(cells: seq<seq<seq<real>>>, predicted: seq<nat>, i: nat, cellsOf: seq<real> -> seq<ReportEntry>)
    requires Covers(cells, predicted) && i < |predicted|
    ensures Table(cells, predicted[..i + 1], cellsOf)
      == Table(cells, predicted[..i], cellsOf) + [cellsOf(Column(cells[i], predicted[i]))]
  {
    assert predicted[..i + 1][..i] == predicted[..i];
  }

  /** Collects the top-3 lists of every student from the attribution column
      of its predicted class (the index is used as is: there is no fallback). */
  method ExplainStudents(cells: seq<seq<seq<real>>>, predicted: seq<nat>, featureNames: seq<string>)
    returns (topPosAll: seq<seq<ReportEntry>>, topNegAll: seq<seq<ReportEntry>>)
    requires Covers(cells, predicted)
    ensures topPosAll == Table(cells, predicted, (v: seq<real>) => PositiveCells(v, featureNames, 3))
    ensures topNegAll == Table(cells, predicted, (v: seq<real>) => NegativeCells(v, featureNames, 3))
  {
    ghost var posOf := (v: seq<real>) => PositiveCells(v, featureNames, 3);
    ghost var negOf := (v: seq<real>) => NegativeCells(v, featureNames, 3);
    topPosAll, topNegAll := [], [];
    for i := 0 to |predicted|
      invariant topPosAll == Table(cells, predicted[..i], posOf)
      invariant topNegAll == Table(cells, predicted[..i], negOf)
    {
      var column := Column(cells[i], predicted[i]);
      var pos, neg := GetTopShapFeatures(column, featureNames, 3);
      TableStep(cells, predicted, i, posOf);
      TableStep(cells, predicted, i, negOf);
      topPosAll := topPosAll + [pos];
      topNegAll := topNegAll + [neg];
    }
    assert predicted[..|predicted|] == predicted;
  }

  /** Every student gets exactly three positive cells, and student `i`'s
      are the report list of its own attribution column. */
  lemma PositiveReportOfEachStudent(cells: seq<seq<seq<real>>>, predicted: seq<nat>, featureNames: seq<string>)
    requires Covers(cells, predicted)
    ensures var pos := Table(cells, predicted, (v: seq<real>) => PositiveCells(v, featureNames, 3));
      && |pos| == |predicted|
      && forall i :: 0 <= i < |predicted| ==>
           |pos[i]| == 3 && pos[i] == PositiveCells(Column(cells[i], predicted[i]), featureNames, 3)
  {
    TableAt(cells, predicted, (v: seq<real>) => PositiveCells(v, featureNames, 3));
  }

  /** The same for the negative cells. */
  lemma NegativeReportOfEachStudent(cells: seq<seq<seq<real>>>, predicted: seq<nat>, featureNames: seq<string>)
    requires Covers(cells, predicted)
    ensures var neg := Table(cells, predicted, (v: seq<real>) => NegativeCells(v, featureNames, 3));
      && |neg| == |predicted|
      && forall i :: 0 <= i < |predicted| ==>
           |neg[i]| == 3 && neg[i] == NegativeCells(Column(cells[i], predicted[i]), featureNames, 3)
  {
    TableAt(cells, predicted, (v: seq<real>) => NegativeCells(v, featureNames, 3));
  }

  // ---------------------------------------------------------------------
  // prepare_data_for_prediction
  // ---------------------------------------------------------------------

  /** Applies the label filters step by step and builds the feature matrix:
      the processed rows are exactly the surviving input rows in input
      order, and X is the same matrix the attribution preparation builds. */
  method PrepareForPrediction(columns: seq<string>, rows: seq<LabelPipeline.Row>)
    returns (processed: seq<LabelPipeline.Labelled>, x: seq<map<string, string>>)
    ensures LabelPipeline.Tracks(LabelPipeline.SurvivorPositions(rows), rows, processed)
    ensures |x| == |processed|
    ensures forall k :: 0 <= k < |x| ==>
      x[k] == LabelPipeline.Project(processed[k].row.cells, LabelPipeline.FeatureColumns(columns))
    ensures x == LabelPipeline.PrepareData(columns, rows).x
  {
    var df := LabelPipeline.DropRareClasses(rows);
    df := LabelPipeline.MergeCau(df);
    processed := LabelPipeline.MapLabels(df);
    var features := LabelPipeline.FeatureColumns(columns);
    x := LabelPipeline.FeatureMatrix(processed, features);
    LabelPipeline.FilterAndMapTracksRows(rows);
  }
}
