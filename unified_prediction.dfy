/** The explanation part of `predict_new_students_unified_v4.py`: for every
    new student, the three features that pushed the prediction up most and
    the three that pushed it down most, each rendered with the student's own
    value, plus the predicted index's name and description. The classifier's
    predictions and the attribution (SHAP) arrays are given as inputs. */
module UnifiedPrediction {
  import opened Wrappers
  import opened Sequences
  import opened Attribution
  import ClassMapping

  /** A `(feature, value)` pair as the selector returns it. */
  datatype Scored = Scored(name: string, value: real)

  /** The padding pair `("", 0.0)`. */
  const Blank := Scored("", 0.0)

  function Show(s: seq<Entry>): (r: seq<Scored>)
    ensures |r| == |s|
    ensures forall k :: 0 <= k < |s| ==> r[k] == Scored(s[k].name, s[k].value)
  {
    seq(|s|, k requires 0 <= k < |s| => Scored(s[k].name, s[k].value))
  }

  /** `s` followed by blanks up to length `n`. */
  function Padded(s: seq<Scored>, n: nat): (r: seq<Scored>)
    requires |s| <= n
    ensures |r| == n && r[..|s|] == s
    ensures forall k :: |s| <= k < n ==> r[k] == Blank
  {
    s + seq(n - |s|, _ => Blank)
  }

  // ---------------------------------------------------------------------
  // get_top_features_from_shap_values
  // ---------------------------------------------------------------------

  /** The positive selection: the paired features sorted by value, largest
      first and stably, keeping values > 0, at most `topN`. */
  function TopPositive(values: seq<real>, names: seq<string>, topN: nat): seq<Entry>
  {
    Take(Filter(SortBy(true, Pair(names, values)), Signed(Positive)), topN)
  }

  /** The negative selection: sorted smallest first, stably, keeping values < 0. */
  function TopNegative(values: seq<real>, names: seq<string>, topN: nat): seq<Entry>
  {
    Take(Filter(SortBy(false, Pair(names, values)), Signed(Negative)), topN)
  }

  /** Truncating both inputs to the shorter length first does not change the pairing. */
  lemma TruncationKeepsPairs(values: seq<real>, names: seq<string>)
    ensures var m := Min(|values|, |names|);
      Pair(names[..m], values[..m]) == Pair(names, values)
  {
  }

  /** Returns the `topN` most positive and `topN` most negative features,
      each list padded with `("", 0.0)` to exactly `topN` entries. */
  method GetTopFeatures(values: seq<real>, names: seq<string>, topN: nat)
    returns (pos: seq<Scored>, neg: seq<Scored>)
    ensures |pos| == topN && |neg| == topN
    ensures pos == Padded(Show(TopPositive(values, names, topN)), topN)
    ensures neg == Padded(Show(TopNegative(values, names, topN)), topN)
  {
    var v := values;
    var f := names;
    if |v| != |f| {
      var m := Min(|v|, |f|);
      v := v[..m];
      f := f[..m];
    }
    TruncationKeepsPairs(values, names);
    assert Pair(f, v) == Pair(names, values);
    var pairs := Pair(f, v);

    var sortedDesc := SortBy(true, pairs);
    var top := Show(Take(Filter(sortedDesc, Signed(Positive)), topN));
    pos := top;
    while |pos| < topN
      invariant |top| <= |pos| <= topN
      invariant pos == top + seq(|pos| - |top|, _ => Blank)
      decreases topN - |pos|
    {
      pos := pos + [Blank];
    }

    var sortedAsc := SortBy(false, pairs);
    var bottom := Show(Take(Filter(sortedAsc, Signed(Negative)), topN));
    neg := bottom;
    while |neg| < topN
      invariant |bottom| <= |neg| <= topN
      invariant neg == bottom + seq(|neg| - |bottom|, _ => Blank)
      decreases topN - |neg|
    {
      neg := neg + [Blank];
    }
  }

  /** The positive list: only values > 0, each paired with the name at its own
      index, largest first, equal values in feature order; and every positive
      feature is listed unless `topN` features at least as large already are. */
  lemma TopPositiveProperties(values: seq<real>, names: seq<string>, topN: nat)
    ensures var sel := TopPositive(values, names, topN);
      && |sel| <= topN
      && (forall x :: x in sel ==>
            && x.value > 0.0 && x.index < |values| && x.index < |names|
            && x.name == names[x.index] && x.value == values[x.index])
      && (forall j, k :: 0 <= j < k < |sel| ==>
            sel[j].value > sel[k].value || (sel[j].value == sel[k].value && sel[j].index < sel[k].index))
      && (forall i :: 0 <= i < |values| && i < |names| && values[i] > 0.0 ==>
            Entry(i, names[i], values[i]) in sel || (|sel| == topN && forall x :: x in sel ==> x.value >= values[i]))
  {
    var entries := Pair(names, values);
    PairIndicesIncreasing(names, values);
    SortByOrdered(true, entries);
    SortByPermutation(true, entries);
    SelectionProperties(Order(true, true), SortBy(true, entries), entries, Positive, topN);
    var sel := TopPositive(values, names, topN);
    forall i | 0 <= i < |values| && i < |names| && values[i] > 0.0
      ensures Entry(i, names[i], values[i]) in sel || (|sel| == topN && forall x :: x in sel ==> x.value >= values[i])
    {
      assert entries[i] == Entry(i, names[i], values[i]);
    }
  }

  /** The negative list: only values < 0, each paired with the name at its own
      index, most negative first, equal values in feature order; and every
      negative feature is listed unless `topN` features at least as negative
      already are. */
  lemma TopNegativeProperties(values: seq<real>, names: seq<string>, topN: nat)
    ensures var sel := TopNegative(values, names, topN);
      && |sel| <= topN
      && (forall x :: x in sel ==>
            && x.value < 0.0 && x.index < |values| && x.index < |names|
            && x.name == names[x.index] && x.value == values[x.index])
      && (forall j, k :: 0 <= j < k < |sel| ==>
            sel[j].value < sel[k].value || (sel[j].value == sel[k].value && sel[j].index < sel[k].index))
      && (forall i :: 0 <= i < |values| && i < |names| && values[i] < 0.0 ==>
            Entry(i, names[i], values[i]) in sel || (|sel| == topN && forall x :: x in sel ==> x.value <= values[i]))
  {
    var entries := Pair(names, values);
    PairIndicesIncreasing(names, values);
    SortByOrdered(false, entries);
    SortByPermutation(false, entries);
    SelectionProperties(Order(false, true), SortBy(false, entries), entries, Negative, topN);
    var sel := TopNegative(values, names, topN);
    forall i | 0 <= i < |values| && i < |names| && values[i] < 0.0
      ensures Entry(i, names[i], values[i]) in sel || (|sel| == topN && forall x :: x in sel ==> x.value <= values[i])
    {
      assert entries[i] == Entry(i, names[i], values[i]);
    }
  }

  /** A feature whose attribution is exactly zero is in neither list. */
  lemma ZeroNeverSelected(values: seq<real>, names: seq<string>, topN: nat, i: nat)
    requires i < |values| && i < |names| && values[i] == 0.0
    ensures Entry(i, names[i], values[i]) !in TopPositive(values, names, topN)
    ensures Entry(i, names[i], values[i]) !in TopNegative(values, names, topN)
  {
    TopPositiveProperties(values, names, topN);
    TopNegativeProperties(values, names, topN);
  }

  // ---------------------------------------------------------------------
  // format_shap_feature
  // ---------------------------------------------------------------------

  const Age := "Idade"
  const Sex := "Sexo (código)"
  const CurrentModule := "Módulo atual"
  const ConsecutiveAbsences := "Faltas Consecutivas"
  const BinaryFeatures: seq<string> := ["Possui Pendência Financeira", "Pend. Acad.", "Bolsista", "Antecipou Parcela"]

  /** A rendered cell. Python's text form of a float (`f"{x}"`) is not
      modelled: such a cell keeps the name and the number. */
  datatype Text = Plain(s: string) | NameAndNumber(name: string, x: real)

  /** Python's `int(x)` on a float: truncation toward zero. */
  function Trunc(x: real): (i: int)
    ensures x >= 0.0 ==> 0 <= i && i as real <= x < i as real + 1.0
    ensures x < 0.0 ==> i <= 0 && i as real - 1.0 < x <= i as real
  {
    if x >= 0.0 then x.Floor else -((-x).Floor)
  }

  function DigitChar(d: nat): char
    requires d < 10
  {
    "0123456789"[d]
  }

  function DigitValue(c: char): nat
  {
    if '0' <= c <= '9' then (c as int - '0' as int) else 0
  }

  /** Decimal digits of `n`, as Python's `str` writes them. */
  function NatToString(n: nat): (s: string)
    ensures |s| > 0 && forall k :: 0 <= k < |s| ==> '0' <= s[k] <= '9'
    decreases n
  {
    if n < 10 then [DigitChar(n)] else NatToString(n / 10) + [DigitChar(n % 10)]
  }

  /** Reads a string of decimal digits back as a number. */
  function ParseNat(s: string): nat
  {
    if s == [] then 0 else ParseNat(s[..|s| - 1]) * 10 + DigitValue(s[|s| - 1])
  }

  /** Decimal rendering loses nothing: it parses back to the same number. */
  lemma {:induction false} ParseNatToString(n: nat)
    ensures ParseNat(NatToString(n)) == n
    decreases n
  {
    var s := NatToString(n);
    if n < 10 {
      assert s[..|s| - 1] == [];
    } else {
      ParseNatToString(n / 10);
      assert s[..|s| - 1] == NatToString(n / 10);
    }
  }

  /** `str(i)` for an integer. */
  function IntToString(i: int): (s: string)
    ensures |s| > 0
    ensures i < 0 <==> s[0] == '-'
  {
    if i < 0 then "-" + NatToString(-i) else NatToString(i)
  }

  /** Renders a selected feature with the student's value of it. An empty
      name (padding) renders empty; a name missing from the row is caught
      and renders as the bare name. */
  function FormatShapFeature(name: string, row: map<string, real>): (t: Text)
    ensures t == Plain("") <==> name == ""
  {
    if name == "" then Plain("")
    else if name !in row then Plain(name)
    else
      var x := row[name];
      if name in BinaryFeatures then Plain(name + " (" + (if x == 1.0 then "Sim" else "Não") + ")")
      else if name == Sex then Plain(name + " (" + (if x == 1.0 then "Masculino" else "Feminino") + ")")
      else if name == Age then Plain(name + " (" + IntToString(Trunc(x)) + " anos)")
      else if name == CurrentModule || name == ConsecutiveAbsences then Plain(name + " (" + IntToString(Trunc(x)) + ")")
      else NameAndNumber(name, x)
  }

  lemma FormatMissingFeature(name: string, row: map<string, real>)
    requires name != "" && name !in row
    ensures FormatShapFeature(name, row) == Plain(name)
  {
  }

  /** The four yes/no features read "Sim" exactly when the value is 1. */
  lemma FormatBinary(name: string, row: map<string, real>)
    requires name in BinaryFeatures && name in row
    ensures FormatShapFeature(name, row) == Plain(name + " (Sim)") <==> row[name] == 1.0
    ensures FormatShapFeature(name, row) == Plain(name + " (Não)") <==> row[name] != 1.0
  {
    var yes, no := name + " (Sim)", name + " (Não)";
    assert yes[|name| + 2] != no[|name| + 2];
    if row[name] == 1.0 {
      assert name + " (" + "Sim" + ")" == yes;
    } else {
      assert name + " (" + "Não" + ")" == no;
    }
  }

  /** The sex code reads "Masculino" exactly when it is 1. */
  lemma FormatSex(row: map<string, real>)
    requires Sex in row
    ensures FormatShapFeature(Sex, row) == Plain(Sex + " (Masculino)") <==> row[Sex] == 1.0
    ensures FormatShapFeature(Sex, row) == Plain(Sex + " (Feminino)") <==> row[Sex] != 1.0
  {
    var male, female := Sex + " (Masculino)", Sex + " (Feminino)";
    assert male[|Sex| + 2] != female[|Sex| + 2];
    if row[Sex] == 1.0 {
      assert Sex + " (" + "Masculino" + ")" == male;
    } else {
      assert Sex + " (" + "Feminino" + ")" == female;
    }
  }

  /** Age, current module and consecutive absences are shown as whole numbers,
      truncated toward zero; age carries the unit "anos". */
  lemma FormatWholeNumbers(name: string, row: map<string, real>)
    requires name in {Age, CurrentModule, ConsecutiveAbsences} && name in row
    ensures exists n: int ::
      && (row[name] >= 0.0 ==> 0 <= n && n as real <= row[name] < n as real + 1.0)
      && (row[name] < 0.0 ==> n <= 0 && n as real - 1.0 < row[name] <= n as real)
      && FormatShapFeature(name, row) == Plain(name + " (" + IntToString(n) + (if name == Age then " anos)" else ")"))
  {
    var n := Trunc(row[name]);
    assert FormatShapFeature(name, row) == Plain(name + " (" + IntToString(n) + (if name == Age then " anos)" else ")"));
  }

  /** Every other feature present in the row is shown with its raw value. */
  lemma FormatOther(name: string, row: map<string, real>)
    requires name != "" && name in row && name !in BinaryFeatures
    requires name !in {Sex, Age, CurrentModule, ConsecutiveAbsences}
    ensures FormatShapFeature(name, row) == NameAndNumber(name, row[name])
  {
  }

  // ---------------------------------------------------------------------
  // The per-student loop
  // ---------------------------------------------------------------------

  /** The attribution arrays in the two layouts the script recognises: a
      list with one `[sample][feature]` array per class, or one
      `[sample, feature, class]` array; anything else is not recognised. */
  datatype ShapValues =
    | PerClass(byClass: seq<seq<seq<real>>>)
    | Cube(cells: seq<seq<seq<real>>>, classCount: nat)
    | Unrecognized

  /** The arrays hold a vector for every one of `samples` students in every
      class slot the loop may read. */
  ghost predicate Covers(shap: ShapValues, samples: nat)
  {
    match shap
    case PerClass(byClass) =>
      (samples > 0 ==> |byClass| > 0) && forall c :: 0 <= c < |byClass| ==> samples <= |byClass[c]|
    case Cube(cells, classCount) =>
      && (samples > 0 ==> classCount > 0) && samples <= |cells|
      && forall i, f :: 0 <= i < |cells| && 0 <= f < |cells[i]| ==> |cells[i][f]| == classCount
    case Unrecognized => true
  }

  /** The class slot read for a predicted index: the index itself, or 0
      when it is not below the number of classes. */
  function ClassSlot(predicted: nat, count: nat): (c: nat)
    ensures count > 0 ==> c < count
    ensures c == predicted <==> predicted < count || predicted == 0
    ensures c != predicted ==> c == 0
  {
    if predicted >= count then 0 else predicted
  }

  /** The attribution vector of student `i` for predicted index `predicted`:
      `shap[c][i]` in the list layout, `shap[i, :, c]` in the array layout. */
  function SliceFor(shap: ShapValues, i: nat, predicted: nat, samples: nat): (v: seq<real>)
    requires Covers(shap, samples) && i < samples && !shap.Unrecognized?
    ensures shap.PerClass? ==> v == shap.byClass[ClassSlot(predicted, |shap.byClass|)][i]
    ensures shap.Cube? ==>
      (&& |v| == |shap.cells[i]|
       && forall f :: 0 <= f < |v| ==> v[f] == shap.cells[i][f][ClassSlot(predicted, shap.classCount)])
  {
    match shap
    case PerClass(byClass) =>
      byClass[ClassSlot(predicted, |byClass|)][i]
    case Cube(cells, classCount) =>
      var c := ClassSlot(predicted, classCount);
      seq(|cells[i]|, f requires 0 <= f < |cells[i]| => cells[i][f][c])
  }

  /** The six report cells of one student: Top1..Top3 positive and negative. */
  datatype Explanation = Explanation(pos: seq<Text>, neg: seq<Text>)

  const EmptyExplanation := Explanation([Plain(""), Plain(""), Plain("")], [Plain(""), Plain(""), Plain("")])

  function FormatAll(s: seq<Scored>, row: map<string, real>): (r: seq<Text>)
    ensures |r| == |s|
    ensures forall k :: 0 <= k < |s| ==> r[k] == FormatShapFeature(s[k].name, row)
  {
    seq(|s|, k requires 0 <= k < |s| => FormatShapFeature(s[k].name, row))
  }

  /** What the report shows for a student whose attribution vector is `v`. */
  function Explain(v: seq<real>, columns: seq<string>, row: map<string, real>): Explanation
  {
    Explanation(FormatAll(Padded(Show(TopPositive(v, columns, 3)), 3), row),
                FormatAll(Padded(Show(TopNegative(v, columns, 3)), 3), row))
  }

  /** Fills the six explanation cells of every student. Without attribution
      values there are no such columns; with an unrecognised layout they
      stay empty; otherwise each student's cells come from the vector of
      its predicted class (or class 0 when that index is out of range). */
  method ExplainAll(rows: seq<map<string, real>>, columns: seq<string>, predicted: seq<nat>, shap: Option<ShapValues>)
    returns (table: Option<seq<Explanation>>)
    requires |predicted| == |rows|
    requires shap.Some? ==> Covers(shap.value, |rows|)
    ensures table.None? <==> shap.None?
    ensures table.Some? ==> |table.value| == |rows|
    ensures shap == Some(Unrecognized) ==> forall i :: 0 <= i < |rows| ==> table.value[i] == EmptyExplanation
    ensures shap.Some? && !shap.value.Unrecognized? ==>
      forall i :: 0 <= i < |rows| ==>
        table.value[i] == Explain(SliceFor(shap.value, i, predicted[i], |rows|), columns, rows[i])
  {
    if shap.None? {
      return None;
    }
    var cells := seq(|rows|, _ => EmptyExplanation);
    if shap.value.Unrecognized? {
      return Some(cells);
    }
    for i := 0 to |rows|
      invariant |cells| == |rows|
      invariant forall k :: 0 <= k < i ==>
        cells[k] == Explain(SliceFor(shap.value, k, predicted[k], |rows|), columns, rows[k])
    {
      var v := SliceFor(shap.value, i, predicted[i], |rows|);
      var pos, neg := GetTopFeatures(v, columns, 3);
      cells := cells[i := Explanation(FormatAll(pos, rows[i]), FormatAll(neg, rows[i]))];
    }
    return Some(cells);
  }

  // ---------------------------------------------------------------------
  // Index -> name -> description
  // ---------------------------------------------------------------------

  /** `reverse_mapping_dict.get(idx, f"Índice_{idx}_Desconhecido")`. */
  function ClassName(idx: int): string
  {
    if idx in ClassMapping.ReverseMappingDict then ClassMapping.ReverseMappingDict[idx]
    else "Índice_" + IntToString(idx) + "_Desconhecido"
  }

  /** Known indices name their class; any other index gets a name that is
      not a class name. */
  lemma ClassNameKnownIff(idx: int)
    ensures 0 <= idx < ClassMapping.ClassCount ==> ClassName(idx) == ClassMapping.ClassNamesOrdered[idx]
    ensures ClassName(idx) in ClassMapping.ClassNamesOrdered <==> 0 <= idx < ClassMapping.ClassCount
  {
    ClassMapping.ReverseAgreesWithOrderedNames();
    if !(0 <= idx < ClassMapping.ClassCount) {
      var s := ClassName(idx);
      assert s[0] == 'Í';
      forall k | 0 <= k < |ClassMapping.ClassNamesOrdered| ensures ClassMapping.ClassNamesOrdered[k] != s {
        assert ClassMapping.ClassNamesOrdered[k][0] != 'Í';
      }
    }
  }

  /** `SITUACAO_DESCRICAO_MAP`. */
  const Descriptions: map<string, string> :=
    map["CAN" := "Cancelamento Normal", "LFI" := "Limpeza Financeira", "FO" := "Formado",
        "CAC" := "Cancelamento Comercial", "MT" := "Matriculado", "CAI" := "Cancelamento Interno",
        "CAU" := "Cancelamento Unidade", "NC" := "Nunca Compareceu", "LAC" := "Limpeza Academica",
        "LFR" := "Limpeza de Frequencia", "NF" := "Não Formados", "TR" := "Trancado",
        "TF" := "Transferência Interna", "ES" := "Em Espera"]

  /** `SITUACAO_DESCRICAO_MAP.get(code, code)`. */
  function Describe(code: string): (d: string)
    ensures code !in Descriptions ==> d == code
  {
    if code in Descriptions then Descriptions[code] else code
  }

  /** Every class the model can name has a description of its own except the
      merged class "CAN/CAU", which the table lists only as "CAN" and "CAU"
      and which is therefore described by its code. */
  lemma DescriptionsOfClasses()
    ensures forall k :: 0 <= k < ClassMapping.ClassCount && ClassMapping.ClassNamesOrdered[k] != "CAN/CAU" ==>
      Describe(ClassMapping.ClassNamesOrdered[k]) != ClassMapping.ClassNamesOrdered[k]
    ensures Describe("CAN/CAU") == "CAN/CAU"
  {
    forall k | 0 <= k < ClassMapping.ClassCount && ClassMapping.ClassNamesOrdered[k] != "CAN/CAU"
      ensures Describe(ClassMapping.ClassNamesOrdered[k]) != ClassMapping.ClassNamesOrdered[k]
    {
      assert ClassMapping.ClassNamesOrdered[k] in Descriptions;
    }
  }
}
