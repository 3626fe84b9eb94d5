/** The hybrid decision of the v2.0 system (`SistemaEvasaoHibridoExpandido`):
    a first-match-wins cascade of institutional rules over three numeric
    fields, merged with the classifier's label, tagged with the risk tables,
    and summarised by a report. The classifier itself is opaque: its
    predicted class indices are given as input. */
module HybridSystem {
  import opened Wrappers
  import Sequences

  // ---------------------------------------------------------------------
  // Constants
  // ---------------------------------------------------------------------

  const PendFinanc := "Pend_Financ"
  const FaltasConsecutivas := "Faltas_Consecutivas"
  const PendAcad := "Pend_Acad"

  /** `FEATURES_QUANTITATIVAS` */
  const QuantitativeFeatures: seq<string> :=
    [PendFinanc, FaltasConsecutivas, PendAcad, "Semestre", "Idade", "Sexo", "Turno",
     "Renda_Familiar", "Distancia_Campus", "Tempo_Deslocamento", "Dificuldade_Disciplina", "Trabalha"]

  /** `FEATURES_SATISFACAO` */
  const SatisfactionFeatures: seq<string> :=
    ["Satisfacao_Geral", "Qualidade_Ensino", "Motivacao_Continuar",
     "Dificuldade_Aprendizado", "Pretende_Desistir", "Avaliacao_Professor"]

  /** `TODAS_FEATURES` */
  const AllFeatures: seq<string> := QuantitativeFeatures + SatisfactionFeatures

  /** The enrolled ("matriculado") category: the one code that is not a risk. */
  const Enrolled := "MT"

  /** `CATEGORIAS_RISCO`: code -> description. */
  const RiskCategories: map<string, string> :=
    map["MT" := "Matriculado", "LFI" := "Limpeza Financeira", "LFR" := "Limpeza de Frequência",
        "LAC" := "Limpeza Acadêmica", "NC" := "Nunca Compareceu", "NF" := "Não Formados",
        "CAC" := "Categoria Adicional 1", "CAN" := "Categoria Adicional 2", "FO" := "Fora",
        "TF" := "Transferência"]

  /** `MAPEAMENTO_RISCO`: code -> is it a risk category. */
  const RiskMapping: map<string, bool> :=
    map["MT" := false, "LFI" := true, "LFR" := true, "LAC" := true, "NC" := true,
        "NF" := true, "CAC" := true, "CAN" := true, "FO" := true, "TF" := true]

  /** The codes the rule cascade can return. */
  const RuleCodes: set<string> := {"LFI", "LFR", "LAC", "NC", "MT"}

  /** The risk rules in priority order; MT is what remains when none fires. */
  const RulePriority: seq<string> := ["LFI", "LFR", "LAC", "NC"]

  // ---------------------------------------------------------------------
  // Cells and numeric conversion
  // ---------------------------------------------------------------------

  /** A cell of the student table as `float(value or 0)` sees it. */
  datatype Cell =
    | Empty            // a falsy value (None, '', False) or a column the row lacks
    | Number(x: real)  // a value float() turns into a finite number (infinities are not modelled)
    | NaN              // a missing numeric value (truthy, so `or 0` keeps it)
    | Garbage          // a truthy value float() rejects, such as the text 'PC'

  /** The result of float(): a finite number or NaN. */
  datatype Num = Finite(x: real) | NotANumber

  /** `float(value or 0)`; None when float() raises. */
  function ToFloat(c: Cell): (n: Option<Num>)
    ensures n.None? <==> c.Garbage?
    ensures c.Empty? ==> n == Some(Finite(0.0))
  {
    match c
    case Empty => Some(Finite(0.0))
    case Number(x) => Some(Finite(x))
    case NaN => Some(NotANumber)
    case Garbage => None
  }

  /** `n >= t`, which is false for NaN. */
  predicate AtLeast(n: Num, t: real) { n.Finite? && n.x >= t }

  /** `n > t`, which is false for NaN. */
  predicate Above(n: Num, t: real) { n.Finite? && n.x > t }

  /** A row of the table, by column name. */
  type Row = map<string, Cell>

  /** `aluno.get(column, 0)`. */
  function Get(row: Row, column: string): Cell
  {
    if column in row then row[column] else Empty
  }

  // ---------------------------------------------------------------------
  // Rule cascade (`_aplicar_regras_negocio`)
  // ---------------------------------------------------------------------

  /** The if/elif chain over the converted pending-financial, consecutive-absence
      and academic-pendency values. */
  function Cascade(pf: Num, fc: Num, pa: Num): string
  {
    if AtLeast(pf, 2.0) then "LFI"
    else if Above(pf, 0.0) && AtLeast(fc, 12.0) then "LFR"
    else if AtLeast(pa, 1.0) then "LAC"
    else if AtLeast(fc, 5.0) then "NC"
    else "MT"
  }

  /** `_aplicar_regras_negocio`: a conversion failure in any of the three fields
      is caught and answered with MT. */
  function ApplyRules(row: Row): (code: string)
    ensures code in RuleCodes
  {
    match (ToFloat(Get(row, PendFinanc)), ToFloat(Get(row, FaltasConsecutivas)), ToFloat(Get(row, PendAcad)))
    case (Some(pf), Some(fc), Some(pa)) => Cascade(pf, fc, pa)
    case _ => "MT"
  }

  /** Each risk rule's own condition, without "no earlier rule fired". */
  predicate Fires(rule: string, pf: Num, fc: Num, pa: Num)
  {
    if rule == "LFI" then AtLeast(pf, 2.0)
    else if rule == "LFR" then Above(pf, 0.0) && AtLeast(fc, 12.0)
    else if rule == "LAC" then AtLeast(pa, 1.0)
    else if rule == "NC" then AtLeast(fc, 5.0)
    else false
  }

  /** The cascade returns the first rule in priority order whose condition
      holds, and MT exactly when none holds. */
  lemma CascadeIsFirstMatch(pf: Num, fc: Num, pa: Num)
    ensures var c := Cascade(pf, fc, pa);
      && (c == Enrolled <==> forall i :: 0 <= i < |RulePriority| ==> !Fires(RulePriority[i], pf, fc, pa))
      && (c != Enrolled ==>
            (exists i :: 0 <= i < |RulePriority| && RulePriority[i] == c
               && Fires(c, pf, fc, pa)
               && (forall j :: 0 <= j < i ==> !Fires(RulePriority[j], pf, fc, pa))))
  {
    var c := Cascade(pf, fc, pa);
    if c == "LFI" {
      assert RulePriority[0] == c;
    } else if c == "LFR" {
      assert RulePriority[1] == c && !Fires(RulePriority[0], pf, fc, pa);
    } else if c == "LAC" {
      assert RulePriority[2] == c && !Fires(RulePriority[0], pf, fc, pa) && !Fires(RulePriority[1], pf, fc, pa);
    } else if c == "NC" {
      assert RulePriority[3] == c && !Fires(RulePriority[0], pf, fc, pa) && !Fires(RulePriority[1], pf, fc, pa)
        && !Fires(RulePriority[2], pf, fc, pa);
    } else {
      forall i | 0 <= i < |RulePriority| ensures !Fires(RulePriority[i], pf, fc, pa) {
        assert RulePriority[i] in {"LFI", "LFR", "LAC", "NC"};
      }
    }
  }

  /** All three fields convert without raising. */
  predicate Converts(row: Row)
  {
    ToFloat(Get(row, PendFinanc)).Some? && ToFloat(Get(row, FaltasConsecutivas)).Some?
      && ToFloat(Get(row, PendAcad)).Some?
  }

  /** The converted value of one of the three fields. */
  function Value(row: Row, column: string): Num
    requires ToFloat(Get(row, column)).Some?
  {
    ToFloat(Get(row, column)).value
  }

  /** Two or more pending installments give LFI whatever the absences or the
      academic pendency are. */
  lemma FinancialPendencyDominates(row: Row)
    requires Converts(row)
    requires AtLeast(Value(row, PendFinanc), 2.0)
    ensures ApplyRules(row) == "LFI"
  {
  }

  /** Exactly one pending installment never gives LFI. */
  lemma OnePendingNeverLfi(row: Row)
    requires Get(row, PendFinanc) == Number(1.0)
    ensures ApplyRules(row) != "LFI"
  {
  }

  /** LFR exactly when 0 < pending < 2 and twelve or more consecutive absences. */
  lemma LfrExactly(row: Row)
    ensures ApplyRules(row) == "LFR" <==>
      Converts(row) && Above(Value(row, PendFinanc), 0.0) && !AtLeast(Value(row, PendFinanc), 2.0)
        && AtLeast(Value(row, FaltasConsecutivas), 12.0)
  {
  }

  /** LAC only when neither financial rule fired and the academic pendency is at least 1. */
  lemma LacExactly(row: Row)
    ensures ApplyRules(row) == "LAC" <==>
      Converts(row)
        && !Fires("LFI", Value(row, PendFinanc), Value(row, FaltasConsecutivas), Value(row, PendAcad))
        && !Fires("LFR", Value(row, PendFinanc), Value(row, FaltasConsecutivas), Value(row, PendAcad))
        && AtLeast(Value(row, PendAcad), 1.0)
  {
  }

  /** NC only when no earlier rule fired and there are five or more consecutive absences. */
  lemma NcExactly(row: Row)
    ensures ApplyRules(row) == "NC" <==>
      Converts(row)
        && !Fires("LFI", Value(row, PendFinanc), Value(row, FaltasConsecutivas), Value(row, PendAcad))
        && !Fires("LFR", Value(row, PendFinanc), Value(row, FaltasConsecutivas), Value(row, PendAcad))
        && !Fires("LAC", Value(row, PendFinanc), Value(row, FaltasConsecutivas), Value(row, PendAcad))
        && AtLeast(Value(row, FaltasConsecutivas), 5.0)
  {
  }

  /** MT exactly when a field fails to convert or no risk rule fires. */
  lemma MtOtherwise(row: Row)
    ensures ApplyRules(row) == Enrolled <==>
      !Converts(row) ||
      forall i :: 0 <= i < |RulePriority| ==>
        !Fires(RulePriority[i], Value(row, PendFinanc), Value(row, FaltasConsecutivas), Value(row, PendAcad))
  {
    if Converts(row) {
      CascadeIsFirstMatch(Value(row, PendFinanc), Value(row, FaltasConsecutivas), Value(row, PendAcad));
    }
  }

  /** A missing or falsy field reads as 0, and a NaN field satisfies no threshold. */
  lemma MissingAndNanFields(row: Row, column: string)
    ensures column !in row ==> ToFloat(Get(row, column)) == Some(Finite(0.0))
    ensures Get(row, column) == NaN ==> forall t :: !AtLeast(Value(row, column), t) && !Above(Value(row, column), t)
  {
  }

  // ---------------------------------------------------------------------
  // Merge with the classifier and tagging (`prever`, lines 345-373)
  // ---------------------------------------------------------------------

  /** `MAPEAMENTO_RISCO.get(code, False)`. */
  function IsRisk(code: string): (risk: bool)
    ensures code !in RiskMapping ==> !risk
  {
    if code in RiskMapping then RiskMapping[code] else false
  }

  /** `CATEGORIAS_RISCO.get(code, code)`. */
  function CategoryName(code: string): (name: string)
    ensures code !in RiskCategories ==> name == code
  {
    if code in RiskCategories then RiskCategories[code] else code
  }

  /** Rules override the classifier when they indicate risk. */
  function Merge(rule: string, ml: string): string
  {
    if IsRisk(rule) then rule else ml
  }

  /** Every rule outcome except MT is a risk code, so the rule wins unless it said MT. */
  lemma RuleWinsUnlessEnrolled(row: Row, ml: string)
    ensures IsRisk(ApplyRules(row)) <==> ApplyRules(row) != Enrolled
    ensures Merge(ApplyRules(row), ml) == if ApplyRules(row) == Enrolled then ml else ApplyRules(row)
  {
  }

  /** The final label is MT only when the rules said MT and the classifier said MT. */
  lemma EnrolledOnlyByAgreement(row: Row, ml: string)
    ensures Merge(ApplyRules(row), ml) == Enrolled <==> ApplyRules(row) == Enrolled && ml == Enrolled
  {
  }

  /** Every code of the risk table has a description, and only MT is not a risk. */
  lemma RiskTablesAgree()
    ensures RiskMapping.Keys == RiskCategories.Keys
    ensures forall c :: c in RiskMapping ==> (IsRisk(c) <==> c != Enrolled)
  {
  }

  // ---------------------------------------------------------------------
  // The student table
  // ---------------------------------------------------------------------

  /** A data frame: named columns of equal length. */
  datatype Frame = Frame(columns: map<string, seq<Cell>>, rowCount: nat)

  ghost predicate WellFormed(f: Frame)
  {
    forall c :: c in f.columns ==> |f.columns[c]| == f.rowCount
  }

  /** The i-th row, as `iterrows` yields it. */
  function RowAt(f: Frame, i: nat): Row
    requires WellFormed(f) && i < f.rowCount
  {
    map c | c in f.columns :: f.columns[c][i]
  }

  /** A column of zeros, as `dados_prep[col] = 0` creates it. */
  function Zeros(n: nat): (z: seq<Cell>)
    ensures |z| == n && forall i :: 0 <= i < n ==> z[i] == Number(0.0)
  {
    seq(n, _ => Number(0.0))
  }

  /** `prep` is `data` with every feature column it lacked added as zeros. */
  ghost predicate Completes(data: Frame, prep: Frame)
  {
    && WellFormed(prep) && prep.rowCount == data.rowCount
    && (forall c :: c in prep.columns <==> c in data.columns || c in AllFeatures)
    && (forall c :: c in data.columns ==> prep.columns[c] == data.columns[c])
    && (forall c :: c in prep.columns && c !in data.columns ==> prep.columns[c] == Zeros(data.rowCount))
  }

  /** The second loop of `_preprocessar_dados`: every feature column that is
      missing is created and filled with 0. */
  method CompleteColumns(data: Frame) returns (prep: Frame)
    requires WellFormed(data)
    ensures Completes(data, prep)
  {
    prep := data;
    for k := 0 to |AllFeatures|
      invariant WellFormed(prep) && prep.rowCount == data.rowCount
      invariant forall c :: c in prep.columns <==> c in data.columns || c in AllFeatures[..k]
      invariant forall c :: c in data.columns ==> prep.columns[c] == data.columns[c]
      invariant forall c :: c in prep.columns && c !in data.columns ==> prep.columns[c] == Zeros(data.rowCount)
    {
      var col := AllFeatures[k];
      if col !in prep.columns {
        prep := prep.(columns := prep.columns[col := Zeros(prep.rowCount)]);
      }
      assert AllFeatures[..k + 1] == AllFeatures[..k] + [col];
    }
    assert AllFeatures[..|AllFeatures|] == AllFeatures;
  }

  /** A column added as zeros is read by the rules exactly as the absent
      column was, so completing the table never changes a rule outcome. */
  lemma CompletionKeepsRules(data: Frame, prep: Frame, i: nat)
    requires WellFormed(data) && Completes(data, prep) && i < data.rowCount
    ensures ApplyRules(RowAt(prep, i)) == ApplyRules(RowAt(data, i))
  {
    var before, after := RowAt(data, i), RowAt(prep, i);
    forall c | c in {PendFinanc, FaltasConsecutivas, PendAcad}
      ensures ToFloat(Get(after, c)) == ToFloat(Get(before, c))
    {
      if c !in data.columns {
        assert c in AllFeatures;
        assert Get(after, c) == Number(0.0);
      }
    }
  }

  // ---------------------------------------------------------------------
  // Predictions
  // ---------------------------------------------------------------------

  /** One row of the result table (the float confidence is not modelled). */
  datatype Prediction = Prediction(id: Cell, mlLabel: string, finalLabel: string, isRisk: bool, category: string)

  /** `inverse_transform` was given an index outside the encoder's classes. */
  datatype PredictError = UnseenLabel

  /** The classifier's class indices: its predictions when loaded, otherwise zeros. */
  function MlIndices(modelLoaded: bool, modelOutput: seq<int>, n: nat): (idx: seq<int>)
    requires modelLoaded ==> |modelOutput| == n
    ensures |idx| == n
  {
    if modelLoaded then modelOutput else seq(n, _ => 0)
  }

  /** Every index names a class of the encoder. */
  predicate AllSeen(classes: seq<string>, indices: seq<int>)
  {
    forall i :: 0 <= i < |indices| ==> 0 <= indices[i] < |classes|
  }

  /** The classifier's label for row i: decoded by the encoder, or MT without one. */
  function MlLabel(encoder: Option<seq<string>>, indices: seq<int>, i: nat): string
    requires i < |indices|
    requires encoder.Some? ==> AllSeen(encoder.value, indices)
  {
    if encoder.None? then Enrolled else encoder.value[indices[i]]
  }

  /** `dados.get('Matricula', dados.get('Matrícula', range(len(dados))))`. */
  function StudentIds(data: Frame): (ids: seq<Cell>)
    requires WellFormed(data)
    ensures |ids| == data.rowCount
  {
    if "Matricula" in data.columns then data.columns["Matricula"]
    else if "Matrícula" in data.columns then data.columns["Matrícula"]
    else seq(data.rowCount, i => Number(i as real))
  }

  /** The v2.0 system; the classifier and the label encoder are loaded from
      disk by the constructor (modelled as its parameters). */
  class HybridPredictor {
    var modelLoaded: bool
    var encoderClasses: Option<seq<string>>

    constructor (modelLoaded: bool, encoderClasses: Option<seq<string>>)
      ensures this.modelLoaded == modelLoaded && this.encoderClasses == encoderClasses
    {
      this.modelLoaded := modelLoaded;
      this.encoderClasses := encoderClasses;
    }

    /** `prever`: one prediction per input row, in input order. `modelOutput`
        stands for `self.modelo.predict(X)`. */
    method Predict(data: Frame, modelOutput: seq<int>) returns (result: Result<seq<Prediction>, PredictError>)
      requires WellFormed(data)
      requires modelLoaded ==> |modelOutput| == data.rowCount
      ensures var indices := MlIndices(modelLoaded, modelOutput, data.rowCount);
        result.Failure? <==> encoderClasses.Some? && !AllSeen(encoderClasses.value, indices)
      ensures result.Success? ==>
        var indices := MlIndices(modelLoaded, modelOutput, data.rowCount);
        && (encoderClasses.Some? ==> AllSeen(encoderClasses.value, indices))
        && |result.value| == data.rowCount
        && forall i :: 0 <= i < data.rowCount ==>
             Describes(result.value[i], StudentIds(data)[i], RowAt(data, i), MlLabel(encoderClasses, indices, i))
    {
      var n := data.rowCount;
      var prep := CompleteColumns(data);
      var indices := MlIndices(modelLoaded, modelOutput, n);
      var decoded := DecodeLabels(encoderClasses, indices);
      if decoded.Failure? {
        return Failure(decoded.error);
      }
      var mlLabels := decoded.value;
      var finals := MergeRules(prep, mlLabels);
      forall k | 0 <= k < n
        ensures finals[k] == Merge(ApplyRules(RowAt(data, k)), mlLabels[k])
      {
        CompletionKeepsRules(data, prep, k);
      }
      var ids := StudentIds(data);
      var rows := seq(n, k requires 0 <= k < n =>
        Prediction(ids[k], mlLabels[k], finals[k], IsRisk(finals[k]), CategoryName(finals[k])));
      return Success(rows);
    }
  }

  /** The loop of `prever` over the rows: the rule outcome overrides the
      classifier's label when it is a risk code. */
  method MergeRules(prep: Frame, mlLabels: seq<string>) returns (finals: seq<string>)
    requires WellFormed(prep) && |mlLabels| == prep.rowCount
    ensures |finals| == prep.rowCount
    ensures forall k :: 0 <= k < |finals| ==> finals[k] == Merge(ApplyRules(RowAt(prep, k)), mlLabels[k])
  {
    finals := [];
    var n := prep.rowCount;
    var i := 0;
    while i < n
      invariant 0 <= i <= n && |finals| == i
      invariant forall k :: 0 <= k < i ==> finals[k] == Merge(ApplyRules(RowAt(prep, k)), mlLabels[k])
    {
      var rule := ApplyRules(RowAt(prep, i));
      var final := Merge(rule, mlLabels[i]);
      finals := finals + [final];
      i := i + 1;
    }
  }

  /** `label_encoder.inverse_transform`, or `['MT'] * n` without an encoder. */
  function DecodeLabels(encoder: Option<seq<string>>, indices: seq<int>): (r: Result<seq<string>, PredictError>)
    ensures r.Failure? <==> encoder.Some? && !AllSeen(encoder.value, indices)
    ensures r.Success? ==>
      |r.value| == |indices| && forall i :: 0 <= i < |indices| ==> r.value[i] == MlLabel(encoder, indices, i)
  {
    if encoder.None? then Success(seq(|indices|, _ => Enrolled))
    else if !AllSeen(encoder.value, indices) then Failure(UnseenLabel)
    else Success(seq(|indices|, i requires 0 <= i < |indices| => encoder.value[indices[i]]))
  }

  /** A result row for the student `id` whose input row is `row` and whose
      classifier label is `ml`. */
  ghost predicate Describes(p: Prediction, id: Cell, row: Row, ml: string)
  {
    && p.id == id
    && p.mlLabel == ml
    && p.finalLabel == Merge(ApplyRules(row), ml)
    && p.isRisk == IsRisk(p.finalLabel)
    && p.category == CategoryName(p.finalLabel)
  }

  /** Without a label encoder every classifier label is MT, so only the rules
      can make a row a risk. */
  lemma NoEncoderMeansRulesDecide(row: Row, indices: seq<int>, i: nat)
    requires i < |indices|
    ensures MlLabel(None, indices, i) == Enrolled
    ensures IsRisk(Merge(ApplyRules(row), MlLabel(None, indices, i))) <==> ApplyRules(row) != Enrolled
  {
  }

  // ---------------------------------------------------------------------
  // Report (`gerar_relatorio`) and filtering (`analisar_categoria`)
  // ---------------------------------------------------------------------

  /** The integer part of the report (timestamp, percentage and confidence
      statistics are not modelled). */
  datatype Report = Report(totalStudents: nat, totalRisk: nat, distribution: map<string, nat>)

  /** The `Predicao_Final` column. */
  function FinalLabels(preds: seq<Prediction>): (labels: seq<string>)
    ensures |labels| == |preds|
    ensures forall i :: 0 <= i < |preds| ==> labels[i] == preds[i].finalLabel
  {
    seq(|preds|, i requires 0 <= i < |preds| => preds[i].finalLabel)
  }

  /** `Eh_Risco.sum()`. */
  function CountRisk(preds: seq<Prediction>): (k: nat)
    ensures k <= |preds|
    ensures k == 0 <==> forall i :: 0 <= i < |preds| ==> !preds[i].isRisk
    ensures k == |preds| <==> forall i :: 0 <= i < |preds| ==> preds[i].isRisk
  {
    if preds == [] then 0
    else (if preds[0].isRisk then 1 else 0) + CountRisk(preds[1..])
  }

  /** `analisar_categoria`: the rows whose final label is `category`, in order. */
  function AnalyzeCategory(preds: seq<Prediction>, category: string): (rows: seq<Prediction>)
    ensures forall p :: p in rows ==> p in preds && p.finalLabel == category
    ensures forall p :: p in preds && p.finalLabel == category ==> p in rows
    ensures |rows| == multiset(FinalLabels(preds))[category]
  {
    if preds == [] then []
    else
      assert FinalLabels(preds) == [preds[0].finalLabel] + FinalLabels(preds[1..]);
      var rest := AnalyzeCategory(preds[1..], category);
      if preds[0].finalLabel == category then [preds[0]] + rest else rest
  }

  /** The row test `df['Predicao_Final'] == category`. */
  function Labelled(category: string): Prediction -> bool
  {
    (p: Prediction) => p.finalLabel == category
  }

  lemma {:induction false} AnalyzeCategoryIsFilter(preds: seq<Prediction>, category: string)
    ensures AnalyzeCategory(preds, category) == Sequences.Filter(preds, Labelled(category))
  {
    if preds != [] {
      AnalyzeCategoryIsFilter(preds[1..], category);
    }
  }

  /** The selected rows are exactly the rows labelled `category`, each once
      and in their original order: `pos` lists, increasing, every position
      whose final label is `category` and no other, and the j-th selected
      row is the row at `pos[j]`. */
  lemma AnalyzeCategoryInOrder(preds: seq<Prediction>, category: string)
    ensures var pos := Sequences.KeptPositions(preds, Labelled(category));
      var rows := AnalyzeCategory(preds, category);
      && |rows| == |pos|
      && (forall j :: 0 <= j < |pos| ==> pos[j] < |preds| && rows[j] == preds[pos[j]])
      && (forall j, k :: 0 <= j < k < |pos| ==> pos[j] < pos[k])
      && (forall i :: 0 <= i < |preds| ==> (i in pos <==> preds[i].finalLabel == category))
  {
    var pos := Sequences.KeptPositions(preds, Labelled(category));
    var rows := AnalyzeCategory(preds, category);
    AnalyzeCategoryIsFilter(preds, category);
    Sequences.KeptPositionsMatch(preds, Labelled(category));
    Sequences.KeptPositionsIncrease(preds, Labelled(category));
    Sequences.KeptPositionsComplete(preds, Labelled(category));
    forall i | 0 <= i < |preds| && i in pos ensures preds[i].finalLabel == category {
      var j :| 0 <= j < |pos| && pos[j] == i;
      assert rows[j] in rows;
    }
  }

  /** `gerar_relatorio`, integer fields. */
  function GenerateReport(preds: seq<Prediction>): (r: Report)
    ensures r.totalStudents == |preds|
    ensures r.totalRisk == CountRisk(preds)
    ensures forall c :: c in r.distribution <==> c in FinalLabels(preds)
    ensures forall c :: c in r.distribution ==> r.distribution[c] == |AnalyzeCategory(preds, c)| && r.distribution[c] > 0
  {
    var labels := FinalLabels(preds);
    Report(|preds|, CountRisk(preds), map c | c in labels :: multiset(labels)[c])
  }

  // --- counting lemmas ---

  /** The labels of a sequence, each once, in order of first occurrence. */
  function Distinct(s: seq<string>): (d: seq<string>)
    ensures forall x :: x in d <==> x in s
    ensures forall i, j :: 0 <= i < j < |d| ==> d[i] != d[j]
  {
    if s == [] then []
    else
      var rest := Distinct(s[..|s| - 1]);
      assert forall x :: x in s <==> x in s[..|s| - 1] || x == s[|s| - 1];
      if s[|s| - 1] in rest then rest else rest + [s[|s| - 1]]
  }

  /** Sum of the multiplicities in `ms` of the labels in `keys` that satisfy `p`. */
  function SumWhere(keys: seq<string>, ms: multiset<string>, p: string -> bool): nat
  {
    if keys == [] then 0
    else (if p(keys[0]) then ms[keys[0]] else 0) + SumWhere(keys[1..], ms, p)
  }

  /** Number of labels in `labels` that satisfy `p`. */
  function CountWhere(labels: seq<string>, p: string -> bool): nat
  {
    if labels == [] then 0
    else (if p(labels[0]) then 1 else 0) + CountWhere(labels[1..], p)
  }

  lemma {:induction false} SumWhereAdditive(keys: seq<string>, a: multiset<string>, b: multiset<string>, p: string -> bool)
    ensures SumWhere(keys, a + b, p) == SumWhere(keys, a, p) + SumWhere(keys, b, p)
  {
    if keys != [] {
      SumWhereAdditive(keys[1..], a, b, p);
    }
  }

  lemma {:induction false} SumWhereSingleton(keys: seq<string>, x: string, p: string -> bool)
    requires forall i, j :: 0 <= i < j < |keys| ==> keys[i] != keys[j]
    ensures SumWhere(keys, multiset{x}, p) == if x in keys && p(x) then 1 else 0
  {
    if keys != [] {
      assert forall i, j :: 0 <= i < j < |keys[1..]| ==> keys[1..][i] != keys[1..][j] by {
        forall i, j | 0 <= i < j < |keys[1..]| ensures keys[1..][i] != keys[1..][j] {
          assert keys[1..][i] == keys[i + 1] && keys[1..][j] == keys[j + 1];
        }
      }
      SumWhereSingleton(keys[1..], x, p);
      if x == keys[0] {
        assert x !in keys[1..] by {
          forall j | 0 <= j < |keys[1..]| ensures keys[1..][j] != x {
            assert keys[1..][j] == keys[j + 1];
          }
        }
      }
      assert x in keys <==> x == keys[0] || x in keys[1..];
    }
  }

  /** Summing a label count over a duplicate-free list of keys that covers
      every label counts every label satisfying `p` exactly once. */
  lemma {:induction false} SumOverDistinctKeys(labels: seq<string>, keys: seq<string>, p: string -> bool)
    requires forall i, j :: 0 <= i < j < |keys| ==> keys[i] != keys[j]
    requires forall x :: x in labels ==> x in keys
    ensures SumWhere(keys, multiset(labels), p) == CountWhere(labels, p)
  {
    if labels != [] {
      assert labels == [labels[0]] + labels[1..];
      assert multiset(labels) == multiset{labels[0]} + multiset(labels[1..]);
      SumWhereAdditive(keys, multiset{labels[0]}, multiset(labels[1..]), p);
      SumWhereSingleton(keys, labels[0], p);
      SumOverDistinctKeys(labels[1..], keys, p);
      assert labels[0] in keys;
      assert SumWhere(keys, multiset{labels[0]}, p) == if p(labels[0]) then 1 else 0;
      assert CountWhere(labels, p) == (if p(labels[0]) then 1 else 0) + CountWhere(labels[1..], p);
    } else {
      SumWhereEmpty(keys, p);
    }
  }

  lemma {:induction false} SumWhereEmpty(keys: seq<string>, p: string -> bool)
    ensures SumWhere(keys, multiset{}, p) == 0
  {
    if keys != [] {
      SumWhereEmpty(keys[1..], p);
    }
  }

  lemma {:induction false} CountRiskIsCountWhere(preds: seq<Prediction>)
    requires forall i :: 0 <= i < |preds| ==> preds[i].isRisk == IsRisk(preds[i].finalLabel)
    ensures CountRisk(preds) == CountWhere(FinalLabels(preds), IsRisk)
  {
    if preds != [] {
      assert FinalLabels(preds)[1..] == FinalLabels(preds[1..]);
      CountRiskIsCountWhere(preds[1..]);
    }
  }

  lemma {:induction false} CountWhereAll(labels: seq<string>)
    ensures CountWhere(labels, _ => true) == |labels|
  {
    if labels != [] {
      CountWhereAll(labels[1..]);
    }
  }

  lemma {:induction false} SumWhereOverMap(keys: seq<string>, m: map<string, nat>, ms: multiset<string>, p: string -> bool)
    requires forall x :: x in keys ==> x in m && m[x] == ms[x]
    ensures SumWhere(keys, ms, p) == SumMap(keys, m, p)
  {
    if keys != [] {
      SumWhereOverMap(keys[1..], m, ms, p);
    }
  }

  /** Sum of the report's distribution over `keys` that satisfy `p`. */
  function SumMap(keys: seq<string>, m: map<string, nat>, p: string -> bool): nat
    requires forall x :: x in keys ==> x in m
  {
    if keys == [] then 0
    else (if p(keys[0]) then m[keys[0]] else 0) + SumMap(keys[1..], m, p)
  }

  /** The distribution counts add up to `total_alunos`. */
  lemma DistributionSumsToTotal(preds: seq<Prediction>)
    ensures var r := GenerateReport(preds);
      var keys := Distinct(FinalLabels(preds));
      (forall x :: x in keys ==> x in r.distribution) && SumMap(keys, r.distribution, _ => true) == r.totalStudents
  {
    var r := GenerateReport(preds);
    var labels := FinalLabels(preds);
    var keys := Distinct(labels);
    SumWhereOverMap(keys, r.distribution, multiset(labels), _ => true);
    SumOverDistinctKeys(labels, keys, _ => true);
    CountWhereAll(labels);
  }

  /** When each row's risk flag comes from its final label (as `prever`
      produces them), `total_risco` is the sum of the distribution over the
      risk codes. */
  lemma RiskTotalFromDistribution(preds: seq<Prediction>)
    requires forall i :: 0 <= i < |preds| ==> preds[i].isRisk == IsRisk(preds[i].finalLabel)
    ensures var r := GenerateReport(preds);
      var keys := Distinct(FinalLabels(preds));
      (forall x :: x in keys ==> x in r.distribution) && SumMap(keys, r.distribution, IsRisk) == r.totalRisk
  {
    var r := GenerateReport(preds);
    var labels := FinalLabels(preds);
    var keys := Distinct(labels);
    SumWhereOverMap(keys, r.distribution, multiset(labels), IsRisk);
    SumOverDistinctKeys(labels, keys, IsRisk);
    CountRiskIsCountWhere(preds);
  }
}
