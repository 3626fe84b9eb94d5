# Student-dropout predictor: verified model of the decision core

This project is a Dafny model of the decision logic of the SISTEMA_EVASAO
student-dropout predictor (versions 1.0 and 2.0). It models five pieces,
with proofs:

- **Hybrid decision** (`HybridSystem`, v2.0 `SistemaEvasaoHibridoExpandido`).
  - `_aplicar_regras_negocio` is a first-match-wins cascade of institutional
    rules over three numeric fields: pending financial installments,
    consecutive absences and academic pendency. It answers LFI, LFR, LAC,
    NC or MT.
  - `prever` first fills in missing feature columns with zeros. A rule
    outcome that is a risk code then overrides the classifier's label.
    Each row is tagged with `MAPEAMENTO_RISCO` and `CATEGORIAS_RISCO`.
  - `gerar_relatorio` counts the results and `analisar_categoria` filters
    them.
  - The class is modelled as a Dafny class. Its two fields are the loaded
    classifier and the label encoder.
- **Top-k attribution selection, v4 script** (`UnifiedPrediction`, built on
  `Attribution` and `Sequences`).
  - `get_top_features_from_shap_values`: truncation to the shorter input,
    a stable sort, a sign filter, a prefix, and padding with `("", 0.0)`.
  - `format_shap_feature`.
  - The per-student loop, with its two array layouts and the fallback to
    class 0.
  - The index-to-name and code-to-description lookups.
- **Per-student report** (`StudentReport`, `generate_student_report.py`).
  - `get_top_shap_features`, a second selector: one descending sort, the
    head for the positives, the reversed tail for the negatives, padding
    with "-".
  - The loop that collects the lists of every student.
  - The label filtering of `prepare_data_for_prediction`.
- **Label preparation** (`LabelPipeline`, `preparar_dados`).
  - Rare codes are dropped, CAU (3) is merged into CAN (2), codes are mapped
    through `mapping_dict` and unmapped rows are dropped.
  - The labels are re-encoded contiguously with scikit-learn's
    `LabelEncoder` semantics.
  - The class names are rebuilt from `reverse_mapping_dict`.
- **Class tables** (`ClassMapping`, `mapeamento_classes.py`).

Attribution values are only compared, never computed, so they are `real`.
The classifier's predictions and the attribution arrays are inputs.

Where a docstring or the earlier v1.5 rules engine disagrees with the v2.0 code, the model follows the v2.0 code.

- **Rule cascade.** The docstring of `_aplicar_regras_negocio` lists an NF
  rule (`sistema_predicao_evasao_final.py:253-259`). The v1.5 rules engine
  `SISTEMA_EVASAO_v1.5/SISTEMA_PREDI--O_EVASAO-TCC2-main/SISTEMA_PREDIÇÃO_EVASAO/codigo_fonte/regras_negocio/motor_regras.py` has further rules:
  - NC checked first and conditioned on a "first course unit" flag (lines 78-97);
  - a "PC" paid-in-full sentinel in the financial field (lines 182-197);
  - the academic-pendency codes PR, PV and PF (lines 199-226);
  - a probability and a reason attached to each rule outcome (lines 15-21).

  The v2.0 code modelled here has none of these. It checks LFI, LFR, LAC,
  then NC, and answers MT otherwise. That is what `HybridSystem.Cascade` models.
- **Where the classifier wins.** In the v1.5 rules engine the classifier's
  label is used only when no rule fires (lines 159-165), and an MT rule
  outcome is final. In the v2.0 code a rule outcome of MT defers to the
  classifier, which may still return any label the encoder knows.

Python semantics written out explicitly:

- `sorted`/`list.sort` are stable, even with `reverse=True` (insertion sort
  in `Attribution.SortBy`).
- `zip` truncates to the shorter input.
- `s[-n:]` with `n = 0` is the whole list.
- `int()` truncates toward zero.
- `float(x or 0)` maps falsy and missing fields to 0. NaN fails every
  comparison. A value `float()` rejects makes the whole cascade answer MT.

## Model

| member | source | states |
|---|---|---|
| ClassMapping.MappingInjective | SISTEMA_EVASAO_v1.0/TCC1-main/mapeamento_classes.py:5-17 | two distinct situation codes never map to the same index |
| ClassMapping.MappingStrictlyIncreasing | SISTEMA_EVASAO_v1.0/TCC1-main/mapeamento_classes.py:5-17 | a larger code always gets a larger index |
| ClassMapping.MappingRange | SISTEMA_EVASAO_v1.0/TCC1-main/mapeamento_classes.py:1-17 | the indices are exactly 0..10; code 3 (CAU, merged) and code 11 (NF, removed) are not keys |
| ClassMapping.ReverseAgreesWithOrderedNames | SISTEMA_EVASAO_v1.0/TCC1-main/mapeamento_classes.py:20-37 | the reverse table has keys exactly 0..10, and entry i equals position i of the 11-name list |
| ClassMapping.ClassNamesDistinct | SISTEMA_EVASAO_v1.0/TCC1-main/mapeamento_classes.py:35-37 | the eleven abbreviations are pairwise distinct |
| ClassMapping.RoundTripMatchesComments | SISTEMA_EVASAO_v1.0/TCC1-main/mapeamento_classes.py:5-32 | for every code, going code -> index -> abbreviation gives the abbreviation its comment names (e.g. 9 -> 8 -> MT) |
| HybridSystem.ToFloat | SISTEMA_EVASAO_v2.0/SISTEMA_EVASAO_FINAL/codigo/sistema_predicao_evasao_final.py:269-271 | conversion fails exactly on a value float() rejects; a falsy or missing value reads as 0 |
| HybridSystem.ApplyRules | SISTEMA_EVASAO_v2.0/SISTEMA_EVASAO_FINAL/codigo/sistema_predicao_evasao_final.py:267-287 | the rule outcome is always one of LFI, LFR, LAC, NC, MT |
| HybridSystem.CascadeIsFirstMatch | SISTEMA_EVASAO_v2.0/SISTEMA_EVASAO_FINAL/codigo/sistema_predicao_evasao_final.py:273-283 | the outcome is the first rule in the order LFI, LFR, LAC, NC whose condition holds, none before it holding; MT exactly when none holds |
| HybridSystem.FinancialPendencyDominates | SISTEMA_EVASAO_v2.0/SISTEMA_EVASAO_FINAL/codigo/sistema_predicao_evasao_final.py:274-275 | two or more pending installments give LFI whatever the absences and academic pendency |
| HybridSystem.OnePendingNeverLfi | SISTEMA_EVASAO_v2.0/SISTEMA_EVASAO_FINAL/codigo/sistema_predicao_evasao_final.py:274-277 | exactly one pending installment never gives LFI |
| HybridSystem.LfrExactly | SISTEMA_EVASAO_v2.0/SISTEMA_EVASAO_FINAL/codigo/sistema_predicao_evasao_final.py:274-277 | LFR if and only if the fields convert, 0 < pending < 2 and consecutive absences >= 12 |
| HybridSystem.LacExactly | SISTEMA_EVASAO_v2.0/SISTEMA_EVASAO_FINAL/codigo/sistema_predicao_evasao_final.py:274-279 | LAC if and only if neither financial rule fires and academic pendency >= 1 |
| HybridSystem.NcExactly | SISTEMA_EVASAO_v2.0/SISTEMA_EVASAO_FINAL/codigo/sistema_predicao_evasao_final.py:274-281 | NC if and only if no earlier rule fires and consecutive absences >= 5 |
| HybridSystem.MtOtherwise | SISTEMA_EVASAO_v2.0/SISTEMA_EVASAO_FINAL/codigo/sistema_predicao_evasao_final.py:282-287 | MT if and only if a field fails to convert or no risk rule fires |
| HybridSystem.MissingAndNanFields | SISTEMA_EVASAO_v2.0/SISTEMA_EVASAO_FINAL/codigo/sistema_predicao_evasao_final.py:269-271 | an absent column reads as 0; a NaN field meets no threshold |
| HybridSystem.IsRisk | SISTEMA_EVASAO_v2.0/SISTEMA_EVASAO_FINAL/codigo/sistema_predicao_evasao_final.py:358 | a code missing from `MAPEAMENTO_RISCO` is not a risk |
| HybridSystem.CategoryName | SISTEMA_EVASAO_v2.0/SISTEMA_EVASAO_FINAL/codigo/sistema_predicao_evasao_final.py:371 | a code missing from `CATEGORIAS_RISCO` is described by the code itself |
| HybridSystem.RuleWinsUnlessEnrolled | SISTEMA_EVASAO_v2.0/SISTEMA_EVASAO_FINAL/codigo/sistema_predicao_evasao_final.py:355-361 | every rule outcome but MT is a risk code, so the final label is the rule outcome unless it is MT, and then the classifier label |
| HybridSystem.EnrolledOnlyByAgreement | SISTEMA_EVASAO_v2.0/SISTEMA_EVASAO_FINAL/codigo/sistema_predicao_evasao_final.py:355-361 | the final label is MT if and only if both the rules and the classifier said MT |
| HybridSystem.RiskTablesAgree | SISTEMA_EVASAO_v2.0/SISTEMA_EVASAO_FINAL/codigo/sistema_predicao_evasao_final.py:128-153 | both risk tables have the same codes, and MT is the only code that is not a risk |
| HybridSystem.CompleteColumns | SISTEMA_EVASAO_v2.0/SISTEMA_EVASAO_FINAL/codigo/sistema_predicao_evasao_final.py:309-312 | the result keeps every existing column unchanged and adds every missing feature column filled with zeros, nothing else |
| HybridSystem.CompletionKeepsRules | SISTEMA_EVASAO_v2.0/SISTEMA_EVASAO_FINAL/codigo/sistema_predicao_evasao_final.py:309-312 | completing the columns never changes any row's rule outcome |
| HybridSystem.StudentIds | SISTEMA_EVASAO_v2.0/SISTEMA_EVASAO_FINAL/codigo/sistema_predicao_evasao_final.py:367 | one identifier per row: `Matricula`, else `Matrícula`, else the row number |
| HybridSystem.HybridPredictor.constructor | SISTEMA_EVASAO_v2.0/SISTEMA_EVASAO_FINAL/codigo/sistema_predicao_evasao_final.py:173-214 | the predictor holds the classifier and the encoder it loaded (either may be absent) |
| HybridSystem.DecodeLabels | SISTEMA_EVASAO_v2.0/SISTEMA_EVASAO_FINAL/codigo/sistema_predicao_evasao_final.py:345-349 | fails exactly when the encoder meets an index outside its classes; otherwise one label per index: MT for every row without an encoder, else the encoder's class |
| HybridSystem.MergeRules | SISTEMA_EVASAO_v2.0/SISTEMA_EVASAO_FINAL/codigo/sistema_predicao_evasao_final.py:351-363 | one final label per row in row order, each the merge of that row's rule outcome with its classifier label |
| HybridSystem.HybridPredictor.Predict | SISTEMA_EVASAO_v2.0/SISTEMA_EVASAO_FINAL/codigo/sistema_predicao_evasao_final.py:326-373 | fails exactly when decoding fails; otherwise one result per input row in input order, with the row's identifier, classifier label (MT for all rows without an encoder), merged final label, risk flag and category of that final label |
| HybridSystem.NoEncoderMeansRulesDecide | SISTEMA_EVASAO_v2.0/SISTEMA_EVASAO_FINAL/codigo/sistema_predicao_evasao_final.py:346-361 | without an encoder the classifier label is MT, so a row is a risk if and only if the rules say so |
| HybridSystem.CountRisk | SISTEMA_EVASAO_v2.0/SISTEMA_EVASAO_FINAL/codigo/sistema_predicao_evasao_final.py:397 | `total_risco` is at most the row count, 0 if and only if no row is a risk, and the row count if and only if every row is |
| HybridSystem.AnalyzeCategory | SISTEMA_EVASAO_v2.0/SISTEMA_EVASAO_FINAL/codigo/sistema_predicao_evasao_final.py:451-463 | every returned row is a row of the input with the category as its final label, every such row is returned, and the result is as long as the label occurs |
| HybridSystem.AnalyzeCategoryInOrder | SISTEMA_EVASAO_v2.0/SISTEMA_EVASAO_FINAL/codigo/sistema_predicao_evasao_final.py:451-463 | the result is the input rows at the strictly increasing positions whose final label is the category, each such position once and no other, so the filter keeps the rows' order and multiplicity |
| HybridSystem.GenerateReport | SISTEMA_EVASAO_v2.0/SISTEMA_EVASAO_FINAL/codigo/sistema_predicao_evasao_final.py:394-399 | `total_alunos` is the row count; the distribution has one positive entry per final label that occurs, equal to the size of that category's filter |
| HybridSystem.DistributionSumsToTotal | SISTEMA_EVASAO_v2.0/SISTEMA_EVASAO_FINAL/codigo/sistema_predicao_evasao_final.py:396-399 | the distribution counts add up to `total_alunos` |
| HybridSystem.RiskTotalFromDistribution | SISTEMA_EVASAO_v2.0/SISTEMA_EVASAO_FINAL/codigo/sistema_predicao_evasao_final.py:370-399 | when each risk flag comes from its final label, `total_risco` equals the sum of the distribution over the risk codes |
| Attribution.Pair | SISTEMA_EVASAO_v1.0/TCC1-main/predict_new_students_unified_v4.py:149 | `zip` pairs every index below the shorter length with its own name and value |
| Attribution.SortByPermutation | SISTEMA_EVASAO_v1.0/TCC1-main/predict_new_students_unified_v4.py:152 | sorting is a permutation of the pairs |
| Attribution.SortByOrdered | SISTEMA_EVASAO_v1.0/TCC1-main/predict_new_students_unified_v4.py:152-161 | the sort orders by value in either direction, and equal values keep their feature order (stability) |
| Attribution.SelectionProperties | SISTEMA_EVASAO_v1.0/TCC1-main/predict_new_students_unified_v4.py:155-162 | a sign filter followed by a prefix of n keeps at most n entries, all of that sign and from the input, in order; any other entry of that sign is beaten by n selected ones |
| UnifiedPrediction.TruncationKeepsPairs | SISTEMA_EVASAO_v1.0/TCC1-main/predict_new_students_unified_v4.py:141-149 | truncating both inputs to the shorter length leaves the pairing unchanged |
| UnifiedPrediction.GetTopFeatures | SISTEMA_EVASAO_v1.0/TCC1-main/predict_new_students_unified_v4.py:126-167 | both lists have exactly `top_n` entries: the positive and negative selections, then `("", 0.0)` padding |
| UnifiedPrediction.TopPositiveProperties | SISTEMA_EVASAO_v1.0/TCC1-main/predict_new_students_unified_v4.py:149-155 | at most `top_n` entries, each value > 0 and paired with its own index's name; largest first, ties in feature order; an unlisted positive feature is beaten by `top_n` listed ones |
| UnifiedPrediction.TopNegativeProperties | SISTEMA_EVASAO_v1.0/TCC1-main/predict_new_students_unified_v4.py:149-162 | the same for values < 0, most negative first, ties in feature order |
| UnifiedPrediction.ZeroNeverSelected | SISTEMA_EVASAO_v1.0/TCC1-main/predict_new_students_unified_v4.py:155-162 | a feature whose attribution is exactly zero is in neither list |
| UnifiedPrediction.Trunc | SISTEMA_EVASAO_v1.0/TCC1-main/predict_new_students_unified_v4.py:202-206 | `int()` on a float truncates toward zero |
| UnifiedPrediction.IntToString | SISTEMA_EVASAO_v1.0/TCC1-main/predict_new_students_unified_v4.py:202-206 | the text of an integer is never empty and starts with '-' exactly for negatives |
| UnifiedPrediction.FormatShapFeature | SISTEMA_EVASAO_v1.0/TCC1-main/predict_new_students_unified_v4.py:186-189 | the rendering is empty exactly for the empty (padding) name |
| UnifiedPrediction.FormatMissingFeature | SISTEMA_EVASAO_v1.0/TCC1-main/predict_new_students_unified_v4.py:191-211 | a name absent from the student's row is caught and rendered as the bare name |
| UnifiedPrediction.FormatBinary | SISTEMA_EVASAO_v1.0/TCC1-main/predict_new_students_unified_v4.py:192-195 | the four yes/no features read "Sim" if and only if the value is 1, else "Não" |
| UnifiedPrediction.FormatSex | SISTEMA_EVASAO_v1.0/TCC1-main/predict_new_students_unified_v4.py:196-198 | the sex code reads "Masculino" if and only if it is 1, else "Feminino" |
| UnifiedPrediction.FormatWholeNumbers | SISTEMA_EVASAO_v1.0/TCC1-main/predict_new_students_unified_v4.py:201-206 | age, current module and consecutive absences show the value truncated toward zero; age adds " anos" |
| UnifiedPrediction.FormatOther | SISTEMA_EVASAO_v1.0/TCC1-main/predict_new_students_unified_v4.py:207-208 | any other present feature shows its name with its raw value |
| UnifiedPrediction.ClassSlot | SISTEMA_EVASAO_v1.0/TCC1-main/predict_new_students_unified_v4.py:356-396 | the slot read is the predicted index when it is below the class count, and 0 otherwise |
| UnifiedPrediction.SliceFor | SISTEMA_EVASAO_v1.0/TCC1-main/predict_new_students_unified_v4.py:365-400 | the list layout reads `shap[c][i]`; the array layout reads `shap[i, :, c]` for the slot c |
| UnifiedPrediction.ExplainAll | SISTEMA_EVASAO_v1.0/TCC1-main/predict_new_students_unified_v4.py:337-421 | no columns without attribution values; all-empty cells for an unrecognised layout; otherwise each student's six cells come from the selection on its own vector, formatted with its own row |
| UnifiedPrediction.ClassNameKnownIff | SISTEMA_EVASAO_v1.0/TCC1-main/predict_new_students_unified_v4.py:321 | a known index gets its class name; the name is a class name if and only if the index is 0..10 |
| UnifiedPrediction.Describe | SISTEMA_EVASAO_v1.0/TCC1-main/predict_new_students_unified_v4.py:437-439 | a code without a description is described by itself |
| UnifiedPrediction.DescriptionsOfClasses | SISTEMA_EVASAO_v1.0/TCC1-main/predict_new_students_unified_v4.py:46-62 | every class name except "CAN/CAU" has a description of its own; "CAN/CAU" is described by its code |
| StudentReport.PadWithDashes | SISTEMA_EVASAO_v1.0/TCC1-main/generate_student_report.py:143-144 | padding never shortens: the input followed by dashes up to length n |
| StudentReport.NegativeIndexSlice | SISTEMA_EVASAO_v1.0/TCC1-main/generate_student_report.py:142 | `s[-n:]` is the last n elements for n > 0 and the whole list for n = 0 |
| StudentReport.PadInPlace | SISTEMA_EVASAO_v1.0/TCC1-main/generate_student_report.py:143-144 | the append loop yields exactly the padded list |
| StudentReport.PositiveCells | SISTEMA_EVASAO_v1.0/TCC1-main/generate_student_report.py:141-143 | the positive cells of one student are exactly n |
| StudentReport.NegativeCells | SISTEMA_EVASAO_v1.0/TCC1-main/generate_student_report.py:142-144 | the negative cells of one student are exactly n |
| StudentReport.GetTopShapFeatures | SISTEMA_EVASAO_v1.0/TCC1-main/generate_student_report.py:137-145 | two lists of exactly n cells: the positive head selection and the (corrected) negative tail selection, padded with "-" |
| StudentReport.ReportPositivesMatchUnified | SISTEMA_EVASAO_v1.0/TCC1-main/generate_student_report.py:139-141 | filtering the first n of the descending order equals the v4 positive selection, so it inherits all of its properties |
| StudentReport.ReportNegativesFromReversed | SISTEMA_EVASAO_v1.0/TCC1-main/generate_student_report.py:140-142 | the reversed ranking is an ascending, latest-first permutation of the pairs, and the negative list is its first n negatives |
| StudentReport.ReportNegativesProperties | SISTEMA_EVASAO_v1.0/TCC1-main/generate_student_report.py:139-142 | at most n entries, each < 0 and paired with its own index's name; most negative first, and among ties the LATER feature first; an unlisted negative feature is beaten by n listed ones |
| StudentReport.TiedNegativesDiffer | SISTEMA_EVASAO_v1.0/TCC1-main/generate_student_report.py:140-142 | with two equally negative features and n = 1, this report lists the second feature while the v4 selector lists the first |
| StudentReport.AsWrittenAgreesForPositiveN | SISTEMA_EVASAO_v1.0/TCC1-main/generate_student_report.py:142 | for n > 0 the slice as written selects exactly the intended list |
| StudentReport.NegativeSliceAtZero | SISTEMA_EVASAO_v1.0/TCC1-main/generate_student_report.py:142 | for n = 0 the code as written still lists a negative feature, the intended list none |
| StudentReport.TableAt | SISTEMA_EVASAO_v1.0/TCC1-main/generate_student_report.py:194-199 | row i of the collected table holds the cells computed from student i's own column |
| StudentReport.ExplainStudents | SISTEMA_EVASAO_v1.0/TCC1-main/generate_student_report.py:192-199 | the loop collects, in student order, the positive and negative cells of each student's attribution column for its predicted class |
| StudentReport.PositiveReportOfEachStudent | SISTEMA_EVASAO_v1.0/TCC1-main/generate_student_report.py:194-199 | one row per student, each of exactly 3 cells, computed from that student's column |
| StudentReport.NegativeReportOfEachStudent | SISTEMA_EVASAO_v1.0/TCC1-main/generate_student_report.py:194-199 | the same for the negative cells |
| StudentReport.PrepareForPrediction | SISTEMA_EVASAO_v1.0/TCC1-main/generate_student_report.py:114-135 | the processed rows are exactly the surviving input rows, in input order; X is each of them restricted to the feature columns, the same matrix the attribution preparation builds |
| LabelPipeline.Group | SISTEMA_EVASAO_v1.0/TCC1-main/XGBoost/shap_analysis/prepare_data_for_shap_relative.py:67-68 | no code remains 3; every other code is unchanged |
| LabelPipeline.MergeCau | SISTEMA_EVASAO_v1.0/TCC1-main/XGBoost/shap_analysis/prepare_data_for_shap_relative.py:66-68 | row count, row order and cells are kept; former 3s become 2, no row keeps code 3 |
| LabelPipeline.MapLabels | SISTEMA_EVASAO_v1.0/TCC1-main/XGBoost/shap_analysis/prepare_data_for_shap_relative.py:70-79 | every kept row has a mapped code and carries `mapping_dict[code]` |
| LabelPipeline.SurvivorAt | SISTEMA_EVASAO_v1.0/TCC1-main/XGBoost/shap_analysis/prepare_data_for_shap_relative.py:60-79 | the k-th prepared row is the regrouped, labelled copy of a surviving input row |
| LabelPipeline.SurvivorsInOrder | SISTEMA_EVASAO_v1.0/TCC1-main/XGBoost/shap_analysis/prepare_data_for_shap_relative.py:60-79 | the surviving rows keep their input order |
| LabelPipeline.SurvivorKept | SISTEMA_EVASAO_v1.0/TCC1-main/XGBoost/shap_analysis/prepare_data_for_shap_relative.py:60-79 | a row whose original code occurs at least 10 times and whose regrouped code is mapped is never lost |
| LabelPipeline.FilterAndMapTracksRows | SISTEMA_EVASAO_v1.0/TCC1-main/XGBoost/shap_analysis/prepare_data_for_shap_relative.py:60-79 | the output rows are exactly the survivors, in input order. A survivor's ORIGINAL code occurs at least 10 times, because the rare filter runs before the merge, and its regrouped code is mapped. Each output row carries its cells and `mapping_dict` of its regrouped code |
| LabelPipeline.InsertSorted | SISTEMA_EVASAO_v1.0/TCC1-main/XGBoost/shap_analysis/prepare_data_for_shap_relative.py:92-93 | adding a value to a strictly increasing list keeps it strictly increasing with exactly the old values plus the new one |
| LabelPipeline.FitClasses | SISTEMA_EVASAO_v1.0/TCC1-main/XGBoost/shap_analysis/prepare_data_for_shap_relative.py:92-96 | `classes_` is strictly increasing and holds exactly the distinct labels |
| LabelPipeline.Transform | SISTEMA_EVASAO_v1.0/TCC1-main/XGBoost/shap_analysis/prepare_data_for_shap_relative.py:94 | each label becomes the position of that label among the classes |
| LabelPipeline.EncodingIsContiguous | SISTEMA_EVASAO_v1.0/TCC1-main/XGBoost/shap_analysis/prepare_data_for_shap_relative.py:92-98 | y has one entry per label, each below N and decoding to its label, and takes every value 0..N-1 |
| LabelPipeline.EncodingPreservesOrder | SISTEMA_EVASAO_v1.0/TCC1-main/XGBoost/shap_analysis/prepare_data_for_shap_relative.py:92-96 | a smaller label gets a smaller index and equal labels equal indices, both directions |
| LabelPipeline.FinalMapping | SISTEMA_EVASAO_v1.0/TCC1-main/XGBoost/shap_analysis/prepare_data_for_shap_relative.py:97-99 | `mapeamento_final` has keys exactly 0..N-1, each mapped to `reverse_mapping_dict` of the class it encodes |
| LabelPipeline.FeatureColumns | SISTEMA_EVASAO_v1.0/TCC1-main/XGBoost/shap_analysis/prepare_data_for_shap_relative.py:81-89 | the columns of X are exactly the input columns other than the two label columns and the listed unused ones |
| LabelPipeline.FeatureMatrix | SISTEMA_EVASAO_v1.0/TCC1-main/XGBoost/shap_analysis/prepare_data_for_shap_relative.py:82-89 | one row of X per prepared row, its cells restricted to the feature columns |
| LabelPipeline.EncodedClassesAreNamed | SISTEMA_EVASAO_v1.0/TCC1-main/XGBoost/shap_analysis/prepare_data_for_shap_relative.py:97 | every class the encoder sees is a key of `reverse_mapping_dict`, so the name lookup cannot fail |
| LabelPipeline.ClassesNamed | SISTEMA_EVASAO_v1.0/TCC1-main/XGBoost/shap_analysis/prepare_data_for_shap_relative.py:92-99 | every class fitted on mapped labels has a name, and `mapeamento_final` maps exactly 0..N-1, each to its class's name |
| LabelPipeline.PrepareData | SISTEMA_EVASAO_v1.0/TCC1-main/XGBoost/shap_analysis/prepare_data_for_shap_relative.py:81-99 | X and y have the same length |
| LabelPipeline.PreparedRowAt | SISTEMA_EVASAO_v1.0/TCC1-main/XGBoost/shap_analysis/prepare_data_for_shap_relative.py:82-94 | row k of X and entry k of y both come from the k-th surviving input row: X holds its feature cells, y decodes to `mapping_dict` of its regrouped code |
| LabelPipeline.PrepareDataNames | SISTEMA_EVASAO_v1.0/TCC1-main/XGBoost/shap_analysis/prepare_data_for_shap_relative.py:96-99 | the classes are strictly increasing, and `mapeamento_final` maps exactly 0..N-1, each to the name of the label it encodes |

## Left out

- Reading spreadsheets and CSV files, writing results, logging, and the command-line entry points are left out. The loaded tables are inputs and the returned values are outputs.
- Training the classifier and computing its predictions, probabilities and attribution (SHAP) values are left out. They are calls into libraries whose code is not part of this model, so the predicted indices and attribution arrays are inputs.
- The median/mode imputation in `_preprocessar_dados` is not modelled: it is float statistics over whole columns. The confidence column and the percentage and confidence statistics of `gerar_relatorio` are left out for the same reason. So are the report timestamp and the probability columns of the two scripts.
- Float text formatting (`:.2f`, `:.2%`, `f"{x}"` of a float) is not modelled. A report cell keeps the name and the number (`StudentReport.ReportEntry`, `UnifiedPrediction.Text.NameAndNumber`).
- NaN attribution values are not modelled: attributions are `real`. NaN feature values in `format_shap_feature`, where `int(nan)` raises and the name alone is returned, are not modelled either. NaN cells of the rule fields are modelled (`HybridSystem.Cell.NaN`) for `_aplicar_regras_negocio` applied to a row on its own.
- The `except` fallbacks of `get_top_features_from_shap_values` and `format_shap_feature` are not modelled, apart from the missing-feature case. With the typed inputs of the model, nothing else in their `try` blocks can raise.
- HybridSystem.HybridPredictor.Predict: the rules are applied to the rows as given. `prever` applies them to the output of `_preprocessar_dados`, which first fills missing values of the feature columns with the column's median or mode. So for a row with a NaN `Pend_Financ` or absence count the model's rule outcome can differ from the program's, which depends on the filled-in statistic.
- HybridSystem.Cell: the texts `float()` reads as an infinity (`'inf'`, `'infinity'`) are not modelled; `Number` holds finite values only. In the program a positive infinity meets every threshold of its field, so an infinite `Pend_Financ` fires LFI, and a negative infinity meets none.
- HybridSystem.HybridPredictor.Predict: `prever` indexes the decoded labels by the frame's index label. The model assumes the default 0..n-1 index, i.e. it uses the row position.
- HybridSystem.HybridPredictor.Predict: an index the encoder does not know makes `inverse_transform` raise. The model returns `Failure(UnseenLabel)` instead of propagating an exception.
- StudentReport.ExplainStudents requires every predicted index to be a valid class slot of the attribution array. The script indexes it without a fallback, so numpy would raise `IndexError` there; the model does not capture that error.
- StudentReport.GetTopShapFeatures uses the corrected negative slice. The as-written slice is kept as `StudentReport.ReportNegativesAsWritten` (see Findings).
- `feature_shap.sort` sorts the list in place. The model reassigns the sorted sequence (`Attribution.SortBy` is a function), so aliasing of the list is not captured.
- LabelPipeline: a NaN situation code is not modelled; codes are integers. The reordering of X by the model's `feature_names_in_` is a library lookup and is left out.

## Findings

| source | as written | input that shows it | evidently intended | confidence | as-written member | corrected member |
|---|---|---|---|---|---|---|
| SISTEMA_EVASAO_v1.0/TCC1-main/generate_student_report.py:142 | the negative list is taken from `feature_shap[-n:]`; for `n = 0` that slice is the whole list, since `-0 == 0` | values `[-1.0]`, names `["a"]`, `n = 0`: one negative entry is listed although none was asked for | take the negatives from the last `n` entries only (none when `n = 0`), as the positive list does with `[:n]` | not executed | StudentReport.ReportNegativesAsWritten (shown by StudentReport.NegativeSliceAtZero) | StudentReport.ReportNegatives (used by StudentReport.GetTopShapFeatures; properties in StudentReport.ReportNegativesProperties) |
