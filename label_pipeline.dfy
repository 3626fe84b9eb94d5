/** The label preparation of `preparar_dados`: rows of rare situation codes
    are dropped, CAU (3) is merged into CAN (2), codes are mapped through
    `mapping_dict` (unmapped rows dropped), the surviving labels are
    re-encoded contiguously as scikit-learn's `LabelEncoder` does, and the
    class names are rebuilt from `reverse_mapping_dict`. The loaded
    spreadsheet is an input; writing the prepared files is not modelled. */
module LabelPipeline {
  import opened Sequences
  import ClassMapping

  /** Codes seen fewer times than this are dropped. */
  const RareThreshold: nat := 10
  const CauCode: int := 3
  const CanCode: int := 2

  const CodeColumn := "Situação (código)"
  const MappedColumn := "Situacao_Mapeada_Inicial"
  /** `colunas_para_remover`: identifiers and raw columns not used as features. */
  const UnusedColumns: seq<string> :=
    ["Matrícula", "Nome", "Curso", "Renda", "Sexo", "Bairro", "Cidade", "Turma Atual",
     "Pend. Financ.", "Situação", "Descrição"]

  /** A spreadsheet row: its situation code and its other cells by column. */
  datatype Row = Row(code: int, cells: map<string, string>)

  /** A row that survived the filters, with its mapped label. */
  datatype Labelled = Labelled(row: Row, target: int)

  function Codes(rows: seq<Row>): (codes: seq<int>)
    ensures |codes| == |rows|
    ensures forall i :: 0 <= i < |rows| ==> codes[i] == rows[i].code
  {
    seq(|rows|, i requires 0 <= i < |rows| => rows[i].code)
  }

  // ---------------------------------------------------------------------
  // Filtering and mapping
  // ---------------------------------------------------------------------

  /** The code of the row occurs at least `RareThreshold` times in `rows`. */
  function Common(rows: seq<Row>): Row -> bool
  {
    (r: Row) => multiset(Codes(rows))[r.code] >= RareThreshold
  }

  /** `df[~df[code].isin(classes_para_remover)]`. */
  function DropRareClasses(rows: seq<Row>): seq<Row>
  {
    Filter(rows, Common(rows))
  }

  /** `replace({3: 2})` on one code. */
  function Group(code: int): (g: int)
    ensures g != CauCode
    ensures code != CauCode ==> g == code
  {
    if code == CauCode then CanCode else code
  }

  /** Regroups CAU into CAN: no row keeps code 3, every other code and every
      other cell is unchanged, and the row order is kept. */
  function MergeCau(rows: seq<Row>): (r: seq<Row>)
    ensures |r| == |rows|
    ensures forall i :: 0 <= i < |r| ==>
      && r[i].cells == rows[i].cells
      && r[i].code != CauCode
      && (rows[i].code == CauCode ==> r[i].code == CanCode)
      && (rows[i].code != CauCode ==> r[i].code == rows[i].code)
  {
    seq(|rows|, i requires 0 <= i < |rows| => rows[i].(code := Group(rows[i].code)))
  }

  /** The code is a key of `mapping_dict`. */
  function Mapped(): Row -> bool
  {
    (r: Row) => r.code in ClassMapping.MappingDict
  }

  /** `.map(mapping_dict)`, `dropna`, `astype(int)`: rows with an unmapped
      code are dropped, the others carry `mapping_dict[code]`. */
  function MapLabels(rows: seq<Row>): (r: seq<Labelled>)
    ensures |r| <= |rows|
    ensures forall k :: 0 <= k < |r| ==>
      r[k].row.code in ClassMapping.MappingDict && r[k].target == ClassMapping.MappingDict[r[k].row.code]
  {
    var kept := Filter(rows, Mapped());
    seq(|kept|, k requires 0 <= k < |kept| => Labelled(kept[k], ClassMapping.MappingDict[kept[k].code]))
  }

  /** The three row steps in the order the script applies them. */
  function FilterAndMap(rows: seq<Row>): seq<Labelled>
  {
    MapLabels(MergeCau(DropRareClasses(rows)))
  }

  /** Row `i` of the loaded data reaches the prepared data: its ORIGINAL code
      is common (the rare-class filter runs before the merge), and its
      regrouped code is mapped. */
  predicate Survives(rows: seq<Row>, i: nat)
    requires i < |rows|
  {
    multiset(Codes(rows))[rows[i].code] >= RareThreshold && Group(rows[i].code) in ClassMapping.MappingDict
  }

  /** The input positions of the surviving rows, in order. */
  function SurvivorPositions(rows: seq<Row>): seq<nat>
  {
    var dropped := DropRareClasses(rows);
    var p1 := KeptPositions(rows, Common(rows));
    var p2 := KeptPositions(MergeCau(dropped), Mapped());
    KeptPositionsMatch(rows, Common(rows));
    KeptPositionsMatch(MergeCau(dropped), Mapped());
    seq(|p2|, k requires 0 <= k < |p2| => p1[p2[k]])
  }

  /** `pos` tracks the prepared rows `out` back to the loaded rows: increasing
      positions, each of a surviving row whose cells are kept and whose label
      is the mapped regrouped code, and every surviving row is among them. */
  ghost predicate Tracks(pos: seq<nat>, rows: seq<Row>, out: seq<Labelled>)
  {
    && |pos| == |out|
    && (forall j, k :: 0 <= j < k < |pos| ==> pos[j] < pos[k])
    && (forall k :: 0 <= k < |pos| ==>
          && pos[k] < |rows| && Survives(rows, pos[k])
          && out[k].row == Row(Group(rows[pos[k]].code), rows[pos[k]].cells)
          && out[k].target == ClassMapping.MappingDict[Group(rows[pos[k]].code)])
    && (forall i :: 0 <= i < |rows| && Survives(rows, i) ==> i in pos)
  }

  /** The `k`-th prepared row is the regrouped, labelled copy of a surviving row. */
  lemma SurvivorAt(rows: seq<Row>, k: nat)
    requires k < |SurvivorPositions(rows)|
    ensures var pos := SurvivorPositions(rows);
      var out := FilterAndMap(rows);
      && |pos| == |out|
      && pos[k] < |rows| && Survives(rows, pos[k])
      && out[k].row == Row(Group(rows[pos[k]].code), rows[pos[k]].cells)
      && out[k].target == ClassMapping.MappingDict[Group(rows[pos[k]].code)]
  {
    var dropped := DropRareClasses(rows);
    var merged := MergeCau(dropped);
    var p1 := KeptPositions(rows, Common(rows));
    var p2 := KeptPositions(merged, Mapped());
    KeptPositionsMatch(rows, Common(rows));
    KeptPositionsMatch(merged, Mapped());
    var pos := SurvivorPositions(rows);
    var kept := Filter(merged, Mapped());
    var m := p2[k];
    assert pos[k] == p1[m];
    assert merged[m] == kept[k];
    assert Mapped()(kept[k]);
    assert dropped[m] == rows[p1[m]];
    assert Common(rows)(dropped[m]);
  }

  /** The surviving rows keep their input order. */
  lemma SurvivorsInOrder(rows: seq<Row>)
    ensures var pos := SurvivorPositions(rows);
      forall j, k :: 0 <= j < k < |pos| ==> pos[j] < pos[k]
  {
    var merged := MergeCau(DropRareClasses(rows));
    KeptPositionsMatch(rows, Common(rows));
    KeptPositionsMatch(merged, Mapped());
    KeptPositionsIncrease(rows, Common(rows));
    KeptPositionsIncrease(merged, Mapped());
  }

  /** No surviving row is lost. */
  lemma SurvivorKept(rows: seq<Row>, i: nat)
    requires i < |rows| && Survives(rows, i)
    ensures i in SurvivorPositions(rows)
  {
    var dropped := DropRareClasses(rows);
    var merged := MergeCau(dropped);
    var p1 := KeptPositions(rows, Common(rows));
    var p2 := KeptPositions(merged, Mapped());
    KeptPositionsMatch(rows, Common(rows));
    KeptPositionsMatch(merged, Mapped());
    KeptPositionsComplete(rows, Common(rows));
    KeptPositionsComplete(merged, Mapped());
    var pos := SurvivorPositions(rows);
    assert Common(rows)(rows[i]);
    var m :| 0 <= m < |p1| && p1[m] == i;
    assert merged[m].code == Group(rows[i].code);
    assert Mapped()(merged[m]);
    var k :| 0 <= k < |p2| && p2[k] == m;
    assert pos[k] == i;
  }

  /** The filters keep exactly the surviving rows, in their original order. */
  lemma FilterAndMapTracksRows(rows: seq<Row>)
    ensures Tracks(SurvivorPositions(rows), rows, FilterAndMap(rows))
  {
    var pos := SurvivorPositions(rows);
    KeptPositionsMatch(rows, Common(rows));
    KeptPositionsMatch(MergeCau(DropRareClasses(rows)), Mapped());
    SurvivorsInOrder(rows);
    forall k | 0 <= k < |pos|
      ensures && pos[k] < |rows| && Survives(rows, pos[k])
              && FilterAndMap(rows)[k].row == Row(Group(rows[pos[k]].code), rows[pos[k]].cells)
              && FilterAndMap(rows)[k].target == ClassMapping.MappingDict[Group(rows[pos[k]].code)]
    {
      SurvivorAt(rows, k);
    }
    forall i | 0 <= i < |rows| && Survives(rows, i) ensures i in pos {
      SurvivorKept(rows, i);
    }
  }

  // ---------------------------------------------------------------------
  // LabelEncoder
  // ---------------------------------------------------------------------

  ghost predicate StrictlyIncreasing(s: seq<int>)
  {
    forall j, k :: 0 <= j < k < |s| ==> s[j] < s[k]
  }

  lemma ConsIncreasing(h: int, rest: seq<int>)
    requires StrictlyIncreasing(rest) && forall v :: v in rest ==> h < v
    ensures StrictlyIncreasing([h] + rest)
  {
    var r := [h] + rest;
    forall j, k | 0 <= j < k < |r| ensures r[j] < r[k] {
      if j == 0 {
        assert r[k] == rest[k - 1] && rest[k - 1] in rest;
      } else {
        assert r[j] == rest[j - 1] && r[k] == rest[k - 1];
      }
    }
  }

  lemma HeadBelowTail(s: seq<int>)
    requires StrictlyIncreasing(s) && s != []
    ensures forall v :: v in s[1..] ==> s[0] < v
  {
    forall v | v in s[1..] ensures s[0] < v {
      var k :| 0 <= k < |s[1..]| && s[1..][k] == v;
      assert s[k + 1] == v;
    }
  }

  /** Adds `x` to a sorted sequence of distinct values. */
  function InsertSorted(x: int, s: seq<int>): (r: seq<int>)
    requires StrictlyIncreasing(s)
    ensures StrictlyIncreasing(r)
    ensures forall v :: v in r <==> v == x || v in s
  {
    if s == [] then [x]
    else if x < s[0] then
      HeadBelowTail(s);
      assert s == [s[0]] + s[1..];
      ConsIncreasing(x, s);
      [x] + s
    else if x == s[0] then s
    else
      assert s == [s[0]] + s[1..];
      var rest := InsertSorted(x, s[1..]);
      HeadBelowTail(s);
      ConsIncreasing(s[0], rest);
      [s[0]] + rest
  }

  /** `LabelEncoder.fit(y).classes_`: the distinct labels in increasing order. */
  function FitClasses(labels: seq<int>): (classes: seq<int>)
    ensures StrictlyIncreasing(classes)
    ensures forall v :: v in classes <==> v in labels
  {
    if labels == [] then []
    else
      assert forall v :: v in labels <==> v == labels[0] || v in labels[1..] by {
        assert labels == [labels[0]] + labels[1..];
      }
      InsertSorted(labels[0], FitClasses(labels[1..]))
  }

  /** The position of `v` among the classes. */
  function IndexOf(classes: seq<int>, v: int): (i: nat)
    requires v in classes
    ensures i < |classes| && classes[i] == v
  {
    if classes[0] == v then 0 else 1 + IndexOf(classes[1..], v)
  }

  /** `LabelEncoder.transform`: each label's position among the classes. */
  function Transform(classes: seq<int>, labels: seq<int>): (y: seq<nat>)
    requires forall i :: 0 <= i < |labels| ==> labels[i] in classes
    ensures |y| == |labels|
    ensures forall i :: 0 <= i < |y| ==> y[i] < |classes| && classes[y[i]] == labels[i]
  {
    seq(|labels|, i requires 0 <= i < |labels| => IndexOf(classes, labels[i]))
  }

  /** Fits an encoder on `labels` and transforms them. */
  function Encode(labels: seq<int>): (y: seq<nat>)
  {
    Transform(FitClasses(labels), labels)
  }

  /** The encoded labels are exactly 0..N-1 where N is the number of
      distinct labels, and decoding gives the label back. */
  lemma EncodingIsContiguous(labels: seq<int>)
    ensures var classes := FitClasses(labels);
      && |Encode(labels)| == |labels|
      && (forall i :: 0 <= i < |labels| ==> Encode(labels)[i] < |classes| && classes[Encode(labels)[i]] == labels[i])
      && (forall k :: 0 <= k < |classes| ==> k in Encode(labels))
  {
    var classes := FitClasses(labels);
    var y := Encode(labels);
    forall k | 0 <= k < |classes| ensures k in y {
      assert classes[k] in labels;
      var i :| 0 <= i < |labels| && labels[i] == classes[k];
      assert y[i] == k;
    }
  }

  /** The re-encoding keeps the order and the equalities of the labels. */
  lemma EncodingPreservesOrder(labels: seq<int>)
    ensures forall i, j :: 0 <= i < |labels| && 0 <= j < |labels| ==>
      (labels[i] < labels[j] <==> Encode(labels)[i] < Encode(labels)[j])
    ensures forall i, j :: 0 <= i < |labels| && 0 <= j < |labels| ==>
      (labels[i] == labels[j] <==> Encode(labels)[i] == Encode(labels)[j])
  {
    var classes := FitClasses(labels);
    var y := Encode(labels);
    forall i, j | 0 <= i < |labels| && 0 <= j < |labels|
      ensures (labels[i] < labels[j] <==> y[i] < y[j]) && (labels[i] == labels[j] <==> y[i] == y[j])
    {
      assert classes[y[i]] == labels[i] && classes[y[j]] == labels[j];
    }
  }

  // ---------------------------------------------------------------------
  // Class names and the whole preparation
  // ---------------------------------------------------------------------

  /** `mapeamento_final`: contiguous index -> name of the class it encodes. */
  function FinalMapping(classes: seq<int>): (m: map<nat, string>)
    requires forall k :: 0 <= k < |classes| ==> classes[k] in ClassMapping.ReverseMappingDict
    ensures forall k: nat :: k in m <==> k < |classes|
    ensures forall k :: 0 <= k < |classes| ==> m[k] == ClassMapping.ReverseMappingDict[classes[k]]
  {
    map k: nat | k < |classes| :: ClassMapping.ReverseMappingDict[classes[k]]
  }

  /** The column is a feature: not the code, not the mapped label, not listed as unused. */
  function IsFeature(): string -> bool
  {
    (c: string) => c != CodeColumn && c != MappedColumn && c !in UnusedColumns
  }

  /** The columns of X: every column except the two label columns and the
      listed unused columns that are present. */
  function FeatureColumns(columns: seq<string>): (r: seq<string>)
    ensures forall c :: c in r <==> c in columns && c != CodeColumn && c != MappedColumn && c !in UnusedColumns
  {
    var r := Filter(columns, IsFeature());
    FilterMembers(columns, IsFeature());
    FilterKeeps(columns, IsFeature());
    assert forall c :: c in r ==> c in columns && IsFeature()(c) by {
      forall c | c in r ensures c in columns && IsFeature()(c) {
        var k :| 0 <= k < |r| && r[k] == c;
      }
    }
    assert forall c :: c in columns && IsFeature()(c) ==> c in r by {
      forall c | c in columns && IsFeature()(c) ensures c in r {
        var k :| 0 <= k < |columns| && columns[k] == c;
      }
    }
    r
  }

  /** A row's cells restricted to the given columns. */
  function Project(cells: map<string, string>, columns: seq<string>): (x: map<string, string>)
    ensures forall c :: c in x <==> c in cells && c in columns
    ensures forall c :: c in x ==> x[c] == cells[c]
  {
    map c | c in cells && c in columns :: cells[c]
  }

  /** What `preparar_dados` returns: the feature matrix, the contiguous
      labels, the labels they encode and the index -> name mapping. */
  datatype Prepared = Prepared(featureColumns: seq<string>, x: seq<map<string, string>>, y: seq<nat>,
                               classes: seq<int>, mapping: map<nat, string>)

  /** `df["Situacao_Mapeada_Inicial"]`: the mapped label of each prepared row. */
  function Targets(labelled: seq<Labelled>): (t: seq<int>)
    ensures |t| == |labelled|
    ensures forall k :: 0 <= k < |t| ==> t[k] == labelled[k].target
  {
    seq(|labelled|, k requires 0 <= k < |labelled| => labelled[k].target)
  }

  /** X: each prepared row restricted to the feature columns. */
  function FeatureMatrix(labelled: seq<Labelled>, features: seq<string>): (x: seq<map<string, string>>)
    ensures |x| == |labelled|
    ensures forall k :: 0 <= k < |x| ==> x[k] == Project(labelled[k].row.cells, features)
  {
    seq(|labelled|, k requires 0 <= k < |labelled| => Project(labelled[k].row.cells, features))
  }

  /** Every class the encoder sees is a key of `reverse_mapping_dict`, so
      rebuilding the names never fails. */
  lemma EncodedClassesAreNamed(labelled: seq<Labelled>)
    requires forall k :: 0 <= k < |labelled| ==> labelled[k].target in ClassMapping.MappingDict.Values
    ensures forall v :: v in FitClasses(Targets(labelled)) ==> v in ClassMapping.ReverseMappingDict
  {
    ClassMapping.MappingRange();
    ClassMapping.ReverseAgreesWithOrderedNames();
    var initial := Targets(labelled);
    forall v | v in FitClasses(initial) ensures v in ClassMapping.ReverseMappingDict {
      var i :| 0 <= i < |initial| && initial[i] == v;
      assert v in ClassMapping.MappingDict.Values;
    }
  }

  /** The prepared labels are values of `mapping_dict`. */
  lemma PreparedTargetsMapped(rows: seq<Row>)
    ensures forall k :: 0 <= k < |FilterAndMap(rows)| ==> FilterAndMap(rows)[k].target in ClassMapping.MappingDict.Values
  {
  }

  function PrepareData(columns: seq<string>, rows: seq<Row>): (p: Prepared)
    ensures |p.x| == |p.y|
  {
    var labelled := FilterAndMap(rows);
    var initial := Targets(labelled);
    var classes := FitClasses(initial);
    PreparedTargetsMapped(rows);
    EncodedClassesAreNamed(labelled);
    Prepared(FeatureColumns(columns), FeatureMatrix(labelled, FeatureColumns(columns)), Encode(initial),
             classes, FinalMapping(classes))
  }

  /** Row `k` of X and of y both come from the `k`-th surviving input row. */
  lemma PreparedRowAt(columns: seq<string>, rows: seq<Row>, k: nat)
    requires k < |FilterAndMap(rows)|
    ensures var p := PrepareData(columns, rows);
      var pos := SurvivorPositions(rows);
      && k < |pos| && pos[k] < |rows| && Survives(rows, pos[k])
      && k < |p.x| && k < |p.y|
      && p.x[k] == Project(rows[pos[k]].cells, p.featureColumns)
      && p.y[k] < |p.classes|
      && p.classes[p.y[k]] == ClassMapping.MappingDict[Group(rows[pos[k]].code)]
  {
    var labelled := FilterAndMap(rows);
    var initial := Targets(labelled);
    var p := PrepareData(columns, rows);
    assert p.x == FeatureMatrix(labelled, FeatureColumns(columns));
    assert p.y == Transform(FitClasses(initial), initial) && p.classes == FitClasses(initial);
    KeptPositionsMatch(MergeCau(DropRareClasses(rows)), Mapped());
    SurvivorAt(rows, k);
    assert p.classes[p.y[k]] == initial[k] == labelled[k].target;
  }

  /** The classes fitted on mapped labels are all named, and their
      `mapeamento_final` maps exactly 0..N-1, each to its class's name. */
  lemma ClassesNamed(labelled: seq<Labelled>)
    requires forall k :: 0 <= k < |labelled| ==> labelled[k].target in ClassMapping.MappingDict.Values
    ensures var classes := FitClasses(Targets(labelled));
      && (forall k :: 0 <= k < |classes| ==> classes[k] in ClassMapping.ReverseMappingDict)
      && (forall k: nat :: k in FinalMapping(classes) <==> k < |classes|)
      && (forall k :: 0 <= k < |classes| ==> FinalMapping(classes)[k] == ClassMapping.ReverseMappingDict[classes[k]])
  {
    var classes := FitClasses(Targets(labelled));
    EncodedClassesAreNamed(labelled);
    forall k | 0 <= k < |classes| ensures classes[k] in ClassMapping.ReverseMappingDict {
      assert classes[k] in classes;
    }
  }

  /** `mapeamento_final` maps exactly the indices 0..N-1, each to the name
      of the label it encodes. */
  lemma PrepareDataNames(columns: seq<string>, rows: seq<Row>)
    ensures var p := PrepareData(columns, rows);
      && StrictlyIncreasing(p.classes)
      && (forall k: nat :: k in p.mapping <==> k < |p.classes|)
      && (forall k :: 0 <= k < |p.classes| ==>
            p.classes[k] in ClassMapping.ReverseMappingDict && p.mapping[k] == ClassMapping.ReverseMappingDict[p.classes[k]])
  {
    var labelled := FilterAndMap(rows);
    PreparedTargetsMapped(rows);
    ClassesNamed(labelled);
    var p := PrepareData(columns, rows);
    assert p.classes == FitClasses(Targets(labelled)) && p.mapping == FinalMapping(p.classes);
  }
}
