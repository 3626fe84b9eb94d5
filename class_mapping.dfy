/** The constant class tables of `mapeamento_classes.py`: the situation code
    read from the spreadsheet is mapped to a contiguous index, and the index
    back to the situation's abbreviation. */
module ClassMapping {

  /** Number of classes after CAU was merged into CAN and NF/TR were removed. */
  const ClassCount: nat := 11

  /** `mapping_dict`: original 'Situação (código)' -> index. */
  const MappingDict: map<int, int> :=
    map[0 := 0, 1 := 1, 2 := 2, 4 := 3, 5 := 4, 6 := 5, 7 := 6, 8 := 7, 9 := 8, 10 := 9, 12 := 10]

  /** `reverse_mapping_dict`: index -> abbreviation. */
  const ReverseMappingDict: map<int, string> :=
    map[0 := "CAC", 1 := "CAI", 2 := "CAN/CAU", 3 := "ES", 4 := "FO", 5 := "LAC",
        6 := "LFI", 7 := "LFR", 8 := "MT", 9 := "NC", 10 := "TF"]

  /** `class_names_ordered`: the abbreviations in index order. */
  const ClassNamesOrdered: seq<string> :=
    ["CAC", "CAI", "CAN/CAU", "ES", "FO", "LAC", "LFI", "LFR", "MT", "NC", "TF"]

  /** The abbreviation written in the comment beside each entry of `mapping_dict`. */
  const CommentedName: map<int, string> :=
    map[0 := "CAC", 1 := "CAI", 2 := "CAN/CAU", 4 := "ES", 5 := "FO", 6 := "LAC",
        7 := "LFI", 8 := "LFR", 9 := "MT", 10 := "NC", 12 := "TF"]

  ghost predicate Injective(m: map<int, int>)
  {
    forall a, b :: a in m && b in m && a != b ==> m[a] != m[b]
  }

  ghost predicate StrictlyIncreasing(m: map<int, int>)
  {
    forall a, b :: a in m && b in m && a < b ==> m[a] < m[b]
  }

  /** Two distinct situation codes never share an index. */
  lemma MappingInjective()
    ensures Injective(MappingDict)
  {
    MappingStrictlyIncreasing();
  }

  /** The index grows with the situation code, so the mapping keeps the codes' order. */
  lemma MappingStrictlyIncreasing()
    ensures StrictlyIncreasing(MappingDict)
  {
    forall a, b | a in MappingDict && b in MappingDict && a < b
      ensures MappingDict[a] < MappingDict[b]
    {
      assert MappingDict[a] == if a <= 2 then a else if a <= 10 then a - 1 else 10;
      assert MappingDict[b] == if b <= 2 then b else if b <= 10 then b - 1 else 10;
    }
  }

  /** The indices are exactly 0..10, and the code of CAU (3) and of NF (11) are gone. */
  lemma MappingRange()
    ensures forall k :: k in MappingDict.Values <==> 0 <= k < ClassCount
    ensures 3 !in MappingDict && 11 !in MappingDict
  {
    forall k | 0 <= k < ClassCount ensures k in MappingDict.Values {
      var code := if k <= 2 then k else if k <= 9 then k + 1 else 12;
      assert code in MappingDict && MappingDict[code] == k;
    }
    forall k | k in MappingDict.Values ensures 0 <= k < ClassCount {
      var code :| code in MappingDict && MappingDict[code] == k;
    }
  }

  /** The reverse table is defined on exactly 0..10 and agrees with the ordered name list. */
  lemma ReverseAgreesWithOrderedNames()
    ensures forall k :: k in ReverseMappingDict <==> 0 <= k < ClassCount
    ensures |ClassNamesOrdered| == ClassCount
    ensures forall k :: 0 <= k < ClassCount ==> ReverseMappingDict[k] == ClassNamesOrdered[k]
  {
  }

  /** The eleven abbreviations are pairwise distinct. */
  lemma ClassNamesDistinct()
    ensures forall i, j :: 0 <= i < j < |ClassNamesOrdered| ==> ClassNamesOrdered[i] != ClassNamesOrdered[j]
  {
  }

  /** Going code -> index -> abbreviation gives the abbreviation the comment names
      (for example 9 -> 8 -> MT). */
  lemma RoundTripMatchesComments()
    ensures MappingDict.Keys == CommentedName.Keys
    ensures forall code :: code in MappingDict ==>
      MappingDict[code] in ReverseMappingDict && ReverseMappingDict[MappingDict[code]] == CommentedName[code]
  {
    forall code | code in MappingDict
      ensures MappingDict[code] in ReverseMappingDict && ReverseMappingDict[MappingDict[code]] == CommentedName[code]
    {
      assert code in CommentedName;
      var k := if code <= 2 then code else if code <= 10 then code - 1 else 10;
      assert MappingDict[code] == k;
      assert ReverseMappingDict[k] == ClassNamesOrdered[k];
    }
  }
}
