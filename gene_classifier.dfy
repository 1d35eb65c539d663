/**
 * `classify_gene`: a gene symbol is an oncogene, a tumour suppressor gene
 * (tsg) or other, decided by membership in the two reference sets, the
 * oncogene set being consulted first.
 */
module GeneClassifier {
  import opened GeneLists

  /** The three answers; `Label` gives the string the classifier returns. */
  datatype GeneCategory = Oncogene | Tsg | Other
  {
    function Label(): (s: string)
      ensures s == "oncogene" <==> this == Oncogene
      ensures s == "tsg" <==> this == Tsg
      ensures s == "other" <==> this == Other
    {
      match this
      case Oncogene => "oncogene"
      case Tsg => "tsg"
      case Other => "other"
    }
  }

  /**
   * The oncogene test comes first, so a gene found in both sets is an
   * oncogene; a gene found in neither is other; there is no error case.
   */
  function ClassifyGene(gene: string, refs: ReferenceGeneSets): (c: GeneCategory)
    ensures c == Oncogene <==> gene in refs.oncogenes
    ensures c == Tsg <==> gene !in refs.oncogenes && gene in refs.tsgs
    ensures c == Other <==> gene !in refs.oncogenes && gene !in refs.tsgs
  {
    if gene in refs.oncogenes then Oncogene
    else if gene in refs.tsgs then Tsg
    else Other
  }

  /** The three categories carry three different labels. */
  lemma LabelsDistinct(c: GeneCategory, d: GeneCategory)
    ensures c.Label() == d.Label() <==> c == d
  {
  }

  /** `gene` is, once stripped, one of the lines. */
  ghost predicate Listed(gene: string, lines: seq<string>)
  {
    exists k :: 0 <= k < |lines| && Strip(lines[k]) == gene
  }

  /**
   * Classification against the sets built from the two gene-list files:
   * a gene listed (after stripping) in the oncogene file is an oncogene even
   * if the tsg file lists it too; a gene listed in neither is other.
   */
  lemma {:induction false} ClassifyFromLines(gene: string, oncogeneLines: seq<string>, tsgLines: seq<string>)
    ensures var c := ClassifyGene(gene, LoadReferenceSets(oncogeneLines, tsgLines));
      && (c == Oncogene <==> Listed(gene, oncogeneLines))
      && (c == Tsg <==> !Listed(gene, oncogeneLines) && Listed(gene, tsgLines))
      && (c == Other <==> !Listed(gene, oncogeneLines) && !Listed(gene, tsgLines))
  {
    var ol, tl := StripLines(oncogeneLines), StripLines(tsgLines);
    assert forall k :: 0 <= k < |ol| ==> ol[k] == Strip(oncogeneLines[k]);
    assert forall k :: 0 <= k < |tl| ==> tl[k] == Strip(tsgLines[k]);
    assert gene in ol <==> Listed(gene, oncogeneLines);
    assert gene in tl <==> Listed(gene, tsgLines);
  }

  /**
   * Blank lines are not skipped: a blank line in the oncogene file puts the
   * empty name into the oncogene set, so the empty gene name classifies as
   * an oncogene.
   */
  lemma {:induction false} BlankOncogeneLine(oncogeneLines: seq<string>, tsgLines: seq<string>, k: nat)
    requires k < |oncogeneLines| && AllWhitespace(oncogeneLines[k])
    ensures ClassifyGene("", LoadReferenceSets(oncogeneLines, tsgLines)) == Oncogene
  {
    StripLinesKeepsBlankLines(oncogeneLines, k);
    assert StripLines(oncogeneLines)[k] == "";
  }

  /** The lines of the worked example below lose their newlines. */
  lemma {:induction false} ExampleStrips()
    ensures Strip("TP53\n") == "TP53" && Strip("KRAS\n") == "KRAS" && Strip("RB1\n") == "RB1"
  {
    assert "TP53" + "\n" == "TP53\n";
    StripNewline("TP53");
    assert "KRAS" + "\n" == "KRAS\n";
    StripNewline("KRAS");
    assert "RB1" + "\n" == "RB1\n";
    StripNewline("RB1");
  }

  /** The two gene lists of the worked example below, newlines stripped. */
  lemma {:induction false} ExampleGeneLists()
    ensures StripLines(["TP53\n", "KRAS\n"]) == ["TP53", "KRAS"]
    ensures StripLines(["RB1\n"]) == ["RB1"]
  {
    ExampleStrips();
    assert StripLines(["TP53\n", "KRAS\n"]) == [Strip("TP53\n"), Strip("KRAS\n")];
    assert StripLines(["RB1\n"]) == [Strip("RB1\n")];
  }

  /** The reference sets of the worked example below. */
  lemma {:induction false} ExampleReferenceSets()
    ensures LoadReferenceSets(["TP53\n", "KRAS\n"], ["RB1\n"])
      == ReferenceGeneSets({"TP53", "KRAS"}, {"RB1"})
  {
    ExampleGeneLists();
    ExampleGeneSets();
  }

  /** The sets built from the stripped lists of the worked example. */
  lemma {:induction false} ExampleGeneSets()
    ensures GeneSet(["TP53", "KRAS"]) == {"TP53", "KRAS"}
    ensures GeneSet(["RB1"]) == {"RB1"}
  {
    var ol := ["TP53", "KRAS"];
    assert GeneSet(ol[..1]) == GeneSet([ol[0]]);
    assert ol[..1] == ["TP53"];
    assert ["RB1"][..0] == [];
  }

  /**
   * Worked example: oncogene file "TP53", "KRAS"; tsg file "RB1"; each line
   * read with its newline.
   */
  lemma {:induction false} ClassifyExample()
    ensures var refs := LoadReferenceSets(["TP53\n", "KRAS\n"], ["RB1\n"]);
      && ClassifyGene("KRAS", refs) == Oncogene
      && ClassifyGene("RB1", refs) == Tsg
      && ClassifyGene("XYZ1", refs) == Other
  {
    ExampleReferenceSets();
  }
}
