/**
 * `get_mutation_types`: label every HGVS mutation string with the mutation
 * type its notation parser reports, keeping input order.
 *
 * The amino-acid and nucleotide parsers live outside this code; each is
 * injected as a function from an HGVS string to its mutation-type label.
 */
module MutationTyping {

  /** The two notation parsers: `AminoAcid(hgvs=...).mutation_type` and `Nucleotide(hgvs=...).mutation_type`. */
  datatype Parsers = Parsers(aminoAcid: string -> string, nucleotide: string -> string)

  const AMINO_ACID: string := "amino acid"
  const NUCLEOTIDE: string := "nucleotide"

  /** The label of every string, in input order. */
  function MapLabels(hgvs: seq<string>, parse: string -> string): (labels: seq<string>)
    ensures |labels| == |hgvs|
    ensures forall i :: 0 <= i < |hgvs| ==> labels[i] == parse(hgvs[i])
  {
    if hgvs == [] then []
    else MapLabels(hgvs[..|hgvs| - 1], parse) + [parse(hgvs[|hgvs| - 1])]
  }

  /**
   * What `get_mutation_types` returns: for "amino acid" (the default) and
   * "nucleotide" one label per input from the matching parser; for any other
   * kind neither branch runs and the result is empty, with no error.
   */
  function MutationTypes(hgvs: seq<string>, parsers: Parsers, kind: string := AMINO_ACID): (labels: seq<string>)
    ensures kind == AMINO_ACID ==>
      |labels| == |hgvs| && forall i :: 0 <= i < |hgvs| ==> labels[i] == parsers.aminoAcid(hgvs[i])
    ensures kind == NUCLEOTIDE ==>
      |labels| == |hgvs| && forall i :: 0 <= i < |hgvs| ==> labels[i] == parsers.nucleotide(hgvs[i])
    ensures kind != AMINO_ACID && kind != NUCLEOTIDE ==> labels == []
  {
    if kind == AMINO_ACID then MapLabels(hgvs, parsers.aminoAcid)
    else if kind == NUCLEOTIDE then MapLabels(hgvs, parsers.nucleotide)
    else []
  }

  /** `get_mutation_types`, appending one label per input inside the loop of the chosen branch. */
  method GetMutationTypes(hgvs: seq<string>, parsers: Parsers, kind: string := AMINO_ACID)
    returns (mutType: seq<string>)
    ensures mutType == MutationTypes(hgvs, parsers, kind)
  {
    mutType := [];
    if kind == AMINO_ACID {
      for i := 0 to |hgvs|
        invariant mutType == MapLabels(hgvs[..i], parsers.aminoAcid)
      {
        assert hgvs[..i + 1][..i] == hgvs[..i];
        mutType := mutType + [parsers.aminoAcid(hgvs[i])];
      }
    } else if kind == NUCLEOTIDE {
      for i := 0 to |hgvs|
        invariant mutType == MapLabels(hgvs[..i], parsers.nucleotide)
      {
        assert hgvs[..i + 1][..i] == hgvs[..i];
        mutType := mutType + [parsers.nucleotide(hgvs[i])];
      }
    }
    assert hgvs[..|hgvs|] == hgvs;
  }
}
