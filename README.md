# Mutation classification and counting core, in Dafny

This project models the data-handling core of the `utils/python/util.py`
module of a cancer mutation-analysis pipeline:

- **Reference gene lists.** `read_oncogenes` and `read_tsgs` read a curated
  list of oncogenes and a list of tumour suppressor genes (tsg). They strip
  every line and keep the stripped lines as a tuple. At import time the
  module turns each tuple into a set (`oncogene_set`, `tsg_set`).
- **Gene classifier.** `classify_gene` answers `'oncogene'`, `'tsg'` or
  `'other'` by set membership. The oncogene set is consulted first.
- **Mutation types.** `get_mutation_types` labels every HGVS mutation string
  with the mutation type reported by the amino-acid or the nucleotide
  notation parser, keeping input order. `count_mutation_types` turns those
  labels into a frequency table (`value_counts()`) sorted by descending count.

Modules, one per component:

- `SeqUtil` (`seq_util.dfy`): the `NoDup` predicate.
- `GeneLists` (`gene_lists.dfy`): Python 2 `str.strip()`, the line-to-tuple
  step, and the two sets.
- `GeneClassifier` (`gene_classifier.dfy`): `classify_gene`.
- `MutationTyping` (`mutation_types.dfy`): `get_mutation_types`, as a method
  with a loop, proved against the function `MutationTypes`.
- `MutationCounts` (`mutation_counts.dfy`): `value_counts` and
  `count_mutation_types`.

Modelling choices:

- A file read is replaced by the sequence of lines `readlines()` returns.
  Each line still carries its newline.
- The module-level sets are passed explicitly as a `ReferenceGeneSets` value.
  They are not modelled as import-time global state.
- The code runs under Python 2 (it imports `ConfigParser`). There,
  `str.strip()` on a byte string removes exactly space, `\t`, `\n`, `\r`,
  `\v` and `\f`. `IsWhitespace` is that set.
- `classify_gene` returns a string. The model returns a `GeneCategory`.
  `GeneCategory.Label()` gives the string for each category.
- The `AminoAcid` and `Nucleotide` parsers are injected. A `Parsers` value
  holds two functions from an HGVS string to its mutation-type label.
- `kind` stays a string whose default is `"amino acid"`, as in the code.
- A frequency table is a sequence of `(label, count)` rows.

Behaviour of the code worth noting:

- Blank lines are kept: they strip to `""`, and `""` enters the set.
  `StripLinesKeepsBlankLines` and `BlankOncogeneLine` state this.
- An unknown `kind` raises nothing and gives an empty result: no branch
  runs, so the label sequence and the table are both empty.
- pandas promises no order among labels with equal counts, so none is
  stated.

Idempotence of classification holds by construction: every operation is a
pure function of its arguments.

## Model

| member | source | states |
|---|---|---|
| `GeneLists.Strip` | utils/python/util.py:35 | the result is the line with a whitespace prefix and a whitespace suffix cut off, and it neither starts nor ends with whitespace (`StrippedFrom`) |
| `GeneLists.StripUnique` | utils/python/util.py:35 | any string that is the line with only surrounding whitespace removed and no whitespace at its ends is `Strip` of the line, so stripping is fully determined |
| `GeneLists.StripAt` | utils/python/util.py:35 | cutting a given whitespace prefix and suffix that leave no whitespace at the ends is exactly what `Strip` does |
| `GeneLists.StripIdempotent` | utils/python/util.py:35 | stripping an already stripped gene name changes nothing |
| `GeneLists.StripEmptyIffBlank` | utils/python/util.py:35 | a line strips to the empty string exactly when it consists of whitespace only |
| `GeneLists.StripNewline` | utils/python/util.py:34-35 | a line as `readlines()` returns it, a gene name followed by its newline, strips back to the gene name |
| `GeneLists.StripLines` | utils/python/util.py:25-50 | the gene tuple has one entry per line, in line order, and each entry is its line stripped |
| `GeneLists.StripLinesKeepsBlankLines` | utils/python/util.py:49 | an entry of the tuple is `""` exactly when its line is blank; blank lines are kept, not skipped |
| `GeneLists.GeneSet` | utils/python/util.py:118-119 | the set holds exactly the elements of the tuple and is no larger than the tuple |
| `GeneLists.GeneSetCollapsesDuplicates` | utils/python/util.py:118-119 | the set is as large as the tuple exactly when the tuple has no duplicate; duplicates are collapsed |
| `GeneLists.LoadReferenceSets` | utils/python/util.py:116-119 | the oncogene set and the tsg set hold exactly the stripped lines of their files, and neither is larger than its file |
| `GeneClassifier.ClassifyGene` | utils/python/util.py:53-67 | oncogene exactly when the gene is in the oncogene set; tsg exactly when it is in the tsg set and not in the oncogene set; other exactly when it is in neither |
| `GeneClassifier.GeneCategory.Label` | utils/python/util.py:60-67 | the string `classify_gene` returns for each category: `'oncogene'`, `'tsg'` or `'other'`, each for exactly one category |
| `GeneClassifier.LabelsDistinct` | utils/python/util.py:60-67 | the three answers `'oncogene'`, `'tsg'` and `'other'` are three different strings |
| `GeneClassifier.ClassifyFromLines` | utils/python/util.py:62-67 | in terms of the two files' lines: oncogene exactly when some oncogene line strips to the gene, even if a tsg line does too; tsg exactly when only a tsg line does; other when neither does |
| `GeneClassifier.BlankOncogeneLine` | utils/python/util.py:116-118 | a blank line in the oncogene file makes the empty gene name classify as an oncogene |
| `GeneClassifier.ClassifyExample` | utils/python/util.py:62-67 | with oncogene lines TP53 and KRAS and tsg line RB1, KRAS is an oncogene, RB1 a tsg and XYZ1 other |
| `MutationTyping.MapLabels` | utils/python/util.py:81-87 | one label per input, in input order, and label i is the parser's label for input i |
| `MutationTyping.MutationTypes` | utils/python/util.py:70-89 | for `"amino acid"` (the default) the labels are the amino-acid parser's, position by position; for `"nucleotide"` the nucleotide parser's; for any other kind the result is empty |
| `MutationTyping.GetMutationTypes` | utils/python/util.py:79-89 | the list the loop appends to equals `MutationTypes` for every kind |
| `MutationCounts.SortByCount` | utils/python/util.py:103 | the keys come out as a permutation of the input keys, ordered by non-increasing count |
| `MutationCounts.ValueCounts` | utils/python/util.py:103 | every row's label occurs in the input and every input label has a row; labels are distinct; each count is the number of occurrences; counts do not increase down the table; counts sum to the input length |
| `MutationCounts.ValueCountsEmpty` | utils/python/util.py:103 | the table is empty exactly when the label sequence is empty |
| `MutationCounts.ValueCountsUniform` | utils/python/util.py:103 | a nonempty sequence of one repeated label gives one row: that label with the sequence length |
| `MutationCounts.CountMutationTypes` | utils/python/util.py:92-104 | each count is the number of times its label occurs among the mutation types, and every count is positive; every label that occurs has a row; labels are distinct; counts do not increase down the table; counts sum to the number of inputs for a recognised kind, and the table is empty for any other kind |
| `MutationCounts.CountExample` | utils/python/util.py:92-104 | two amino-acid notations that the parser both labels missense give the single row missense: 2 |

## Left out

- `utils/python/plot.py` is not part of this model. Its heatmap, bar, histogram, line and scatter functions only draw and save images through matplotlib.
- `read_aa_properties` (util.py:8-22) is not modelled. It is a pandas `read_csv`/`set_index` over a file plus logging.
- `get_output_config` (util.py:107-112) is not modelled. It is configuration-file parsing.
- Opening and reading the gene-list files is left out. A file is given as its lines, so a missing file (an `IOError` at import time) is not modelled.
- The internals of `AminoAcid` and `Nucleotide` are not part of this model. Each is an injected total function, so their grammar and their parse errors are not modelled.
- Pandas specifics are left out: the `Series` wrapper and its index, and the exclusion of missing values (NaN) from `value_counts`.
- ValueCounts: does not state the order among labels with equal counts, because pandas does not promise one. The model itself puts ties in order of first occurrence, by a stable insertion sort.
- CountMutationTypes: does not state the order among labels with equal counts, for the same reason.
- Module-level initialisation (util.py:116-123) is not modelled as global state. The two sets are a parameter, and the directory-path constants are left out.
- Python 3 would also strip Unicode whitespace. The model follows Python 2, which the module targets.
