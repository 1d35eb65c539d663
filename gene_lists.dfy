/**
 * Reading the two curated gene lists (oncogenes and tumour suppressor genes)
 * and turning them into the reference sets the classifier consults.
 *
 * The file read itself is replaced by the sequence of lines the read returns;
 * what remains is Python 2's `str.strip()` applied to every line, the tuple
 * of stripped lines, and the `set` built from that tuple.
 */
module GeneLists {
  import opened SeqUtil

  /** The characters Python 2's byte-string `strip()` removes: space, \t, \n, \r, \v, \f. */
  predicate IsWhitespace(c: char)
  {
    c == ' ' || c == '\t' || c == '\n' || c == '\r' || c == '\U{0B}' || c == '\U{0C}'
  }

  predicate AllWhitespace(s: string)
  {
    forall k :: 0 <= k < |s| ==> IsWhitespace(s[k])
  }

  /** Neither the first nor the last character (if any) is whitespace. */
  predicate NoEdgeWhitespace(s: string)
  {
    s == [] || (!IsWhitespace(s[0]) && !IsWhitespace(s[|s| - 1]))
  }

  /**
   * Reference definition of stripping: `r` is what is left of `s` once a
   * whitespace prefix and a whitespace suffix are cut off, and `r` itself
   * neither starts nor ends with whitespace.
   */
  ghost predicate StrippedFrom(r: string, s: string)
  {
    exists i, j :: 0 <= i <= j <= |s| && r == s[i..j]
      && AllWhitespace(s[..i]) && AllWhitespace(s[j..]) && NoEdgeWhitespace(r)
  }

  /** Number of leading whitespace characters of `s`. */
  function LeadingWhitespace(s: string): (n: nat)
    ensures n <= |s|
    ensures AllWhitespace(s[..n])
    ensures n < |s| ==> !IsWhitespace(s[n])
  {
    if s == [] || !IsWhitespace(s[0]) then 0
    else
      var n := 1 + LeadingWhitespace(s[1..]);
      assert forall k :: 1 <= k < n ==> s[k] == s[1..][k - 1];
      n
  }

  /** Length of `s` once its trailing whitespace is cut off. */
  function WithoutTrailingWhitespace(s: string): (n: nat)
    ensures n <= |s|
    ensures AllWhitespace(s[n..])
    ensures n > 0 ==> !IsWhitespace(s[n - 1])
  {
    if s == [] || !IsWhitespace(s[|s| - 1]) then |s|
    else
      var n := WithoutTrailingWhitespace(s[..|s| - 1]);
      assert forall k :: n <= k < |s| - 1 ==> s[k] == s[..|s| - 1][k];
      n
  }

  /** Python 2 `str.strip()` with no argument. */
  function Strip(s: string): (r: string)
    ensures StrippedFrom(r, s)
    ensures |r| <= |s|
  {
    var i := LeadingWhitespace(s);
    var j := i + WithoutTrailingWhitespace(s[i..]);
    assert s[j..] == s[i..][j - i..];
    assert i < j ==> s[i] == s[i..][0] && s[j - 1] == s[i..][j - i - 1];
    s[i..j]
  }

  /** The whitespace prefix ends at the first character that is not whitespace. */
  lemma {:induction false} LeadingWhitespaceUnique(s: string, i: nat)
    requires i <= |s| && AllWhitespace(s[..i])
    requires i < |s| ==> !IsWhitespace(s[i])
    ensures LeadingWhitespace(s) == i
  {
    var i0 := LeadingWhitespace(s);
    assert forall k :: 0 <= k < i ==> s[k] == s[..i][k];
    assert forall k :: 0 <= k < i0 ==> s[k] == s[..i0][k];
  }

  /** The whitespace suffix starts after the last character that is not whitespace. */
  lemma {:induction false} TrailingWhitespaceUnique(s: string, j: nat)
    requires j <= |s| && AllWhitespace(s[j..])
    requires j > 0 ==> !IsWhitespace(s[j - 1])
    ensures WithoutTrailingWhitespace(s) == j
  {
    var j0 := WithoutTrailingWhitespace(s);
    assert forall k :: j <= k < |s| ==> s[k] == s[j..][k - j];
    assert forall k :: j0 <= k < |s| ==> s[k] == s[j0..][k - j0];
  }

  /** `Strip` cuts exactly the given whitespace prefix and suffix. */
  lemma {:induction false} StripAt(s: string, i: nat, j: nat)
    requires i <= j <= |s| && AllWhitespace(s[..i]) && AllWhitespace(s[j..])
    requires NoEdgeWhitespace(s[i..j])
    ensures Strip(s) == s[i..j]
  {
    if i == j {
      assert forall k :: 0 <= k < i ==> s[k] == s[..i][k];
      assert forall k :: j <= k < |s| ==> s[k] == s[j..][k - j];
      assert s[..|s|] == s;
      LeadingWhitespaceUnique(s, |s|);
    } else {
      assert s[i] == s[i..j][0];
      LeadingWhitespaceUnique(s, i);
      var t := s[i..];
      assert t[j - i..] == s[j..];
      assert t[j - i - 1] == s[i..j][j - i - 1];
      TrailingWhitespaceUnique(t, j - i);
    }
  }

  /** A line as `readlines()` returns it, a gene name and its newline, strips to the name. */
  lemma {:induction false} StripNewline(gene: string)
    requires NoEdgeWhitespace(gene)
    ensures Strip(gene + "\n") == gene
  {
    var s := gene + "\n";
    assert s[..0] == [] && s[|gene|..] == "\n" && s[0..|gene|] == gene;
    StripAt(s, 0, |gene|);
  }

  /** The reference definition determines the stripped string uniquely, so `Strip` is the only function meeting it. */
  lemma {:induction false} StripUnique(r: string, s: string)
    requires StrippedFrom(r, s)
    ensures r == Strip(s)
  {
    var i, j :| 0 <= i <= j <= |s| && r == s[i..j]
      && AllWhitespace(s[..i]) && AllWhitespace(s[j..]) && NoEdgeWhitespace(r);
    StripAt(s, i, j);
  }

  /** Stripping twice is stripping once. */
  lemma {:induction false} StripIdempotent(s: string)
    ensures Strip(Strip(s)) == Strip(s)
  {
    var r := Strip(s);
    assert r[..0] == [] && r[|r|..] == [] && r[0..|r|] == r;
    assert StrippedFrom(r, r);
    StripUnique(r, r);
  }

  /** A line strips to the empty string exactly when it is blank (only whitespace). */
  lemma {:induction false} StripEmptyIffBlank(s: string)
    ensures Strip(s) == [] <==> AllWhitespace(s)
  {
    var r := Strip(s);
    var i, j :| 0 <= i <= j <= |s| && r == s[i..j]
      && AllWhitespace(s[..i]) && AllWhitespace(s[j..]) && NoEdgeWhitespace(r);
    if r == [] {
      forall k | 0 <= k < |s| ensures IsWhitespace(s[k]) {
        if k < i { assert s[k] == s[..i][k]; } else { assert s[k] == s[j..][k - j]; }
      }
    } else {
      assert s[i] == r[0];
    }
  }

  /**
   * The comprehension of `read_oncogenes` / `read_tsgs`: one entry per line,
   * in line order, each entry the line stripped. Blank lines are kept.
   */
  function StripLines(lines: seq<string>): (genes: seq<string>)
    ensures |genes| == |lines|
    ensures forall k :: 0 <= k < |lines| ==> StrippedFrom(genes[k], lines[k])
  {
    seq(|lines|, k requires 0 <= k < |lines| => Strip(lines[k]))
  }

  /** A blank line becomes the empty gene name "", and only a blank line does. */
  lemma {:induction false} StripLinesKeepsBlankLines(lines: seq<string>, k: nat)
    requires k < |lines|
    ensures StripLines(lines)[k] == "" <==> AllWhitespace(lines[k])
  {
    StripUnique(StripLines(lines)[k], lines[k]);
    StripEmptyIffBlank(lines[k]);
  }

  /** Python's `set(tuple)`: the elements of `genes`, each once. */
  function GeneSet(genes: seq<string>): (s: set<string>)
    ensures forall g :: g in s <==> g in genes
    ensures |s| <= |genes|
  {
    if genes == [] then {}
    else
      var init := genes[..|genes| - 1];
      var last := genes[|genes| - 1];
      assert genes == init + [last];
      GeneSet(init) + {last}
  }

  /** Building the set loses an entry exactly when the list repeats a gene. */
  lemma {:induction false} GeneSetCollapsesDuplicates(genes: seq<string>)
    ensures |GeneSet(genes)| == |genes| <==> NoDup(genes)
  {
    if genes != [] {
      var init := genes[..|genes| - 1];
      var last := genes[|genes| - 1];
      assert genes == init + [last];
      GeneSetCollapsesDuplicates(init);
      NoDupAppend(init, last);
      if last in init {
        assert GeneSet(genes) == GeneSet(init);
      } else {
        assert last !in GeneSet(init);
      }
    }
  }

  /** The two reference sets the module sets up at import time. */
  datatype ReferenceGeneSets = ReferenceGeneSets(oncogenes: set<string>, tsgs: set<string>)

  /**
   * `oncogene_set = set(read_oncogenes())` and `tsg_set = set(read_tsgs())`,
   * with each file given as its lines.
   */
  function LoadReferenceSets(oncogeneLines: seq<string>, tsgLines: seq<string>): (refs: ReferenceGeneSets)
    ensures forall g :: g in refs.oncogenes <==> g in StripLines(oncogeneLines)
    ensures forall g :: g in refs.tsgs <==> g in StripLines(tsgLines)
    ensures |refs.oncogenes| <= |oncogeneLines| && |refs.tsgs| <= |tsgLines|
  {
    var oncogeneList := StripLines(oncogeneLines);
    var tsgList := StripLines(tsgLines);
    ReferenceGeneSets(GeneSet(oncogeneList), GeneSet(tsgList))
  }
}
