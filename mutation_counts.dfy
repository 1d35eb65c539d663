/**
 * `count_mutation_types`: the frequency table of the mutation-type labels,
 * as pandas' `value_counts()` builds it — one row per distinct label with
 * the number of times it occurs, rows in order of non-increasing count.
 * Which of several equally frequent labels comes first is not promised.
 */
module MutationCounts {
  import opened SeqUtil
  import opened MutationTyping

  /** One row of a frequency table: a label and its count. */
  type Row<T> = (T, nat)

  /** The distinct elements of `s`, in order of first occurrence. */
  function Distinct<T(==,!new)>(s: seq<T>): (d: seq<T>)
    ensures NoDup(d)
    ensures forall x :: x in d <==> x in s
  {
    if s == [] then []
    else
      var init, last := s[..|s| - 1], s[|s| - 1];
      assert s == init + [last];
      var d := Distinct(init);
      if last in d then d
      else
        NoDupAppend(d, last);
        d + [last]
  }

  /** Keys in order of non-increasing count. */
  ghost predicate SortedByCount<T>(keys: seq<T>, counts: multiset<T>)
  {
    forall i, j :: 0 <= i < j < |keys| ==> counts[keys[i]] >= counts[keys[j]]
  }

  /** Insert `x` into `keys` ahead of the first key with a smaller count. */
  function Insert<T(==)>(x: T, keys: seq<T>, counts: multiset<T>): (r: seq<T>)
    ensures multiset(r) == multiset(keys) + multiset{x}
  {
    if keys == [] then [x]
    else if counts[x] >= counts[keys[0]] then [x] + keys
    else
      assert keys == [keys[0]] + keys[1..];
      [keys[0]] + Insert(x, keys[1..], counts)
  }

  /** A key that outranks every element of a sorted sequence can go in front of it. */
  lemma {:induction false} SortedCons<T>(y: T, keys: seq<T>, counts: multiset<T>)
    requires SortedByCount(keys, counts)
    requires forall z :: z in multiset(keys) ==> counts[y] >= counts[z]
    ensures SortedByCount([y] + keys, counts)
  {
    var r := [y] + keys;
    forall i, j | 0 <= i < j < |r| ensures counts[r[i]] >= counts[r[j]] {
      assert r[j] == keys[j - 1];
      assert keys[j - 1] in multiset(keys);
      if i > 0 {
        assert r[i] == keys[i - 1];
      }
    }
  }

  /** Inserting keeps the keys sorted by count. */
  lemma {:induction false} InsertSorted<T>(x: T, keys: seq<T>, counts: multiset<T>)
    requires SortedByCount(keys, counts)
    ensures SortedByCount(Insert(x, keys, counts), counts)
  {
    if keys == [] {
    } else if counts[x] >= counts[keys[0]] {
      forall z | z in multiset(keys) ensures counts[x] >= counts[z] {
        var k :| 0 <= k < |keys| && keys[k] == z;
        assert k == 0 || counts[keys[0]] >= counts[keys[k]];
      }
      SortedCons(x, keys, counts);
    } else {
      var rest := keys[1..];
      assert SortedByCount(rest, counts) by {
        forall i, j | 0 <= i < j < |rest| ensures counts[rest[i]] >= counts[rest[j]] {
          assert rest[i] == keys[i + 1] && rest[j] == keys[j + 1];
        }
      }
      InsertSorted(x, rest, counts);
      forall z | z in multiset(Insert(x, rest, counts)) ensures counts[keys[0]] >= counts[z] {
        if z != x {
          assert z in multiset(rest);
          var k :| 0 <= k < |rest| && rest[k] == z;
          assert rest[k] == keys[k + 1];
        }
      }
      SortedCons(keys[0], Insert(x, rest, counts), counts);
    }
  }

  /** Insertion sort of `keys` by non-increasing count: a sorted permutation of `keys`. */
  function SortByCount<T(==)>(keys: seq<T>, counts: multiset<T>): (r: seq<T>)
    ensures SortedByCount(r, counts)
    ensures multiset(r) == multiset(keys)
  {
    if keys == [] then []
    else
      assert keys == [keys[0]] + keys[1..];
      var sorted := SortByCount(keys[1..], counts);
      InsertSorted(keys[0], sorted, counts);
      Insert(keys[0], sorted, counts)
  }

  /** No duplicates means every element occurs at most once. */
  lemma {:induction false} NoDupMultiplicity<T>(s: seq<T>)
    ensures NoDup(s) <==> forall x :: multiset(s)[x] <= 1
  {
    if s != [] {
      var init, last := s[..|s| - 1], s[|s| - 1];
      assert s == init + [last];
      var mi, ms := multiset(init), multiset(s);
      assert ms == mi + multiset{last};
      NoDupMultiplicity(init);
      NoDupAppend(init, last);
      if last in init {
        assert mi[last] >= 1;
        assert ms[last] >= 2;
      } else {
        assert mi[last] == 0;
        assert (forall x :: ms[x] <= 1) ==> (forall x :: mi[x] <= 1) by {
          forall x ensures mi[x] <= ms[x] { }
        }
        assert (forall x :: mi[x] <= 1) ==> (forall x :: ms[x] <= 1) by {
          if forall x :: mi[x] <= 1 {
            forall x ensures ms[x] <= 1 {
              if x == last { assert ms[x] == 1; } else { assert ms[x] == mi[x]; }
            }
          }
        }
      }
    }
  }

  /** A permutation of a sequence without duplicates has none. */
  lemma {:induction false} NoDupPermutation<T>(s: seq<T>, t: seq<T>)
    requires multiset(s) == multiset(t) && NoDup(s)
    ensures NoDup(t)
  {
    NoDupMultiplicity(s);
    NoDupMultiplicity(t);
  }

  /** Each key with its count. */
  function Tabulate<T>(keys: seq<T>, counts: multiset<T>): (table: seq<Row<T>>)
    ensures |table| == |keys|
    ensures forall i :: 0 <= i < |keys| ==> table[i] == (keys[i], counts[keys[i]])
  {
    if keys == [] then [] else [(keys[0], counts[keys[0]])] + Tabulate(keys[1..], counts)
  }

  /** Sum of the counts of a table. */
  function SumCounts<T>(table: seq<Row<T>>): nat
  {
    if table == [] then 0 else table[0].1 + SumCounts(table[1..])
  }

  /** Sum of `counts` over `keys`. */
  function CountSum<T>(keys: seq<T>, counts: multiset<T>): nat
  {
    if keys == [] then 0 else counts[keys[0]] + CountSum(keys[1..], counts)
  }

  /** The counts of a tabulated table add up to the counts of its keys. */
  lemma {:induction false} SumCountsTabulate<T>(keys: seq<T>, counts: multiset<T>)
    ensures SumCounts(Tabulate(keys, counts)) == CountSum(keys, counts)
  {
    if keys != [] {
      var t := Tabulate(keys, counts);
      assert t[1..] == Tabulate(keys[1..], counts);
      SumCountsTabulate(keys[1..], counts);
    }
  }

  /** Summing counts over fixed keys distributes over multiset union. */
  lemma {:induction false} CountSumAdditive<T>(keys: seq<T>, m1: multiset<T>, m2: multiset<T>)
    ensures CountSum(keys, m1 + m2) == CountSum(keys, m1) + CountSum(keys, m2)
  {
    if keys != [] {
      CountSumAdditive(keys[1..], m1, m2);
    }
  }

  /** A single occurrence is counted once by keys that list it exactly once. */
  lemma {:induction false} CountSumSingle<T>(keys: seq<T>, x: T)
    requires NoDup(keys)
    ensures CountSum(keys, multiset{x}) == if x in keys then 1 else 0
  {
    if keys != [] {
      assert keys == [keys[0]] + keys[1..];
      assert NoDup(keys[1..]) by {
        forall i, j | 0 <= i < j < |keys| - 1 ensures keys[1..][i] != keys[1..][j] {
          assert keys[1..][i] == keys[i + 1] && keys[1..][j] == keys[j + 1];
        }
      }
      forall i | 0 <= i < |keys| - 1 ensures keys[1..][i] != keys[0] {
        assert keys[1..][i] == keys[i + 1];
      }
      CountSumSingle(keys[1..], x);
    }
  }

  /** Nothing to count gives a zero sum. */
  lemma {:induction false} CountSumNone<T>(keys: seq<T>)
    ensures CountSum(keys, multiset{}) == 0
  {
    if keys != [] {
      CountSumNone(keys[1..]);
    }
  }

  /** Counting every element of `s` under keys that list each element once gives |s|. */
  lemma {:induction false} CountSumIsLength<T>(keys: seq<T>, s: seq<T>)
    requires NoDup(keys)
    requires forall x :: x in s ==> x in keys
    ensures CountSum(keys, multiset(s)) == |s|
  {
    if s == [] {
      CountSumNone(keys);
    } else {
      var init, last := s[..|s| - 1], s[|s| - 1];
      assert s == init + [last];
      assert multiset(s) == multiset(init) + multiset{last};
      CountSumIsLength(keys, init);
      CountSumAdditive(keys, multiset(init), multiset{last});
      CountSumSingle(keys, last);
      assert last in keys;
      calc {
        CountSum(keys, multiset(s));
        CountSum(keys, multiset(init)) + CountSum(keys, multiset{last});
        |init| + 1;
      }
    }
  }

  /**
   * The table of `keys` with their counts in `labels`, when `keys` lists
   * every label exactly once in order of non-increasing count.
   */
  lemma {:induction false} TabulateCounts<T>(labels: seq<T>, keys: seq<T>)
    requires NoDup(keys) && SortedByCount(keys, multiset(labels))
    requires forall x :: x in keys <==> x in labels
    ensures var table := Tabulate(keys, multiset(labels));
      && (forall i :: 0 <= i < |table| ==> table[i].0 in labels)
      && (forall x :: x in labels ==> exists i :: 0 <= i < |table| && table[i].0 == x)
      && (forall i, j :: 0 <= i < j < |table| ==> table[i].0 != table[j].0)
      && (forall i :: 0 <= i < |table| ==> table[i].1 == multiset(labels)[table[i].0])
      && (forall i, j :: 0 <= i < j < |table| ==> table[i].1 >= table[j].1)
      && SumCounts(table) == |labels|
  {
    var counts := multiset(labels);
    var table := Tabulate(keys, counts);
    forall x | x in labels ensures exists i :: 0 <= i < |table| && table[i].0 == x {
      var i :| 0 <= i < |keys| && keys[i] == x;
      assert table[i].0 == x;
    }
    SumCountsTabulate(keys, counts);
    CountSumIsLength(keys, labels);
  }

  /**
   * pandas `value_counts()` over a sequence of labels: one row per distinct
   * label, carrying the number of times it occurs, rows by non-increasing count.
   */
  function ValueCounts<T(==,!new)>(labels: seq<T>): (table: seq<Row<T>>)
    ensures forall i :: 0 <= i < |table| ==> table[i].0 in labels
    ensures forall x :: x in labels ==> exists i :: 0 <= i < |table| && table[i].0 == x
    ensures forall i, j :: 0 <= i < j < |table| ==> table[i].0 != table[j].0
    ensures forall i :: 0 <= i < |table| ==> table[i].1 == multiset(labels)[table[i].0]
    ensures forall i, j :: 0 <= i < j < |table| ==> table[i].1 >= table[j].1
    ensures SumCounts(table) == |labels|
  {
    var counts := multiset(labels);
    var distinct := Distinct(labels);
    var keys := SortByCount(distinct, counts);
    assert forall x :: x in keys <==> x in labels by {
      forall x ensures x in keys <==> x in labels {
        assert x in keys <==> x in multiset(keys);
        assert x in distinct <==> x in multiset(distinct);
      }
    }
    NoDupPermutation(distinct, keys);
    TabulateCounts(labels, keys);
    Tabulate(keys, counts)
  }

  /** An empty label sequence gives an empty table. */
  lemma {:induction false} ValueCountsEmpty<T(!new)>(labels: seq<T>)
    ensures ValueCounts(labels) == [] <==> labels == []
  {
    var table := ValueCounts(labels);
    if labels != [] {
      assert labels[0] in labels;
    }
  }

  /**
   * `count_mutation_types`: the frequency table of the labels of
   * `get_mutation_types`. For a recognised kind the counts add up to the
   * number of inputs; for any other kind the table is empty.
   */
  function CountMutationTypes(hgvs: seq<string>, parsers: Parsers, kind: string := AMINO_ACID)
    : (table: seq<Row<string>>)
    ensures forall i :: 0 <= i < |table| ==>
      table[i].1 == multiset(MutationTypes(hgvs, parsers, kind))[table[i].0] && table[i].1 > 0
    ensures forall x :: x in MutationTypes(hgvs, parsers, kind) ==>
      exists i :: 0 <= i < |table| && table[i].0 == x
    ensures forall i, j :: 0 <= i < j < |table| ==> table[i].0 != table[j].0
    ensures forall i, j :: 0 <= i < j < |table| ==> table[i].1 >= table[j].1
    ensures SumCounts(table) == if kind == AMINO_ACID || kind == NUCLEOTIDE then |hgvs| else 0
    ensures kind != AMINO_ACID && kind != NUCLEOTIDE ==> table == []
  {
    var labels := MutationTypes(hgvs, parsers, kind);
    ValueCountsEmpty(labels);
    ValueCounts(labels)
  }

  /** Labels that are all the same give a single row counting all of them. */
  lemma {:induction false} ValueCountsUniform<T(!new)>(labels: seq<T>, x: T)
    requires labels != [] && forall i :: 0 <= i < |labels| ==> labels[i] == x
    ensures ValueCounts(labels) == [(x, |labels|)]
  {
    DistinctUniform(labels, x);
    MultiplicityUniform(labels, x);
    assert SortByCount([x], multiset(labels)) == [x];
  }

  /** A repeated label has itself as its only distinct element. */
  lemma {:induction false} DistinctUniform<T(!new)>(labels: seq<T>, x: T)
    requires labels != [] && forall i :: 0 <= i < |labels| ==> labels[i] == x
    ensures Distinct(labels) == [x]
  {
    var init := labels[..|labels| - 1];
    if init != [] {
      DistinctUniform(init, x);
    }
  }

  /** A sequence of one repeated label holds it as many times as it is long. */
  lemma {:induction false} MultiplicityUniform<T>(labels: seq<T>, x: T)
    requires forall i :: 0 <= i < |labels| ==> labels[i] == x
    ensures multiset(labels)[x] == |labels|
  {
    if labels != [] {
      var init := labels[..|labels| - 1];
      assert labels == init + [x];
      MultiplicityUniform(init, x);
    }
  }

  /**
   * Worked example: two amino-acid notations that the parser both labels
   * "missense" give the one-row table missense: 2.
   */
  lemma {:induction false} CountExample()
    ensures CountMutationTypes(["p.R175H", "p.Q61K"], Parsers(_ => "missense", _ => "missense"))
      == [("missense", 2)]
  {
    var parsers := Parsers(_ => "missense", _ => "missense");
    var labels := MutationTypes(["p.R175H", "p.Q61K"], parsers);
    ValueCountsUniform(labels, "missense");
  }
}
