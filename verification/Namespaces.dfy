/** Merging two comma-separated lists of namespaces (mergeNamespacesEnvVar in
    pkg/kubernetes/kubernetes.go). */
module Namespaces {
  import opened Strings

  // ---------- Go's order on strings, and sorting ----------

  predicate Before(a: string, b: string) {
    if b == "" then false
    else if a == "" then true
    else a[0] < b[0] || (a[0] == b[0] && Before(a[1..], b[1..]))
  }

  /** a is a proper prefix of b, or smaller at the first place where they differ, after k
      equal characters. */
  predicate SmallerAfter(a: string, b: string, k: nat) {
    k <= |a| && k < |b| && a[..k] == b[..k] && (k == |a| || a[k] < b[k])
  }

  /** The order is the dictionary's. */
  lemma {:induction false} BeforeExactly(a: string, b: string)
    ensures Before(a, b) <==> exists k: nat :: SmallerAfter(a, b, k)
  {
    if a == "" || b == "" {
      assert b != "" ==> SmallerAfter("", b, 0);
    } else if a[0] != b[0] {
      assert a[0] < b[0] ==> SmallerAfter(a, b, 0);
      assert forall k: nat | k > 0 && k <= |a| && k < |b| :: a[..k][0] == a[0] && b[..k][0] == b[0];
    } else {
      BeforeExactly(a[1..], b[1..]);
      TailsSmaller(a, b);
    }
  }

  lemma TailsSmaller(a: string, b: string)
    requires a != "" && b != "" && a[0] == b[0]
    ensures (exists k: nat :: SmallerAfter(a, b, k)) <==> (exists k: nat :: SmallerAfter(a[1..], b[1..], k))
  {
    if k: nat :| SmallerAfter(a, b, k) {
      assert a[1..][..k - 1] == a[..k][1..] && b[1..][..k - 1] == b[..k][1..];
      assert SmallerAfter(a[1..], b[1..], k - 1);
    }
    if k: nat :| SmallerAfter(a[1..], b[1..], k) {
      assert a[..k + 1] == [a[0]] + a[1..][..k] && b[..k + 1] == [b[0]] + b[1..][..k];
      assert SmallerAfter(a, b, k + 1);
    }
  }

  lemma {:induction false} BeforeTotal(a: string, b: string)
    ensures Before(a, b) || a == b || Before(b, a)
  {
    if a != "" && b != "" && a[0] == b[0] {
      BeforeTotal(a[1..], b[1..]);
      assert a == [a[0]] + a[1..] && b == [b[0]] + b[1..];
    }
  }

  lemma {:induction false} BeforeTransitive(a: string, b: string, c: string)
    requires Before(a, b) && Before(b, c)
    ensures Before(a, c)
  {
    if a != "" && a[0] == b[0] == c[0] {
      BeforeTransitive(a[1..], b[1..], c[1..]);
    }
  }

  lemma {:induction false} BeforeIrreflexive(a: string)
    ensures !Before(a, a)
  {
    if a != "" {
      BeforeIrreflexive(a[1..]);
    }
  }

  ghost predicate StrictlySorted(names: seq<string>) {
    forall i, j | 0 <= i < j < |names| :: Before(names[i], names[j])
  }

  /** Puts one more name into a sorted list. */
  function Insert(x: string, names: seq<string>): (r: seq<string>)
    ensures forall y :: y in r <==> y == x || y in names
  {
    if names == [] then [x]
    else if Before(names[0], x) then [names[0]] + Insert(x, names[1..])
    else [x] + names
  }

  lemma {:induction false} InsertKeepsSorted(x: string, names: seq<string>)
    requires StrictlySorted(names) && x !in names
    ensures StrictlySorted(Insert(x, names))
  {
    if names != [] {
      var rest, r := names[1..], Insert(x, names);
      BeforeTotal(x, names[0]);
      if Before(names[0], x) {
        InsertKeepsSorted(x, rest);
        forall j | 1 <= j < |r|
          ensures Before(names[0], r[j])
        {
          assert r[j] == Insert(x, rest)[j - 1];
          if r[j] != x {
            assert r[j] in rest;
          }
        }
      } else {
        forall j | 1 <= j < |r|
          ensures Before(x, r[j])
        {
          assert r[j] == names[j - 1];
          if j > 1 {
            BeforeTransitive(x, names[0], names[j - 1]);
          }
        }
      }
    }
  }

  /** The effect of sort.Strings on names without repetition. */
  function Sort(names: seq<string>): (r: seq<string>)
    ensures forall y :: y in r <==> y in names
  {
    if names == [] then [] else Insert(names[0], Sort(names[1..]))
  }

  ghost predicate Distinct(names: seq<string>) {
    forall i, j | 0 <= i < j < |names| :: names[i] != names[j]
  }

  lemma {:induction false} SortSorts(names: seq<string>)
    requires Distinct(names)
    ensures StrictlySorted(Sort(names))
  {
    if names != [] {
      SortSorts(names[1..]);
      InsertKeepsSorted(names[0], Sort(names[1..]));
    }
  }

  lemma FirstIsLeast(names: seq<string>, x: string)
    requires StrictlySorted(names) && x in names && x != names[0]
    ensures Before(names[0], x)
  {
  }

  lemma HeadsAgree(a: seq<string>, b: seq<string>)
    requires StrictlySorted(a) && StrictlySorted(b)
    requires forall x :: x in a <==> x in b
    requires a != [] && b != []
    ensures a[0] == b[0]
  {
    assert a[0] in b && b[0] in a;
    if a[0] != b[0] {
      FirstIsLeast(a, b[0]);
      FirstIsLeast(b, a[0]);
      BeforeTransitive(a[0], b[0], a[0]);
      BeforeIrreflexive(a[0]);
    }
  }

  lemma TailMembers(names: seq<string>, x: string)
    requires StrictlySorted(names) && names != []
    ensures x in names[1..] <==> x in names && x != names[0]
  {
    assert names == [names[0]] + names[1..];
    if x == names[0] {
      BeforeIrreflexive(x);
    }
  }

  /** A set of names has one strictly sorted listing. */
  lemma {:induction false} SortedUnique(a: seq<string>, b: seq<string>)
    requires StrictlySorted(a) && StrictlySorted(b)
    requires forall x :: x in a <==> x in b
    ensures a == b
    decreases |a|
  {
    if a == [] {
      assert forall i | 0 <= i < |b| :: b[i] in a;
    } else {
      assert a[0] in a;
      HeadsAgree(a, b);
      forall x
        ensures x in a[1..] <==> x in b[1..]
      {
        TailMembers(a, x);
        TailMembers(b, x);
      }
      SortedUnique(a[1..], b[1..]);
      assert a == [a[0]] + a[1..] && b == [b[0]] + b[1..];
    }
  }

  // ---------- what a list of namespaces means ----------

  /** The namespaces named in the text; empty items do not count. */
  function Names(text: string): (names: set<string>)
    ensures forall n | n in names :: n != "" && SEP !in n
  {
    set n | n in Split(text) && n != ""
  }

  ghost function Listing(names: set<string>): (r: seq<string>)
    ensures StrictlySorted(r)
    ensures forall x :: x in r <==> x in names
    decreases |names|
  {
    if names == {} then []
    else
      var x :| x in names;
      var rest := Listing(names - {x});
      InsertKeepsSorted(x, rest);
      Insert(x, rest)
  }

  ghost function Merge(a: string, b: string): string {
    Join(Listing(Names(a) + Names(b)))
  }

  // ---------- the code ----------

  /** Puts the names of a list into the map, one after the other. */
  method AddNames(known: set<string>, ns: seq<string>) returns (nsMap: set<string>)
    ensures nsMap == known + set n | n in ns && n != ""
  {
    nsMap := known;
    for i := 0 to |ns|
      invariant nsMap == known + set n | n in ns[..i] && n != ""
    {
      assert ns[..i + 1] == ns[..i] + [ns[i]];
      if ns[i] == "" {
        continue;
      }
      nsMap := nsMap + {ns[i]};
    }
    assert ns[..|ns|] == ns;
  }

  /** Lists the keys of the map, in whatever order it is iterated. */
  method Keys(nsMap: set<string>) returns (namespaces: seq<string>)
    ensures Distinct(namespaces)
    ensures forall n :: n in namespaces <==> n in nsMap
  {
    var pending := nsMap;
    namespaces := [];
    while pending != {}
      invariant pending <= nsMap && Distinct(namespaces)
      invariant forall n :: n in namespaces <==> n in nsMap && n !in pending
      decreases |pending|
    {
      var ns :| ns in pending;
      pending := pending - {ns};
      namespaces := namespaces + [ns];
    }
  }

  /** Whatever order the map is iterated in, the result is the same text. */
  method MergeNamespacesEnvVar(str1: string, str2: string) returns (merged: string)
    ensures merged == Merge(str1, str2)
  {
    var nsMap := AddNames({}, Split(str1));
    nsMap := AddNames(nsMap, Split(str2));
    assert nsMap == Names(str1) + Names(str2);
    var namespaces := Keys(nsMap);
    SortSorts(namespaces);
    namespaces := Sort(namespaces);
    SortedNames(namespaces, nsMap);
    merged := Join(namespaces);
  }

  lemma SortedNames(sorted: seq<string>, names: set<string>)
    requires StrictlySorted(sorted) && forall n :: n in sorted <==> n in names
    ensures sorted == Listing(names)
  {
    SortedUnique(sorted, Listing(names));
  }

  // ---------- a semilattice of texts ----------

  /** The result splits back into exactly the names of the two lists, strictly sorted and
      none of them empty. */
  lemma MergeSplitsBack(a: string, b: string)
    ensures Names(Merge(a, b)) == Names(a) + Names(b)
    ensures Names(a) + Names(b) != {} ==>
      && StrictlySorted(Split(Merge(a, b)))
      && "" !in Split(Merge(a, b))
      && forall n :: n in Split(Merge(a, b)) <==> n in Names(a) + Names(b)
    ensures Names(a) + Names(b) == {} ==> Merge(a, b) == ""
  {
    var names := Names(a) + Names(b);
    var listing := Listing(names);
    if listing == [] {
      assert forall n | n in names :: n in listing;
    } else {
      assert listing[0] in names;
      SplitJoin(listing);
    }
  }

  lemma MergeCommutative(a: string, b: string)
    ensures Merge(a, b) == Merge(b, a)
  {
    assert Names(a) + Names(b) == Names(b) + Names(a);
  }

  lemma MergeAssociative(a: string, b: string, c: string)
    ensures Merge(Merge(a, b), c) == Merge(a, Merge(b, c))
  {
    MergeSplitsBack(a, b);
    MergeSplitsBack(b, c);
    assert (Names(a) + Names(b)) + Names(c) == Names(a) + (Names(b) + Names(c));
  }

  /** Merging a text with itself gives its canonical form, and merging a result with any
      of its parts, or with itself, changes nothing. */
  lemma MergeIdempotent(a: string, b: string)
    ensures Merge(a, a) == Merge(a, "")
    ensures Merge(Merge(a, b), Merge(a, b)) == Merge(a, b)
    ensures Merge(Merge(a, b), b) == Merge(a, b)
  {
    MergeSplitsBack(a, b);
    assert Names("") == {};
    assert Names(a) + Names(a) == Names(a) + Names("");
    var union := Names(a) + Names(b);
    assert union + union == union && union + Names(b) == union;
  }

  /** Two texts merge to the same text with everything exactly when they name the same
      namespaces. */
  lemma SameCanonicalForm(a: string, b: string)
    ensures Merge(a, "") == Merge(b, "") <==> Names(a) == Names(b)
  {
    assert Names("") == {};
    MergeSplitsBack(a, "");
    MergeSplitsBack(b, "");
    assert Names(a) + {} == Names(a) && Names(b) + {} == Names(b);
  }
}
