/** The glossary page: a case-insensitive search over term and definition
    combined with a category selector, and the selector's option list. */
module Glossary {
  import opened Types
  import opened Tree

  /** The category that selects every term. */
  const AllCategories: string := "All"

  /** Lower-casing, restricted to ASCII letters. */
  function LowerChar(c: char): (r: char)
    ensures 'A' <= c <= 'Z' ==> 'a' <= r <= 'z'
    ensures !('A' <= c <= 'Z') ==> r == c
  {
    if 'A' <= c <= 'Z' then (c as int - 'A' as int + 'a' as int) as char else c
  }

  function Lower(s: string): (r: string)
    ensures |r| == |s|
    ensures forall i :: 0 <= i < |s| ==> r[i] == LowerChar(s[i])
  {
    if |s| == 0 then [] else [LowerChar(s[0])] + Lower(s[1..])
  }

  /** `sub` occurs in `s` starting at offset `i`. */
  predicate OccursAt(s: string, sub: string, i: int) {
    0 <= i && i + |sub| <= |s| && s[i..i + |sub|] == sub
  }

  /** `s.includes(sub)`: `sub` occurs in `s` at some offset; the empty
      string occurs in every string. */
  function Contains(s: string, sub: string): (r: bool)
    ensures r <==> exists i :: OccursAt(s, sub, i)
    decreases |s|
  {
    if |sub| > |s| then false
    else if s[..|sub|] == sub then assert OccursAt(s, sub, 0); true
    else
      var r := Contains(s[1..], sub);
      ContainsShift(s, sub);
      r
  }

  /** Past offset 0, an occurrence in `s` is an occurrence in `s[1..]`. */
  lemma ContainsShift(s: string, sub: string)
    requires |sub| <= |s| && s[..|sub|] != sub
    ensures (exists i :: OccursAt(s, sub, i)) <==> exists i :: OccursAt(s[1..], sub, i)
  {
    if exists i :: OccursAt(s, sub, i) {
      var i :| OccursAt(s, sub, i);
      assert i != 0;
      assert s[1..][i - 1..i - 1 + |sub|] == s[i..i + |sub|];
      assert OccursAt(s[1..], sub, i - 1);
    }
    if exists i :: OccursAt(s[1..], sub, i) {
      var i :| OccursAt(s[1..], sub, i);
      assert s[i + 1..i + 1 + |sub|] == s[1..][i..i + |sub|];
      assert OccursAt(s, sub, i + 1);
    }
  }

  /** A term passes when the lower-cased search text occurs in its lower-cased
      name or definition, and the category is "All" or its own. */
  predicate Matches(g: GlossaryTerm, search: string, category: string) {
    && (Contains(Lower(g.term), Lower(search)) || Contains(Lower(g.definition), Lower(search)))
    && (category == AllCategories || g.category == category)
  }

  function FilterTerms(terms: seq<GlossaryTerm>, search: string, category: string): seq<GlossaryTerm> {
    Filter(terms, g => Matches(g, search, category))
  }

  /** The "No terms found" notice. */
  predicate ShowsEmptyMessage(terms: seq<GlossaryTerm>, search: string, category: string) {
    |FilterTerms(terms, search, category)| == 0
  }

  // ---------------------------------------------------------------------
  // Subsequences.

  /** `a` is `b` with some elements left out, the rest in order. */
  predicate Subsequence<T(==)>(a: seq<T>, b: seq<T>)
    decreases |b|
  {
    || |a| == 0
    || (|b| > 0 && ((a[0] == b[0] && Subsequence(a[1..], b[1..])) || Subsequence(a, b[1..])))
  }

  /** The filtered list keeps the order of the list filtered. */
  lemma {:induction false} FilterSubsequence<T(!new)>(s: seq<T>, keep: T -> bool)
    ensures Subsequence(Filter(s, keep), s)
  {
    if |s| > 0 {
      FilterSubsequence(s[1..], keep);
      if keep(s[0]) {
        assert Filter(s, keep)[0] == s[0];
        assert Filter(s, keep)[1..] == Filter(s[1..], keep);
      } else {
        assert Filter(s, keep) == Filter(s[1..], keep);
      }
    }
  }

  /** A stricter test keeps a subsequence of what a looser one keeps. */
  lemma {:induction false} FilterMonotone<T(!new)>(s: seq<T>, p: T -> bool, q: T -> bool)
    requires forall x :: x in s && p(x) ==> q(x)
    ensures Subsequence(Filter(s, p), Filter(s, q))
  {
    if |s| > 0 {
      assert s[0] in s;
      FilterMonotone(s[1..], p, q);
      if p(s[0]) {
        assert Filter(s, p)[0] == s[0] && Filter(s, q)[0] == s[0];
        assert Filter(s, p)[1..] == Filter(s[1..], p);
        assert Filter(s, q)[1..] == Filter(s[1..], q);
      } else if q(s[0]) {
        assert Filter(s, p) == Filter(s[1..], p);
        assert Filter(s, q)[1..] == Filter(s[1..], q);
      } else {
        assert Filter(s, p) == Filter(s[1..], p);
        assert Filter(s, q) == Filter(s[1..], q);
      }
    }
  }

  // ---------------------------------------------------------------------
  // The filter.

  /** The result lists, in glossary order, exactly the terms that match,
      each as often as the glossary lists it. */
  lemma FilterTermsSpec(terms: seq<GlossaryTerm>, search: string, category: string)
    ensures Subsequence(FilterTerms(terms, search, category), terms)
    ensures forall g :: g in FilterTerms(terms, search, category) <==> g in terms && Matches(g, search, category)
    ensures forall g ::
      multiset(FilterTerms(terms, search, category))[g] == (if Matches(g, search, category) then multiset(terms)[g] else 0)
  {
    FilterSubsequence(terms, g => Matches(g, search, category));
    FilterMultiset(terms, g => Matches(g, search, category));
  }

  /** With nothing typed and "All" selected, every term is listed. */
  lemma EmptySearchListsAll(terms: seq<GlossaryTerm>)
    ensures FilterTerms(terms, "", AllCategories) == terms
  {
    forall g | g in terms
      ensures Matches(g, "", AllCategories)
    {
      assert Lower(g.term)[0..0] == Lower("");
    }
    FilterAll(terms, g => Matches(g, "", AllCategories));
  }

  /** Choosing a category narrows the "All" result, keeping its order. */
  lemma CategoryNarrows(terms: seq<GlossaryTerm>, search: string, category: string)
    ensures Subsequence(FilterTerms(terms, search, category), FilterTerms(terms, search, AllCategories))
  {
    FilterMonotone(terms, g => Matches(g, search, category), g => Matches(g, search, AllCategories));
  }

  /** The notice shows exactly when no term matches. */
  lemma EmptyMessageSpec(terms: seq<GlossaryTerm>, search: string, category: string)
    ensures ShowsEmptyMessage(terms, search, category) <==> forall g :: g in terms ==> !Matches(g, search, category)
  {
    var r := FilterTerms(terms, search, category);
    if |r| > 0 {
      assert r[0] in r;
    }
  }

  // ---------------------------------------------------------------------
  // The category selector.

  function CategoryColumn(terms: seq<GlossaryTerm>): (r: seq<string>)
    ensures |r| == |terms|
    ensures forall i :: 0 <= i < |terms| ==> r[i] == terms[i].category
  {
    if |terms| == 0 then [] else [terms[0].category] + CategoryColumn(terms[1..])
  }

  /** Where `x` first occurs in `s`. */
  function FirstIndex(s: seq<string>, x: string): (i: nat)
    requires x in s
    ensures i < |s| && s[i] == x && forall j :: 0 <= j < i ==> s[j] != x
  {
    if s[0] == x then 0 else 1 + FirstIndex(s[1..], x)
  }

  /** Insertion-ordered set semantics: keep each value at its first
      occurrence. */
  function Dedup(s: seq<string>): (r: seq<string>)
    ensures NoDuplicates(r)
    ensures forall x :: x in r <==> x in s
  {
    if |s| == 0 then []
    else
      var r := Dedup(s[..|s| - 1]);
      var last := s[|s| - 1];
      assert forall x :: x in s <==> x in s[..|s| - 1] || x == last by {
        assert s == s[..|s| - 1] + [last];
      }
      if last in r then r else r + [last]
  }

  lemma {:induction false} FirstIndexPrefix(a: seq<string>, b: seq<string>, x: string)
    requires x in a
    ensures FirstIndex(a + b, x) == FirstIndex(a, x)
  {
    if a[0] != x {
      assert (a + b)[1..] == a[1..] + b;
      FirstIndexPrefix(a[1..], b, x);
    }
  }

  lemma FirstIndexOfNew(a: seq<string>, x: string)
    requires x !in a
    ensures FirstIndex(a + [x], x) == |a|
  {
    var k := FirstIndex(a + [x], x);
    assert (a + [x])[|a|] == x;
  }

  /** The kept values appear in the order of their first occurrences. */
  lemma {:induction false} DedupOrder(s: seq<string>)
    ensures forall i, j :: 0 <= i < j < |Dedup(s)| ==> FirstIndex(s, Dedup(s)[i]) < FirstIndex(s, Dedup(s)[j])
    decreases |s|
  {
    if |s| > 0 {
      var init := s[..|s| - 1];
      var last := s[|s| - 1];
      var r := Dedup(init);
      var r' := Dedup(s);
      DedupOrder(init);
      assert s == init + [last];
      forall i, j | 0 <= i < j < |r'|
        ensures FirstIndex(s, r'[i]) < FirstIndex(s, r'[j])
      {
        assert r'[i] == r[i];
        FirstIndexPrefix(init, [last], r[i]);
        if j < |r| {
          assert r'[j] == r[j];
          FirstIndexPrefix(init, [last], r[j]);
        } else {
          assert r'[j] == last && last !in init;
          FirstIndexOfNew(init, last);
        }
      }
    }
  }

  /** The selector's options: "All", then each category once, in order of
      first appearance. */
  function Categories(terms: seq<GlossaryTerm>): seq<string> {
    [AllCategories] + Dedup(CategoryColumn(terms))
  }

  lemma CategoryInUse(terms: seq<GlossaryTerm>, c: string)
    ensures c in CategoryColumn(terms) <==> exists g :: g in terms && g.category == c
  {
    var col := CategoryColumn(terms);
    if c in col {
      var i :| 0 <= i < |col| && col[i] == c;
      assert terms[i] in terms;
    }
    if exists g :: g in terms && g.category == c {
      var g :| g in terms && g.category == c;
      var i :| 0 <= i < |terms| && terms[i] == g;
      assert col[i] == c;
    }
  }

  /** The options after "All" are exactly the categories in use, each once,
      ordered by first appearance. */
  lemma CategoriesSpec(terms: seq<GlossaryTerm>)
    ensures Categories(terms)[0] == AllCategories
    ensures forall c :: c in Categories(terms)[1..] <==> exists g :: g in terms && g.category == c
    ensures NoDuplicates(Categories(terms)[1..])
    ensures forall i, j :: 1 <= i < j < |Categories(terms)| ==>
      FirstIndex(CategoryColumn(terms), Categories(terms)[i]) < FirstIndex(CategoryColumn(terms), Categories(terms)[j])
  {
    var col := CategoryColumn(terms);
    var cs := Categories(terms);
    assert cs[1..] == Dedup(col);
    forall c
      ensures c in cs[1..] <==> exists g :: g in terms && g.category == c
    {
      CategoryInUse(terms, c);
    }
    DedupOrder(col);
    forall i, j | 1 <= i < j < |cs|
      ensures FirstIndex(col, cs[i]) < FirstIndex(col, cs[j])
    {
      assert cs[i] == Dedup(col)[i - 1] && cs[j] == Dedup(col)[j - 1];
    }
  }

  /** "All" is listed twice exactly when some term is filed under "All". */
  lemma CategoriesRepeatAll(terms: seq<GlossaryTerm>)
    ensures NoDuplicates(Categories(terms)) <==> forall g :: g in terms ==> g.category != AllCategories
  {
    var cs := Categories(terms);
    var d := Dedup(CategoryColumn(terms));
    assert cs[1..] == d;
    CategoryInUse(terms, AllCategories);
    if exists g :: g in terms && g.category == AllCategories {
      var j :| 0 <= j < |d| && d[j] == AllCategories;
      assert cs[0] == cs[j + 1];
    } else {
      forall i, j | 0 <= i < j < |cs|
        ensures cs[i] != cs[j]
      {
        assert cs[j] == d[j - 1];
        if i > 0 {
          assert cs[i] == d[i - 1];
        }
      }
    }
  }
}
