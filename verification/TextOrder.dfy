// The lexicographic order on strings, Go's a < b, and sort.Strings.
module TextOrder {
  import opened Sorting

  function CharOrder(): (char, char) -> bool { (a: char, b: char) => a < b }

  predicate Before(a: string, b: string) { Lex(a, b, CharOrder()) }

  lemma BeforeTotal(a: string, b: string)
    ensures a == b || Before(a, b) || Before(b, a)
    ensures !(Before(a, b) && Before(b, a)) && (a == b ==> !Before(a, b))
  {
    LexTotal(a, b, CharOrder());
  }

  lemma BeforeTransitive(a: string, b: string, c: string)
    requires Before(a, b) && Before(b, c)
    ensures Before(a, c)
  {
    LexTransitive(a, b, c, CharOrder());
  }

  // At the first character where they differ a has the lower one, or b goes on
  // where a ends.
  ghost predicate FirstDiffers(a: string, b: string) {
    exists n: nat :: Agree(a, b, n) && (n == |a| || a[n] < b[n])
  }

  lemma BeforeIsFirstDifference(a: string, b: string)
    ensures Before(a, b) <==> FirstDiffers(a, b)
  {
    LexAtDifference(a, b, CharOrder());
  }

  function ByText(): (string, string) -> bool { (a: string, b: string) => Before(a, b) }

  lemma ByTextIsOrder()
    ensures IsOrder(ByText()) && IsStrict(ByText())
  {
    forall a: string, b: string
      ensures a == b || ByText()(a, b) || ByText()(b, a)
      ensures !(ByText()(a, b) && ByText()(b, a))
    {
      BeforeTotal(a, b);
    }
    forall a: string, b: string, c: string | !ByText()(b, a) && !ByText()(c, b)
      ensures !ByText()(c, a)
    {
      BeforeTotal(a, b);
      BeforeTotal(b, c);
      BeforeTotal(a, c);
      if Before(a, b) && Before(b, c) {
        BeforeTransitive(a, b, c);
      }
    }
  }

  function SortText(s: seq<string>): seq<string> { Sort(s, ByText()) }

  predicate Ascending(s: seq<string>) { Sorted(s, ByText()) }

  lemma SortTextSorts(s: seq<string>)
    ensures Ascending(SortText(s)) && multiset(SortText(s)) == multiset(s)
  {
    ByTextIsOrder();
    SortSorts(s, ByText());
  }

  lemma AscendingUnique(s: seq<string>, t: seq<string>)
    requires Ascending(s) && Ascending(t) && multiset(s) == multiset(t)
    ensures s == t
  {
    ByTextIsOrder();
    SortedUnique(s, t, ByText());
  }
}
