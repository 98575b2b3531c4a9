// The canonical form of a query string
// (server/internal/auth/idempotency.go:222-253).
module CanonicalQuery {
  import opened Text
  import opened TextOrder

  // A parsed query: every key has at least one value, in order of appearance.
  type Query = q: map<string, seq<string>> | forall k | k in q :: q[k] != [] witness map[]

  // What url.QueryEscape is asked for: different strings stay different, and
  // none contains a separator.
  ghost predicate IsEscape(escape: string -> string) {
    (forall a, b | escape(a) == escape(b) :: a == b) && (forall a :: '&' !in escape(a) && '=' !in escape(a))
  }

  function Join(parts: seq<string>, sep: char): string
    requires parts != []
  {
    if |parts| == 1 then parts[0] else parts[0] + [sep] + Join(parts[1..], sep)
  }

  lemma {:induction false} SplitJoin(parts: seq<string>, sep: char)
    requires parts != [] && forall k | 0 <= k < |parts| :: sep !in parts[k]
    ensures Split(Join(parts, sep), sep) == parts
    decreases |parts|
  {
    if |parts| == 1 {
      SplitFirst(parts[0], "", sep);
    } else {
      SplitFirst(parts[0], Join(parts[1..], sep), sep);
      SplitJoin(parts[1..], sep);
    }
  }

  function EscapeAll(s: seq<string>, escape: string -> string): (r: seq<string>)
    ensures |r| == |s| && forall i | 0 <= i < |s| :: r[i] == escape(s[i])
  {
    seq(|s|, i requires 0 <= i < |s| => escape(s[i]))
  }

  // A key, then each of its values in order behind an equals sign.
  function Words(q: Query, k: string, escape: string -> string): (r: seq<string>)
    requires k in q
    ensures r != []
  {
    EscapeAll([k] + SortText(q[k]), escape)
  }

  function Groups(q: Query, keys: seq<string>, escape: string -> string): (r: seq<string>)
    requires forall k | k in keys :: k in q
    ensures |r| == |keys| && forall i | 0 <= i < |keys| :: r[i] == Join(Words(q, keys[i], escape), '=')
  {
    seq(|keys|, i requires 0 <= i < |keys| => Join(Words(q, keys[i], escape), '='))
  }

  function Render(q: Query, keys: seq<string>, escape: string -> string): string
    requires forall k | k in keys :: k in q
  {
    if keys == [] then "" else Join(Groups(q, keys, escape), '&')
  }

  // The keys in ascending order.
  ghost predicate Lists(keys: seq<string>, q: Query) {
    Ascending(keys) && multiset(keys) == multiset(q.Keys) && forall k | k in keys :: k in q
  }

  ghost predicate IsCanonical(q: Query, escape: string -> string, out: string) {
    exists keys :: Lists(keys, q) && out == Render(q, keys, escape)
  }

  // ---- Step by step ----

  method KeysOf(q: Query) returns (keys: seq<string>)
    ensures multiset(keys) == multiset(q.Keys)
  {
    keys := [];
    var left := q.Keys;
    while left != {}
      invariant left <= q.Keys && multiset(keys) + multiset(left) == multiset(q.Keys)
      decreases left
    {
      var k: string :| k in left;
      assert multiset(left) == multiset(left - {k}) + multiset{k};
      keys := keys + [k];
      left := left - {k};
    }
  }

  method Canonical(q: Query, escape: string -> string) returns (out: string)
    ensures IsCanonical(q, escape, out)
  {
    if |q| == 0 {
      assert Lists([], q) && Render(q, [], escape) == "";
      return "";
    }
    var found := KeysOf(q);
    SortTextSorts(found);
    var sorted := SortText(found);
    forall k | k in sorted
      ensures k in q
    {
      assert k in multiset(sorted);
    }
    out := WriteGroups(q, sorted, escape);
  }

  method WriteGroups(q: Query, keys: seq<string>, escape: string -> string) returns (out: string)
    requires forall k | k in keys :: k in q
    ensures out == Render(q, keys, escape)
  {
    out := "";
    for i := 0 to |keys|
      invariant out == Render(q, keys[..i], escape)
    {
      if i > 0 {
        out := out + "&";
      }
      var group := Group(q, keys[i], escape);
      out := out + group;
      assert keys[..i + 1] == keys[..i] + [keys[i]];
      GroupsSnoc(q, keys[..i], keys[i], escape);
    }
    assert keys[..|keys|] == keys;
  }

  lemma GroupsSnoc(q: Query, keys: seq<string>, k: string, escape: string -> string)
    requires k in q && forall k | k in keys :: k in q
    ensures var g := Join(Words(q, k, escape), '=');
            Render(q, keys + [k], escape) == if keys == [] then g else Render(q, keys, escape) + "&" + g
  {
    var g := Join(Words(q, k, escape), '=');
    JoinSnoc(Groups(q, keys, escape), g, '&');
    assert Groups(q, keys + [k], escape) == Groups(q, keys, escape) + [g];
  }

  method Group(q: Query, k: string, escape: string -> string) returns (out: string)
    requires k in q
    ensures out == Join(Words(q, k, escape), '=')
  {
    var vals := SortText(q[k]);
    out := escape(k);
    assert EscapeAll([k] + vals[..0], escape) == [escape(k)];
    for i := 0 to |vals|
      invariant out == Join(EscapeAll([k] + vals[..i], escape), '=')
    {
      out := out + "=";
      out := out + escape(vals[i]);
      assert [k] + vals[..i + 1] == ([k] + vals[..i]) + [vals[i]];
      WordsSnoc([k] + vals[..i], vals[i], escape);
    }
    assert vals[..|vals|] == vals;
  }

  lemma WordsSnoc(s: seq<string>, v: string, escape: string -> string)
    requires s != []
    ensures Join(EscapeAll(s + [v], escape), '=') == Join(EscapeAll(s, escape), '=') + "=" + escape(v)
  {
    JoinSnoc(EscapeAll(s, escape), escape(v), '=');
    assert EscapeAll(s + [v], escape) == EscapeAll(s, escape) + [escape(v)];
  }

  lemma {:induction false} JoinSnoc(parts: seq<string>, part: string, sep: char)
    ensures Join(parts + [part], sep) == if parts == [] then part else Join(parts, sep) + [sep] + part
    decreases |parts|
  {
    if parts == [] {
      assert parts + [part] == [part];
    } else {
      assert (parts + [part])[1..] == parts[1..] + [part];
      JoinSnoc(parts[1..], part, sep);
    }
  }

  // ---- A normal form ----

  lemma {:induction false} JoinAvoids(parts: seq<string>, sep: char, c: char)
    requires parts != [] && c != sep && forall k | 0 <= k < |parts| :: c !in parts[k]
    ensures c !in Join(parts, sep)
    decreases |parts|
  {
    if |parts| > 1 {
      JoinAvoids(parts[1..], sep, c);
    }
  }

  lemma {:induction false} JoinHasSeparator(parts: seq<string>, sep: char)
    requires |parts| > 1
    ensures sep in Join(parts, sep)
  {
    var s := parts[0] + [sep] + Join(parts[1..], sep);
    assert s[|parts[0]|] == sep;
  }

  lemma GroupReads(q: Query, k: string, escape: string -> string)
    requires k in q && IsEscape(escape)
    ensures var g := Join(Words(q, k, escape), '=');
            '&' !in g && '=' in g && Split(g, '=') == Words(q, k, escape)
  {
    SortTextSorts(q[k]);
    assert |SortText(q[k])| == |multiset(SortText(q[k]))| == |q[k]|;
    JoinAvoids(Words(q, k, escape), '=', '&');
    JoinHasSeparator(Words(q, k, escape), '=');
    SplitJoin(Words(q, k, escape), '=');
  }

  lemma EscapeAllInjective(s: seq<string>, t: seq<string>, escape: string -> string)
    requires IsEscape(escape) && EscapeAll(s, escape) == EscapeAll(t, escape)
    ensures s == t
  {
    assert |s| == |t|;
    forall i | 0 <= i < |s|
      ensures s[i] == t[i]
    {
      assert escape(s[i]) == EscapeAll(s, escape)[i] == EscapeAll(t, escape)[i] == escape(t[i]);
    }
  }

  // The groups can be read back off a rendered query.
  lemma RenderReads(q: Query, keys: seq<string>, escape: string -> string)
    requires IsEscape(escape) && forall k | k in keys :: k in q
    ensures keys != [] ==>
              '=' in Render(q, keys, escape) && Split(Render(q, keys, escape), '&') == Groups(q, keys, escape)
  {
    if keys != [] {
      var gs := Groups(q, keys, escape);
      forall i | 0 <= i < |keys|
        ensures '&' !in gs[i] && '=' in gs[i]
      {
        GroupReads(q, keys[i], escape);
      }
      SplitJoin(gs, '&');
      assert |gs| > 1 ==> Join(gs, '&') == gs[0] + "&" + Join(gs[1..], '&');
    }
  }

  ghost predicate SameQuery(q: Query, r: Query) {
    q.Keys == r.Keys && forall k | k in q :: multiset(q[k]) == multiset(r[k])
  }

  lemma SameRenderedKeys(q: Query, keys: seq<string>, r: Query, others: seq<string>, escape: string -> string)
    requires IsEscape(escape) && Lists(keys, q) && Lists(others, r)
    requires Render(q, keys, escape) == Render(r, others, escape)
    ensures keys == others && forall k | k in keys :: SortText(q[k]) == SortText(r[k])
  {
    RenderReads(q, keys, escape);
    RenderReads(r, others, escape);
    assert |keys| == |others|;
    forall i | 0 <= i < |keys|
      ensures keys[i] == others[i] && SortText(q[keys[i]]) == SortText(r[others[i]])
    {
      assert Groups(q, keys, escape)[i] == Groups(r, others, escape)[i];
      GroupReads(q, keys[i], escape);
      GroupReads(r, others[i], escape);
      EscapeAllInjective([keys[i]] + SortText(q[keys[i]]), [others[i]] + SortText(r[others[i]]), escape);
      assert ([keys[i]] + SortText(q[keys[i]]))[1..] == SortText(q[keys[i]]);
      assert ([others[i]] + SortText(r[others[i]]))[1..] == SortText(r[others[i]]);
    }
  }

  lemma RenderedIsSame(q: Query, keys: seq<string>, r: Query, others: seq<string>, escape: string -> string)
    requires IsEscape(escape) && Lists(keys, q) && Lists(others, r)
    requires Render(q, keys, escape) == Render(r, others, escape)
    ensures SameQuery(q, r)
  {
    SameRenderedKeys(q, keys, r, others, escape);
    forall k: string
      ensures k in q <==> k in r
      ensures k in q ==> multiset(q[k]) == multiset(r[k])
    {
      assert k in q.Keys <==> k in multiset(keys);
      assert k in r.Keys <==> k in multiset(others);
      if k in q {
        SortTextSorts(q[k]);
        SortTextSorts(r[k]);
      }
    }
  }

  lemma SameIsRendered(q: Query, keys: seq<string>, r: Query, others: seq<string>, escape: string -> string)
    requires Lists(keys, q) && Lists(others, r) && SameQuery(q, r)
    ensures Render(q, keys, escape) == Render(r, others, escape)
  {
    AscendingUnique(keys, others);
    forall i | 0 <= i < |keys|
      ensures Groups(q, keys, escape)[i] == Groups(r, keys, escape)[i]
    {
      SortTextSorts(q[keys[i]]);
      SortTextSorts(r[keys[i]]);
      AscendingUnique(SortText(q[keys[i]]), SortText(r[keys[i]]));
    }
    assert Groups(q, keys, escape) == Groups(r, keys, escape);
  }

  // Two queries have the same canonical form exactly when they have the same
  // keys and, for each, the same values equally often.
  lemma CanonicalIsNormalForm(q: Query, r: Query, escape: string -> string, a: string, b: string)
    requires IsEscape(escape) && IsCanonical(q, escape, a) && IsCanonical(r, escape, b)
    ensures a == b <==> SameQuery(q, r)
  {
    var keys :| Lists(keys, q) && a == Render(q, keys, escape);
    var others :| Lists(others, r) && b == Render(r, others, escape);
    hide Render;
    if a == b {
      RenderedIsSame(q, keys, r, others, escape);
    }
    if SameQuery(q, r) {
      SameIsRendered(q, keys, r, others, escape);
    }
  }

  // ---- From parameters as they were written ----

  // A key's values, in the order they were written.
  function ValuesOf(params: seq<(string, string)>, k: string): seq<string> {
    if params == [] then []
    else
      var n := |params| - 1;
      ValuesOf(params[..n], k) + if params[n].0 == k then [params[n].1] else []
  }

  lemma {:induction false} ValuesCount(params: seq<(string, string)>, k: string, v: string)
    ensures multiset(ValuesOf(params, k))[v] == multiset(params)[(k, v)]
  {
    if params != [] {
      var n := |params| - 1;
      var rest, last := params[..n], params[n];
      ValuesCount(rest, k, v);
      assert params == rest + [last];
      CountOneMore(rest, last, (k, v));
      var values := ValuesOf(rest, k);
      assert ValuesOf(params, k) == if last.0 == k then values + [last.1] else values;
      hide ValuesOf;
      CountOneMore(values, last.1, v);
    }
  }

  lemma CountOneMore<T>(s: seq<T>, x: T, y: T)
    ensures multiset(s + [x])[y] == multiset(s)[y] + if x == y then 1 else 0
  {
    assert multiset(s + [x]) == multiset(s) + multiset{x};
  }

  function KeysIn(params: seq<(string, string)>): set<string> { set p | p in params :: p.0 }

  function Parsed(params: seq<(string, string)>): Query {
    assert forall k | k in KeysIn(params) :: ValuesOf(params, k) != [] by {
      forall k | k in KeysIn(params)
        ensures ValuesOf(params, k) != []
      {
        var p :| p in params && p.0 == k;
        ValuesCount(params, k, p.1);
        assert p == (k, p.1) && p in multiset(params);
      }
    }
    map k | k in KeysIn(params) :: ValuesOf(params, k)
  }

  lemma PermutedKeys(params: seq<(string, string)>, others: seq<(string, string)>)
    requires multiset(params) == multiset(others)
    ensures KeysIn(params) <= KeysIn(others)
  {
    forall k | k in KeysIn(params)
      ensures k in KeysIn(others)
    {
      var p :| p in params && p.0 == k;
      assert p in multiset(params);
      assert p in others;
    }
  }

  lemma PermutedValues(params: seq<(string, string)>, others: seq<(string, string)>, k: string)
    requires multiset(params) == multiset(others)
    ensures multiset(ValuesOf(params, k)) == multiset(ValuesOf(others, k))
  {
    forall v: string
      ensures multiset(ValuesOf(params, k))[v] == multiset(ValuesOf(others, k))[v]
    {
      ValuesCount(params, k, v);
      ValuesCount(others, k, v);
    }
  }

  lemma SameCount(params: seq<(string, string)>, others: seq<(string, string)>, k: string, v: string)
    requires SameQuery(Parsed(params), Parsed(others))
    ensures multiset(params)[(k, v)] == multiset(others)[(k, v)]
  {
    ValuesCount(params, k, v);
    ValuesCount(others, k, v);
    if k in KeysIn(params) {
      assert k in Parsed(params) && k in Parsed(others);
      assert multiset(Parsed(params)[k]) == multiset(Parsed(others)[k]);
    } else {
      assert k !in Parsed(params).Keys && k !in Parsed(others).Keys;
      assert (k, v) !in params && (k, v) !in others;
    }
  }

  lemma SameParameters(params: seq<(string, string)>, others: seq<(string, string)>)
    ensures SameQuery(Parsed(params), Parsed(others)) <==> multiset(params) == multiset(others)
  {
    if multiset(params) == multiset(others) {
      PermutedKeys(params, others);
      PermutedKeys(others, params);
      forall k | k in KeysIn(params)
        ensures multiset(ValuesOf(params, k)) == multiset(ValuesOf(others, k))
      {
        PermutedValues(params, others, k);
      }
    }
    if SameQuery(Parsed(params), Parsed(others)) {
      forall p: (string, string)
        ensures multiset(params)[p] == multiset(others)[p]
      {
        SameCount(params, others, p.0, p.1);
      }
    }
  }

  // However their parameters are ordered, two requests share a canonical query
  // exactly when one's parameters are a rearrangement of the other's.
  lemma CanonicalIgnoresOrderOnly(params: seq<(string, string)>, others: seq<(string, string)>,
      escape: string -> string, a: string, b: string)
    requires IsEscape(escape) && IsCanonical(Parsed(params), escape, a) && IsCanonical(Parsed(others), escape, b)
    ensures a == b <==> multiset(params) == multiset(others)
  {
    CanonicalIsNormalForm(Parsed(params), Parsed(others), escape, a, b);
    SameParameters(params, others);
  }

  // ---- The form as it is written ----

  // Keys ascend, by the first character where they differ.
  ghost predicate KeysAscend(keys: seq<string>) {
    forall i, j | 0 <= i < j < |keys| :: FirstDiffers(keys[i], keys[j])
  }

  // A group is its key and the key's values, in an order where none comes before
  // an earlier one, each behind an equals sign.
  ghost predicate GroupOf(q: Query, k: string, group: string, escape: string -> string) {
    k in q && exists values ::
      && multiset(values) == multiset(q[k])
      && (forall i, j | 0 <= i < j < |values| :: !FirstDiffers(values[j], values[i]))
      && Split(group, '=') == [escape(k)] + EscapeAll(values, escape)
  }

  // The canonical form of a query that is not empty, cut at "&", has one group a
  // key, in ascending order of keys.
  lemma CanonicalReads(q: Query, escape: string -> string, out: string) returns (keys: seq<string>)
    requires IsEscape(escape) && IsCanonical(q, escape, out) && q != map[]
    ensures KeysAscend(keys) && (forall k :: k in keys <==> k in q)
    ensures |Split(out, '&')| == |keys|
    ensures forall i | 0 <= i < |keys| :: GroupOf(q, keys[i], Split(out, '&')[i], escape)
  {
    keys :| Lists(keys, q) && out == Render(q, keys, escape);
    forall k
      ensures k in keys <==> k in q
    {
      assert k in multiset(keys) <==> k in q.Keys;
    }
    RenderReads(q, keys, escape);
    ListsAscend(keys, q);
    forall i | 0 <= i < |keys|
      ensures GroupOf(q, keys[i], Split(out, '&')[i], escape)
    {
      GroupIsWritten(q, keys[i], escape);
    }
  }

  lemma ListsAscend(keys: seq<string>, q: Query)
    requires Lists(keys, q)
    ensures KeysAscend(keys)
  {
    forall i, j | 0 <= i < j < |keys|
      ensures FirstDiffers(keys[i], keys[j])
    {
      if keys[i] == keys[j] {
        TwiceListed(keys, i, j);
      }
      BeforeTotal(keys[i], keys[j]);
      BeforeIsFirstDifference(keys[i], keys[j]);
    }
  }

  lemma TwiceListed(keys: seq<string>, i: nat, j: nat)
    requires i < j < |keys| && keys[i] == keys[j]
    ensures multiset(keys)[keys[i]] > 1
  {
    assert keys == keys[..j] + keys[j..];
    assert keys[..j][i] == keys[i] && keys[j..][0] == keys[i];
  }

  lemma GroupIsWritten(q: Query, k: string, escape: string -> string)
    requires IsEscape(escape) && k in q
    ensures GroupOf(q, k, Join(Words(q, k, escape), '='), escape)
  {
    var values, words := SortText(q[k]), Words(q, k, escape);
    SortedInOrder(q[k]);
    hide SortText;
    hide Join;
    hide Split;
    hide FirstDiffers;
    forall i | 0 <= i < |words|
      ensures '=' !in words[i]
    {
      assert words[i] == escape(([k] + values)[i]);
    }
    SplitJoin(words, '=');
    assert words == [escape(k)] + EscapeAll(values, escape);
  }

  lemma SortedInOrder(s: seq<string>)
    ensures var values := SortText(s);
            && multiset(values) == multiset(s)
            && forall i, j | 0 <= i < j < |values| :: !FirstDiffers(values[j], values[i])
  {
    var values := SortText(s);
    SortTextSorts(s);
    hide SortText;
    forall i, j | 0 <= i < j < |values|
      ensures !FirstDiffers(values[j], values[i])
    {
      BeforeIsFirstDifference(values[j], values[i]);
    }
  }
}
