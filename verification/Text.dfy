// The functions of Go's strings package that the modelled code calls, on
// sequences of characters.
module Text {
  import opened Wrappers

  function CutPrefix(s: string, prefix: string): (r: Option<string>)
    ensures r.Some? <==> prefix <= s
    ensures r.Some? ==> s == prefix + r.value
  {
    if prefix <= s then Some(s[|prefix|..]) else None
  }

  predicate HasSuffix(s: string, suffix: string) {
    |suffix| <= |s| && s[|s| - |suffix|..] == suffix
  }

  function CutSuffix(s: string, suffix: string): (r: Option<string>)
    ensures r.Some? <==> HasSuffix(s, suffix)
    ensures r.Some? ==> s == r.value + suffix
  {
    if HasSuffix(s, suffix) then Some(s[..|s| - |suffix|]) else None
  }

  // The text before and after the first occurrence of sep.
  function Cut(s: string, sep: string): (r: Option<(string, string)>)
    ensures r.Some? ==> s == r.value.0 + sep + r.value.1
    ensures r.Some? ==> forall i | 0 <= i < |r.value.0| :: !(sep <= s[i..])
    ensures r.None? ==> forall i | 0 <= i <= |s| :: !(sep <= s[i..])
  {
    if sep <= s then
      Some(("", s[|sep|..]))
    else if s == "" then
      None
    else
      match Cut(s[1..], sep)
      case None =>
        assert forall i | 1 <= i <= |s| :: s[i..] == s[1..][i - 1..];
        None
      case Some((before, after)) =>
        assert s == [s[0]] + s[1..];
        assert forall i | 1 <= i <= |before| :: s[i..] == s[1..][i - 1..];
        Some(([s[0]] + before, after))
  }

  lemma CutStep(c: char, rest: string, sep: string)
    requires sep != "" && sep[0] != c
    ensures Cut([c] + rest, sep) ==
            (match Cut(rest, sep) case None => None case Some((before, after)) => Some(([c] + before, after)))
  {
    assert ([c] + rest)[1..] == rest;
  }

  lemma CutHere(sep: string, after: string)
    ensures Cut(sep + after, sep) == Some(("", after))
  {
  }

  // A separator can only be found at a position that its first character occupies.
  lemma {:induction false} CutAt(before: string, sep: string, after: string)
    requires sep != "" && sep[0] !in before
    ensures Cut(before + sep + after, sep) == Some((before, after))
  {
    if before == "" {
      assert before + sep + after == sep + after;
      CutHere(sep, after);
    } else {
      var rest := before[1..] + sep + after;
      assert before + sep + after == [before[0]] + rest;
      CutAt(before[1..], sep, after);
      CutStep(before[0], rest, sep);
      assert before == [before[0]] + before[1..];
    }
  }

  lemma CutNeedsEveryCharacter(s: string, sep: string, c: char)
    requires c in sep && c !in s
    ensures Cut(s, sep) == None
  {
    var k :| 0 <= k < |sep| && sep[k] == c;
    assert forall i | 0 <= i < |s| :: s[i] != c;
    if s != "" {
      CutNeedsEveryCharacter(s[1..], sep, c);
    }
  }

  // A separator starting with a space is not found inside a word without one.
  lemma CutKeepsWord(word: string, text: string, sep: string)
    requires sep != "" && sep[0] == ' ' && ' ' !in word
    ensures var r := Cut(word + text, sep); r.Some? ==> word <= r.value.0
  {
    if word != "" {
      assert (word + text)[1..] == word[1..] + text;
      CutKeepsWord(word[1..], text, sep);
    }
  }

  lemma SuffixIsLast(s: string, suffix: string)
    ensures HasSuffix(s + suffix, suffix) && CutSuffix(s + suffix, suffix) == Some(s)
  {
    assert (s + suffix)[|s|..] == suffix;
    assert (s + suffix)[..|s|] == s;
  }

  // strings.Split on one character.
  function Split(s: string, sep: char): (r: seq<string>)
    ensures r != []
  {
    if s == "" then [""]
    else
      var rest := Split(s[1..], sep);
      if s[0] == sep then [""] + rest else [[s[0]] + rest[0]] + rest[1..]
  }

  lemma {:induction false} SplitFirst(word: string, rest: string, sep: char)
    requires sep !in word
    ensures Split(word, sep) == [word]
    ensures Split(word + [sep] + rest, sep) == [word] + Split(rest, sep)
  {
    var s := word + [sep] + rest;
    if word == "" {
      assert s == [sep] + rest && s[1..] == rest;
    } else {
      assert s[1..] == word[1..] + [sep] + rest;
      SplitFirst(word[1..], rest, sep);
      assert word == [word[0]] + word[1..];
    }
  }
}
