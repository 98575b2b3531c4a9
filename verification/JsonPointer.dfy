// Resolving a local JSON pointer (server/internal/assets/schema_guard.go:187-208;
// sections 3 and 4 of RFC 6901).
module JsonPointer {
  import opened Wrappers
  import opened JsonValue
  import opened Text

  // strings.ReplaceAll of the two characters "~c" by one.
  function Replace(s: string, c: char, out: char): string {
    if |s| < 2 then s
    else if s[0] == '~' && s[1] == c then [out] + Replace(s[2..], c, out)
    else [s[0]] + Replace(s[1..], c, out)
  }

  function Unescape(tok: string): string { Replace(Replace(tok, '1', '/'), '0', '~') }

  function Follow(cur: Json, toks: seq<string>): Option<Json> {
    if toks == [] then Some(cur)
    else if !cur.Object? then None
    else
      match Get(cur.members, Unescape(toks[0]))
      case None => None
      case Some(v) => Follow(v, toks[1..])
  }

  predicate IsLocal(ref: string) { ref == "#" || "#/" <= ref }

  // The path written in a reference; without the prefix, all of it.
  function Segments(ref: string): seq<string> { Split(if "#/" <= ref then ref[2..] else ref, '/') }

  function Resolve(root: Json, ref: string): Option<Json> {
    if ref == "#" then Some(root) else Follow(root, Segments(ref))
  }

  method ResolvePointer(root: Json, ref: string) returns (r: Option<Json>)
    ensures r == Resolve(root, ref)
  {
    if ref == "#" {
      return Some(root);
    }
    var cur := root;
    var toks := Split(if "#/" <= ref then ref[2..] else ref, '/');
    for i := 0 to |toks|
      invariant Follow(root, toks) == Follow(cur, toks[i..])
    {
      assert toks[i..][1..] == toks[i + 1..];
      var tok := Unescape(toks[i]);
      if !cur.Object? {
        return None;
      }
      var v := Get(cur.members, tok);
      if v.None? {
        return None;
      }
      cur := v.value;
    }
    return Some(cur);
  }

  // ---- Every key can be pointed at ----

  function Escape(key: string): string {
    if key == "" then ""
    else (if key[0] == '~' then "~0" else if key[0] == '/' then "~1" else [key[0]]) + Escape(key[1..])
  }

  function Pointer(keys: seq<string>): string
    requires keys != []
  {
    if |keys| == 1 then Escape(keys[0]) else Escape(keys[0]) + "/" + Pointer(keys[1..])
  }

  // The value under a path of keys.
  function At(cur: Json, keys: seq<string>): Option<Json> {
    if keys == [] then Some(cur)
    else if !cur.Object? then None
    else
      match Get(cur.members, keys[0])
      case None => None
      case Some(v) => At(v, keys[1..])
  }

  // Only "~1" is undone by the first replacement.
  function HalfEscape(key: string): string {
    if key == "" then ""
    else (if key[0] == '~' then "~0" else [key[0]]) + HalfEscape(key[1..])
  }

  lemma {:induction false} SlashesReturn(key: string)
    ensures Replace(Escape(key), '1', '/') == HalfEscape(key)
  {
    if key != "" {
      var rest := Escape(key[1..]);
      SlashesReturn(key[1..]);
      if key[0] == '~' {
        assert Escape(key) == "~0" + rest;
        assert ("~0" + rest)[1..] == "0" + rest;
        ReplacePlain('0', rest, '1', '/');
      } else if key[0] == '/' {
        assert Escape(key) == "~1" + rest && ("~1" + rest)[2..] == rest;
      } else {
        assert Escape(key) == [key[0]] + rest;
        ReplacePlain(key[0], rest, '1', '/');
      }
    }
  }

  lemma ReplacePlain(first: char, rest: string, c: char, out: char)
    requires first != '~'
    ensures Replace([first] + rest, c, out) == [first] + Replace(rest, c, out)
  {
    assert ([first] + rest)[1..] == rest;
  }

  lemma {:induction false} TildesReturn(key: string)
    ensures Replace(HalfEscape(key), '0', '~') == key
  {
    if key != "" {
      var rest := HalfEscape(key[1..]);
      TildesReturn(key[1..]);
      if key[0] == '~' {
        assert HalfEscape(key) == "~0" + rest && ("~0" + rest)[2..] == rest;
      } else {
        ReplacePlain(key[0], rest, '0', '~');
      }
      assert key == [key[0]] + key[1..];
    }
  }

  lemma UnescapeEscape(key: string)
    ensures Unescape(Escape(key)) == key
  {
    SlashesReturn(key);
    TildesReturn(key);
  }

  lemma {:induction false} EscapeHasNoSlash(key: string)
    ensures '/' !in Escape(key)
  {
    if key != "" {
      EscapeHasNoSlash(key[1..]);
    }
  }

  lemma {:induction false} FollowPointer(cur: Json, keys: seq<string>)
    requires keys != []
    ensures Follow(cur, Split(Pointer(keys), '/')) == At(cur, keys)
    decreases |keys|
  {
    EscapeHasNoSlash(keys[0]);
    UnescapeEscape(keys[0]);
    var rest := if |keys| == 1 then "" else Pointer(keys[1..]);
    SplitFirst(Escape(keys[0]), rest, '/');
    var toks := Split(Pointer(keys), '/');
    if |keys| == 1 {
      assert toks == [Escape(keys[0])] && toks[1..] == [] && keys[1..] == [];
    } else {
      assert toks[1..] == Split(rest, '/');
      if cur.Object? && Get(cur.members, keys[0]).Some? {
        FollowPointer(Get(cur.members, keys[0]).value, keys[1..]);
      }
    }
  }

  // A pointer written from a path of keys, whatever characters they hold,
  // resolves to the value under that path, or to nothing if there is none.
  lemma PointerResolves(root: Json, keys: seq<string>)
    requires keys != []
    ensures Resolve(root, "#/" + Pointer(keys)) == At(root, keys)
  {
    var ref := "#/" + Pointer(keys);
    assert ref[2..] == Pointer(keys);
    FollowPointer(root, keys);
  }
}
