// The structural limits on JSON documents, enforced on their token stream
// (server/internal/auditpkg/limits.go:13-135,
// server/internal/auditpkg/canonical.go:20-27).
module Limits {
  import opened Wrappers
  import opened JsonValue
  import Decimal

  const MAX_OBJECT_DEPTH: nat := 32
  const MAX_STRING_LENGTH: nat := 32768
  const MAX_ARRAY_LENGTH: nat := 4096
  const MAX_OBJECT_KEYS: nat := 4096
  const SAFE_INTEGER_BOUND: int := 9007199254740991

  datatype Token = Open(isObject: bool) | Close | TextToken(s: string) | NumberToken(literal: string) | OtherToken

  function Tokens(j: Json): seq<Token>
    decreases j, 1
  {
    match j
    case Text(s) => [TextToken(s)]
    case Number(literal) => [NumberToken(literal)]
    case Boolean(_) => [OtherToken]
    case Null => [OtherToken]
    case Array(items) => [Open(false)] + (ItemTokens(items) + [Close])
    case Object(members) => [Open(true)] + (MemberTokens(members) + [Close])
  }

  function ItemTokens(items: seq<Json>): seq<Token>
    decreases items, 0
  {
    if items == [] then [] else Tokens(items[0]) + ItemTokens(items[1..])
  }

  function MemberTokens(members: seq<Member>): seq<Token>
    decreases members, 0
  {
    if members == [] then []
    else [TextToken(members[0].key)] + (Tokens(members[0].value) + MemberTokens(members[1..]))
  }

  // ---- The limits, read off the document ----

  // A literal without fraction or exponent is an integer, and must be one every
  // party reads alike.
  predicate SafeNumber(literal: string) {
    || '.' in literal || 'e' in literal || 'E' in literal
    || (Decimal.ParseInteger(literal).Some? &&
      -SAFE_INTEGER_BOUND <= Decimal.ParseInteger(literal).value <= SAFE_INTEGER_BOUND)
  }

  // Every string and key, every number, every array and object is within
  // bounds.
  predicate Bounded(j: Json)
    decreases j, 1
  {
    match j
    case Text(s) => |s| <= MAX_STRING_LENGTH
    case Number(literal) => SafeNumber(literal)
    case Boolean(_) => true
    case Null => true
    case Array(items) => |items| <= MAX_ARRAY_LENGTH && forall i | 0 <= i < |items| :: Bounded(items[i])
    case Object(members) =>
      |members| <= MAX_OBJECT_KEYS &&
      forall i | 0 <= i < |members| :: |members[i].key| <= MAX_STRING_LENGTH && Bounded(members[i].value)
  }

  // ---- The stack machine ----

  datatype Container = Container(isObject: bool, count: nat, awaitingValue: bool)

  datatype State = State(depth: nat, stack: seq<Container>)

  const START := State(0, [])

  function WithTop(s: State, c: Container): State
    requires s.stack != []
  {
    s.(stack := s.stack[|s.stack| - 1 := c])
  }

  function Record(s: State, isLeaf: bool): Result<State> {
    if s.stack == [] then Ok(s)
    else
      var top := s.stack[|s.stack| - 1];
      if top.isObject && isLeaf && !top.awaitingValue then Ok(WithTop(s, top.(awaitingValue := true)))
      else
        var counted := top.(count := top.count + 1, awaitingValue := if top.isObject then false else top.awaitingValue);
        if counted.count > (if top.isObject then MAX_OBJECT_KEYS else MAX_ARRAY_LENGTH) then Err
          else Ok(WithTop(s, counted))
  }

  function Step(s: State, tok: Token): Result<State> {
    match tok
    case Open(isObject) =>
      if s.depth + 1 > MAX_OBJECT_DEPTH then Err
      else Ok(State(s.depth + 1, s.stack + [Container(isObject, 0, false)]))
    case Close =>
      if s.depth > 0 && s.stack != [] then Record(State(s.depth - 1, s.stack[..|s.stack| - 1]), false)
        else Record(s, false)
    case TextToken(t) => if |t| > MAX_STRING_LENGTH then Err else Record(s, true)
    case NumberToken(literal) => if SafeNumber(literal) then Record(s, true) else Err
    case OtherToken => Record(s, true)
  }

  function Feed(s: State, toks: seq<Token>): Result<State>
    decreases |toks|
  {
    if toks == [] then Ok(s)
    else
      match Step(s, toks[0])
      case Err => Err
      case Ok(s') => Feed(s', toks[1..])
  }

  // ---- The decoder, step by step ----

  class LimitDecoder {
    var depth: nat
    var stack: seq<Container>

    constructor ()
      ensures Now() == START
    {
      depth, stack := 0, [];
    }

    ghost function Now(): State
      reads this
    {
      State(depth, stack)
    }

    method Walk(toks: seq<Token>) returns (ok: bool)
      modifies this
      ensures match Feed(old(Now()), toks)
              case Err => !ok
              case Ok(s) => ok && Now() == s
    {
      for i := 0 to |toks|
        invariant Feed(old(Now()), toks) == Feed(Now(), toks[i..])
      {
        assert toks[i..][1..] == toks[i + 1..];
        ok := Handle(toks[i]);
        if !ok {
          return;
        }
      }
      ok := true;
    }

    method Handle(tok: Token) returns (ok: bool)
      modifies this
      ensures match Step(old(Now()), tok)
              case Err => !ok
              case Ok(s) => ok && Now() == s
    {
      ok := true;
      match tok {
        case Open(isObject) =>
          depth := depth + 1;
          if depth > MAX_OBJECT_DEPTH {
            ok := false;
          } else {
            stack := stack + [Container(isObject, 0, false)];
          }
        case Close =>
          if depth > 0 && stack != [] {
            depth := depth - 1;
            stack := stack[..|stack| - 1];
          }
          ok := RecordElement(false);
        case TextToken(t) =>
          ok := |t| <= MAX_STRING_LENGTH;
          if ok {
            ok := RecordElement(true);
          }
        case NumberToken(literal) =>
          ok := CheckSafeInteger(literal);
          if ok {
            ok := RecordElement(true);
          }
        case OtherToken =>
          ok := RecordElement(true);
      }
    }

    method RecordElement(isLeaf: bool) returns (ok: bool)
      modifies this
      ensures match Record(old(Now()), isLeaf)
              case Err => !ok
              case Ok(s) => ok && Now() == s
    {
      if |stack| == 0 {
        return true;
      }
      var last := |stack| - 1;
      var top := stack[last];
      if top.isObject {
        if isLeaf && !top.awaitingValue {
          stack := stack[last := top.(awaitingValue := true)];
          return true;
        }
        top := top.(awaitingValue := false);
      }
      top := top.(count := top.count + 1);
      stack := stack[last := top];
      if top.isObject {
        return top.count <= MAX_OBJECT_KEYS;
      }
      return top.count <= MAX_ARRAY_LENGTH;
    }
  }

  method CheckSafeInteger(literal: string) returns (ok: bool)
    ensures ok <==> SafeNumber(literal)
  {
    if '.' in literal || 'e' in literal || 'E' in literal {
      return true;
    }
    var i := Decimal.ParseInteger(literal);
    if i.None? {
      return false;
    }
    var magnitude := if i.value < 0 then -i.value else i.value;
    return magnitude <= SAFE_INTEGER_BOUND;
  }

  // ---- The walk is the definition ----

  predicate Balanced(s: State) { s.depth == |s.stack| }

  // The next value completes an element: there is no container, or it is an
  // array, or an object that read a key.
  predicate AwaitsValue(s: State) {
    s.stack != [] ==> (s.stack[|s.stack| - 1].isObject <==> s.stack[|s.stack| - 1].awaitingValue)
  }

  // The state once n more elements of the innermost container are complete.
  function Counted(s: State, n: nat): State {
    if s.stack == [] then s
    else
      var top := s.stack[|s.stack| - 1];
      WithTop(s, top.(count := top.count + n, awaitingValue := false))
  }

  predicate Room(s: State, n: nat) {
    s.stack == [] || s.stack[|s.stack| - 1].count + n <= MAX_ARRAY_LENGTH
  }

  predicate BoundedAll(items: seq<Json>) { forall i | 0 <= i < |items| :: Bounded(items[i]) }

  predicate BoundedMembers(members: seq<Member>) {
    forall i | 0 <= i < |members| :: |members[i].key| <= MAX_STRING_LENGTH && Bounded(members[i].value)
  }

  lemma FeedOne(s: State, tok: Token, rest: seq<Token>)
    ensures Feed(s, [tok] + rest) == match Step(s, tok) case Err => Err case Ok(s') => Feed(s', rest)
  {
    assert ([tok] + rest)[1..] == rest;
  }

  // Feeding the rest from s, or refusing.
  function Onward(ok: bool, s: State, rest: seq<Token>): Result<State> { if ok then Feed(s, rest) else Err }

  predicate Accepts(s: State, j: Json) {
    Bounded(j) && s.depth + Height(j) <= MAX_OBJECT_DEPTH && Room(s, 1)
  }

  lemma FeedLeaf(s: State, j: Json, rest: seq<Token>)
    requires Balanced(s) && AwaitsValue(s) && s.depth <= MAX_OBJECT_DEPTH && !j.Array? && !j.Object?
    ensures Feed(s, Tokens(j) + rest) == Onward(Accepts(s, j), Counted(s, 1), rest)
  {
    FeedOne(s, Tokens(j)[0], rest);
  }

  // Feeding a value where one is awaited completes one element, exactly when
  // the value is within bounds, fits under the depth left, and is not one
  // element too many.
  lemma {:induction false} FeedValue(s: State, j: Json, rest: seq<Token>)
    requires Balanced(s) && AwaitsValue(s) && s.depth <= MAX_OBJECT_DEPTH && Room(s, 0)
    ensures Feed(s, Tokens(j) + rest) == Onward(Accepts(s, j), Counted(s, 1), rest)
    decreases j, 1
  {
    if j.Array? {
      FeedArray(s, j, rest);
    } else if j.Object? {
      FeedObject(s, j, rest);
    } else {
      FeedLeaf(s, j, rest);
    }
  }

  lemma {:induction false} FeedArray(s: State, j: Json, rest: seq<Token>)
    requires Balanced(s) && AwaitsValue(s) && s.depth <= MAX_OBJECT_DEPTH && j.Array?
    ensures Feed(s, Tokens(j) + rest) == Onward(Accepts(s, j), Counted(s, 1), rest)
    decreases j, 0
  {
    FeedOpen(s, false, ItemTokens(j.items), rest);
    assert Tokens(j) + rest == [Open(false)] + (ItemTokens(j.items) + ([Close] + rest));
    if s.depth < MAX_OBJECT_DEPTH {
      FeedItems(Opened(s, false), j.items, [Close] + rest);
      FeedClose(s, false, |j.items|, rest);
    }
  }

  lemma {:induction false} FeedObject(s: State, j: Json, rest: seq<Token>)
    requires Balanced(s) && AwaitsValue(s) && s.depth <= MAX_OBJECT_DEPTH && j.Object?
    ensures Feed(s, Tokens(j) + rest) == Onward(Accepts(s, j), Counted(s, 1), rest)
    decreases j, 0
  {
    FeedOpen(s, true, MemberTokens(j.members), rest);
    assert Tokens(j) + rest == [Open(true)] + (MemberTokens(j.members) + ([Close] + rest));
    if s.depth < MAX_OBJECT_DEPTH {
      FeedMembers(Opened(s, true), j.members, [Close] + rest);
      FeedClose(s, true, |j.members|, rest);
    }
  }

  function Opened(s: State, isObject: bool): State { State(s.depth + 1, s.stack + [Container(isObject, 0, false)]) }

  lemma FeedOpen(s: State, isObject: bool, inside: seq<Token>, rest: seq<Token>)
    ensures Feed(s, [Open(isObject)] + (inside + ([Close] + rest))) ==
            Onward(s.depth < MAX_OBJECT_DEPTH, Opened(s, isObject), inside + ([Close] + rest))
  {
    FeedOne(s, Open(isObject), inside + ([Close] + rest));
  }

  // Closing a container completes one element of the one around it.
  lemma FeedClose(s: State, isObject: bool, n: nat, rest: seq<Token>)
    requires Balanced(s) && AwaitsValue(s)
    ensures Feed(Counted(Opened(s, isObject), n), [Close] + rest) == Onward(Room(s, 1), Counted(s, 1), rest)
  {
    var s1 := Counted(Opened(s, isObject), n);
    assert s1.stack[..|s1.stack| - 1] == s.stack;
    FeedOne(s1, Close, rest);
  }

  predicate AcceptsItems(s: State, items: seq<Json>) {
    BoundedAll(items) && s.depth + ItemsHeight(items) <= MAX_OBJECT_DEPTH && Room(s, |items|)
  }

  predicate AcceptsMembers(s: State, members: seq<Member>) {
    BoundedMembers(members) && s.depth + MembersHeight(members) <= MAX_OBJECT_DEPTH && Room(s, |members|)
  }

  // The first element, then the others after it.
  lemma SplitItems(s: State, items: seq<Json>)
    requires items != [] && s.stack != []
    ensures AcceptsItems(s, items) <==> Accepts(s, items[0]) && AcceptsItems(Counted(s, 1), items[1..])
    ensures Counted(Counted(s, 1), |items| - 1) == Counted(s, |items|)
  {
    assert items == [items[0]] + items[1..];
    assert BoundedAll(items) <==> Bounded(items[0]) && BoundedAll(items[1..]);
  }

  lemma {:induction false} FeedItems(s: State, items: seq<Json>, rest: seq<Token>)
    requires Balanced(s) && 0 < s.depth <= MAX_OBJECT_DEPTH && Room(s, 0)
    requires var top := s.stack[|s.stack| - 1]; !top.isObject && !top.awaitingValue
    ensures Feed(s, ItemTokens(items) + rest) ==
            Onward(AcceptsItems(s, items), Counted(s, |items|), rest)
    decreases items, 0
  {
    if items == [] {
      assert Counted(s, 0) == s;
      assert ItemTokens(items) + rest == rest;
    } else {
      var more := ItemTokens(items[1..]) + rest;
      assert ItemTokens(items) + rest == Tokens(items[0]) + more;
      FeedValue(s, items[0], more);
      SplitItems(s, items);
      if Room(s, 1) {
        FeedItems(Counted(s, 1), items[1..], rest);
      }
    }
  }

  lemma SplitMembers(s: State, members: seq<Member>)
    requires members != [] && s.stack != []
    ensures AcceptsMembers(s, members) <==>
            |members[0].key| <= MAX_STRING_LENGTH && Accepts(s, members[0].value) &&
              AcceptsMembers(Counted(s, 1), members[1..])
    ensures Counted(Counted(s, 1), |members| - 1) == Counted(s, |members|)
  {
    assert members == [members[0]] + members[1..];
    assert BoundedMembers(members) <==>
           |members[0].key| <= MAX_STRING_LENGTH && Bounded(members[0].value) && BoundedMembers(members[1..]);
  }

  lemma {:induction false} FeedMembers(s: State, members: seq<Member>, rest: seq<Token>)
    requires Balanced(s) && 0 < s.depth <= MAX_OBJECT_DEPTH && Room(s, 0)
    requires var top := s.stack[|s.stack| - 1]; top.isObject && !top.awaitingValue
    ensures Feed(s, MemberTokens(members) + rest) ==
            Onward(AcceptsMembers(s, members), Counted(s, |members|), rest)
    decreases members, 0
  {
    if members == [] {
      assert Counted(s, 0) == s;
      assert MemberTokens(members) + rest == rest;
    } else {
      hide Bounded;
      hide Tokens;
      hide Height;
      var key, value := members[0].key, members[0].value;
      var more := MemberTokens(members[1..]) + rest;
      assert MemberTokens(members) + rest == [TextToken(key)] + (Tokens(value) + more);
      FeedOne(s, TextToken(key), Tokens(value) + more);
      SplitMembers(s, members);
      var s1 := WithTop(s, s.stack[|s.stack| - 1].(awaitingValue := true));
      FeedValue(s1, value, more);
      assert Counted(s1, 1) == Counted(s, 1);
      if Room(s, 1) {
        FeedMembers(Counted(s, 1), members[1..], rest);
      }
    }
  }

  // For every document, the walk over its tokens accepts exactly when
  // containers nest at most 32 deep and every string, key, number, array and
  // object is within bounds.
  lemma WalkIsDefinition(j: Json)
    ensures Feed(START, Tokens(j)).Ok? <==> Height(j) <= 32 && Bounded(j)
  {
    FeedValue(START, j, []);
    assert Tokens(j) + [] == Tokens(j);
  }

  // An integer written out is accepted exactly within the safe range.
  lemma SafeIntegers(i: int)
    ensures SafeNumber(Decimal.IntText(i)) <==> -SAFE_INTEGER_BOUND <= i <= SAFE_INTEGER_BOUND
  {
    Decimal.ParseIntText(i);
    var t := Decimal.IntText(i);
    forall k | 0 <= k < |t|
      ensures t[k] != '.' && t[k] != 'e' && t[k] != 'E'
    {
      assert t[k] == '-' || Decimal.IsDigit(t[k]);
    }
  }

  // A number literal from its parts: a literal with a fraction or an exponent is
  // not an integer, and every other passes exactly in the safe range.
  lemma SafeLiterals(i: int, fraction: string, mark: char, exponent: string)
    requires Decimal.AllDigits(fraction) && (mark == 'e' || mark == 'E')
    ensures var literal := Decimal.IntText(i) + (if fraction == "" then "" else "." + fraction) +
                           (if exponent == "" then "" else [mark] + exponent);
            SafeNumber(literal) <==>
            fraction != "" || exponent != "" || -9007199254740991 <= i <= 9007199254740991
  {
    var whole := Decimal.IntText(i);
    var point := if fraction == "" then "" else "." + fraction;
    var power := if exponent == "" then "" else [mark] + exponent;
    var literal := whole + point + power;
    if fraction != "" {
      assert literal[|whole|] == '.';
    } else if exponent != "" {
      assert literal[|whole|] == mark;
    } else {
      assert literal == whole;
      SafeIntegers(i);
    }
  }

  // The limits as the profile states them, container by container, whatever the
  // containers hold.
  lemma LimitsAreWritten(s: string, items: seq<Json>, members: seq<Member>)
    ensures Bounded(Text(s)) <==> |s| <= 32768
    ensures Bounded(Array(items)) <==> |items| <= 4096 && forall j | j in items :: Bounded(j)
    ensures Bounded(Object(members)) <==>
            |members| <= 4096 && forall m | m in members :: |m.key| <= 32768 && Bounded(m.value)
  {
    assert forall i | 0 <= i < |items| :: items[i] in items;
    assert forall i | 0 <= i < |members| :: members[i] in members;
  }
}
