/** JSON documents and their texts (RFC 8259).

    A document is printed token by token with arbitrary whitespace after each
    token. String bodies are kept in their escaped form, as they stand between
    the quotes. */
module Json {
  import opened Basics

  datatype Value =
    | Str(raw: string)
    | Scalar(text: string)
    | Array(elements: Elements)
    | Object(members: Members)

  datatype Elements = NoElements | Element(head: Value, tail: Elements)

  datatype Members = NoMembers | Member(key: string, value: Value, rest: Members)

  /** An escaped body: every quote is escaped and the last escape is complete. */
  predicate Escaped(raw: string) {
    if raw == "" then true
    else if raw[0] == '\\' then |raw| >= 2 && Escaped(raw[2..])
    else raw[0] != '"' && Escaped(raw[1..])
  }

  /** The characters of numbers, `true`, `false` and `null`. */
  predicate ScalarChar(c: char) {
    '0' <= c <= '9' || 'a' <= c <= 'z' || 'A' <= c <= 'Z' || c == '-' || c == '+' || c == '.'
  }

  predicate ScalarText(t: string) {
    t != "" && forall i :: 0 <= i < |t| ==> ScalarChar(t[i])
  }

  predicate Valid(v: Value) {
    match v
    case Str(raw) => Escaped(raw)
    case Scalar(t) => ScalarText(t)
    case Array(es) => ValidElements(es)
    case Object(ms) => ValidMembers(ms)
  }

  predicate ValidElements(es: Elements) {
    es.Element? ==> Valid(es.head) && ValidElements(es.tail)
  }

  predicate ValidMembers(ms: Members) {
    ms.Member? ==> Escaped(ms.key) && Valid(ms.value) && ValidMembers(ms.rest)
  }

  /** The value of the first member, at any depth and in document order, whose
      key is written exactly as `key`. */
  function FirstMember(v: Value, key: string): Option<Value> {
    match v
    case Str(_) => None
    case Scalar(_) => None
    case Array(es) => FirstInElements(es, key)
    case Object(ms) => FirstInMembers(ms, key)
  }

  function FirstInElements(es: Elements, key: string): Option<Value> {
    match es
    case NoElements => None
    case Element(head, tail) =>
      var first := FirstMember(head, key);
      if first.Some? then first else FirstInElements(tail, key)
  }

  function FirstInMembers(ms: Members, key: string): Option<Value> {
    match ms
    case NoMembers => None
    case Member(k, value, rest) =>
      if k == key then Some(value)
      else
        var first := FirstMember(value, key);
        if first.Some? then first else FirstInMembers(rest, key)
  }

  // ------------------------------------------------------------------ tokens

  datatype Token = Quoted(raw: string) | Bare(text: string) | Punct(c: char)

  function Tokens(v: Value): (ts: seq<Token>)
    ensures ts != [] && ts[0] != Punct(':') && ts[0] != Punct(',')
    decreases v
  {
    match v
    case Str(raw) => [Quoted(raw)]
    case Scalar(t) => [Bare(t)]
    case Array(es) => [Punct('[')] + ElementTokens(es) + [Punct(']')]
    case Object(ms) => [Punct('{')] + MemberTokens(ms) + [Punct('}')]
  }

  function ElementTokens(es: Elements): (ts: seq<Token>)
    ensures ts != [] ==> ts[0] != Punct(':')
    decreases es
  {
    match es
    case NoElements => []
    case Element(head, NoElements) => Tokens(head)
    case Element(head, tail) => Tokens(head) + [Punct(',')] + ElementTokens(tail)
  }

  function MemberTokens(ms: Members): (ts: seq<Token>)
    ensures ts != [] ==> ts[0] != Punct(':')
    decreases ms
  {
    match ms
    case NoMembers => []
    case Member(key, value, NoMembers) => [Quoted(key), Punct(':')] + Tokens(value)
    case Member(key, value, rest) => [Quoted(key), Punct(':')] + Tokens(value) + [Punct(',')] + MemberTokens(rest)
  }

  // -------------------------------------------------- what can follow a token

  predicate TokenOk(t: Token) {
    match t
    case Quoted(raw) => Escaped(raw)
    case Bare(text) => ScalarText(text)
    case Punct(c) => c in "{}[],:"
  }

  /** Tokens are well formed, and only punctuation follows a string. */
  ghost predicate Lexical(ts: seq<Token>) {
    && (forall i :: 0 <= i < |ts| ==> TokenOk(ts[i]))
    && (forall i :: 0 < i < |ts| && ts[i - 1].Quoted? ==> ts[i].Punct?)
  }

  lemma {:induction false} LexicalConcat(a: seq<Token>, b: seq<Token>)
    requires Lexical(a) && Lexical(b)
    requires a != [] && b != [] && Last(a).Quoted? ==> b[0].Punct?
    ensures Lexical(a + b)
  {
    var ts := a + b;
    forall i | 0 < i < |ts| && ts[i - 1].Quoted? ensures ts[i].Punct? {
      if i > |a| {
        assert ts[i - 1] == b[i - 1 - |a|] && ts[i] == b[i - |a|];
      }
    }
  }

  lemma {:induction false} TokensLexical(v: Value)
    requires Valid(v)
    ensures Lexical(Tokens(v))
    decreases v
  {
    match v {
      case Str(_) =>
      case Scalar(_) =>
      case Array(es) =>
        ElementsLexical(es);
        LexicalConcat([Punct('[')], ElementTokens(es));
        LexicalConcat([Punct('[')] + ElementTokens(es), [Punct(']')]);
      case Object(ms) =>
        MembersLexical(ms);
        LexicalConcat([Punct('{')], MemberTokens(ms));
        LexicalConcat([Punct('{')] + MemberTokens(ms), [Punct('}')]);
    }
  }

  lemma {:induction false} ElementsLexical(es: Elements)
    requires ValidElements(es)
    ensures Lexical(ElementTokens(es))
    decreases es
  {
    if es.Element? {
      TokensLexical(es.head);
      ElementsLexical(es.tail);
      LexicalConcat(Tokens(es.head), [Punct(',')]);
      LexicalConcat(Tokens(es.head) + [Punct(',')], ElementTokens(es.tail));
    }
  }

  lemma {:induction false} MembersLexical(ms: Members)
    requires ValidMembers(ms)
    ensures Lexical(MemberTokens(ms))
    decreases ms
  {
    if ms.Member? {
      var key := [Quoted(ms.key), Punct(':')];
      TokensLexical(ms.value);
      MembersLexical(ms.rest);
      LexicalConcat(key, Tokens(ms.value));
      LexicalConcat(key + Tokens(ms.value), [Punct(',')]);
      LexicalConcat(key + Tokens(ms.value) + [Punct(',')], MemberTokens(ms.rest));
    }
  }

  // --------------------------------------------------- keys in a token sequence

  /** Token `i` is `key` followed by a colon. */
  predicate KeyAt(ts: seq<Token>, key: string, i: int) {
    0 <= i < |ts| - 1 && ts[i] == Quoted(key) && ts[i + 1] == Punct(':')
  }

  ghost predicate KeyFree(ts: seq<Token>, key: string) {
    forall i :: !KeyAt(ts, key, i)
  }

  lemma {:induction false} KeyFreeConcat(a: seq<Token>, b: seq<Token>, key: string)
    requires KeyFree(a, key) && KeyFree(b, key)
    requires a != [] && b != [] && Last(a) == Quoted(key) ==> b[0] != Punct(':')
    ensures KeyFree(a + b, key)
  {
    forall i ensures !KeyAt(a + b, key, i) {
      assert !KeyAt(a, key, i) && !KeyAt(b, key, i - |a|);
    }
  }

  /** A first occurrence of a member inside a token sequence. */
  datatype Split = Split(before: seq<Token>, after: seq<Token>)

  /** `ts` is `before`, the key, a colon, the value, `after`; no such key comes
      earlier, a brace or comma precedes it and a comma or brace follows. */
  ghost predicate SplitsAt(ts: seq<Token>, key: string, value: Value, s: Split) {
    && ts == s.before + [Quoted(key), Punct(':')] + Tokens(value) + s.after
    && KeyFree(s.before, key)
    && (s.before == [] || Last(s.before) == Punct('{') || Last(s.before) == Punct(','))
    && (s.after == [] || s.after[0] == Punct('}') || s.after[0] == Punct(','))
  }

  /** A split in the middle part is a split of the whole. */
  lemma {:induction false} SplitInside(left: seq<Token>, mid: seq<Token>, right: seq<Token>, key: string, value: Value, s: Split) returns (s': Split)
    requires SplitsAt(mid, key, value, s) && KeyFree(left, key)
    requires left != [] && Last(left).Punct?
    requires s.before == [] ==> Last(left) == Punct('{') || Last(left) == Punct(',')
    requires s.after == [] ==> right == [] || right[0] == Punct('}') || right[0] == Punct(',')
    ensures SplitsAt(left + mid + right, key, value, s')
    ensures s'.before == left + s.before && s'.after == s.after + right
  {
    s' := Split(left + s.before, s.after + right);
    KeyFreeConcat(left, s.before, key);
    Regroup(left, s.before, [Quoted(key), Punct(':')], Tokens(value), s.after, right);
    assert s.before != [] ==> Last(s'.before) == Last(s.before);
    assert s.before == [] ==> s'.before == left;
  }

  lemma {:induction false} Regroup<T>(l: seq<T>, b: seq<T>, k: seq<T>, v: seq<T>, a: seq<T>, r: seq<T>)
    ensures l + (b + k + v + a) + r == (l + b) + k + v + (a + r)
  {
  }

  ghost predicate Inner(s: Split) {
    s.before != [] && s.after != []
  }

  /** Document order in the text: the first member found in the tree is the
      first key followed by a colon in the tokens. */
  lemma {:induction false} FirstMemberSplits(v: Value, key: string) returns (s: Split)
    ensures FirstMember(v, key).Some? ==> SplitsAt(Tokens(v), key, FirstMember(v, key).value, s) && Inner(s)
    ensures FirstMember(v, key).None? ==> KeyFree(Tokens(v), key)
    decreases v
  {
    s := Split([], []);
    match v {
      case Str(_) =>
      case Scalar(_) =>
      case Array(es) =>
        var left, right := [Punct('[')], [Punct(']')];
        s := ElementSplits(es, key);
        if FirstMember(v, key).Some? {
          s := SplitInside(left, ElementTokens(es), right, key, FirstMember(v, key).value, s);
        } else {
          KeyFreeBetween(left, ElementTokens(es), right, key);
        }
      case Object(ms) =>
        var left, right := [Punct('{')], [Punct('}')];
        s := MemberSplits(ms, key);
        if FirstMember(v, key).Some? {
          s := SplitInside(left, MemberTokens(ms), right, key, FirstMember(v, key).value, s);
        } else {
          KeyFreeBetween(left, MemberTokens(ms), right, key);
        }
    }
  }

  lemma {:induction false} KeyFreeBetween(left: seq<Token>, mid: seq<Token>, right: seq<Token>, key: string)
    requires KeyFree(left, key) && KeyFree(mid, key) && KeyFree(right, key)
    requires left != [] && Last(left).Punct? && (right != [] ==> right[0] != Punct(':'))
    ensures KeyFree(left + mid + right, key)
  {
    KeyFreeConcat(left, mid, key);
    KeyFreeConcat(left + mid, right, key);
  }

  lemma {:induction false} ElementSplits(es: Elements, key: string) returns (s: Split)
    ensures FirstInElements(es, key).Some? ==> SplitsAt(ElementTokens(es), key, FirstInElements(es, key).value, s) && Inner(s)
    ensures FirstInElements(es, key).None? ==> KeyFree(ElementTokens(es), key)
    decreases es
  {
    s := Split([], []);
    if es.Element? {
      s := FirstMemberSplits(es.head, key);
      var more := if es.tail.NoElements? then [] else [Punct(',')] + ElementTokens(es.tail);
      assert ElementTokens(es) == Tokens(es.head) + more;
      if FirstMember(es.head, key).Some? {
        s := SplitBefore(Tokens(es.head), more, key, FirstMember(es.head, key).value, s);
      } else {
        var s' := ElementSplits(es.tail, key);
        s := LaterSplits(Tokens(es.head), ElementTokens(es.tail), key, FirstInElements(es.tail, key), s');
        if es.tail.NoElements? {
          assert Tokens(es.head) + more == Tokens(es.head);
        } else {
          assert Tokens(es.head) + more == Tokens(es.head) + [Punct(',')] + ElementTokens(es.tail);
        }
      }
    }
  }

  /** A split stays one when more tokens follow. */
  lemma {:induction false} SplitBefore(mid: seq<Token>, right: seq<Token>, key: string, value: Value, s: Split) returns (s': Split)
    requires SplitsAt(mid, key, value, s)
    requires s.after == [] ==> right == [] || right[0] == Punct('}') || right[0] == Punct(',')
    ensures SplitsAt(mid + right, key, value, s')
    ensures s'.before == s.before && s'.after == s.after + right
  {
    s' := s.(after := s.after + right);
    Regroup([], s.before, [Quoted(key), Punct(':')], Tokens(value), s.after, right);
    assert [] + mid + right == mid + right && [] + s.before == s.before;
  }

  /** Moves the result for the tokens after a comma to the whole list. */
  lemma {:induction false} LaterSplits(first: seq<Token>, later: seq<Token>, key: string, found: Option<Value>, s: Split) returns (s': Split)
    requires KeyFree(first, key)
    requires found.Some? ==> SplitsAt(later, key, found.value, s)
    requires found.None? ==> KeyFree(later, key)
    ensures found.Some? ==> SplitsAt(first + [Punct(',')] + later, key, found.value, s') && s'.before != []
    ensures found.Some? ==> s'.after == s.after
    ensures found.None? ==> KeyFree(first + [Punct(',')] + later, key)
  {
    var left := first + [Punct(',')];
    KeyFreeConcat(first, [Punct(',')], key);
    s' := s;
    if found.Some? {
      s' := SplitInside(left, later, [], key, found.value, s);
      assert left + later + [] == left + later;
    } else {
      KeyFreeConcat(left, later, key);
    }
  }

  lemma {:induction false} MemberSplits(ms: Members, key: string) returns (s: Split)
    ensures FirstInMembers(ms, key).Some? ==> SplitsAt(MemberTokens(ms), key, FirstInMembers(ms, key).value, s)
    ensures FirstInMembers(ms, key).None? ==> KeyFree(MemberTokens(ms), key)
    decreases ms
  {
    s := Split([], []);
    if ms.Member? {
      var left := [Quoted(ms.key), Punct(':')];
      var first := left + Tokens(ms.value);
      var more := if ms.rest.NoMembers? then [] else [Punct(',')] + MemberTokens(ms.rest);
      assert MemberTokens(ms) == first + more;
      if ms.key == key {
        s := Split([], more);
        assert first + more == [] + [Quoted(key), Punct(':')] + Tokens(ms.value) + more;
      } else {
        s := FirstMemberSplits(ms.value, key);
        if FirstMember(ms.value, key).Some? {
          s := SplitInside(left, Tokens(ms.value), more, key, FirstMember(ms.value, key).value, s);
        } else {
          KeyFreeConcat(left, Tokens(ms.value), key);
          var s' := MemberSplits(ms.rest, key);
          s := LaterSplits(first, MemberTokens(ms.rest), key, FirstInMembers(ms.rest, key), s');
          if ms.rest.NoMembers? {
            assert first + more == first;
          } else {
            assert first + more == first + [Punct(',')] + MemberTokens(ms.rest);
          }
        }
      }
    }
  }
}
