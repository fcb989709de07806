/** The scanners against JSON: on the text of any document, printed with any
    whitespace, scanning finds the first member in document order. */
module ScanJson {
  import opened Basics
  import opened Json
  import opened Scanner

  // ---------------------------------------------------------------- printing

  /** A token and the whitespace printed after it. */
  datatype Piece = Piece(tok: Token, ws: string)

  predicate Blank(ws: string) {
    forall i :: 0 <= i < |ws| ==> ws[i] == ' ' || ws[i] == '\t' || ws[i] == '\n' || ws[i] == '\r'
  }

  function TokenText(t: Token): (s: string) {
    match t
    case Quoted(raw) => "\"" + raw + "\""
    case Bare(text) => text
    case Punct(c) => [c]
  }

  function PieceText(x: Piece): string {
    TokenText(x.tok) + x.ws
  }

  function Render(ps: seq<Piece>): string {
    if ps == [] then "" else PieceText(ps[0]) + Render(ps[1..])
  }

  function TokensOf(ps: seq<Piece>): (ts: seq<Token>)
    ensures |ts| == |ps| && forall i :: 0 <= i < |ts| ==> ts[i] == ps[i].tok
  {
    seq(|ps|, i requires 0 <= i < |ps| => ps[i].tok)
  }

  /** `ps` is a printing of well-formed tokens. */
  ghost predicate Printable(ps: seq<Piece>) {
    && Lexical(TokensOf(ps))
    && (forall i :: 0 <= i < |ps| ==> Blank(ps[i].ws))
  }

  /** The pieces print the document `v`, after leading whitespace. */
  ghost predicate Prints(lead: string, ps: seq<Piece>, v: Value) {
    Blank(lead) && Valid(v) && TokensOf(ps) == Tokens(v) && forall i :: 0 <= i < |ps| ==> Blank(ps[i].ws)
  }

  lemma {:induction false} Assoc(a: string, b: string, c: string)
    ensures a + b + c == a + (b + c)
  {
  }

  lemma {:induction false} RenderConcat(a: seq<Piece>, b: seq<Piece>)
    ensures Render(a + b) == Render(a) + Render(b)
  {
    if a == [] {
      assert a + b == b;
    } else {
      RenderConcat(a[1..], b);
      assert (a + b)[1..] == a[1..] + b;
      Assoc(PieceText(a[0]), Render(a[1..]), Render(b));
    }
  }

  lemma {:induction false} PrintableTail(ps: seq<Piece>)
    requires Printable(ps) && ps != []
    ensures Printable(ps[1..]) && TokenOk(ps[0].tok) && Blank(ps[0].ws)
    ensures ps[0].tok.Quoted? && |ps| > 1 ==> ps[1].tok.Punct?
  {
    var ts, rest := TokensOf(ps), TokensOf(ps[1..]);
    assert TokenOk(ts[0]);
    forall i | 0 <= i < |rest| ensures TokenOk(rest[i]) && (i > 0 && rest[i - 1].Quoted? ==> rest[i].Punct?) {
      assert rest[i] == ts[i + 1] && TokenOk(ts[i + 1]);
      assert ts[i].Quoted? ==> ts[i + 1].Punct?;
    }
    assert |ps| > 1 && ts[0].Quoted? ==> ts[1].Punct?;
  }

  // ----------------------------------------------------- whitespace in a text

  lemma {:induction false} SkipBlank(pre: string, ws: string, post: string)
    requires Blank(ws) && (post == "" || !IsAsciiWs(post[0]))
    ensures SkipWs(pre + ws + post, |pre|) == |pre| + |ws|
    decreases |ws|
  {
    var blob := pre + ws + post;
    if ws == "" {
    } else {
      assert blob[|pre|] == ws[0];
      SkipBlank(pre + [ws[0]], ws[1..], post);
      assert (pre + [ws[0]]) + ws[1..] + post == blob;
    }
  }

  lemma {:induction false} TrimBlank(blob: string, e: nat, p: nat)
    requires e <= p <= |blob| && Blank(blob[e..p])
    ensures TrimEndAt(blob, p) == TrimEndAt(blob, e)
    decreases p - e
  {
    if e < p {
      assert blob[e..p][p - 1 - e] == blob[p - 1];
      assert blob[e..p - 1] == blob[e..p][..p - 1 - e];
      TrimBlank(blob, e, p - 1);
    }
  }

  /** Where a piece sits in the text, and what its first character can be. */
  lemma {:induction false} FirstChar(ps: seq<Piece>)
    requires Printable(ps) && ps != []
    ensures var s := Render(ps);
      && s != "" && !IsAsciiWs(s[0])
      && (s[0] == ':' <==> ps[0].tok == Punct(':'))
      && (s[0] == '"' <==> ps[0].tok.Quoted?)
      && (ps[0].tok.Punct? ==> s[0] in "{}[],:")
  {
    PrintableTail(ps);
    var t := TokenText(ps[0].tok);
    assert t != "" && Render(ps)[0] == t[0];
    match ps[0].tok {
      case Quoted(_) =>
      case Bare(text) => assert ScalarChar(text[0]);
      case Punct(c) =>
    }
  }

  // ------------------------------------------------------- inside of a string

  /** An escaped body that begins like a plain key and has a quote or its end
      right there is the key. */
  lemma {:induction false} PlainPrefix(raw: string, key: string)
    requires Escaped(raw) && |key| < |raw| && raw[..|key|] == key && raw[|key|] == '"'
    requires forall i :: 0 <= i < |key| ==> key[i] != '\\'
    ensures false
    decreases |key|
  {
    if key == "" {
    } else {
      assert raw[0] == key[0];
      assert raw[1..][..|key| - 1] == key[1..] && raw[1..][|key| - 1] == '"';
      PlainPrefix(raw[1..], key[1..]);
    }
  }

  /** Every quote inside a body has its backslash right before it. */
  lemma {:induction false} QuoteIsEscaped(raw: string, i: nat)
    requires Escaped(raw) && i < |raw| && raw[i] == '"'
    ensures i > 0 && raw[i - 1] == '\\'
    decreases |raw|
  {
    if raw[0] == '\\' {
      if i >= 2 {
        QuoteIsEscaped(raw[2..], i - 2);
      }
    } else {
      QuoteIsEscaped(raw[1..], i - 1);
    }
  }

  lemma {:induction false} ClosesAtEnd(blob: string, j: nat, raw: string)
    requires Escaped(raw) && j + |raw| < |blob| && blob[j..j + |raw|] == raw && blob[j + |raw|] == '"'
    ensures CloseQuote(blob, j) == Some(j + |raw|)
    decreases |raw|
  {
    if raw == "" {
    } else {
      assert blob[j] == raw[0];
      var n := if raw[0] == '\\' then 2 else 1;
      assert blob[j + n..j + n + |raw[n..]|] == raw[n..];
      ClosesAtEnd(blob, j + n, raw[n..]);
    }
  }

  // ------------------------------------------------ matches are member keys

  /** Between the quotes of a match there are only letters. */
  lemma {:induction false} KeyLetters(blob: string, key: string, p: nat)
    requires PlainKey(key)
    ensures MatchAt(blob, key, p) ==> forall i :: p < i <= p + |key| ==> NameChar(blob[i])
  {
    if MatchAt(blob, key, p) {
      forall i | p < i <= p + |key| ensures NameChar(blob[i]) {
        assert blob[p + 1 + (i - p - 1)] == key[i - p - 1];
      }
    }
  }

  /** The text `blob` has the string `raw` right after `pre`. */
  ghost predicate StringAt(blob: string, pre: nat, raw: string) {
    && pre + |raw| + 2 <= |blob| && blob[pre] == '"' && blob[pre + |raw| + 1] == '"'
    && (forall i :: 0 <= i < |raw| ==> blob[pre + 1 + i] == raw[i])
  }

  /** A quote inside a string body is never at a key position. */
  lemma {:induction false} NotInsideBody(blob: string, pre: nat, raw: string, key: string, p: nat)
    requires StringAt(blob, pre, raw) && Escaped(raw) && pre < p <= pre + |raw|
    ensures !Accepts(blob, key, p)
  {
    var i := p - pre - 1;
    assert blob[pre + 1 + i] == raw[i];
    if raw[i] == '"' {
      QuoteIsEscaped(raw, i);
      assert blob[pre + 1 + (i - 1)] == raw[i - 1];
      assert blob[p - 1] == '\\';
    }
  }

  /** A match at an opening quote is the whole string. */
  lemma {:induction false} MatchIsWhole(blob: string, pre: nat, raw: string, key: string)
    requires StringAt(blob, pre, raw) && Escaped(raw) && PlainKey(key)
    ensures MatchAt(blob, key, pre) <==> raw == key
  {
    KeyLetters(blob, key, pre);
    if MatchAt(blob, key, pre) && |key| <= |raw| {
      forall i | 0 <= i < |key| ensures raw[i] == key[i] {
        assert blob[pre + 1 + i] == raw[i];
      }
      assert raw[..|key|] == key;
      if |key| < |raw| {
        assert blob[pre + 1 + |key|] == raw[|key|];
        PlainPrefix(raw, key);
      }
    }
  }

  /** After a closing quote come whitespace or punctuation, never a key. */
  lemma {:induction false} NotClosingQuote(blob: string, p: nat, key: string)
    requires PlainKey(key) && p < |blob| && (p + 1 < |blob| ==> !NameChar(blob[p + 1]))
    ensures !MatchAt(blob, key, p)
  {
    KeyLetters(blob, key, p);
  }

  /** What comes after a token: whitespace, then the next token or the end. */
  lemma {:induction false} NextToken(blob: string, pre: string, ws: string, ps: seq<Piece>)
    requires Printable(ps) && Blank(ws) && blob == pre + (ws + Render(ps))
    ensures SkipWs(blob, |pre|) == |pre| + |ws|
    ensures ColonNext(blob, |pre|) <==> ps != [] && ps[0].tok == Punct(':')
    ensures |blob| > |pre| && (ps != [] ==> ps[0].tok.Punct?) ==> !NameChar(blob[|pre|])
  {
    if ps != [] {
      FirstChar(ps);
    }
    Assoc(pre, ws, Render(ps));
    SkipBlank(pre, ws, Render(ps));
    if |blob| > |pre| {
      assert blob[|pre|] == (ws + Render(ps))[0];
    }
  }

  /** A quote in the text of a token belongs to a string. */
  lemma {:induction false} QuoteInPiece(x: Piece, i: nat)
    requires TokenOk(x.tok) && Blank(x.ws) && i < |PieceText(x)|
    ensures PieceText(x)[i] == '"' ==> x.tok.Quoted? && i <= |x.tok.raw| + 1
  {
    if x.tok.Bare? && i < |x.tok.text| {
      assert ScalarChar(x.tok.text[i]);
    }
  }

  /** A match within a string piece is the whole string, a key before a colon. */
  lemma {:induction false} MatchInString(blob: string, pre: string, raw: string, ws: string, rest: seq<Piece>, key: string, p: nat)
    requires blob == pre + ("\"" + raw + "\"") + (ws + Render(rest))
    requires Escaped(raw) && Blank(ws) && Printable(rest) && PlainKey(key) && (rest != [] ==> rest[0].tok.Punct?)
    requires |pre| <= p <= |pre| + |raw| + 1 && Accepts(blob, key, p)
    ensures p == |pre| && raw == key && rest != [] && rest[0].tok == Punct(':')
  {
    var head := pre + ("\"" + raw + "\"");
    StringInText(pre, raw, ws + Render(rest));
    NextToken(blob, head, ws, rest);
    if p == |pre| {
      MatchIsWhole(blob, |pre|, raw, key);
    } else if p <= |pre| + |raw| {
      NotInsideBody(blob, |pre|, raw, key, p);
    } else {
      NotClosingQuote(blob, p, key);
    }
  }

  lemma {:induction false} StringInText(pre: string, raw: string, post: string)
    ensures StringAt(pre + ("\"" + raw + "\"") + post, |pre|, raw)
  {
  }

  /** A match within the first piece is that piece, a key before a colon. */
  lemma {:induction false} HeadMatch(blob: string, pre: string, ps: seq<Piece>, key: string, p: nat)
    requires Printable(ps) && ps != [] && PlainKey(key) && blob == pre + Render(ps)
    requires |pre| <= p < |pre| + |PieceText(ps[0])| && Accepts(blob, key, p)
    ensures p == |pre| && KeyAt(TokensOf(ps), key, 0)
  {
    var x := ps[0];
    PrintableTail(ps);
    assert blob[p] == PieceText(x)[p - |pre|];
    QuoteInPiece(x, p - |pre|);
    Assoc(TokenText(x.tok), x.ws, Render(ps[1..]));
    Assoc(pre, TokenText(x.tok), x.ws + Render(ps[1..]));
    MatchInString(blob, pre, x.tok.raw, x.ws, ps[1..], key, p);
  }

  /** Every accepted position is a member key of the token sequence. */
  lemma {:induction false} Locate(blob: string, pre: string, ps: seq<Piece>, key: string, p: nat) returns (k: nat)
    requires Printable(ps) && PlainKey(key) && blob == pre + Render(ps) && |pre| <= p && Accepts(blob, key, p)
    ensures KeyAt(TokensOf(ps), key, k) && p == |pre| + |Render(ps[..k])|
    decreases |ps|
  {
    assert ps != [];
    var x, rest := ps[0], ps[1..];
    if p < |pre| + |PieceText(x)| {
      HeadMatch(blob, pre, ps, key, p);
      k := 0;
      assert ps[..0] == [];
    } else {
      PrintableTail(ps);
      Assoc(pre, PieceText(x), Render(rest));
      var k' := Locate(blob, pre + PieceText(x), rest, key, p);
      k := k' + 1;
      KeyAtTail(ps, key, k);
    }
  }

  lemma {:induction false} KeyAtTail(ps: seq<Piece>, key: string, k: nat)
    requires ps != [] && 0 < k && KeyAt(TokensOf(ps[1..]), key, k - 1)
    ensures KeyAt(TokensOf(ps), key, k)
    ensures |Render(ps[..k])| == |PieceText(ps[0])| + |Render(ps[1..][..k - 1])|
  {
    assert ps[..k][1..] == ps[1..][..k - 1];
  }

  // ------------------------------------------------ member keys are accepted

  /** Whitespace after a brace or comma is trimmed away. */
  lemma {:induction false} BoundaryBefore(blob: string, pre: string, x: Piece, post: string)
    requires (x.tok == Punct('{') || x.tok == Punct(',')) && Blank(x.ws) && blob == pre + PieceText(x) + post
    ensures |pre| + |PieceText(x)| <= |blob| && PrevOk(blob, |pre| + |PieceText(x)|)
  {
    var e := |pre| + 1;
    assert blob[e - 1] == x.tok.c;
    assert blob[e..e + |x.ws|] == x.ws;
    TrimBlank(blob, e, e + |x.ws|);
  }

  lemma {:induction false} RenderLast(ps: seq<Piece>)
    requires ps != []
    ensures Render(ps) == Render(Init(ps)) + PieceText(Last(ps))
  {
    assert ps == Init(ps) + [Last(ps)];
    RenderConcat(Init(ps), [Last(ps)]);
    assert Render([Last(ps)]) == PieceText(Last(ps)) + Render([]);
  }

  lemma {:induction false} KeyBoundary(blob: string, lead: string, before: seq<Piece>, post: string)
    requires before != [] && (Last(before).tok == Punct('{') || Last(before).tok == Punct(',')) && Blank(Last(before).ws)
    requires blob == lead + Render(before) + post
    ensures |lead + Render(before)| <= |blob| && PrevOk(blob, |lead + Render(before)|)
  {
    var front := lead + Render(Init(before));
    RenderLast(before);
    Assoc(lead, Render(Init(before)), PieceText(Last(before)));
    assert lead + Render(before) == front + PieceText(Last(before));
    BoundaryBefore(blob, front, Last(before), post);
  }

  lemma {:induction false} KeyAndColon(blob: string, pre: string, ps: seq<Piece>, key: string)
    requires Printable(ps) && KeyAt(TokensOf(ps), key, 0) && blob == pre + Render(ps)
    ensures MatchAt(blob, key, |pre|) && ColonNext(blob, |pre| + |key| + 2)
    ensures SkipWs(blob, |pre| + |key| + 2) == |pre| + |PieceText(ps[0])|
  {
    var x := ps[0];
    PrintableTail(ps);
    Assoc(TokenText(x.tok), x.ws, Render(ps[1..]));
    Assoc(pre, TokenText(x.tok), x.ws + Render(ps[1..]));
    StringInText(pre, key, x.ws + Render(ps[1..]));
    NextToken(blob, pre + TokenText(x.tok), x.ws, ps[1..]);
  }

  lemma {:induction false} BehindTheColon(blob: string, pre: string, ps: seq<Piece>)
    requires Printable(ps) && |ps| > 2 && ps[1].tok == Punct(':') && blob == pre + Render(ps)
    ensures |pre| + |PieceText(ps[0])| + 1 <= |blob|
    ensures SkipWs(blob, |pre| + |PieceText(ps[0])| + 1) == |pre| + |PieceText(ps[0])| + |PieceText(ps[1])|
  {
    var q, c, rest := ps[0], ps[1], ps[1..];
    PrintableTail(ps);
    PrintableTail(rest);
    assert rest[1..] == ps[2..];
    Assoc(pre, PieceText(q), Render(rest));
    var mid := pre + PieceText(q);
    Assoc(":", c.ws, Render(ps[2..]));
    Assoc(mid, ":", c.ws + Render(ps[2..]));
    NextToken(blob, mid + ":", c.ws, ps[2..]);
  }

  /** A key token before a colon, after a brace or comma, is accepted; its value
      starts at the token after the colon. */
  lemma {:induction false} AcceptsKey(blob: string, pre: string, ps: seq<Piece>, key: string)
    requires Printable(ps) && KeyAt(TokensOf(ps), key, 0) && |ps| > 2
    requires blob == pre + Render(ps) && PrevOk(blob, |pre|)
    ensures Accepts(blob, key, |pre|)
    ensures ValueStart(blob, key, |pre|) == |pre| + |PieceText(ps[0])| + |PieceText(ps[1])|
  {
    KeyAndColon(blob, pre, ps, key);
    BehindTheColon(blob, pre, ps);
  }

  // ---------------------------------------------- the first member is found

  lemma {:induction false} PrintsPrintable(lead: string, ps: seq<Piece>, v: Value)
    requires Prints(lead, ps, v)
    ensures Printable(ps)
  {
    TokensLexical(v);
  }

  lemma {:induction false} PrintableFrom(ps: seq<Piece>, k: nat)
    requires Printable(ps) && k <= |ps|
    ensures Printable(ps[k..])
  {
    if k > 0 {
      PrintableTail(ps);
      PrintableFrom(ps[1..], k - 1);
      assert ps[1..][k - 1..] == ps[k..];
    } else {
      assert ps[0..] == ps;
    }
  }

  lemma {:induction false} RenderFromTo(ps: seq<Piece>, k: nat, j: nat)
    requires k <= j <= |ps|
    ensures |Render(ps[..k])| <= |Render(ps[..j])|
  {
    assert ps[..j] == ps[..k] + ps[k..j];
    RenderConcat(ps[..k], ps[k..j]);
  }

  /** No position before a token is accepted if no key comes before it. */
  lemma {:induction false} NothingEarlier(lead: string, ps: seq<Piece>, key: string, k: nat)
    requires Blank(lead) && Printable(ps) && PlainKey(key) && k <= |ps|
    requires forall i :: 0 <= i < k ==> !KeyAt(TokensOf(ps), key, i)
    ensures NoneAccepted(lead + Render(ps), key, 0, |lead + Render(ps[..k])|)
  {
    var blob := lead + Render(ps);
    assert forall q :: 0 <= q < |lead| ==> blob[q] == lead[q];
    forall q | 0 <= q < |lead + Render(ps[..k])| ensures !Accepts(blob, key, q) {
      if |lead| <= q && Accepts(blob, key, q) {
        var j := Locate(blob, lead, ps, key, q);
        if k <= j {
          RenderFromTo(ps, k, j);
        }
      }
    }
  }

  lemma {:induction false} SplitTokens(ts: seq<Token>, key: string, x: Value, s: Split)
    requires SplitsAt(ts, key, x, s) && Inner(s)
    ensures var k := |s.before|;
      && 0 < k < |ts| - 2
      && (ts[k - 1] == Punct('{') || ts[k - 1] == Punct(','))
      && KeyAt(ts, key, k) && ts[k + 2..] == Tokens(x) + s.after
      && (forall i :: 0 <= i < k ==> !KeyAt(ts, key, i))
  {
    var k, mid := |s.before|, [Quoted(key), Punct(':')];
    assert ts == s.before + mid + (Tokens(x) + s.after);
    assert ts[k - 1] == Last(s.before);
    forall i | 0 <= i < k ensures !KeyAt(ts, key, i) {
      assert ts[i] == s.before[i];
      assert !KeyAt(s.before, key, i);
    }
  }

  lemma {:induction false} TokensFrom(ps: seq<Piece>, k: nat)
    requires k <= |ps|
    ensures TokensOf(ps[k..]) == TokensOf(ps)[k..]
  {
  }

  /** The value of the first member: where it starts, and what is printed there. */
  datatype Found = Found(pre: string, ps: seq<Piece>, after: seq<Token>)

  ghost predicate FoundValue(blob: string, x: Value, f: Found) {
    && blob == f.pre + Render(f.ps) && Printable(f.ps)
    && TokensOf(f.ps) == Tokens(x) + f.after
    && f.after != [] && (f.after[0] == Punct('}') || f.after[0] == Punct(','))
  }

  lemma {:induction false} CutText(lead: string, ps: seq<Piece>, k: nat)
    requires k <= |ps|
    ensures lead + Render(ps) == lead + Render(ps[..k]) + Render(ps[k..])
  {
    assert ps == ps[..k] + ps[k..];
    RenderConcat(ps[..k], ps[k..]);
    Assoc(lead, Render(ps[..k]), Render(ps[k..]));
  }

  lemma {:induction false} AcceptsFirst(lead: string, ps: seq<Piece>, key: string, k: nat)
    requires Printable(ps) && 0 < k < |ps| - 2 && KeyAt(TokensOf(ps), key, k)
    requires ps[k - 1].tok == Punct('{') || ps[k - 1].tok == Punct(',')
    ensures var blob, front := lead + Render(ps), lead + Render(ps[..k]);
      Accepts(blob, key, |front|) && ValueStart(blob, key, |front|) == |front| + |PieceText(ps[k])| + |PieceText(ps[k + 1])|
  {
    CutText(lead, ps, k);
    PrintableFrom(ps, k);
    TokensFrom(ps, k);
    assert Last(ps[..k]) == ps[k - 1];
    KeyBoundary(lead + Render(ps), lead, ps[..k], Render(ps[k..]));
    AcceptsKey(lead + Render(ps), lead + Render(ps[..k]), ps[k..], key);
  }

  lemma {:induction false} FirstIsFound(lead: string, ps: seq<Piece>, key: string, k: nat) returns (pre: string)
    requires Printable(ps) && PlainKey(key) && Blank(lead) && 0 < k < |ps| - 2 && KeyAt(TokensOf(ps), key, k)
    requires ps[k - 1].tok == Punct('{') || ps[k - 1].tok == Punct(',')
    requires forall i :: 0 <= i < k ==> !KeyAt(TokensOf(ps), key, i)
    ensures lead + Render(ps) == pre + Render(ps[k + 2..])
    ensures ValueFor(lead + Render(ps), key) == Some(|pre|)
  {
    AcceptsFirst(lead, ps, key, k);
    NothingEarlier(lead, ps, key, k);
    CutText(lead, ps, k);
    assert ps[k..][2..] == ps[k + 2..] && ps[k..][0] == ps[k] && ps[k..][1] == ps[k + 1];
    pre := ValueBehindKey(lead + Render(ps), lead + Render(ps[..k]), ps[k..], key);
  }

  lemma {:induction false} ValueBehindKey(blob: string, front: string, tail: seq<Piece>, key: string) returns (pre: string)
    requires |tail| >= 2 && blob == front + Render(tail)
    requires PlainKey(key) && Accepts(blob, key, |front|) && NoneAccepted(blob, key, 0, |front|)
    requires ValueStart(blob, key, |front|) == |front| + |PieceText(tail[0])| + |PieceText(tail[1])|
    ensures blob == pre + Render(tail[2..]) && ValueFor(blob, key) == Some(|pre|)
  {
    pre := TwoPiecesOn(blob, front, tail);
    ScanFinds(blob, key, |front|);
  }

  lemma {:induction false} TwoPiecesOn(blob: string, front: string, ps: seq<Piece>) returns (pre: string)
    requires |ps| >= 2 && blob == front + Render(ps)
    ensures blob == pre + Render(ps[2..]) && |pre| == |front| + |PieceText(ps[0])| + |PieceText(ps[1])|
  {
    pre := front + PieceText(ps[0]) + PieceText(ps[1]);
    Assoc(front, PieceText(ps[0]), Render(ps[1..]));
    Assoc(front + PieceText(ps[0]), PieceText(ps[1]), Render(ps[1..][1..]));
    assert ps[1..][1..] == ps[2..];
  }

  /** Scanning the text of a document finds the first member in document order
      whose key is written `key`, and nothing when there is none. */
  lemma {:induction false} FindsFirstMember(lead: string, ps: seq<Piece>, v: Value, key: string) returns (f: Found)
    requires Prints(lead, ps, v) && PlainKey(key)
    ensures var blob, first := lead + Render(ps), FirstMember(v, key);
      && (first.None? ==> ValueFor(blob, key) == None)
      && (first.Some? ==> ValueFor(blob, key) == Some(|f.pre|) && FoundValue(blob, first.value, f))
  {
    var s := FirstMemberSplits(v, key);
    PrintsPrintable(lead, ps, v);
    f := Found("", [], []);
    if FirstMember(v, key).Some? {
      var k := |s.before|;
      SplitTokens(TokensOf(ps), key, FirstMember(v, key).value, s);
      PrintableFrom(ps, k + 2);
      TokensFrom(ps, k + 2);
      var pre := FirstIsFound(lead, ps, key, k);
      f := Found(pre, ps[k + 2..], s.after);
    } else {
      NoneFound(lead, ps, key);
    }
  }

  lemma {:induction false} NoneFound(lead: string, ps: seq<Piece>, key: string)
    requires Blank(lead) && Printable(ps) && PlainKey(key) && KeyFree(TokensOf(ps), key)
    ensures ValueFor(lead + Render(ps), key) == None
  {
    NothingEarlier(lead, ps, key, |ps|);
    assert ps[..|ps|] == ps;
    ScanFindsNone(lead + Render(ps), key);
  }

  // ------------------------------------------------------- reading the value

  lemma {:induction false} StringRead(blob: string, pre: nat, raw: string)
    requires StringAt(blob, pre, raw) && Escaped(raw)
    ensures BodyAt(blob, pre) == Some(raw) && TokenAt(blob, pre) == Some("\"" + raw + "\"")
  {
    assert blob[pre + 1..pre + 1 + |raw|] == raw;
    ClosesAtEnd(blob, pre + 1, raw);
    assert blob[pre..pre + 2 + |raw|] == "\"" + raw + "\"";
  }

  lemma {:induction false} StringFound(blob: string, f: Found, raw: string)
    requires FoundValue(blob, Str(raw), f)
    ensures BodyAt(blob, |f.pre|) == Some(raw) && TokenAt(blob, |f.pre|) == Some("\"" + raw + "\"")
  {
    var x := f.ps[0];
    assert x.tok == TokensOf(f.ps)[0] == Quoted(raw);
    PrintableTail(f.ps);
    Assoc(TokenText(x.tok), x.ws, Render(f.ps[1..]));
    Assoc(f.pre, TokenText(x.tok), x.ws + Render(f.ps[1..]));
    StringInText(f.pre, raw, x.ws + Render(f.ps[1..]));
    StringRead(blob, |f.pre|, raw);
  }

  lemma {:induction false} OtherFound(blob: string, f: Found, x: Value)
    requires FoundValue(blob, x, f) && !x.Str?
    ensures BodyAt(blob, |f.pre|) == None
  {
    assert f.ps[0].tok == TokensOf(f.ps)[0] == Tokens(x)[0];
    FirstChar(f.ps);
    assert blob[|f.pre|] == Render(f.ps)[0];
  }

  lemma {:induction false} BareStops(blob: string, j: nat, end: nat)
    requires j <= end < |blob| && (blob[end] == '}' || blob[end] == ',')
    requires forall i :: j <= i < end ==> blob[i] != '}' && blob[i] != ','
    ensures BareEnd(blob, j) == end
  {
  }

  lemma {:induction false} TrimScalar(t: string, ws: string)
    requires ScalarText(t) && Blank(ws)
    ensures Trim(t + ws) == t
  {
    var s := t + ws;
    assert s[|t|..|s|] == ws;
    TrimBlank(s, |t|, |s|);
    assert s[|t| - 1] == t[|t| - 1] && ScalarChar(t[|t| - 1]) && ScalarChar(t[0]);
    assert TrimEndAt(s, |t|) == |t|;
    assert s[..|t|] == t;
    assert WsAfter(t) == 0;
  }

  lemma {:induction false} ScalarRead(blob: string, pre: string, t: string, ws: string, post: string)
    requires ScalarText(t) && Blank(ws) && post != "" && (post[0] == '}' || post[0] == ',')
    requires blob == pre + (t + ws) + post
    ensures TokenAt(blob, |pre|) == Some(t)
  {
    var end := |pre| + |t + ws|;
    forall i | |pre| <= i < end ensures blob[i] != '}' && blob[i] != ',' {
      assert blob[i] == (t + ws)[i - |pre|];
      assert i < |pre| + |t| ==> ScalarChar(t[i - |pre|]);
    }
    assert blob[end] == post[0];
    BareStops(blob, |pre|, end);
    assert blob[|pre|..end] == t + ws;
    assert blob[|pre|] == t[0] && ScalarChar(t[0]);
    TrimScalar(t, ws);
  }

  lemma {:induction false} ScalarFound(blob: string, f: Found, t: string)
    requires FoundValue(blob, Scalar(t), f)
    ensures TokenAt(blob, |f.pre|) == Some(t)
  {
    var x, rest := f.ps[0], f.ps[1..];
    assert x.tok == TokensOf(f.ps)[0] == Bare(t) && rest[0].tok == TokensOf(f.ps)[1] == f.after[0];
    PrintableTail(f.ps);
    Assoc(f.pre, PieceText(x), Render(rest));
    assert Render(rest)[0] == f.after[0].c by {
      assert Render(rest) == [f.after[0].c] + rest[0].ws + Render(rest[1..]);
    }
    ScalarRead(blob, f.pre, t, x.ws, Render(rest));
  }

  // ------------------------------------------------------------ main results

  /** What `skim_session` and `skim_string` return on any document: the body of
      the first member with the key if it is a string, and nothing otherwise. */
  lemma {:induction false} SkimsFirstMember(lead: string, ps: seq<Piece>, v: Value, key: string)
    requires Prints(lead, ps, v) && PlainKey(key)
    ensures var blob, first := lead + Render(ps), FirstMember(v, key);
      if first.Some? && first.value.Str?
      then SkimmedRaw(blob, key) == Some(first.value.raw) && Skimmed(blob, key) == Some(Unescape(first.value.raw))
      else SkimmedRaw(blob, key) == None && Skimmed(blob, key) == None
  {
    var blob, first := lead + Render(ps), FirstMember(v, key);
    var f := FindsFirstMember(lead, ps, v, key);
    if first.Some? {
      if first.value.Str? {
        StringFound(blob, f, first.value.raw);
      } else {
        OtherFound(blob, f, first.value);
      }
    }
  }

  /** What `value_for_key` returns on any document for a string or scalar. */
  lemma {:induction false} TokenOfFirstMember(lead: string, ps: seq<Piece>, v: Value, key: string)
    requires Prints(lead, ps, v) && PlainKey(key)
    ensures var blob, first := lead + Render(ps), FirstMember(v, key);
      && (first.None? ==> ValueToken(blob, key) == None)
      && (first.Some? && first.value.Str? ==> ValueToken(blob, key) == Some("\"" + first.value.raw + "\""))
      && (first.Some? && first.value.Scalar? ==> ValueToken(blob, key) == Some(first.value.text))
  {
    var blob, first := lead + Render(ps), FirstMember(v, key);
    var f := FindsFirstMember(lead, ps, v, key);
    if first.Some? {
      match first.value {
        case Str(raw) => StringFound(blob, f, raw);
        case Scalar(t) => ScalarFound(blob, f, t);
        case Array(_) =>
        case Object(_) =>
      }
    }
  }
}
