/** The query compiler as it runs: a reader over the characters typed, and a loop over the tokens
    that collects the parts of the text and calls itself for parentheses. */
module TsqueryCompiler {
  import opened Strings
  import opened Wrappers
  import opened LexerBase
  import opened Tokenizer
  import opened TsqueryFormat
  import opened Tsquery
  import opened TsqueryMeaning

  // ---------- reading tokens ----------

  method ReadCharToken(l: Lexer) returns (token: Option<Token>)
    requires l.Valid() && l.Rest() != ""
    modifies l`pos, l`canUnread
    ensures l.Valid() && token == CharToken(old(l.Rest())[0])
    ensures l.Rest() == if token.Some? then old(l.Rest())[1..] else old(l.Rest())
  {
    token := None;
    var ok := l.ReadChar('(');
    if ok { return Some(OpenParens); }
    ok := l.ReadChar(')');
    if ok { return Some(CloseParens); }
    ok := l.ReadChar('&');
    if ok { return Some(Operation(AndOperator)); }
    ok := l.ReadChar('|');
    if ok { return Some(Operation(OrOperator)); }
    ok := l.ReadChar('.');
    if ok { return Some(Operation(FollowedBy)); }
    ok := l.ReadChar('!');
    if ok { return Some(Negation); }
    ok := l.ReadChar('*');
    if ok { return Some(Wildcard); }
  }

  method ReadQueryToken(t: Tables, l: Lexer) returns (token: Option<Token>)
    requires l.Valid()
    modifies l`pos, l`canUnread
    ensures l.Valid() && (token, l.Rest()) == NextToken(t, old(l.Rest()))
  {
    while true
      invariant l.Valid() && NextToken(t, l.Rest()) == NextToken(t, old(l.Rest()))
      decreases |l.Rest()|
    {
      var eof := l.IsEOF();
      if eof {
        return None;
      }
      ghost var s := l.Rest();
      token := ReadCharToken(l);
      if token.Some? {
        return;
      }
      var quoted := l.ReadQuotedString('"');
      if quoted.Some? && quoted.value.0 != "" {
        return Some(QuotedToken(quoted.value.0));
      }
      assert l.Rest() == AfterQuotes(s);
      var phrase := l.ReadWhile(t.isWord);
      if phrase != "" {
        return Some(PhraseToken(phrase));
      }
      var skipped := l.Read();
    }
  }

  // ---------- the parts of the text ----------

  /** The parts, joined with spaces, print the tokens; a further part can follow. */
  predicate Joined(parts: seq<string>, xs: seq<Tok>) {
    && Join(parts, " ") == Print(xs)
    && (parts == [] <==> xs == [])
    && (xs != [] ==> !xs[|xs| - 1].LParen?)
  }

  predicate IsPart(part: string, xs: seq<Tok>) {
    xs != [] && part == Print(xs) && !xs[0].RParen? && !xs[|xs| - 1].LParen?
  }

  lemma AddPart(parts: seq<string>, xs: seq<Tok>, part: string, more: seq<Tok>)
    requires Joined(parts, xs) && IsPart(part, more)
    ensures Joined(parts + [part], xs + more)
  {
    JoinAppend(parts, part, " ");
    if xs == [] {
      assert xs + more == more;
    } else {
      PrintConcat(xs, more);
    }
  }

  lemma OnePart(x: Tok)
    requires !x.LParen? && !x.RParen?
    ensures IsPart(TokText(x), [x])
  {
  }

  /** Adds an operand to the parts, after its operator and its negation. A wildcard that follows is
      taken with it. */
  method AddExpr(tokens: seq<Token>, i: nat, parts: seq<string>, op: Operator, negated: bool, expr: string,
      ghost xs: seq<Tok>, ghost e: seq<Tok>)
    returns (parts': seq<string>, i': nat)
    requires Joined(parts, xs) && IsPart(expr, e)
    requires Starred(tokens, i) ==> e[|e| - 1].Word? && !e[|e| - 1].prefix
    ensures i' == if Starred(tokens, i) then i + 1 else i
    ensures Joined(parts', Combine(xs, op, negated, if Starred(tokens, i) then Star(e) else e))
  {
    i' := i;
    ghost var a := if xs == [] then [] else [OperatorTok(op)];
    ghost var b := if negated then [Not] else [];
    parts' := AddOperator(parts, op, xs);
    parts' := AddNegation(parts', negated, xs + a);
    if Starred(tokens, i) {
      StarIsPart(expr, e);
      AddPart(parts', xs + a + b, expr + ":*", Star(e));
      parts', i' := parts' + [expr + ":*"], i + 1;
    } else {
      AddPart(parts', xs + a + b, expr, e);
      parts' := parts' + [expr];
    }
  }

  method AddOperator(parts: seq<string>, op: Operator, ghost xs: seq<Tok>) returns (parts': seq<string>)
    requires Joined(parts, xs)
    ensures Joined(parts', xs + if xs == [] then [] else [OperatorTok(op)])
  {
    if |parts| == 0 {
      assert xs + [] == xs;
      return parts;
    }
    var text := "&";
    match op {
      case OrOperator => text := "|";
      case FollowedBy => text := "<->";
      case AndOperator =>
    }
    OnePart(OperatorTok(op));
    AddPart(parts, xs, text, [OperatorTok(op)]);
    parts' := parts + [text];
  }

  method AddNegation(parts: seq<string>, negated: bool, ghost xs: seq<Tok>) returns (parts': seq<string>)
    requires Joined(parts, xs)
    ensures Joined(parts', xs + if negated then [Not] else [])
  {
    parts' := parts;
    if negated {
      OnePart(Not);
      AddPart(parts, xs, "!", [Not]);
      parts' := parts + ["!"];
    } else {
      assert xs + [] == xs;
    }
  }

  lemma StarIsPart(expr: string, e: seq<Tok>)
    requires IsPart(expr, e) && e[|e| - 1].Word? && !e[|e| - 1].prefix
    ensures IsPart(expr + ":*", Star(e))
  {
    StarPrint(e);
  }

  // ---------- operands ----------

  method QuoteWords(words: seq<string>) returns (quoted: seq<string>)
    ensures quoted == QuotedAll(words)
  {
    quoted := [];
    for i := 0 to |words|
      invariant |quoted| == i && forall j :: 0 <= j < i ==> quoted[j] == QuoteLexeme(words[j])
    {
      quoted := quoted + [QuoteLexeme(words[i])];
    }
  }

  method PhraseTexts(phrases: seq<seq<string>>) returns (texts: seq<string>)
    requires forall p :: p in phrases ==> p != []
    ensures texts == ChainTexts(phrases)
  {
    texts := [];
    for i := 0 to |phrases|
      invariant |texts| == i && forall j :: 0 <= j < i ==> texts[j] == ChainText(phrases[j])
    {
      var quoted := QuoteWords(phrases[i]);
      assert phrases[i] in phrases;
      if |quoted| > 0 {
        texts := texts + [Join(quoted, " <-> ")];
      }
    }
  }

  /** The text of a quoted string or a phrase, if it has any words. */
  method OperandText(t: Tables, x: Token) returns (text: Option<string>)
    ensures text.None? <==> ExprOf(t, x) == []
    ensures text.Some? ==> IsPart(text.value, ExprOf(t, x)) && ExprOf(t, x)[|ExprOf(t, x)| - 1].Word?
  {
    text := None;
    if x.QuotedToken? {
      var words := TokenizeTextFlat(t, x.value);
      var quoted := QuoteWords(words);
      if |quoted| > 0 {
        ChainPrint(words);
        text := Some(Join(quoted, " <-> "));
      }
    } else if x.PhraseToken? {
      var phrases := TokenizeText(t, x.value);
      var texts := PhraseTexts(phrases);
      if |texts| > 0 {
        ChainAllPrint(phrases);
        ChainAllEnds(phrases);
        text := Some(Join(texts, " & "));
      }
    }
  }

  lemma {:induction false} ChainUnmarked(words: seq<string>)
    ensures forall x :: x in Chain(words) && x.Word? ==> !x.prefix
  {
    if |words| > 1 {
      ChainUnmarked(words[1..]);
    }
  }

  lemma {:induction false} ChainAllUnmarked(phrases: seq<seq<string>>)
    ensures forall x :: x in ChainAll(phrases) && x.Word? ==> !x.prefix
  {
    if phrases != [] {
      ChainUnmarked(phrases[0]);
      ChainAllUnmarked(phrases[1..]);
    }
  }

  lemma OperandUnmarked(t: Tables, x: Token)
    ensures forall y :: y in ExprOf(t, x) && y.Word? ==> !y.prefix
  {
    match x
    case QuotedToken(value) => ChainUnmarked(TokenizeFlat(t, value));
    case PhraseToken(value) => ChainAllUnmarked(Tokenize(t, value));
    case _ =>
  }

  // ---------- the compiler ----------

  method InnerTokens(tokens: seq<Token>, i: nat) returns (inner: seq<Token>)
    requires i < |tokens|
    ensures inner == Inner(tokens, i)
  {
    inner := [];
    var depth: nat := 1;
    var j := i + 1;
    while j < |tokens|
      invariant i < j <= |tokens| && depth > 0
      invariant inner == tokens[i + 1..j]
      invariant InnerLength(tokens, i + 1, 1) == j - i - 1 + InnerLength(tokens, j, depth)
    {
      if tokens[j].OpenParens? {
        depth := depth + 1;
      }
      if tokens[j].CloseParens? {
        if depth == 1 {
          break;
        }
        depth := depth - 1;
      }
      inner := inner + [tokens[j]];
      j := j + 1;
    }
    assert InnerLength(tokens, i + 1, 1) == |inner|;
    assert tokens[i + 1..][..|inner|] == tokens[i + 1..j];
  }

  /** The text of a level: it reads back as the operands typed, and so matches the documents asked for. */
  method CompileTokens(t: Tables, tokens: seq<Token>) returns (s: string)
    ensures s == Print(Compile(t, tokens))
    ensures Typed(t, tokens) != [] ==> Lex(s).Some? && ReadQuery(Lex(s).value) == Some(Typed(t, tokens))
    ensures forall doc: Document :: Matches(s, doc) <==> Asked(t, tokens, doc)
    decreases |tokens|, 2
  {
    s := CompileParts(t, tokens);
    TextMeans(t, tokens);
  }

  method CompileParts(t: Tables, tokens: seq<Token>) returns (s: string)
    ensures s == Print(Compile(t, tokens))
    decreases |tokens|, 1
  {
    var parts: seq<string> := [];
    var i: nat, op, negated := 0, AndOperator, false;
    ghost var p := START;
    while i < |tokens|
      invariant p.i == i && p.op == op && p.negated == negated && Joined(parts, p.xs)
      invariant CompileFrom(t, tokens, p) == Compile(t, tokens)
      decreases |tokens| - i
    {
      if tokens[i].Operation? {
        op := tokens[i].operator;
        p := p.(i := i + 1, op := op);
      } else if tokens[i].Negation? {
        negated := true;
        p := p.(i := i + 1, negated := true);
      } else if tokens[i].OpenParens? {
        ghost var inner := Inner(tokens, i);
        parts, i, op, negated := CompileGroup(t, tokens, i, parts, op, negated, p);
        p := AfterGroup(p, |inner|, Compile(t, inner));
      } else {
        ghost var e, starred := ExprOf(t, tokens[i]), Starred(tokens, i);
        parts, i, op, negated := CompileOperand(t, tokens, i, parts, op, negated, p);
        p := AfterOperand(p, e, starred);
      }
      i := i + 1;
    }
    s := Join(parts, " ");
  }

  /** A group in parentheses: its tokens are compiled on their own. */
  method CompileGroup(t: Tables, tokens: seq<Token>, i: nat, parts: seq<string>, op: Operator, negated: bool,
                      ghost p: Progress)
    returns (parts': seq<string>, i': nat, op': Operator, negated': bool)
    requires i < |tokens| && p.i == i && p.op == op && p.negated == negated && Joined(parts, p.xs)
    ensures var inner := Inner(tokens, i);
            var q := AfterGroup(p, |inner|, Compile(t, inner));
            q.i == i' + 1 && q.op == op' && q.negated == negated' && Joined(parts', q.xs)
    decreases |tokens|, 0
  {
    parts', op', negated' := parts, op, negated;
    var inner := InnerTokens(tokens, i);
    i' := i + |inner|;
    var text := CompileParts(t, inner);
    CompiledIsAccepted(t, inner);
    if |text| > 0 {
      ghost var e := Compile(t, inner);
      GroupIsPart(text, e);
      parts', i' := AddExpr(tokens, i', parts, op, negated, "(" + text + ")", p.xs, [LParen] + e + [RParen]);
      op', negated' := AndOperator, false;
    }
  }

  method CompileOperand(t: Tables, tokens: seq<Token>, i: nat, parts: seq<string>, op: Operator, negated: bool,
                        ghost p: Progress)
    returns (parts': seq<string>, i': nat, op': Operator, negated': bool)
    requires i < |tokens| && p.i == i && p.op == op && p.negated == negated && Joined(parts, p.xs)
    ensures var q := AfterOperand(p, ExprOf(t, tokens[i]), Starred(tokens, i));
            q.i == i' + 1 && q.op == op' && q.negated == negated' && Joined(parts', q.xs)
  {
    parts', i', op', negated' := parts, i, op, negated;
    var text := OperandText(t, tokens[i]);
    if text.Some? {
      OperandUnmarked(t, tokens[i]);
      parts', i' := AddExpr(tokens, i, parts, op, negated, text.value, p.xs, ExprOf(t, tokens[i]));
      op', negated' := AndOperator, false;
    }
  }

  lemma GroupIsPart(text: string, e: seq<Tok>)
    requires e != [] && text == Print(e)
    ensures IsPart("(" + text + ")", [LParen] + e + [RParen])
  {
    GroupPrint(e);
  }

  method ReadTokens(t: Tables, str: string) returns (tokens: seq<Token>)
    ensures tokens == TokensOf(t, str)
  {
    var l := new Lexer(str);
    tokens := [];
    while true
      invariant l.Valid() && fresh(l) && tokens + TokensOf(t, l.Rest()) == TokensOf(t, str)
      decreases |l.Rest()|
    {
      var token := ReadQueryToken(t, l);
      if token.None? {
        break;
      }
      Assoc(tokens, [token.value], TokensOf(t, l.Rest()));
      tokens := tokens + [token.value];
    }
  }

  /** Compiles what a user typed. Nothing comes of it exactly when it has no word; otherwise the
      text is one that reads back as a well-formed query of exactly the words typed, in order, and
      matches exactly the documents that the signs between them ask for. */
  method AppQueryToTsquery(t: Tables, str: string) returns (s: string)
    ensures s == Print(Compile(t, TokensOf(t, str)))
    ensures var words := AllWords(t, TokensOf(t, str));
            && (s == "" <==> words == [])
            && (words != [] ==> Lex(s).Some? && Accepts(Lex(s).value) && Words(Lex(s).value) == words)
    ensures forall doc: Document :: Matches(s, doc) <==> Asked(t, TokensOf(t, str), doc)
  {
    var tokens := ReadTokens(t, str);
    s := CompileTokens(t, tokens);
    CompiledIsAccepted(t, tokens);
  }
}
