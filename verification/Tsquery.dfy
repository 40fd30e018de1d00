/**
 The compiler from what users type to full-text queries: reading the query tokens, and combining
 them with operators, negation, prefix marks and nested parentheses.
 */
module Tsquery {
  import opened Strings
  import opened Wrappers
  import opened LexerBase
  import opened Tokenizer
  import opened TsqueryFormat

  datatype Operator = AndOperator | OrOperator | FollowedBy

  datatype Token =
    | OpenParens | CloseParens | Operation(operator: Operator) | Negation | Wildcard
    | QuotedToken(value: string) | PhraseToken(value: string)

  // ---------- reading tokens ----------

  /** The token that a single character makes. */
  function CharToken(c: char): Option<Token> {
    match c
    case '(' => Some(OpenParens)
    case ')' => Some(CloseParens)
    case '&' => Some(Operation(AndOperator))
    case '|' => Some(Operation(OrOperator))
    case '.' => Some(Operation(FollowedBy))
    case '!' => Some(Negation)
    case '*' => Some(Wildcard)
    case _ => None
  }

  /** What is left after a quoted string at the start, if there is one. */
  function AfterQuotes(s: string): (r: string)
    ensures |r| <= |s|
  {
    if s != "" && s[0] == '"' then QuotedBody(s[1..], '"').rest else s
  }

  /** The next token; quotes around nothing are skipped together with the character after them. */
  function NextToken(t: Tables, s: string): (r: (Option<Token>, string))
    ensures |r.1| <= |s| && (r.0.Some? ==> |r.1| < |s|)
    decreases |s|
  {
    if s == "" then (None, "")
    else if CharToken(s[0]).Some? then (CharToken(s[0]), s[1..])
    else if s[0] == '"' && QuotedBody(s[1..], '"').text != "" then
      (Some(QuotedToken(QuotedBody(s[1..], '"').text)), AfterQuotes(s))
    else
      var s1 := AfterQuotes(s);
      var k := Span(t.isWord, s1);
      if k > 0 then (Some(PhraseToken(s1[..k])), s1[k..])
      else NextToken(t, if s1 == "" then "" else s1[1..])
  }

  function TokensOf(t: Tables, s: string): seq<Token>
    decreases |s|
  {
    var (token, rest) := NextToken(t, s);
    if token.None? then [] else [token.value] + TokensOf(t, rest)
  }

  // ---------- compiling ----------

  function OperatorTok(op: Operator): Tok {
    match op
    case AndOperator => And
    case OrOperator => Or
    case FollowedBy => Follows
  }

  /** The words one after the other. */
  function Chain(words: seq<string>): seq<Tok> {
    if words == [] then []
    else if |words| == 1 then [Word(words[0], false)]
    else [Word(words[0], false), Follows] + Chain(words[1..])
  }

  function ChainAll(phrases: seq<seq<string>>): seq<Tok> {
    if phrases == [] then []
    else if |phrases| == 1 then Chain(phrases[0])
    else Chain(phrases[0]) + [And] + ChainAll(phrases[1..])
  }

  /** The expression of a quoted string or a phrase; nothing for the other tokens. */
  function ExprOf(t: Tables, x: Token): seq<Tok> {
    match x
    case QuotedToken(value) => Chain(TokenizeFlat(t, value))
    case PhraseToken(value) => ChainAll(Tokenize(t, value))
    case _ => []
  }

  /** The words of a token. */
  function WordsIn(t: Tables, x: Token): seq<string> {
    match x
    case QuotedToken(value) => TokenizeFlat(t, value)
    case PhraseToken(value) => TokenizeFlat(t, value)
    case _ => []
  }

  function Combine(xs: seq<Tok>, op: Operator, negated: bool, expr: seq<Tok>): seq<Tok> {
    xs + (if xs == [] then [] else [OperatorTok(op)]) + (if negated then [Not] else []) + expr
  }

  /** A prefix mark belongs to the last word. */
  function Star(expr: seq<Tok>): seq<Tok> {
    if expr != [] && expr[|expr| - 1].Word? then expr[..|expr| - 1] + [expr[|expr| - 1].(prefix := true)] else expr
  }

  predicate Starred(tokens: seq<Token>, i: nat) { i + 1 < |tokens| && tokens[i + 1].Wildcard? }

  /** How many tokens stand between position j and the parenthesis that closes `depth` levels. */
  function InnerLength(tokens: seq<Token>, j: nat, depth: nat): (n: nat)
    requires depth > 0
    ensures j <= |tokens| ==> j + n <= |tokens|
    ensures j + n < |tokens| ==> tokens[j + n].CloseParens?
    decreases |tokens| - j
  {
    if j >= |tokens| then 0
    else if tokens[j].OpenParens? then 1 + InnerLength(tokens, j + 1, depth + 1)
    else if tokens[j].CloseParens? && depth == 1 then 0
    else 1 + InnerLength(tokens, j + 1, if tokens[j].CloseParens? then depth - 1 else depth)
  }

  /** The tokens inside the parenthesis that opens at i. */
  function Inner(tokens: seq<Token>, i: nat): (inner: seq<Token>)
    requires i < |tokens|
    ensures |inner| < |tokens| && i + |inner| < |tokens|
    ensures i + |inner| + 1 < |tokens| ==> tokens[i + |inner| + 1].CloseParens?
  {
    tokens[i + 1..][..InnerLength(tokens, i + 1, 1)]
  }

  /** Where the compiler stands: the next token, the operator and the negation read since the last
      operand, and what is compiled so far. */
  datatype Progress = Progress(i: nat, op: Operator, negated: bool, xs: seq<Tok>)

  function Added(p: Progress, n: nat, expr: seq<Tok>): (q: Progress)
    ensures q.i == p.i + n
  {
    Progress(p.i + n, AndOperator, false, Combine(p.xs, p.op, p.negated, expr))
  }

  /** After a group of n tokens that compiled to `expr`. */
  function AfterGroup(p: Progress, n: nat, expr: seq<Tok>): (q: Progress)
    ensures q.i == p.i + n + 1
  {
    if expr == [] then p.(i := p.i + n + 1) else Added(p, n + 1, [LParen] + expr + [RParen])
  }

  /** After a token that is an operand, or nothing. */
  function AfterOperand(p: Progress, expr: seq<Tok>, starred: bool): (q: Progress)
    ensures q.i > p.i
  {
    if expr == [] then p.(i := p.i + 1)
    else if starred then Added(p, 2, Star(expr))
    else Added(p, 1, expr)
  }

  function CompileFrom(t: Tables, tokens: seq<Token>, p: Progress): seq<Tok>
    decreases |tokens|, |tokens| - p.i
  {
    if p.i >= |tokens| then p.xs
    else if tokens[p.i].Operation? then CompileFrom(t, tokens, p.(i := p.i + 1, op := tokens[p.i].operator))
    else if tokens[p.i].Negation? then CompileFrom(t, tokens, p.(i := p.i + 1, negated := true))
    else if tokens[p.i].OpenParens? then
      var inner := Inner(tokens, p.i);
      CompileFrom(t, tokens, AfterGroup(p, |inner|, CompileFrom(t, inner, START)))
    else CompileFrom(t, tokens, AfterOperand(p, ExprOf(t, tokens[p.i]), Starred(tokens, p.i)))
  }

  const START := Progress(0, AndOperator, false, [])

  function Compile(t: Tables, tokens: seq<Token>): seq<Tok> { CompileFrom(t, tokens, START) }

  // ---------- expressions ----------

  /** An operand in any place that expects one. */
  ghost predicate IsExpr(xs: seq<Tok>) { forall d: nat :: Run(Expects(d, true), xs) == Some(Expects(d, false)) }

  predicate IsOperator(x: Tok) { x.And? || x.Or? || x.Follows? }

  lemma RunOne(st: Expects, x: Tok)
    ensures Run(st, [x]) == Step(st, x)
  {
    assert [x][1..] == [];
  }

  lemma ExprJoined(a: seq<Tok>, op: Tok, b: seq<Tok>)
    requires IsExpr(a) && IsOperator(op) && IsExpr(b)
    ensures IsExpr(a + [op] + b)
  {
    forall d: nat ensures Run(Expects(d, true), a + [op] + b) == Some(Expects(d, false)) {
      RunConcat(Expects(d, true), a + [op], b);
      RunConcat(Expects(d, true), a, [op]);
      RunOne(Expects(d, false), op);
    }
  }

  lemma ExprNegated(b: seq<Tok>)
    requires IsExpr(b)
    ensures IsExpr([Not] + b)
  {
    forall d: nat ensures Run(Expects(d, true), [Not] + b) == Some(Expects(d, false)) {
      RunConcat(Expects(d, true), [Not], b);
      RunOne(Expects(d, true), Not);
    }
  }

  lemma ExprInParens(a: seq<Tok>)
    requires IsExpr(a)
    ensures IsExpr([LParen] + a + [RParen])
  {
    forall d: nat ensures Run(Expects(d, true), [LParen] + a + [RParen]) == Some(Expects(d, false)) {
      RunConcat(Expects(d, true), [LParen] + a, [RParen]);
      RunConcat(Expects(d, true), [LParen], a);
      RunOne(Expects(d, true), LParen);
      assert Run(Expects(d + 1, true), a) == Some(Expects(d + 1, false));
      RunOne(Expects(d + 1, false), RParen);
    }
  }

  lemma ExprWord(w: string, prefix: bool)
    ensures IsExpr([Word(w, prefix)])
  {
    forall d: nat ensures Run(Expects(d, true), [Word(w, prefix)]) == Some(Expects(d, false)) {
      RunOne(Expects(d, true), Word(w, prefix));
    }
  }

  /** Adding an expression to an expression, or to nothing, gives an expression. */
  lemma CombineIsExpr(xs: seq<Tok>, op: Operator, negated: bool, expr: seq<Tok>)
    requires (xs == [] || IsExpr(xs)) && IsExpr(expr)
    ensures IsExpr(Combine(xs, op, negated, expr))
  {
    var operand := (if negated then [Not] else []) + expr;
    if negated {
      ExprNegated(expr);
    } else {
      assert operand == expr;
    }
    if xs == [] {
      assert Combine(xs, op, negated, expr) == operand;
    } else {
      ExprJoined(xs, OperatorTok(op), operand);
      Assoc(xs + [OperatorTok(op)], if negated then [Not] else [], expr);
    }
  }

  lemma {:induction false} ChainIsExpr(words: seq<string>)
    requires words != []
    ensures IsExpr(Chain(words)) && Chain(words)[|Chain(words)| - 1].Word?
  {
    ExprWord(words[0], false);
    if |words| > 1 {
      ChainIsExpr(words[1..]);
      ExprJoined([Word(words[0], false)], Follows, Chain(words[1..]));
      assert [Word(words[0], false)] + [Follows] == [Word(words[0], false), Follows];
    }
  }

  lemma {:induction false} ChainAllIsExpr(phrases: seq<seq<string>>)
    requires phrases != [] && forall p :: p in phrases ==> p != []
    ensures IsExpr(ChainAll(phrases)) && ChainAll(phrases) != [] && ChainAll(phrases)[|ChainAll(phrases)| - 1].Word?
  {
    assert phrases[0] in phrases;
    ChainIsExpr(phrases[0]);
    if |phrases| > 1 {
      assert forall p :: p in phrases[1..] ==> p in phrases;
      ChainAllIsExpr(phrases[1..]);
      ExprJoined(Chain(phrases[0]), And, ChainAll(phrases[1..]));
    }
  }

  lemma ExprOfIsExpr(t: Tables, x: Token)
    requires ExprOf(t, x) != []
    ensures IsExpr(ExprOf(t, x)) && ExprOf(t, x)[|ExprOf(t, x)| - 1].Word?
  {
    match x
    case QuotedToken(value) => ChainIsExpr(TokenizeFlat(t, value));
    case PhraseToken(value) =>
      TokensAreLexemes(t, value);
      ChainAllIsExpr(Tokenize(t, value));
    case _ =>
  }

  /** A prefix mark keeps an expression one. */
  lemma StarIsExpr(xs: seq<Tok>)
    requires IsExpr(xs) && xs != [] && xs[|xs| - 1].Word?
    ensures IsExpr(Star(xs))
  {
    var front, last := xs[..|xs| - 1], xs[|xs| - 1];
    assert xs == front + [last];
    forall d: nat ensures Run(Expects(d, true), Star(xs)) == Some(Expects(d, false)) {
      assert Run(Expects(d, true), xs) == Some(Expects(d, false));
      RunConcat(Expects(d, true), front, [last]);
      RunConcat(Expects(d, true), front, [last.(prefix := true)]);
      var st := Run(Expects(d, true), front).value;
      RunOne(st, last);
      RunOne(st, last.(prefix := true));
    }
  }

  ghost predicate ExprOrNothing(xs: seq<Tok>) { xs == [] || IsExpr(xs) }

  lemma AfterGroupIsExpr(p: Progress, n: nat, expr: seq<Tok>)
    requires ExprOrNothing(p.xs) && ExprOrNothing(expr)
    ensures ExprOrNothing(AfterGroup(p, n, expr).xs)
  {
    if expr != [] {
      ExprInParens(expr);
      CombineIsExpr(p.xs, p.op, p.negated, [LParen] + expr + [RParen]);
    }
  }

  lemma AfterOperandIsExpr(t: Tables, p: Progress, x: Token, starred: bool)
    requires ExprOrNothing(p.xs)
    ensures ExprOrNothing(AfterOperand(p, ExprOf(t, x), starred).xs)
  {
    var expr := ExprOf(t, x);
    if expr != [] {
      ExprOfIsExpr(t, x);
      StarIsExpr(expr);
      CombineIsExpr(p.xs, p.op, p.negated, expr);
      CombineIsExpr(p.xs, p.op, p.negated, Star(expr));
    }
  }

  /** Whatever the tokens are, unbalanced parentheses included, what is compiled is nothing or an
      expression. */
  lemma {:induction false} CompiledIsExpr(t: Tables, tokens: seq<Token>, p: Progress)
    requires ExprOrNothing(p.xs)
    ensures ExprOrNothing(CompileFrom(t, tokens, p))
    decreases |tokens|, |tokens| - p.i
  {
    if p.i >= |tokens| {
    } else if tokens[p.i].Operation? {
      CompiledIsExpr(t, tokens, p.(i := p.i + 1, op := tokens[p.i].operator));
    } else if tokens[p.i].Negation? {
      CompiledIsExpr(t, tokens, p.(i := p.i + 1, negated := true));
    } else if tokens[p.i].OpenParens? {
      var inner := Inner(tokens, p.i);
      var expr := CompileFrom(t, inner, START);
      CompiledIsExpr(t, inner, START);
      AfterGroupIsExpr(p, |inner|, expr);
      CompiledIsExpr(t, tokens, AfterGroup(p, |inner|, expr));
    } else {
      AfterOperandIsExpr(t, p, tokens[p.i], Starred(tokens, p.i));
      CompiledIsExpr(t, tokens, AfterOperand(p, ExprOf(t, tokens[p.i]), Starred(tokens, p.i)));
    }
  }

  // ---------- no word is lost, added or moved ----------

  /** The words of a query, in order. */
  function Words(xs: seq<Tok>): seq<string> {
    if xs == [] then [] else (if xs[0].Word? then [xs[0].w] else []) + Words(xs[1..])
  }

  function AllWords(t: Tables, tokens: seq<Token>): seq<string> {
    if tokens == [] then [] else WordsIn(t, tokens[0]) + AllWords(t, tokens[1..])
  }

  lemma {:induction false} WordsConcat(a: seq<Tok>, b: seq<Tok>)
    ensures Words(a + b) == Words(a) + Words(b)
  {
    if a == [] {
      assert a + b == b;
    } else {
      assert (a + b)[1..] == a[1..] + b;
      WordsConcat(a[1..], b);
    }
  }

  lemma {:induction false} AllWordsConcat(t: Tables, a: seq<Token>, b: seq<Token>)
    ensures AllWords(t, a + b) == AllWords(t, a) + AllWords(t, b)
  {
    if a == [] {
      assert a + b == b;
    } else {
      assert (a + b)[1..] == a[1..] + b;
      AllWordsConcat(t, a[1..], b);
    }
  }

  lemma WordsOne(x: Tok)
    ensures Words([x]) == if x.Word? then [x.w] else []
  {
    assert [x][1..] == [];
  }

  lemma CombineWords(xs: seq<Tok>, op: Operator, negated: bool, expr: seq<Tok>)
    ensures Words(Combine(xs, op, negated, expr)) == Words(xs) + Words(expr)
  {
    WordsOne(OperatorTok(op));
    WordsOne(Not);
    WordsOfFour(xs, if xs == [] then [] else [OperatorTok(op)], if negated then [Not] else [], expr);
  }

  lemma WordsOfFour(a: seq<Tok>, b: seq<Tok>, c: seq<Tok>, d: seq<Tok>)
    ensures Words(a + b + c + d) == Words(a) + Words(b) + Words(c) + Words(d)
  {
    WordsConcat(a + b + c, d);
    WordsConcat(a + b, c);
    WordsConcat(a, b);
  }

  lemma StarWords(xs: seq<Tok>)
    ensures Words(Star(xs)) == Words(xs)
  {
    if xs != [] && xs[|xs| - 1].Word? {
      var front, last := xs[..|xs| - 1], xs[|xs| - 1];
      assert xs == front + [last];
      WordsConcat(front, [last]);
      WordsConcat(front, [last.(prefix := true)]);
      WordsOne(last);
      WordsOne(last.(prefix := true));
    }
  }

  lemma ParensWords(xs: seq<Tok>)
    ensures Words([LParen] + xs + [RParen]) == Words(xs)
  {
    WordsConcat([LParen] + xs, [RParen]);
    WordsConcat([LParen], xs);
    WordsOne(LParen);
    WordsOne(RParen);
  }

  lemma {:induction false} ChainWords(words: seq<string>)
    ensures Words(Chain(words)) == words
  {
    if |words| == 1 {
      WordsOne(Word(words[0], false));
      assert words == [words[0]];
    } else if words != [] {
      ChainWords(words[1..]);
      WordsOne(Word(words[0], false));
      WordsOne(Follows);
      WordsConcat([Word(words[0], false)], [Follows]);
      assert [Word(words[0], false)] + [Follows] == [Word(words[0], false), Follows];
      WordsConcat([Word(words[0], false), Follows], Chain(words[1..]));
      assert [words[0]] + words[1..] == words;
    }
  }

  lemma {:induction false} ChainAllWords(phrases: seq<seq<string>>)
    ensures Words(ChainAll(phrases)) == Flatten(phrases)
  {
    if phrases != [] {
      ChainWords(phrases[0]);
      ChainAllWords(phrases[1..]);
      if |phrases| > 1 {
        WordsOne(And);
        WordsConcat(Chain(phrases[0]), [And]);
        WordsConcat(Chain(phrases[0]) + [And], ChainAll(phrases[1..]));
      }
    }
  }

  lemma ExprOfWords(t: Tables, x: Token)
    ensures Words(ExprOf(t, x)) == WordsIn(t, x)
  {
    match x
    case QuotedToken(value) => ChainWords(TokenizeFlat(t, value));
    case PhraseToken(value) => ChainAllWords(Tokenize(t, value));
    case _ =>
  }

  /** The words from position i on, when a step takes n + 1 tokens of which only the first, or those
      in its parentheses, have words. */
  lemma WordsAhead(t: Tables, tokens: seq<Token>, i: nat, n: nat)
    requires i + n <= |tokens|
    ensures AllWords(t, tokens[i..]) == AllWords(t, tokens[i..i + n]) + AllWords(t, tokens[i + n..])
  {
    assert tokens[i..] == tokens[i..i + n] + tokens[i + n..];
    AllWordsConcat(t, tokens[i..i + n], tokens[i + n..]);
  }

  lemma WordsOfOne(t: Tables, tokens: seq<Token>, i: nat)
    requires i < |tokens|
    ensures AllWords(t, tokens[i..]) == WordsIn(t, tokens[i]) + AllWords(t, tokens[i + 1..])
  {
    assert tokens[i..][1..] == tokens[i + 1..];
  }

  lemma WordsOfGroup(t: Tables, tokens: seq<Token>, i: nat)
    requires i < |tokens| && tokens[i].OpenParens?
    ensures var inner := Inner(tokens, i);
            WordsFrom(t, tokens, i) == WordsFrom(t, inner, 0) + WordsFrom(t, tokens, i + |inner| + 1)
  {
    var inner := Inner(tokens, i);
    WordsOfOne(t, tokens, i);
    WordsAhead(t, tokens, i + 1, |inner|);
    assert tokens[i + 1..i + 1 + |inner|] == inner && inner[0..] == inner;
  }

  lemma AfterGroupWords(p: Progress, n: nat, expr: seq<Tok>)
    ensures Words(AfterGroup(p, n, expr).xs) == Words(p.xs) + Words(expr)
  {
    if expr != [] {
      ParensWords(expr);
      CombineWords(p.xs, p.op, p.negated, [LParen] + expr + [RParen]);
    }
  }

  lemma AfterOperandWords(p: Progress, expr: seq<Tok>, starred: bool)
    ensures Words(AfterOperand(p, expr, starred).xs) == Words(p.xs) + Words(expr)
  {
    if expr != [] {
      StarWords(expr);
      CombineWords(p.xs, p.op, p.negated, expr);
      CombineWords(p.xs, p.op, p.negated, Star(expr));
    }
  }

  /** The words from position i on; past the end there are none. */
  function WordsFrom(t: Tables, tokens: seq<Token>, i: nat): seq<string> {
    if i >= |tokens| then [] else AllWords(t, tokens[i..])
  }

  /** The words compiled and those to come: what every step keeps. */
  function Total(t: Tables, tokens: seq<Token>, p: Progress): seq<string> { Words(p.xs) + WordsFrom(t, tokens, p.i) }

  lemma SkippedWords(t: Tables, tokens: seq<Token>, i: nat)
    requires i < |tokens| && WordsIn(t, tokens[i]) == []
    ensures WordsFrom(t, tokens, i) == WordsFrom(t, tokens, i + 1)
  {
    WordsOfOne(t, tokens, i);
  }

  lemma GroupKeepsTotal(t: Tables, tokens: seq<Token>, p: Progress, n: nat, expr: seq<Tok>)
    requires WordsFrom(t, tokens, p.i) == Words(expr) + WordsFrom(t, tokens, p.i + n + 1)
    ensures Total(t, tokens, AfterGroup(p, n, expr)) == Total(t, tokens, p)
  {
    AfterGroupWords(p, n, expr);
    Assoc(Words(p.xs), Words(expr), WordsFrom(t, tokens, p.i + n + 1));
  }

  lemma GroupAtKeepsTotal(t: Tables, tokens: seq<Token>, p: Progress, expr: seq<Tok>)
    requires p.i < |tokens| && tokens[p.i].OpenParens? && Words(expr) == WordsFrom(t, Inner(tokens, p.i), 0)
    ensures Total(t, tokens, AfterGroup(p, |Inner(tokens, p.i)|, expr)) == Total(t, tokens, p)
  {
    var n := |Inner(tokens, p.i)|;
    WordsOfGroup(t, tokens, p.i);
    assert WordsFrom(t, tokens, p.i) == Words(expr) + WordsFrom(t, tokens, p.i + n + 1);
    GroupKeepsTotal(t, tokens, p, n, expr);
  }

  lemma TotalAtStart(t: Tables, tokens: seq<Token>)
    ensures Total(t, tokens, START) == WordsFrom(t, tokens, 0)
  {
    assert [] + WordsFrom(t, tokens, 0) == WordsFrom(t, tokens, 0);
  }

  lemma OperandKeepsTotal(t: Tables, tokens: seq<Token>, p: Progress, starred: bool)
    requires p.i < |tokens| && starred == Starred(tokens, p.i)
    ensures Total(t, tokens, AfterOperand(p, ExprOf(t, tokens[p.i]), starred)) == Total(t, tokens, p)
  {
    var expr := ExprOf(t, tokens[p.i]);
    ExprOfWords(t, tokens[p.i]);
    AfterOperandWords(p, expr, starred);
    WordsOfOne(t, tokens, p.i);
    if starred {
      SkippedWords(t, tokens, p.i + 1);
    }
    Assoc(Words(p.xs), Words(expr), WordsFrom(t, tokens, AfterOperand(p, expr, starred).i));
  }

  /** The words of the query are those of the quoted strings and phrases typed, in order. */
  lemma {:induction false} CompiledWords(t: Tables, tokens: seq<Token>, p: Progress)
    ensures Words(CompileFrom(t, tokens, p)) == Total(t, tokens, p)
    decreases |tokens|, |tokens| - p.i
  {
    if p.i >= |tokens| {
    } else if tokens[p.i].Operation? {
      SkippedWords(t, tokens, p.i);
      CompiledWords(t, tokens, p.(i := p.i + 1, op := tokens[p.i].operator));
    } else if tokens[p.i].Negation? {
      SkippedWords(t, tokens, p.i);
      CompiledWords(t, tokens, p.(i := p.i + 1, negated := true));
    } else if tokens[p.i].OpenParens? {
      var inner := Inner(tokens, p.i);
      var expr := CompileFrom(t, inner, START);
      CompiledWords(t, inner, START);
      TotalAtStart(t, inner);
      GroupAtKeepsTotal(t, tokens, p, expr);
      CompiledWords(t, tokens, AfterGroup(p, |inner|, expr));
    } else {
      var starred := Starred(tokens, p.i);
      OperandKeepsTotal(t, tokens, p, starred);
      CompiledWords(t, tokens, AfterOperand(p, ExprOf(t, tokens[p.i]), starred));
    }
  }

  // ---------- the compiled query is accepted ----------

  lemma {:induction false} WordsInWords(xs: seq<Tok>)
    ensures forall x :: x in xs && x.Word? ==> x.w in Words(xs)
  {
    if xs != [] {
      WordsInWords(xs[1..]);
      assert xs == [xs[0]] + xs[1..];
    }
  }

  lemma {:induction false} AllWordsAreLexemes(t: Tables, tokens: seq<Token>)
    ensures AllLexemes(AllWords(t, tokens))
  {
    if tokens != [] {
      AllWordsAreLexemes(t, tokens[1..]);
      if tokens[0].QuotedToken? || tokens[0].PhraseToken? {
        TokensAreLexemes(t, tokens[0].value);
        FlattenLexemes(Tokenize(t, tokens[0].value));
      }
    }
  }

  /** Without a word there is no operand. */
  lemma {:induction false} NoWordNoOperand(st: Expects, xs: seq<Tok>)
    requires st.operand && Words(xs) == []
    ensures Run(st, xs).None? || Run(st, xs).value.operand
    decreases |xs|
  {
    if xs != [] && Step(st, xs[0]).Some? {
      NoWordNoOperand(Step(st, xs[0]).value, xs[1..]);
    }
  }

  /** For every list of tokens: nothing is compiled exactly when there is no word; otherwise the
      text reads back as a well-formed query of exactly the words there are, in order. */
  lemma CompiledIsAccepted(t: Tables, tokens: seq<Token>)
    ensures var xs, words := Compile(t, tokens), AllWords(t, tokens);
            && (Print(xs) == "" <==> words == []) && (xs == [] <==> words == [])
            && (words != [] ==> Lex(Print(xs)) == Some(xs) && Accepts(xs) && Words(xs) == words)
  {
    var xs := Compile(t, tokens);
    CompiledWords(t, tokens, START);
    assert tokens[0..] == tokens && Words([]) + AllWords(t, tokens) == AllWords(t, tokens);
    assert Words(xs) == AllWords(t, tokens);
    WordsInWords(xs);
    AllWordsAreLexemes(t, tokens);
    LexPrint(xs);
    CompiledIsExpr(t, tokens, START);
    if xs != [] {
      assert IsExpr(xs);
      assert Accepts(xs);
      if Words(xs) == [] {
        NoWordNoOperand(Expects(0, true), xs);
      }
    }
  }

  // ---------- the text of expressions ----------

  function QuotedAll(words: seq<string>): seq<string> {
    seq(|words|, i requires 0 <= i < |words| => QuoteLexeme(words[i]))
  }

  function ChainText(words: seq<string>): string { Join(QuotedAll(words), " <-> ") }

  function ChainTexts(phrases: seq<seq<string>>): seq<string> {
    seq(|phrases|, i requires 0 <= i < |phrases| => ChainText(phrases[i]))
  }

  lemma {:induction false} ChainPrint(words: seq<string>)
    requires words != []
    ensures Print(Chain(words)) == ChainText(words)
    ensures Chain(words) != [] && Chain(words)[0].Word? && Chain(words)[|Chain(words)| - 1].Word?
  {
    var first := Word(words[0], false);
    assert TokText(first) == QuoteLexeme(words[0]);
    if |words| > 1 {
      ChainPrint(words[1..]);
      ChainTextSplit(words);
      FollowedPrint(words[0], Chain(words[1..]));
    }
  }

  lemma ChainTextSplit(words: seq<string>)
    requires |words| > 1
    ensures ChainText(words) == QuoteLexeme(words[0]) + " <-> " + ChainText(words[1..])
  {
    assert QuotedAll(words)[1..] == QuotedAll(words[1..]);
  }

  lemma FollowedPrint(w: string, rest: seq<Tok>)
    requires rest != [] && rest[0].Word?
    ensures Print([Word(w, false), Follows] + rest) == QuoteLexeme(w) + " <-> " + Print(rest)
  {
    var xs := [Word(w, false), Follows] + rest;
    assert xs[1..] == [Follows] + rest && ([Follows] + rest)[1..] == rest;
    assert TokText(Word(w, false)) == QuoteLexeme(w);
    FollowsBetween(QuoteLexeme(w), Print(rest));
  }

  lemma FollowsBetween(a: string, b: string)
    ensures a + (" " + ("<->" + (" " + b))) == a + " <-> " + b
  {
  }

  lemma {:induction false} ChainAllEnds(phrases: seq<seq<string>>)
    requires phrases != [] && forall p :: p in phrases ==> p != []
    ensures ChainAll(phrases) != [] && ChainAll(phrases)[0].Word? && ChainAll(phrases)[|ChainAll(phrases)| - 1].Word?
  {
    assert phrases[0] in phrases;
    ChainPrint(phrases[0]);
    if |phrases| > 1 {
      assert forall p :: p in phrases[1..] ==> p in phrases;
      ChainAllEnds(phrases[1..]);
    }
  }

  lemma {:induction false} ChainAllPrint(phrases: seq<seq<string>>)
    requires phrases != [] && forall p :: p in phrases ==> p != []
    ensures Print(ChainAll(phrases)) == Join(ChainTexts(phrases), " & ")
  {
    assert phrases[0] in phrases;
    ChainPrint(phrases[0]);
    if |phrases| > 1 {
      var a, b := Chain(phrases[0]), ChainAll(phrases[1..]);
      assert forall p :: p in phrases[1..] ==> p in phrases;
      ChainAllPrint(phrases[1..]);
      ChainAllEnds(phrases[1..]);
      assert ChainTexts(phrases)[1..] == ChainTexts(phrases[1..]);
      JoinedByAnd(a, b);
    }
  }

  lemma JoinedByAnd(a: seq<Tok>, b: seq<Tok>)
    requires a != [] && a[|a| - 1].Word? && b != [] && b[0].Word?
    ensures Print(a + [And] + b) == Print(a) + " & " + Print(b)
  {
    PrintAfterWord(a, And);
    PrintConcat(a + [And], b);
    AndBetween(Print(a), Print(b));
  }

  lemma PrintAfterWord(a: seq<Tok>, x: Tok)
    requires a != [] && a[|a| - 1].Word? && !x.RParen?
    ensures Print(a + [x]) == Print(a) + " " + TokText(x) && (a + [x])[|a + [x]| - 1] == x
  {
    PrintConcat(a, [x]);
  }

  lemma AndBetween(a: string, b: string)
    ensures a + " " + "&" + " " + b == a + " & " + b
  {
  }

  lemma StarPrint(xs: seq<Tok>)
    requires xs != [] && xs[|xs| - 1].Word? && !xs[|xs| - 1].prefix
    ensures Print(Star(xs)) == Print(xs) + ":*"
  {
    var front, last := xs[..|xs| - 1], xs[|xs| - 1];
    assert xs == front + [last];
    StarLast(front, last);
  }

  lemma StarLast(front: seq<Tok>, last: Tok)
    requires last.Word? && !last.prefix
    ensures Print(front + [last.(prefix := true)]) == Print(front + [last]) + ":*"
  {
    var star := last.(prefix := true);
    if front != [] {
      PrintLast(front, last);
      PrintLast(front, star);
      Assoc(Print(front) + Gap(front[|front| - 1], last), TokText(last), ":*");
    } else {
      assert front + [last] == [last] && front + [star] == [star];
    }
  }

  lemma PrintLast(front: seq<Tok>, last: Tok)
    requires front != []
    ensures Print(front + [last]) == Print(front) + Gap(front[|front| - 1], last) + TokText(last)
  {
    PrintConcat(front, [last]);
  }

  lemma GroupPrint(xs: seq<Tok>)
    requires xs != []
    ensures Print([LParen] + xs + [RParen]) == "(" + Print(xs) + ")"
  {
    var opening := [LParen] + xs;
    PrintConcat([LParen], xs);
    assert Print(opening) == "(" + Print(xs) by {
      assert "(" + "" + Print(xs) == "(" + Print(xs);
    }
    PrintConcat(opening, [RParen]);
    assert Print(opening) + "" == Print(opening);
  }
}
