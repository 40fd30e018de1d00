/**
 The text of full-text queries: how the compiler prints it, and, independently of the compiler,
 how PostgreSQL reads it (section 8.11.2 of its documentation): lexemes, quoted where they need to
 be, with an optional prefix mark; operators between operands; parentheses in pairs.
 */
module TsqueryFormat {
  import opened Strings
  import opened Wrappers
  import opened LexerBase
  import opened Tokenizer
  import TsvectorFormat

  datatype Tok = LParen | RParen | And | Or | Follows | Not | Word(w: string, prefix: bool)

  // ---------- printing ----------

  /** The characters of a word in the sense of a regular expression. */
  predicate IsPlainChar(c: char) { IsAlphanumeric(c) || c == '_' }

  predicate IsPlain(s: string) { forall i :: 0 <= i < |s| ==> IsPlainChar(s[i]) }

  /** Words of plain characters stand for themselves, others are quoted. */
  function QuoteLexeme(s: string): string { if IsPlain(s) then s else TsvectorFormat.Quoted(s) }

  function TokText(x: Tok): string {
    match x
    case LParen => "("
    case RParen => ")"
    case And => "&"
    case Or => "|"
    case Follows => "<->"
    case Not => "!"
    case Word(w, prefix) => QuoteLexeme(w) + if prefix then ":*" else ""
  }

  /** One space between tokens, none inside parentheses. */
  function Gap(a: Tok, b: Tok): string { if a.LParen? || b.RParen? then "" else " " }

  function Print(xs: seq<Tok>): string {
    if xs == [] then ""
    else if |xs| == 1 then TokText(xs[0])
    else TokText(xs[0]) + (Gap(xs[0], xs[1]) + Print(xs[1..]))
  }

  lemma {:induction false} PrintConcat(a: seq<Tok>, b: seq<Tok>)
    requires a != [] && b != []
    ensures Print(a + b) == Print(a) + Gap(a[|a| - 1], b[0]) + Print(b)
  {
    if |a| == 1 {
      assert (a + b)[1..] == b;
      Assoc(TokText(a[0]), Gap(a[0], b[0]), Print(b));
    } else {
      var rest := a[1..];
      assert (a + b)[1..] == rest + b && (a + b)[1] == a[1] && rest[|rest| - 1] == a[|a| - 1];
      PrintConcat(rest, b);
      var g := Gap(a[|a| - 1], b[0]);
      Assoc4(TokText(a[0]) + Gap(a[0], a[1]), Print(rest), g, Print(b));
      Assoc4(TokText(a[0]), Gap(a[0], a[1]), Print(rest), g + Print(b));
      Assoc(Print(rest), g, Print(b));
      Assoc(TokText(a[0]), Gap(a[0], a[1]), Print(rest));
      Assoc(TokText(a[0]), Gap(a[0], a[1]), Print(rest) + g + Print(b));
    }
  }

  // ---------- reading ----------

  /** A quoted lexeme after its opening quote: a doubled quote stands for one, and a backslash for
      the character after it. */
  function QuotedText(s: string): (r: Quotation)
    ensures |r.rest| <= |s|
  {
    if s == "" || s == "\\" then Quotation("", false, "")
    else if s[0] == '\'' && !(|s| > 1 && s[1] == '\'') then Quotation("", true, s[1..])
    else
      var escaped := s[0] == '\'' || s[0] == '\\';
      var more := QuotedText(if escaped then s[2..] else s[1..]);
      more.(text := [if escaped then s[1] else s[0]] + more.text)
  }

  function AfterWord(w: string, rest: string): (r: (Tok, string))
    ensures |r.1| <= |rest|
  {
    if |rest| >= 2 && rest[0] == ':' && rest[1] == '*' then (Word(w, true), rest[2..]) else (Word(w, false), rest)
  }

  /** The token at the start of a string. */
  function NextTok(s: string): (r: Option<(Tok, string)>)
    requires s != ""
    ensures r.Some? ==> |r.value.1| < |s|
  {
    if s[0] == '(' then Some((LParen, s[1..]))
    else if s[0] == ')' then Some((RParen, s[1..]))
    else if s[0] == '&' then Some((And, s[1..]))
    else if s[0] == '|' then Some((Or, s[1..]))
    else if s[0] == '!' then Some((Not, s[1..]))
    else if s[0] == '<' then if |s| >= 3 && s[1] == '-' && s[2] == '>' then Some((Follows, s[3..])) else None
    else if s[0] == '\'' then
      var q := QuotedText(s[1..]);
      if q.closed && q.text != "" then Some(AfterWord(q.text, q.rest)) else None
    else
      var k := Span(IsPlainChar, s);
      if k > 0 then Some(AfterWord(s[..k], s[k..])) else None
  }

  /** The tokens of a query text, if it has any other characters than those of tokens and spaces. */
  function Lex(s: string): Option<seq<Tok>>
    decreases |s|
  {
    if s == "" then Some([])
    else if s[0] == ' ' then Lex(s[1..])
    else
      var first := NextTok(s);
      if first.None? then None
      else
        var rest := Lex(first.value.1);
        if rest.None? then None else Some([first.value.0] + rest.value)
  }

  /** Whether an operand has to come next, and how many parentheses are open. */
  datatype Expects = Expects(depth: nat, operand: bool)

  function Step(st: Expects, x: Tok): Option<Expects> {
    if st.operand then
      match x
      case Word(_, _) => Some(st.(operand := false))
      case Not => Some(st)
      case LParen => Some(st.(depth := st.depth + 1))
      case _ => None
    else
      match x
      case And => Some(st.(operand := true))
      case Or => Some(st.(operand := true))
      case Follows => Some(st.(operand := true))
      case RParen => if st.depth > 0 then Some(st.(depth := st.depth - 1)) else None
      case _ => None
  }

  function Run(st: Expects, xs: seq<Tok>): Option<Expects>
    decreases |xs|
  {
    if xs == [] then Some(st)
    else
      var next := Step(st, xs[0]);
      if next.None? then None else Run(next.value, xs[1..])
  }

  /** A well-formed query: operands and operators alternate, and parentheses are balanced. */
  predicate Accepts(xs: seq<Tok>) { Run(Expects(0, true), xs) == Some(Expects(0, false)) }

  lemma {:induction false} RunConcat(st: Expects, a: seq<Tok>, b: seq<Tok>)
    ensures Run(st, a + b) == if Run(st, a).None? then None else Run(Run(st, a).value, b)
    decreases |a|
  {
    if a == [] {
      assert a + b == b;
    } else {
      assert (a + b)[1..] == a[1..] + b;
      if Step(st, a[0]).Some? {
        RunConcat(Step(st, a[0]).value, a[1..], b);
      }
    }
  }

  // ---------- what is printed reads back ----------

  predicate WordsGood(xs: seq<Tok>) { forall x :: x in xs && x.Word? ==> IsLexeme(x.w) }

  lemma {:induction false} EscapeNothing(w: string)
    requires '\'' !in w
    ensures Escape(w, '\'') == w
  {
    if w != "" {
      EscapeNothing(w[1..]);
      assert [w[0]] + w[1..] == w;
    }
  }

  lemma {:induction false} QuotedReads(w: string, rest: string)
    requires Clean(w) && (rest == "" || rest[0] != '\'')
    ensures QuotedText(w + ("'" + rest)) == Quotation(w, true, rest)
  {
    if w == "" {
      assert w + ("'" + rest) == "'" + rest;
      DropFront("'", rest);
    } else {
      QuotedReads(w[1..], rest);
      var s := w + ("'" + rest);
      assert s[0] == w[0] && w[0] in w && s[1..] == w[1..] + ("'" + rest) && |s| > 1;
      assert [w[0]] + w[1..] == w;
    }
  }

  /** What can follow a word in a printed query. */
  predicate WordEnd(rest: string) { rest == "" || rest[0] == ' ' || rest[0] == ')' }

  lemma PlainReads(w: string, after: string)
    requires w != "" && IsPlain(w) && (after == "" || !IsPlainChar(after[0]))
    ensures NextTok(w + after) == Some(AfterWord(w, after))
  {
    SpanOf(IsPlainChar, w, after);
    DropFront(w, after);
    assert (w + after)[0] == w[0] && IsPlainChar(w[0]);
  }

  lemma QuotedWordReads(w: string, after: string)
    requires IsLexeme(w) && (after == "" || after[0] != '\'')
    ensures NextTok(TsvectorFormat.Quoted(w) + after) == Some(AfterWord(w, after))
  {
    EscapeNothing(w);
    QuotedReads(w, after);
    var s := w + ("'" + after);
    assert TsvectorFormat.Quoted(w) + after == "'" + s;
    DropFront("'", s);
    assert ("'" + s)[0] == '\'';
  }

  lemma MarkReads(w: string, prefix: bool, rest: string)
    requires WordEnd(rest)
    ensures var after := (if prefix then ":*" else "") + rest;
            && AfterWord(w, after) == (Word(w, prefix), rest)
            && (after == "" || (!IsPlainChar(after[0]) && after[0] != '\''))
  {
    if prefix {
      DropFront(":*", rest);
      assert (":*" + rest)[0] == ':' && (":*" + rest)[1] == '*';
    } else {
      assert "" + rest == rest;
    }
  }

  lemma QuoteStarts(w: string)
    requires w != ""
    ensures QuoteLexeme(w) != "" && QuoteLexeme(w)[0] != ' '
  {
    if IsPlain(w) {
      assert IsPlainChar(w[0]);
    }
  }

  lemma WordReads(w: string, prefix: bool, rest: string)
    requires IsLexeme(w) && WordEnd(rest)
    ensures NextTok(TokText(Word(w, prefix)) + rest) == Some((Word(w, prefix), rest))
  {
    var mark := if prefix then ":*" else "";
    MarkReads(w, prefix, rest);
    Assoc(QuoteLexeme(w), mark, rest);
    if IsPlain(w) {
      PlainReads(w, mark + rest);
    } else {
      QuotedWordReads(w, mark + rest);
    }
  }

  lemma TokReads(x: Tok, rest: string)
    requires x.Word? ==> IsLexeme(x.w) && WordEnd(rest)
    ensures TokText(x) != "" && TokText(x)[0] != ' '
    ensures NextTok(TokText(x) + rest) == Some((x, rest))
  {
    if x.Word? {
      QuoteStarts(x.w);
      WordReads(x.w, x.prefix, rest);
    } else {
      DropFront(TokText(x), rest);
      assert (TokText(x) + rest)[0] == TokText(x)[0];
      if x.Follows? {
        assert (TokText(x) + rest)[1] == '-' && (TokText(x) + rest)[2] == '>';
      }
    }
  }

  lemma LexFirst(x: Tok, rest: string)
    requires x.Word? ==> IsLexeme(x.w) && WordEnd(rest)
    ensures Lex(TokText(x) + rest) == if Lex(rest).None? then None else Some([x] + Lex(rest).value)
  {
    TokReads(x, rest);
    assert (TokText(x) + rest)[0] == TokText(x)[0];
  }

  /** A printed token list reads back as itself. */
  lemma {:induction false} LexPrint(xs: seq<Tok>)
    requires WordsGood(xs)
    ensures Lex(Print(xs)) == Some(xs)
    decreases |xs|
  {
    if |xs| == 1 {
      assert xs[0] in xs && xs == [xs[0]];
      assert Print(xs) == TokText(xs[0]) + "";
      LexFirst(xs[0], "");
      assert [xs[0]] + [] == xs;
    } else if xs != [] {
      var gap, rest := Gap(xs[0], xs[1]), Print(xs[1..]);
      assert xs[0] in xs && xs[1] in xs && xs == [xs[0]] + xs[1..];
      LexPrint(xs[1..]);
      GapReads(xs[0], xs[1], rest);
      PrintStarts(xs[1..]);
      LexFirst(xs[0], gap + rest);
    }
  }

  lemma PrintStarts(xs: seq<Tok>)
    requires xs != []
    ensures xs[0].RParen? ==> Print(xs) != "" && Print(xs)[0] == ')'
  {
  }

  lemma GapReads(a: Tok, b: Tok, rest: string)
    ensures Lex(Gap(a, b) + rest) == Lex(rest)
    ensures a.Word? && (b.RParen? ==> rest != "" && rest[0] == ')') ==> WordEnd(Gap(a, b) + rest)
  {
    if Gap(a, b) == "" {
      assert Gap(a, b) + rest == rest;
    } else {
      DropFront(" ", rest);
      assert (" " + rest)[0] == ' ';
    }
  }
}
