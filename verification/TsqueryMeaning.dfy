/**
 What a query asks of a document, read off its text as PostgreSQL does (section 8.11.2 of its
 documentation: of the operators, ! binds closest, then <->, then &, then |) and, independently, off
 the tokens that were typed.
 */
module TsqueryMeaning {
  import opened Strings
  import opened Wrappers
  import opened LexerBase
  import opened Tokenizer
  import opened TsqueryFormat
  import opened Tsquery

  /** How an operand is joined to the one before it on its level. */
  datatype Joint = First | AllOf | AnyOf | NextTo

  /** A word, or a level of its own in parentheses. */
  datatype Atom = Lexeme(w: string, prefix: bool) | Group(items: seq<Item>)

  /** An operand with the number of negations before it. */
  datatype Item = Item(joint: Joint, nots: nat, atom: Atom)

  // ---------- reading the text ----------

  function JointOf(x: Tok): Option<Joint> {
    match x
    case And => Some(AllOf)
    case Or => Some(AnyOf)
    case Follows => Some(NextTo)
    case _ => None
  }

  function ReadNots(xs: seq<Tok>): (r: (nat, seq<Tok>))
    ensures |r.1| <= |xs|
  {
    if xs != [] && xs[0].Not? then
      var (n, rest) := ReadNots(xs[1..]);
      (n + 1, rest)
    else (0, xs)
  }

  /** One operand and what follows it. */
  function ReadAtom(xs: seq<Tok>): (r: Option<(Atom, seq<Tok>)>)
    ensures r.Some? ==> |r.value.1| < |xs|
    decreases |xs|, 0
  {
    if xs == [] then None
    else if xs[0].Word? then Some((Lexeme(xs[0].w, xs[0].prefix), xs[1..]))
    else if xs[0].LParen? then
      var inner := ReadItems(xs[1..], true);
      if inner.Some? && inner.value.1 != [] && inner.value.1[0].RParen?
      then Some((Group(inner.value.0), inner.value.1[1..]))
      else None
    else None
  }

  /** The operands of a level, up to its end. */
  function ReadItems(xs: seq<Tok>, first: bool): (r: Option<(seq<Item>, seq<Tok>)>)
    ensures r.Some? ==> |r.value.1| <= |xs|
    decreases |xs|, 1
  {
    if !first && (xs == [] || xs[0].RParen?) then Some(([], xs))
    else if !first && JointOf(xs[0]).None? then None
    else
      var joint := if first then First else JointOf(xs[0]).value;
      var (nots, ys) := ReadNots(if first then xs else xs[1..]);
      var atom := ReadAtom(ys);
      if atom.None? then None
      else
        var more := ReadItems(atom.value.1, false);
        if more.None? then None else Some(([Item(joint, nots, atom.value.0)] + more.value.0, more.value.1))
  }

  /** The top level of a query. */
  function ReadQuery(xs: seq<Tok>): Option<seq<Item>> {
    var r := ReadItems(xs, true);
    if r.Some? && r.value.1 == [] then Some(r.value.0) else None
  }

  // ---------- reading what was typed ----------

  /** What stands side by side on one level: single tokens, and groups in parentheses, given by the
      position of the one that opens it. The one that closes it, if there is one, is a token of its
      own. */
  datatype Piece = One(token: Token) | Parens(open: nat)

  function PiecesFrom(tokens: seq<Token>, i: nat): seq<Piece>
    decreases |tokens| - i
  {
    if i >= |tokens| then []
    else if tokens[i].OpenParens? then
      [Parens(i)] + PiecesFrom(tokens, i + InnerLength(tokens, i + 1, 1) + 1)
    else [One(tokens[i])] + PiecesFrom(tokens, i + 1)
  }

  /** Every group opens among the n tokens. */
  predicate Small(ps: seq<Piece>, n: nat) { forall j :: 0 <= j < |ps| && ps[j].Parens? ==> ps[j].open < n }

  lemma {:induction false} PiecesAreSmall(tokens: seq<Token>, i: nat)
    ensures Small(PiecesFrom(tokens, i), |tokens|)
    decreases |tokens| - i
  {
    if i < |tokens| {
      PiecesAreSmall(tokens, if tokens[i].OpenParens? then i + InnerLength(tokens, i + 1, 1) + 1 else i + 1);
    }
  }

  function Typist(op: Operator): Joint {
    match op
    case AndOperator => AllOf
    case OrOperator => AnyOf
    case FollowedBy => NextTo
  }

  /** The last operator typed, or "and" if there is none. */
  function LastOperator(ps: seq<Piece>): Joint {
    if ps == [] then AllOf
    else if ps[|ps| - 1].One? && ps[|ps| - 1].token.Operation? then Typist(ps[|ps| - 1].token.operator)
    else LastOperator(ps[..|ps| - 1])
  }

  /** The phrases of a quoted string, which is a single one, or of a run of word characters. */
  function PhrasesIn(t: Tables, x: Token): seq<seq<string>> {
    match x
    case QuotedToken(value) => if TokenizeFlat(t, value) == [] then [] else [TokenizeFlat(t, value)]
    case PhraseToken(value) => Tokenize(t, value)
    case _ => []
  }

  /** The words of a phrase, each next to the one before. */
  function PhraseItems(words: seq<string>, joint: Joint): seq<Item> {
    if words == [] then [] else [Item(joint, 0, Lexeme(words[0], false))] + PhraseItems(words[1..], NextTo)
  }

  /** All of some phrases. */
  function PhrasesItems(phrases: seq<seq<string>>, joint: Joint): seq<Item> {
    if phrases == [] then [] else PhraseItems(phrases[0], joint) + PhrasesItems(phrases[1..], AllOf)
  }

  /** A prefix mark, on the last word. */
  function Marked(items: seq<Item>): seq<Item> {
    if items != [] && items[|items| - 1].atom.Lexeme? then
      items[|items| - 1 := items[|items| - 1].(atom := items[|items| - 1].atom.(prefix := true))]
    else items
  }

  /** The negation and the joint, on the first operand. */
  function Introduced(items: seq<Item>, joint: Joint, negated: bool): seq<Item> {
    if items == [] then [] else items[0 := items[0].(joint := joint, nots := if negated then 1 else 0)]
  }

  /** What piece j asks for, if it asks for anything. */
  function OperandAt(t: Tables, tokens: seq<Token>, ps: seq<Piece>, j: nat): seq<Item>
    requires j < |ps| && (ps[j].Parens? ==> ps[j].open < |tokens|)
    decreases |tokens|, 0, 0
  {
    match ps[j]
    case One(x) =>
      var items := PhrasesItems(PhrasesIn(t, x), First);
      if j + 1 < |ps| && ps[j + 1] == One(Wildcard) then Marked(items) else items
    case Parens(open) =>
      var items := Typed(t, Inner(tokens, open));
      if items == [] then [] else [Item(First, 0, Group(items))]
  }

  /** The operands from piece j on; the last operand before j ended at `from`. Each is joined by the
      last operator typed since the operand before it, and negated if a negation was. */
  function TypedFrom(t: Tables, tokens: seq<Token>, ps: seq<Piece>, from: nat, j: nat, first: bool): seq<Item>
    requires from <= j <= |ps| && Small(ps, |tokens|)
    decreases |tokens|, 1, |ps| - j
  {
    if j == |ps| then []
    else
      var operand := OperandAt(t, tokens, ps, j);
      if operand == [] then TypedFrom(t, tokens, ps, from, j + 1, first)
      else
        var between := ps[from..j];
        Introduced(operand, if first then First else LastOperator(between), One(Negation) in between)
        + TypedFrom(t, tokens, ps, j + 1, j + 1, false)
  }

  /** The level that a list of tokens spells. */
  function Typed(t: Tables, tokens: seq<Token>): seq<Item>
    decreases |tokens|, 2, 0
  {
    PiecesAreSmall(tokens, 0);
    TypedFrom(t, tokens, PiecesFrom(tokens, 0), 0, 0, true)
  }

  // ---------- the tokens of a level ----------

  function JointToks(j: Joint): seq<Tok> {
    match j
    case First => []
    case AllOf => [And]
    case AnyOf => [Or]
    case NextTo => [Follows]
  }

  function Nots(n: nat): seq<Tok> { if n == 0 then [] else [Not] + Nots(n - 1) }

  function AtomToks(a: Atom): seq<Tok>
    decreases a, 0
  {
    match a
    case Lexeme(w, prefix) => [Word(w, prefix)]
    case Group(items) => [LParen] + Spell(items) + [RParen]
  }

  function ItemToks(x: Item): seq<Tok>
    decreases x, 1
  {
    JointToks(x.joint) + Nots(x.nots) + AtomToks(x.atom)
  }

  function Spell(items: seq<Item>): seq<Tok>
    decreases items, 0
  {
    if items == [] then [] else ItemToks(items[0]) + Spell(items[1..])
  }

  lemma {:induction false} SpellConcat(a: seq<Item>, b: seq<Item>)
    ensures Spell(a + b) == Spell(a) + Spell(b)
  {
    if a == [] {
      assert a + b == b;
    } else {
      assert (a + b)[1..] == a[1..] + b;
      SpellConcat(a[1..], b);
      Assoc(ItemToks(a[0]), Spell(a[1..]), Spell(b));
    }
  }

  /** Groups have operands, and every operand but the first of a level is joined to the one before. */
  ghost predicate Good(items: seq<Item>, first: bool)
    decreases items, 0
  {
    items != [] ==> (items[0].joint.First? <==> first) && GoodItem(items[0]) && Good(items[1..], false)
  }

  ghost predicate GoodItem(x: Item)
    decreases x, 1
  {
    x.atom.Group? ==> x.atom.items != [] && Good(x.atom.items, true)
  }

  // ---------- a level reads back from its tokens ----------

  lemma {:induction false} NotsRead(n: nat, rest: seq<Tok>)
    requires rest == [] || !rest[0].Not?
    ensures ReadNots(Nots(n) + rest) == (n, rest)
  {
    if n == 0 {
      assert [] + rest == rest;
    } else {
      var xs := [Not] + (Nots(n - 1) + rest);
      assert Nots(n) + rest == xs && xs[1..] == Nots(n - 1) + rest;
      NotsRead(n - 1, rest);
    }
  }

  lemma {:induction false} AtomReads(x: Item, rest: seq<Tok>)
    requires GoodItem(x)
    ensures AtomToks(x.atom) != [] && !AtomToks(x.atom)[0].Not? && !AtomToks(x.atom)[0].RParen?
    ensures ReadAtom(AtomToks(x.atom) + rest) == Some((x.atom, rest))
    decreases x, 0
  {
    var xs := AtomToks(x.atom) + rest;
    match x.atom
    case Lexeme(w, prefix) =>
      assert xs[0] == Word(w, prefix) && xs[1..] == rest;
    case Group(items) =>
      var after := [RParen] + rest;
      assert xs == [LParen] + (Spell(items) + after) && xs[1..] == Spell(items) + after && after[1..] == rest;
      ItemsRead(items, after, true);
  }

  /** An operand, whatever comes after it on its level. */
  lemma ItemReads(x: Item, rest: seq<Tok>, first: bool)
    requires (x.joint.First? <==> first) && GoodItem(x)
    requires ReadAtom(AtomToks(x.atom) + rest) == Some((x.atom, rest))
    requires AtomToks(x.atom) != [] && !AtomToks(x.atom)[0].Not? && !AtomToks(x.atom)[0].RParen?
    ensures var more := ReadItems(rest, false);
            ReadItems(ItemToks(x) + rest, first) ==
              if more.None? then None else Some(([x] + more.value.0, more.value.1))
  {
    var xs, body := ItemToks(x) + rest, AtomToks(x.atom) + rest;
    NotsRead(x.nots, body);
    Assoc4(JointToks(x.joint), Nots(x.nots), AtomToks(x.atom), rest);
    Assoc(Nots(x.nots), AtomToks(x.atom), rest);
    var tail := Nots(x.nots) + body;
    assert xs == JointToks(x.joint) + tail;
    if first {
      assert xs == tail;
    } else {
      assert xs[0] == JointToks(x.joint)[0] && xs[1..] == tail;
    }
  }

  lemma {:induction false} ItemsRead(items: seq<Item>, rest: seq<Tok>, first: bool)
    requires Good(items, first) && (first ==> items != []) && (rest == [] || rest[0].RParen?)
    ensures ReadItems(Spell(items) + rest, first) == Some((items, rest))
    decreases items, 1
  {
    if items == [] {
      assert [] + rest == rest;
    } else {
      var x, after := items[0], Spell(items[1..]) + rest;
      AtomReads(x, after);
      ItemReads(x, after, first);
      ItemsRead(items[1..], rest, false);
      Assoc(ItemToks(x), Spell(items[1..]), rest);
      assert [x] + items[1..] == items;
    }
  }

  lemma QueryReads(items: seq<Item>)
    requires items != [] && Good(items, true)
    ensures ReadQuery(Spell(items)) == Some(items)
  {
    ItemsRead(items, [], true);
    assert Spell(items) + [] == Spell(items);
  }

  // ---------- what is compiled is what was typed ----------

  lemma SpellOne(x: Item)
    ensures Spell([x]) == ItemToks(x)
  {
    assert [x][1..] == [];
  }

  lemma SpellNothing(items: seq<Item>)
    ensures Spell(items) == [] <==> items == []
  {
    if items != [] {
      assert AtomToks(items[0].atom) != [];
    }
  }

  /** The first word carries the joint; the others are the same whatever it is. */
  lemma JointSpells(words: seq<string>, joint: Joint)
    requires words != []
    ensures Spell(PhraseItems(words, joint)) ==
              JointToks(joint) + ([Word(words[0], false)] + Spell(PhraseItems(words[1..], NextTo)))
  {
    var first, rest := Item(joint, 0, Lexeme(words[0], false)), PhraseItems(words[1..], NextTo);
    assert PhraseItems(words, joint)[0] == first && PhraseItems(words, joint)[1..] == rest;
    assert ItemToks(first) == JointToks(joint) + [Word(words[0], false)];
    Assoc(JointToks(joint), [Word(words[0], false)], Spell(rest));
  }

  lemma ChainSplit(words: seq<string>)
    requires words != []
    ensures Chain(words) == [Word(words[0], false)] + if |words| == 1 then [] else [Follows] + Chain(words[1..])
  {
  }

  lemma {:induction false} ChainSpells(words: seq<string>, joint: Joint)
    requires words != []
    ensures Spell(PhraseItems(words, joint)) == JointToks(joint) + Chain(words)
  {
    JointSpells(words, joint);
    ChainSplit(words);
    if |words| > 1 {
      ChainSpells(words[1..], NextTo);
    } else {
      assert PhraseItems(words[1..], NextTo) == [];
    }
  }

  lemma ChainAllSplit(phrases: seq<seq<string>>)
    requires phrases != []
    ensures ChainAll(phrases) ==
              Chain(phrases[0]) + if |phrases| == 1 then [] else [And] + ChainAll(phrases[1..])
  {
    if |phrases| > 1 {
      Assoc(Chain(phrases[0]), [And], ChainAll(phrases[1..]));
    }
  }

  lemma PhrasesSplit(phrases: seq<seq<string>>, joint: Joint)
    requires phrases != []
    ensures Spell(PhrasesItems(phrases, joint)) ==
              Spell(PhraseItems(phrases[0], joint)) + Spell(PhrasesItems(phrases[1..], AllOf))
  {
    SpellConcat(PhraseItems(phrases[0], joint), PhrasesItems(phrases[1..], AllOf));
  }

  lemma {:induction false} ChainAllSpells(phrases: seq<seq<string>>)
    requires forall i :: 0 <= i < |phrases| ==> phrases[i] != []
    ensures ChainAll(phrases) == Spell(PhrasesItems(phrases, First))
    ensures phrases != [] ==> [And] + ChainAll(phrases) == Spell(PhrasesItems(phrases, AllOf))
  {
    if phrases != [] {
      ChainAllSpells(phrases[1..]);
      ChainSpells(phrases[0], First);
      ChainSpells(phrases[0], AllOf);
      assert [] + Chain(phrases[0]) == Chain(phrases[0]);
      ChainAllSplit(phrases);
      PhrasesSplit(phrases, First);
      PhrasesSplit(phrases, AllOf);
      var rest := if |phrases| == 1 then [] else [And] + ChainAll(phrases[1..]);
      assert Spell(PhrasesItems(phrases[1..], AllOf)) == rest;
      Assoc([And], Chain(phrases[0]), rest);
    }
  }

  /** The words of a token. */
  function WordsOf(t: Tables, x: Token): seq<Item> { PhrasesItems(PhrasesIn(t, x), First) }

  lemma OperandSpells(t: Tables, x: Token)
    ensures ExprOf(t, x) == Spell(WordsOf(t, x))
  {
    match x
    case QuotedToken(value) =>
      var words := TokenizeFlat(t, value);
      if words != [] {
        ChainSpells(words, First);
        PhrasesSplit([words], First);
        assert [words][1..] == [] && [] + Chain(words) + [] == Chain(words);
      }
    case PhraseToken(value) =>
      TokensAreLexemes(t, value);
      assert forall i :: 0 <= i < |Tokenize(t, value)| ==> Tokenize(t, value)[i] in Tokenize(t, value);
      ChainAllSpells(Tokenize(t, value));
    case _ =>
  }

  ghost predicate OnlyWords(items: seq<Item>) {
    forall i :: 0 <= i < |items| ==> items[i].atom.Lexeme? && items[i].nots == 0
  }

  lemma {:induction false} PhraseIsWords(words: seq<string>, joint: Joint)
    ensures OnlyWords(PhraseItems(words, joint))
    ensures words != [] ==> PhraseItems(words, joint) != [] && PhraseItems(words, joint)[0].joint == joint
    ensures forall i :: 0 < i < |PhraseItems(words, joint)| ==> PhraseItems(words, joint)[i].joint == NextTo
  {
    if words != [] {
      PhraseIsWords(words[1..], NextTo);
    }
  }

  lemma {:induction false} PhrasesAreWords(phrases: seq<seq<string>>, joint: Joint)
    requires forall i :: 0 <= i < |phrases| ==> phrases[i] != []
    ensures OnlyWords(PhrasesItems(phrases, joint))
    ensures phrases != [] ==> PhrasesItems(phrases, joint) != [] && PhrasesItems(phrases, joint)[0].joint == joint
    ensures forall i :: 0 < i < |PhrasesItems(phrases, joint)| ==> !PhrasesItems(phrases, joint)[i].joint.First?
  {
    if phrases != [] {
      PhraseIsWords(phrases[0], joint);
      PhrasesAreWords(phrases[1..], AllOf);
    }
  }

  lemma WordsAreWords(t: Tables, x: Token)
    ensures var items := WordsOf(t, x);
            OnlyWords(items) && forall i :: 0 <= i < |items| ==> (items[i].joint.First? <==> i == 0)
  {
    if x.PhraseToken? {
      TokensAreLexemes(t, x.value);
      assert forall i :: 0 <= i < |Tokenize(t, x.value)| ==> Tokenize(t, x.value)[i] in Tokenize(t, x.value);
    }
    PhrasesAreWords(PhrasesIn(t, x), First);
  }

  lemma MarkedSpells(items: seq<Item>)
    requires items != [] && OnlyWords(items)
    ensures Spell(Marked(items)) == Star(Spell(items))
  {
    var front, last := items[..|items| - 1], items[|items| - 1];
    var marked := last.(atom := last.atom.(prefix := true));
    assert items == front + [last] && Marked(items) == front + [marked];
    SpellConcat(front, [last]);
    SpellConcat(front, [marked]);
    SpellOne(last);
    SpellOne(marked);
    assert ItemToks(last) == JointToks(last.joint) + [] + [Word(last.atom.w, last.atom.prefix)];
  }

  /** Adding an operand, with its operator and its negation. */
  lemma IntroducedSpells(xs: seq<Tok>, op: Operator, negated: bool, items: seq<Item>, joint: Joint)
    requires items != [] && items[0].joint == First && items[0].nots == 0
    requires joint == if xs == [] then First else Typist(op)
    ensures Combine(xs, op, negated, Spell(items)) == xs + Spell(Introduced(items, joint, negated))
  {
    var a: seq<Tok> := if xs == [] then [] else [OperatorTok(op)];
    var b: seq<Tok> := if negated then [Not] else [];
    var first := Introduced(items, joint, negated)[0];
    assert Introduced(items, joint, negated)[1..] == items[1..];
    assert JointToks(joint) == a;
    assert Nots(0) == [] && Nots(1) == [Not];
    assert Nots(first.nots) == b;
    assert ItemToks(items[0]) == AtomToks(items[0].atom);
    Assoc4(a, b, AtomToks(items[0].atom), Spell(items[1..]));
    Assoc(b, AtomToks(items[0].atom), Spell(items[1..]));
    Assoc4(xs, a, b, Spell(items));
  }

  lemma LastOneMore(ps: seq<Piece>, from: nat, j: nat)
    requires from <= j < |ps|
    ensures ps[from..j + 1] == ps[from..j] + [ps[j]]
    ensures LastOperator(ps[from..j + 1]) ==
              if ps[j].One? && ps[j].token.Operation? then Typist(ps[j].token.operator) else LastOperator(ps[from..j])
    ensures One(Negation) in ps[from..j + 1] <==> One(Negation) in ps[from..j] || ps[j] == One(Negation)
  {
    var longer := ps[from..j + 1];
    assert longer == ps[from..j] + [ps[j]];
    assert longer[..|longer| - 1] == ps[from..j];
  }

  /** The compiler has read up to piece j; the last operand ended at piece `from`. */
  ghost predicate ReadUpTo(tokens: seq<Token>, p: Progress, from: nat, j: nat) {
    var ps := PiecesFrom(tokens, 0);
    && Small(ps, |tokens|)
    && from <= j <= |ps| && ps[j..] == PiecesFrom(tokens, p.i)
    && Typist(p.op) == LastOperator(ps[from..j])
    && (p.negated <==> One(Negation) in ps[from..j])
  }

  lemma PieceAt(tokens: seq<Token>, p: Progress, from: nat, j: nat)
    requires ReadUpTo(tokens, p, from, j) && p.i < |tokens|
    ensures var ps := PiecesFrom(tokens, 0);
            && j < |ps|
            && (tokens[p.i].OpenParens? ==>
                  ps[j] == Parens(p.i) && ps[j + 1..] == PiecesFrom(tokens, p.i + InnerLength(tokens, p.i + 1, 1) + 1))
            && (!tokens[p.i].OpenParens? ==> ps[j] == One(tokens[p.i]) && ps[j + 1..] == PiecesFrom(tokens, p.i + 1))
  {
    var ps, more := PiecesFrom(tokens, 0), PiecesFrom(tokens, p.i);
    assert more != [] && ps[j..][0] == ps[j] && ps[j..][1..] == ps[j + 1..];
    assert more[1..] == ps[j + 1..];
  }

  lemma StarAt(tokens: seq<Token>, p: Progress, from: nat, j: nat)
    requires ReadUpTo(tokens, p, from, j) && p.i < |tokens| && !tokens[p.i].OpenParens?
    ensures var ps := PiecesFrom(tokens, 0);
            && (Starred(tokens, p.i) <==> j + 1 < |ps| && ps[j + 1] == One(Wildcard))
            && (Starred(tokens, p.i) ==> ps[j + 2..] == PiecesFrom(tokens, p.i + 2))
  {
    var ps, more := PiecesFrom(tokens, 0), PiecesFrom(tokens, p.i + 1);
    PieceAt(tokens, p, from, j);
    if p.i + 1 < |tokens| {
      assert ps[j + 1..] == more && more != [] && ps[j + 1..][0] == ps[j + 1];
      assert ps[j + 1..][1..] == ps[j + 2..];
      if Starred(tokens, p.i) {
        assert more[1..] == PiecesFrom(tokens, p.i + 2);
      }
    }
  }

  /** What is compiled so far and what is still to come is what the tokens ask for. */
  ghost predicate Agrees(t: Tables, tokens: seq<Token>, p: Progress, from: nat, j: nat)
    requires from <= j <= |PiecesFrom(tokens, 0)| && Small(PiecesFrom(tokens, 0), |tokens|)
  {
    CompileFrom(t, tokens, p) == p.xs + Spell(TypedFrom(t, tokens, PiecesFrom(tokens, 0), from, j, p.xs == []))
  }

  /** A piece without an operand is passed over. */
  lemma PassOver(t: Tables, tokens: seq<Token>, p: Progress, from: nat, j: nat, q: Progress)
    requires ReadUpTo(tokens, p, from, j) && p.i < |tokens| && CompileFrom(t, tokens, p) == CompileFrom(t, tokens, q)
    requires var ps := PiecesFrom(tokens, 0);
             j < |ps| && OperandAt(t, tokens, ps, j) == []
             && q.xs == p.xs && ps[j + 1..] == PiecesFrom(tokens, q.i)
             && q.op == (if ps[j].One? && ps[j].token.Operation? then ps[j].token.operator else p.op)
             && q.negated == (p.negated || ps[j] == One(Negation))
    ensures ReadUpTo(tokens, q, from, j + 1) && (Agrees(t, tokens, q, from, j + 1) ==> Agrees(t, tokens, p, from, j))
  {
    LastOneMore(PiecesFrom(tokens, 0), from, j);
  }

  /** A piece with an operand is added, with the operator and the negation before it. */
  lemma TakeIn(t: Tables, tokens: seq<Token>, p: Progress, from: nat, j: nat, q: Progress)
    requires ReadUpTo(tokens, p, from, j) && p.i < |tokens|
    requires var ps := PiecesFrom(tokens, 0);
             && j < |ps| && OperandAt(t, tokens, ps, j) != []
             && OperandAt(t, tokens, ps, j)[0].joint == First && OperandAt(t, tokens, ps, j)[0].nots == 0
             && q.op == AndOperator && !q.negated
             && q.xs == Combine(p.xs, p.op, p.negated, Spell(OperandAt(t, tokens, ps, j)))
             && ps[j + 1..] == PiecesFrom(tokens, q.i)
    ensures ReadUpTo(tokens, q, j + 1, j + 1) && q.xs != []
    ensures var ps := PiecesFrom(tokens, 0);
            p.xs + Spell(TypedFrom(t, tokens, ps, from, j, p.xs == [])) ==
              q.xs + Spell(TypedFrom(t, tokens, ps, j + 1, j + 1, false))
  {
    var ps := PiecesFrom(tokens, 0);
    var operand := OperandAt(t, tokens, ps, j);
    var joint := if p.xs == [] then First else LastOperator(ps[from..j]);
    var rest := TypedFrom(t, tokens, ps, j + 1, j + 1, false);
    IntroducedSpells(p.xs, p.op, p.negated, operand, joint);
    SpellConcat(Introduced(operand, joint, p.negated), rest);
    Assoc(p.xs, Spell(Introduced(operand, joint, p.negated)), Spell(rest));
    SpellNothing(Introduced(operand, joint, p.negated));
    assert ps[j + 1..j + 1] == [];
  }

  lemma GroupOperand(t: Tables, tokens: seq<Token>, ps: seq<Piece>, j: nat, inner: seq<Token>)
    requires j < |ps| && ps[j].Parens? && ps[j].open < |tokens| && Inner(tokens, ps[j].open) == inner
    requires Compile(t, inner) == Spell(Typed(t, inner))
    ensures var operand, e := OperandAt(t, tokens, ps, j), Compile(t, inner);
            && (operand == [] <==> e == [])
            && (e != [] ==>
                  operand[0].joint == First && operand[0].nots == 0 && Spell(operand) == [LParen] + e + [RParen])
  {
    var items := Typed(t, inner);
    SpellNothing(items);
    if items != [] {
      var group := Item(First, 0, Group(items));
      SpellOne(group);
      assert ItemToks(group) == AtomToks(Group(items));
    }
  }

  lemma WordsOperand(t: Tables, tokens: seq<Token>, ps: seq<Piece>, j: nat, x: Token, starred: bool)
    requires j < |ps| && ps[j] == One(x) && (starred <==> j + 1 < |ps| && ps[j + 1] == One(Wildcard))
    ensures var operand, e := OperandAt(t, tokens, ps, j), ExprOf(t, x);
            && (operand == [] <==> e == [])
            && (e != [] ==> operand[0].joint == First && operand[0].nots == 0
                            && Spell(operand) == if starred then Star(e) else e)
  {
    var items := WordsOf(t, x);
    OperandSpells(t, x);
    SpellNothing(items);
    WordsAreWords(t, x);
    if items != [] {
      MarkedSpells(items);
    }
  }

  lemma GroupStep(t: Tables, tokens: seq<Token>, p: Progress)
    requires p.i < |tokens| && tokens[p.i].OpenParens?
    ensures var inner := Inner(tokens, p.i);
            CompileFrom(t, tokens, p) == CompileFrom(t, tokens, AfterGroup(p, |inner|, Compile(t, inner)))
  {
  }

  lemma OperandStep(t: Tables, tokens: seq<Token>, p: Progress)
    requires p.i < |tokens| && !tokens[p.i].Operation? && !tokens[p.i].Negation? && !tokens[p.i].OpenParens?
    ensures CompileFrom(t, tokens, p) ==
              CompileFrom(t, tokens, AfterOperand(p, ExprOf(t, tokens[p.i]), Starred(tokens, p.i)))
  {
  }

  lemma TakeStep(t: Tables, tokens: seq<Token>, p: Progress, from: nat, j: nat, q: Progress, operand: seq<Item>)
    requires ReadUpTo(tokens, p, from, j) && p.i < |tokens| && CompileFrom(t, tokens, p) == CompileFrom(t, tokens, q)
    requires var ps := PiecesFrom(tokens, 0);
             && j < |ps| && operand == OperandAt(t, tokens, ps, j) && operand != []
             && operand[0].joint == First && operand[0].nots == 0
             && q.op == AndOperator && !q.negated && q.xs == Combine(p.xs, p.op, p.negated, Spell(operand))
             && ps[j + 1..] == PiecesFrom(tokens, q.i)
    ensures ReadUpTo(tokens, q, j + 1, j + 1) && q.xs != []
    ensures Agrees(t, tokens, q, j + 1, j + 1) ==> Agrees(t, tokens, p, from, j)
  {
    TakeIn(t, tokens, p, from, j, q);
  }

  /** Piece j is the group `inner`, and `q` is where the compiler stands after it. */
  ghost predicate GroupRead(t: Tables, tokens: seq<Token>, p: Progress, j: nat, inner: seq<Token>, q: Progress) {
    var ps := PiecesFrom(tokens, 0);
    && j < |ps| && ps[j].Parens? && ps[j].open < |tokens| && Inner(tokens, ps[j].open) == inner
    && ps[j + 1..] == PiecesFrom(tokens, q.i)
    && Compile(t, inner) == Spell(Typed(t, inner))
    && CompileFrom(t, tokens, p) == CompileFrom(t, tokens, q)
  }

  lemma GroupPiece(tokens: seq<Token>, p: Progress, from: nat, j: nat, inner: seq<Token>, k: nat)
    requires ReadUpTo(tokens, p, from, j) && p.i < |tokens| && tokens[p.i].OpenParens?
    requires inner == Inner(tokens, p.i) && k == p.i + |inner| + 1
    ensures var ps := PiecesFrom(tokens, 0);
            j < |ps| && ps[j] == Parens(p.i) && ps[j + 1..] == PiecesFrom(tokens, k)
  {
    PieceAt(tokens, p, from, j);
    InnerHasLength(tokens, p.i);
  }

  lemma InnerHasLength(tokens: seq<Token>, i: nat)
    requires i < |tokens|
    ensures |Inner(tokens, i)| == InnerLength(tokens, i + 1, 1)
  {
  }

  lemma AfterGroupIs(p: Progress, n: nat, e: seq<Tok>)
    ensures var q := AfterGroup(p, n, e);
            && q.i == p.i + n + 1
            && (if e == [] then q == p.(i := q.i) else q == Added(p, q.i - p.i, [LParen] + e + [RParen]))
  {
  }

  lemma GroupIsRead(t: Tables, tokens: seq<Token>, p: Progress, from: nat, j: nat, inner: seq<Token>, q: Progress)
    requires ReadUpTo(tokens, p, from, j) && p.i < |tokens| && tokens[p.i].OpenParens? && inner == Inner(tokens, p.i)
    requires Compile(t, inner) == Spell(Typed(t, inner)) && q == AfterGroup(p, |inner|, Compile(t, inner))
    requires CompileFrom(t, tokens, p) == CompileFrom(t, tokens, q)
    ensures GroupRead(t, tokens, p, j, inner, q)
  {
    GroupPiece(tokens, p, from, j, inner, q.i);
  }

  lemma EmptyGroup(t: Tables, tokens: seq<Token>, p: Progress, from: nat, j: nat, inner: seq<Token>, q: Progress)
    requires ReadUpTo(tokens, p, from, j) && p.i < |tokens| && GroupRead(t, tokens, p, j, inner, q)
    requires Compile(t, inner) == [] && q == p.(i := q.i)
    ensures ReadUpTo(tokens, q, from, j + 1) && (Agrees(t, tokens, q, from, j + 1) ==> Agrees(t, tokens, p, from, j))
  {
    GroupOperand(t, tokens, PiecesFrom(tokens, 0), j, inner);
    PassOver(t, tokens, p, from, j, q);
  }

  lemma FullGroup(t: Tables, tokens: seq<Token>, p: Progress, from: nat, j: nat, inner: seq<Token>, q: Progress)
    requires ReadUpTo(tokens, p, from, j) && p.i < |tokens| && GroupRead(t, tokens, p, j, inner, q)
    requires var e := Compile(t, inner); e != [] && q.i > p.i && q == Added(p, q.i - p.i, [LParen] + e + [RParen])
    ensures ReadUpTo(tokens, q, j + 1, j + 1)
    ensures Agrees(t, tokens, q, j + 1, j + 1) ==> Agrees(t, tokens, p, from, j)
  {
    GroupOperand(t, tokens, PiecesFrom(tokens, 0), j, inner);
    TakeStep(t, tokens, p, from, j, q, OperandAt(t, tokens, PiecesFrom(tokens, 0), j));
  }

  lemma NoOperand(t: Tables, tokens: seq<Token>, p: Progress, from: nat, j: nat, q: Progress)
    requires ReadUpTo(tokens, p, from, j) && p.i < |tokens|
    requires !tokens[p.i].Operation? && !tokens[p.i].Negation? && !tokens[p.i].OpenParens?
    requires ExprOf(t, tokens[p.i]) == [] && q == p.(i := p.i + 1)
    ensures ReadUpTo(tokens, q, from, j + 1) && (Agrees(t, tokens, q, from, j + 1) ==> Agrees(t, tokens, p, from, j))
  {
    PieceAt(tokens, p, from, j);
    StarAt(tokens, p, from, j);
    WordsOperand(t, tokens, PiecesFrom(tokens, 0), j, tokens[p.i], Starred(tokens, p.i));
    OperandStep(t, tokens, p);
    PassOver(t, tokens, p, from, j, q);
  }

  lemma PlainOperand(t: Tables, tokens: seq<Token>, p: Progress, from: nat, j: nat, q: Progress)
    requires ReadUpTo(tokens, p, from, j) && p.i < |tokens|
    requires !tokens[p.i].Operation? && !tokens[p.i].Negation? && !tokens[p.i].OpenParens? && !Starred(tokens, p.i)
    requires ExprOf(t, tokens[p.i]) != [] && q == Added(p, 1, ExprOf(t, tokens[p.i]))
    ensures ReadUpTo(tokens, q, j + 1, j + 1)
    ensures Agrees(t, tokens, q, j + 1, j + 1) ==> Agrees(t, tokens, p, from, j)
  {
    PieceAt(tokens, p, from, j);
    StarAt(tokens, p, from, j);
    WordsOperand(t, tokens, PiecesFrom(tokens, 0), j, tokens[p.i], false);
    OperandStep(t, tokens, p);
    TakeStep(t, tokens, p, from, j, q, OperandAt(t, tokens, PiecesFrom(tokens, 0), j));
  }

  lemma StarredOperand(t: Tables, tokens: seq<Token>, p: Progress, from: nat, j: nat, q: Progress)
    requires ReadUpTo(tokens, p, from, j) && p.i < |tokens|
    requires !tokens[p.i].Operation? && !tokens[p.i].Negation? && !tokens[p.i].OpenParens? && Starred(tokens, p.i)
    requires ExprOf(t, tokens[p.i]) != [] && q == Added(p, 2, Star(ExprOf(t, tokens[p.i])))
    ensures ReadUpTo(tokens, q, j + 1, j + 2)
    ensures Agrees(t, tokens, q, j + 1, j + 2) ==> Agrees(t, tokens, p, from, j)
  {
    var q1 := q.(i := p.i + 1);
    PieceAt(tokens, p, from, j);
    StarAt(tokens, p, from, j);
    WordsOperand(t, tokens, PiecesFrom(tokens, 0), j, tokens[p.i], true);
    OperandStep(t, tokens, p);
    StarPassed(t, tokens, q1, q);
    TakeStep(t, tokens, p, from, j, q1, OperandAt(t, tokens, PiecesFrom(tokens, 0), j));
    SkipStar(t, tokens, q1, j + 1, q);
  }

  /** A mark on its own does nothing. */
  lemma StarPassed(t: Tables, tokens: seq<Token>, p: Progress, q: Progress)
    requires p.i < |tokens| && tokens[p.i].Wildcard? && q == p.(i := p.i + 1)
    ensures CompileFrom(t, tokens, p) == CompileFrom(t, tokens, q)
  {
    OperandStep(t, tokens, p);
  }

  lemma SignIsNothing(t: Tables, tokens: seq<Token>, ps: seq<Piece>, j: nat)
    requires j < |ps| && ps[j].One? && (ps[j].token.Operation? || ps[j].token.Negation?)
    ensures OperandAt(t, tokens, ps, j) == []
  {
  }

  lemma SignStep(t: Tables, tokens: seq<Token>, p: Progress, q: Progress)
    requires p.i < |tokens| && (tokens[p.i].Operation? || tokens[p.i].Negation?)
    requires q == if tokens[p.i].Operation? then p.(i := p.i + 1, op := tokens[p.i].operator)
                  else p.(i := p.i + 1, negated := true)
    ensures CompileFrom(t, tokens, p) == CompileFrom(t, tokens, q)
  {
  }

  lemma SignRead(t: Tables, tokens: seq<Token>, p: Progress, from: nat, j: nat, q: Progress)
    requires ReadUpTo(tokens, p, from, j) && p.i < |tokens| && (tokens[p.i].Operation? || tokens[p.i].Negation?)
    requires q == if tokens[p.i].Operation? then p.(i := p.i + 1, op := tokens[p.i].operator)
                  else p.(i := p.i + 1, negated := true)
    ensures ReadUpTo(tokens, q, from, j + 1) && (Agrees(t, tokens, q, from, j + 1) ==> Agrees(t, tokens, p, from, j))
  {
    PieceAt(tokens, p, from, j);
    SignIsNothing(t, tokens, PiecesFrom(tokens, 0), j);
    SignStep(t, tokens, p, q);
    PassOver(t, tokens, p, from, j, q);
  }

  /** The state `q`, from which the rest agrees, takes over from `p`. */
  ghost predicate Moves(t: Tables, tokens: seq<Token>, p: Progress, from: nat, j: nat, q: Progress, from': nat, j': nat)
    requires ReadUpTo(tokens, p, from, j)
  {
    && q.i > p.i && ReadUpTo(tokens, q, from', j')
    && (Agrees(t, tokens, q, from', j') ==> Agrees(t, tokens, p, from, j))
  }

  lemma GroupMoves(t: Tables, tokens: seq<Token>, p: Progress, from: nat, j: nat)
    returns (q: Progress, from': nat)
    requires ReadUpTo(tokens, p, from, j) && p.i < |tokens| && tokens[p.i].OpenParens?
    requires Compile(t, Inner(tokens, p.i)) == Spell(Typed(t, Inner(tokens, p.i)))
    ensures Moves(t, tokens, p, from, j, q, from', j + 1)
  {
    var inner := Inner(tokens, p.i);
    var e := Compile(t, inner);
    q := AfterGroup(p, |inner|, e);
    GroupStep(t, tokens, p);
    GroupIsRead(t, tokens, p, from, j, inner, q);
    AfterGroupIs(p, |inner|, e);
    if e == [] {
      from' := from;
      EmptyGroup(t, tokens, p, from, j, inner, q);
    } else {
      from' := j + 1;
      FullGroup(t, tokens, p, from, j, inner, q);
    }
  }

  lemma OperandMoves(t: Tables, tokens: seq<Token>, p: Progress, from: nat, j: nat)
    returns (q: Progress, from': nat, j': nat)
    requires ReadUpTo(tokens, p, from, j) && p.i < |tokens|
    requires !tokens[p.i].Operation? && !tokens[p.i].Negation? && !tokens[p.i].OpenParens?
    ensures Moves(t, tokens, p, from, j, q, from', j')
  {
    var e := ExprOf(t, tokens[p.i]);
    q := AfterOperand(p, e, Starred(tokens, p.i));
    if e == [] {
      from', j' := from, j + 1;
      NoOperand(t, tokens, p, from, j, q);
    } else if Starred(tokens, p.i) {
      from', j' := j + 1, j + 2;
      StarredOperand(t, tokens, p, from, j, q);
    } else {
      from', j' := j + 1, j + 1;
      PlainOperand(t, tokens, p, from, j, q);
    }
  }

  /** What the compiler makes of the tokens is the text of what they ask for. */
  lemma {:induction false} CompilesTyped(t: Tables, tokens: seq<Token>, p: Progress, from: nat, j: nat)
    requires ReadUpTo(tokens, p, from, j)
    ensures Agrees(t, tokens, p, from, j)
    decreases |tokens|, |tokens| - p.i
  {
    if p.i >= |tokens| {
      NothingLeft(t, tokens, p, from, j);
    } else if tokens[p.i].Operation? || tokens[p.i].Negation? {
      var q := if tokens[p.i].Operation? then p.(i := p.i + 1, op := tokens[p.i].operator)
               else p.(i := p.i + 1, negated := true);
      SignRead(t, tokens, p, from, j, q);
      CompilesTyped(t, tokens, q, from, j + 1);
    } else if tokens[p.i].OpenParens? {
      CompilesLevel(t, Inner(tokens, p.i));
      var q, from' := GroupMoves(t, tokens, p, from, j);
      CompilesTyped(t, tokens, q, from', j + 1);
    } else {
      var q, from', j' := OperandMoves(t, tokens, p, from, j);
      CompilesTyped(t, tokens, q, from', j');
    }
  }

  lemma NothingLeft(t: Tables, tokens: seq<Token>, p: Progress, from: nat, j: nat)
    requires ReadUpTo(tokens, p, from, j) && p.i >= |tokens|
    ensures Agrees(t, tokens, p, from, j)
  {
    assert PiecesFrom(tokens, 0)[j..] == [] && p.xs + [] == p.xs;
  }

  /** The mark after an operand has been read with it. */
  lemma SkipStar(t: Tables, tokens: seq<Token>, p: Progress, j: nat, q: Progress)
    requires ReadUpTo(tokens, p, j, j) && p.i < |tokens| && tokens[p.i].Wildcard? && q == p.(i := p.i + 1)
    ensures ReadUpTo(tokens, q, j, j + 1)
    ensures var ps := PiecesFrom(tokens, 0);
            TypedFrom(t, tokens, ps, j, j, p.xs == []) == TypedFrom(t, tokens, ps, j, j + 1, p.xs == [])
  {
    PieceAt(tokens, p, j, j);
    LastOneMore(PiecesFrom(tokens, 0), j, j);
  }

  lemma {:induction false} CompilesLevel(t: Tables, tokens: seq<Token>)
    ensures Compile(t, tokens) == Spell(Typed(t, tokens))
    decreases |tokens|, |tokens| + 1
  {
    var ps := PiecesFrom(tokens, 0);
    PiecesAreSmall(tokens, 0);
    assert ps[0..] == ps && ps[0..0] == [];
    CompilesTyped(t, tokens, START, 0, 0);
    assert [] + Spell(Typed(t, tokens)) == Spell(Typed(t, tokens));
  }

  // ---------- what was typed is well-formed ----------

  lemma {:induction false} GoodConcat(a: seq<Item>, b: seq<Item>, first: bool)
    requires a != [] && Good(a, first) && Good(b, false)
    ensures Good(a + b, first)
  {
    assert (a + b)[0] == a[0] && (a + b)[1..] == a[1..] + b;
    if |a| > 1 {
      GoodConcat(a[1..], b, false);
    } else {
      assert a[1..] + b == b;
    }
  }

  lemma {:induction false} WordsAreGood(items: seq<Item>, first: bool)
    requires OnlyWords(items) && forall i :: 0 <= i < |items| ==> (items[i].joint.First? <==> i == 0 && first)
    ensures Good(items, first)
  {
    if items != [] {
      WordsAreGood(items[1..], false);
    }
  }

  lemma MarkedIsGood(items: seq<Item>)
    requires OnlyWords(items) && forall i :: 0 <= i < |items| ==> (items[i].joint.First? <==> i == 0)
    ensures OnlyWords(Marked(items))
    ensures forall i :: 0 <= i < |Marked(items)| ==> (Marked(items)[i].joint.First? <==> i == 0)
  {
  }

  lemma IntroducedIsGood(items: seq<Item>, joint: Joint, negated: bool)
    requires items != [] && Good(items, true)
    ensures Good(Introduced(items, joint, negated), joint.First?)
  {
    assert Introduced(items, joint, negated)[1..] == items[1..];
  }

  lemma {:induction false} LastJoins(ps: seq<Piece>)
    ensures !LastOperator(ps).First?
  {
    if ps != [] {
      LastJoins(ps[..|ps| - 1]);
    }
  }

  lemma {:induction false} OperandIsGood(t: Tables, tokens: seq<Token>, ps: seq<Piece>, j: nat)
    requires j < |ps| && (ps[j].Parens? ==> ps[j].open < |tokens|)
    ensures Good(OperandAt(t, tokens, ps, j), true)
    decreases |tokens|, 0, 0
  {
    match ps[j]
    case One(x) =>
      WordsAreWords(t, x);
      MarkedIsGood(WordsOf(t, x));
      WordsAreGood(WordsOf(t, x), true);
      WordsAreGood(Marked(WordsOf(t, x)), true);
    case Parens(open) =>
      LevelIsGood(t, Inner(tokens, open));
      var items := Typed(t, Inner(tokens, open));
      if items != [] {
        assert [Item(First, 0, Group(items))][1..] == [];
      }
  }

  lemma {:induction false} TypedIsGood(t: Tables, tokens: seq<Token>, ps: seq<Piece>, from: nat, j: nat, first: bool)
    requires from <= j <= |ps| && Small(ps, |tokens|)
    ensures Good(TypedFrom(t, tokens, ps, from, j, first), first)
    decreases |tokens|, 1, |ps| - j
  {
    if j < |ps| {
      var operand := OperandAt(t, tokens, ps, j);
      if operand == [] {
        TypedIsGood(t, tokens, ps, from, j + 1, first);
      } else {
        var joint := if first then First else LastOperator(ps[from..j]);
        LastJoins(ps[from..j]);
        OperandIsGood(t, tokens, ps, j);
        TypedIsGood(t, tokens, ps, j + 1, j + 1, false);
        IntroducedIsGood(operand, joint, One(Negation) in ps[from..j]);
        GoodConcat(Introduced(operand, joint, One(Negation) in ps[from..j]),
          TypedFrom(t, tokens, ps, j + 1, j + 1, false), first);
      }
    }
  }

  lemma {:induction false} LevelIsGood(t: Tables, tokens: seq<Token>)
    ensures Good(Typed(t, tokens), true)
    decreases |tokens|, 2, 0
  {
    PiecesAreSmall(tokens, 0);
    TypedIsGood(t, tokens, PiecesFrom(tokens, 0), 0, 0, true);
  }

  /** Main result: for every list of tokens, unbalanced parentheses included, what is compiled reads
      back as the operands that were typed, each with the last operator typed before it, "and" if
      none was, negated if a negation was, with the prefix marks and in the groups they were typed in. */
  lemma CompiledMeans(t: Tables, tokens: seq<Token>)
    ensures Compile(t, tokens) == [] <==> Typed(t, tokens) == []
    ensures Typed(t, tokens) != [] ==> ReadQuery(Compile(t, tokens)) == Some(Typed(t, tokens))
  {
    CompilesLevel(t, tokens);
    SpellNothing(Typed(t, tokens));
    LevelIsGood(t, tokens);
    if Typed(t, tokens) != [] {
      QueryReads(Typed(t, tokens));
    }
  }

  // ---------- what a query says about a document ----------

  /** The words of a document, in order. */
  type Document = seq<string>

  predicate Fits(word: string, w: string, prefix: bool) { if prefix then w <= word else w == word }

  /** Where the second operand with this joint stands, if there is one. */
  function NextJoint(items: seq<Item>, joint: Joint, k: nat): (n: nat)
    requires 1 <= k <= |items|
    ensures k <= n <= |items|
    decreases |items| - k
  {
    if k == |items| || items[k].joint == joint then k else NextJoint(items, joint, k + 1)
  }

  /** Any of the parts between "or"s holds. */
  ghost predicate Holds(items: seq<Item>, doc: Document)
    requires items != []
    decreases items, 4
  {
    var k := NextJoint(items, AnyOf, 1);
    if k == |items| then HoldAll(items, doc) else HoldAll(items[..k], doc) || Holds(items[k..], doc)
  }

  /** All of the parts between "and"s hold. */
  ghost predicate HoldAll(items: seq<Item>, doc: Document)
    requires items != []
    decreases items, 3
  {
    var k := NextJoint(items, AllOf, 1);
    if k == |items| then HoldsSomewhere(items, doc) else HoldsSomewhere(items[..k], doc) && HoldAll(items[k..], doc)
  }

  /** A single operand holds of the whole document; several next to each other stand somewhere in it. */
  ghost predicate HoldsSomewhere(items: seq<Item>, doc: Document)
    requires items != []
    decreases items, 2
  {
    if |items| == 1 then HoldsItem(items[0], doc) else exists i, e :: StandAt(items, doc, i, e)
  }

  ghost predicate HoldsItem(x: Item, doc: Document)
    decreases x, 1
  {
    var plain := if x.atom.Lexeme? then exists i :: 0 <= i < |doc| && Fits(doc[i], x.atom.w, x.atom.prefix)
                 else x.atom.items != [] && Holds(x.atom.items, doc);
    if x.nots % 2 == 0 then plain else !plain
  }

  /** The operands stand one after the other from word i up to word e. */
  ghost predicate StandAt(items: seq<Item>, doc: Document, i: int, e: int)
    decreases items, 1
  {
    if items == [] then i == e
    else exists m :: i <= m <= e && ItemAt(items[0], doc, i, m) && StandAt(items[1..], doc, m, e)
  }

  /** Within a phrase a negated operand stands for any one word where it does not stand itself. */
  ghost predicate ItemAt(x: Item, doc: Document, i: int, e: int)
    decreases x, 1
  {
    if x.nots % 2 == 0 then AtomAt(x, doc, i, e)
    else 0 <= i < |doc| && e == i + 1 && forall m :: i <= m <= |doc| ==> !AtomAt(x, doc, i, m)
  }

  ghost predicate AtomAt(x: Item, doc: Document, i: int, e: int)
    decreases x, 0
  {
    if x.atom.Lexeme? then 0 <= i < |doc| && e == i + 1 && Fits(doc[i], x.atom.w, x.atom.prefix)
    else x.atom.items != [] && AnyAt(x.atom.items, doc, i, e)
  }

  /** A group within a phrase: its operands have to stand at the same place. */
  ghost predicate AnyAt(items: seq<Item>, doc: Document, i: int, e: int)
    requires items != []
    decreases items, 4
  {
    var k := NextJoint(items, AnyOf, 1);
    if k == |items| then AllAt(items, doc, i, e) else AllAt(items[..k], doc, i, e) || AnyAt(items[k..], doc, i, e)
  }

  ghost predicate AllAt(items: seq<Item>, doc: Document, i: int, e: int)
    requires items != []
    decreases items, 3
  {
    var k := NextJoint(items, AllOf, 1);
    if k == |items| then StandAt(items, doc, i, e) else StandAt(items[..k], doc, i, e) && AllAt(items[k..], doc, i, e)
  }

  /** A query text matches a document; a text without operands matches none. */
  ghost predicate Matches(s: string, doc: Document) {
    Lex(s).Some? && ReadQuery(Lex(s).value).Some? && ReadQuery(Lex(s).value).value != []
    && Holds(ReadQuery(Lex(s).value).value, doc)
  }

  /** What was typed asks for the document. */
  ghost predicate Asked(t: Tables, tokens: seq<Token>, doc: Document) {
    Typed(t, tokens) != [] && Holds(Typed(t, tokens), doc)
  }

  // ---------- what the signs mean ----------

  /** How deep the parentheses are nested after the tokens, if none is closed that was not opened. */
  function Nesting(tokens: seq<Token>, depth: nat): Option<nat> {
    if tokens == [] then Some(depth)
    else if tokens[0].OpenParens? then Nesting(tokens[1..], depth + 1)
    else if !tokens[0].CloseParens? then Nesting(tokens[1..], depth)
    else if depth == 0 then None
    else Nesting(tokens[1..], depth - 1)
  }

  predicate Balanced(tokens: seq<Token>) { Nesting(tokens, 0) == Some(0) }

  function InParens(tokens: seq<Token>): seq<Token> { [OpenParens] + tokens + [CloseParens] }

  lemma {:induction false} InnerEnds(tokens: seq<Token>, j: nat, a: seq<Token>, depth: nat)
    requires j + |a| < |tokens| && (forall k :: 0 <= k < |a| ==> tokens[j + k] == a[k]) && tokens[j + |a|].CloseParens?
    requires Nesting(a, depth) == Some(0)
    ensures InnerLength(tokens, j, depth + 1) == |a|
    decreases |a|
  {
    if a != [] {
      assert tokens[j + 0] == a[0];
      forall k | 0 <= k < |a[1..]| ensures tokens[j + 1 + k] == a[1..][k] {
        assert tokens[j + (k + 1)] == a[k + 1];
      }
      InnerEnds(tokens, j + 1, a[1..],
                if a[0].OpenParens? then depth + 1 else if a[0].CloseParens? then depth - 1 else depth);
    }
  }

  /** The tokens in parentheses stand in the list from position i on. */
  ghost predicate GroupAt(tokens: seq<Token>, i: nat, a: seq<Token>) {
    && i + |a| + 1 < |tokens| && tokens[i].OpenParens? && tokens[i + |a| + 1].CloseParens?
    && forall k :: 0 <= k < |a| ==> tokens[i + 1 + k] == a[k]
  }

  /** The parenthesis at position i is closed after n tokens. */
  predicate Closes(tokens: seq<Token>, i: nat, n: nat) {
    && i + n + 1 < |tokens| && tokens[i].OpenParens? && tokens[i + n + 1].CloseParens?
    && InnerLength(tokens, i + 1, 1) == n
  }

  /** A balanced list in parentheses is a group, wherever it stands. */
  lemma BalancedIsEnclosed(front: seq<Token>, a: seq<Token>, back: seq<Token>)
    requires Balanced(a)
    ensures var tokens := front + InParens(a) + back;
            Closes(tokens, |front|, |a|) && Inner(tokens, |front|) == a
  {
    var tokens, i, rest := front + InParens(a) + back, |front|, [CloseParens] + back;
    assert GroupAt(tokens, i, a);
    InnerEnds(tokens, i + 1, a, 0);
    assert tokens[i + 1..] == a + rest;
    DropFront(a, rest);
  }

  lemma PieceIsGroup(tokens: seq<Token>, i: nat, k: nat)
    requires i < |tokens| && tokens[i].OpenParens? && k == i + InnerLength(tokens, i + 1, 1) + 1
    ensures PiecesFrom(tokens, i) == [Parens(i)] + PiecesFrom(tokens, k)
  {
  }

  lemma PieceIsToken(tokens: seq<Token>, i: nat)
    requires i < |tokens| && !tokens[i].OpenParens?
    ensures PiecesFrom(tokens, i) == [One(tokens[i])] + PiecesFrom(tokens, i + 1)
  {
  }

  /** The operands of a level that is a group, or nothing when the group asks for nothing. */
  function GroupItem(joint: Joint, nots: nat, items: seq<Item>): Item { Item(joint, nots, Group(items)) }

  lemma ClosingIsNothing(t: Tables, tokens: seq<Token>, ps: seq<Piece>, from: nat, j: nat, first: bool)
    requires from <= j < |ps| && Small(ps, |tokens|)
    requires ps[j] == One(CloseParens) || ps[j] == One(Negation) || (ps[j].One? && ps[j].token.Operation?)
    ensures TypedFrom(t, tokens, ps, from, j, first) == TypedFrom(t, tokens, ps, from, j + 1, first)
  {
  }

  lemma GroupIsTyped(t: Tables, tokens: seq<Token>, ps: seq<Piece>, from: nat, j: nat, first: bool)
    requires from <= j < |ps| && Small(ps, |tokens|)
    requires ps[j].Parens? && Typed(t, Inner(tokens, ps[j].open)) != []
    ensures var nots := if One(Negation) in ps[from..j] then 1 else 0;
            TypedFrom(t, tokens, ps, from, j, first) ==
              [GroupItem(if first then First else LastOperator(ps[from..j]), nots, Typed(t, Inner(tokens, ps[j].open)))]
              + TypedFrom(t, tokens, ps, j + 1, j + 1, false)
  {
  }

  lemma OneHolds(x: Item, doc: Document)
    ensures Holds([x], doc) <==> HoldsItem(x, doc)
    ensures HoldAll([x], doc) <==> HoldsItem(x, doc)
    ensures HoldsSomewhere([x], doc) <==> HoldsItem(x, doc)
  {
    assert HoldAll([x], doc) <==> HoldsSomewhere([x], doc);
  }

  lemma PlainGroup(t: Tables, a: seq<Token>)
    requires Closes(InParens(a), 0, |a|) && Inner(InParens(a), 0) == a && Typed(t, a) != []
    ensures Typed(t, InParens(a)) == [GroupItem(First, 0, Typed(t, a))]
  {
    var tokens, n := InParens(a), |a| + 2;
    PieceIsGroup(tokens, 0, |a| + 1);
    PieceIsToken(tokens, |a| + 1);
    assert PiecesFrom(tokens, n) == [];
    var ps := PiecesFrom(tokens, 0);
    assert ps == [Parens(0), One(CloseParens)];
    GroupIsTyped(t, tokens, ps, 0, 0, true);
    ClosingIsNothing(t, tokens, ps, 1, 1, false);
    assert TypedFrom(t, tokens, ps, 1, 2, false) == [];
  }

  lemma NegatedGroup(t: Tables, a: seq<Token>)
    requires Closes([Negation] + InParens(a), 1, |a|) && Inner([Negation] + InParens(a), 1) == a && Typed(t, a) != []
    ensures Typed(t, [Negation] + InParens(a)) == [GroupItem(First, 1, Typed(t, a))]
  {
    var tokens, n := [Negation] + InParens(a), |a| + 3;
    assert PiecesFrom(tokens, n) == [];
    PieceIsGroup(tokens, 1, |a| + 2);
    PieceIsToken(tokens, |a| + 2);
    PieceIsToken(tokens, 0);
    var ps := PiecesFrom(tokens, 0);
    assert ps == [One(Negation), Parens(1), One(CloseParens)];
    ClosingIsNothing(t, tokens, ps, 0, 0, true);
    assert ps[0..1] == [One(Negation)];
    GroupIsTyped(t, tokens, ps, 0, 1, true);
    ClosingIsNothing(t, tokens, ps, 2, 2, false);
    assert TypedFrom(t, tokens, ps, 2, 3, false) == [];
  }

  /** A group, perhaps negated, asks for what its tokens ask for, or for the opposite. */
  lemma GroupsMean(t: Tables, a: seq<Token>, doc: Document)
    requires Balanced(a) && Typed(t, a) != []
    ensures Asked(t, InParens(a), doc) <==> Asked(t, a, doc)
    ensures Asked(t, [Negation] + InParens(a), doc) <==> !Asked(t, a, doc)
  {
    BalancedIsEnclosed([], a, []);
    assert [] + InParens(a) + [] == InParens(a);
    PlainGroup(t, a);
    BalancedIsEnclosed([Negation], a, []);
    assert [Negation] + InParens(a) + [] == [Negation] + InParens(a);
    NegatedGroup(t, a);
    OneHolds(GroupItem(First, 0, Typed(t, a)), doc);
    OneHolds(GroupItem(First, 1, Typed(t, a)), doc);
  }

  /** The tokens of two groups with at most one operator between them. */
  function TwoGroups(a: seq<Token>, between: seq<Token>, b: seq<Token>): seq<Token> {
    InParens(a) + between + InParens(b)
  }

  /** Both parts of the list are groups. */
  predicate AreGroups(a: seq<Token>, between: seq<Token>, b: seq<Token>) {
    && (between == [] || (|between| == 1 && between[0].Operation?))
    && var tokens, k := TwoGroups(a, between, b), |a| + 2 + |between|;
       Closes(tokens, 0, |a|) && Inner(tokens, 0) == a && Closes(tokens, k, |b|) && Inner(tokens, k) == b
  }

  lemma BalancedAreGroups(a: seq<Token>, between: seq<Token>, b: seq<Token>)
    requires Balanced(a) && Balanced(b) && (between == [] || (|between| == 1 && between[0].Operation?))
    ensures AreGroups(a, between, b)
  {
    BalancedIsEnclosed([], a, between + InParens(b));
    assert [] + InParens(a) + (between + InParens(b)) == TwoGroups(a, between, b);
    BalancedIsEnclosed(InParens(a) + between, b, []);
    assert InParens(a) + between + InParens(b) + [] == TwoGroups(a, between, b);
  }

  lemma NoPieces(tokens: seq<Token>)
    ensures PiecesFrom(tokens, |tokens|) == []
  {
  }

  lemma TwoInOrder(a: seq<Piece>, b: seq<Piece>, c: seq<Piece>, x: Piece, y: Piece)
    requires a == [x] + b && b == [y] + c && c == []
    ensures a == [x, y]
  {
  }

  lemma LastPieces(tokens: seq<Token>, k: nat, m: nat)
    requires k < m && Closes(tokens, k, m - k - 1) && |tokens| == m + 1
    ensures PiecesFrom(tokens, k) == [Parens(k), One(CloseParens)]
  {
    PieceIsGroup(tokens, k, m);
    PieceIsToken(tokens, m);
    NoPieces(tokens);
    TwoInOrder(PiecesFrom(tokens, k), PiecesFrom(tokens, m), PiecesFrom(tokens, |tokens|), Parens(k), One(CloseParens));
  }

  lemma TwoPieces(a: seq<Token>, between: seq<Token>, b: seq<Token>)
    requires between == [] || (|between| == 1 && between[0].Operation?)
    requires Closes(TwoGroups(a, between, b), 0, |a|) && Closes(TwoGroups(a, between, b), |a| + 2 + |between|, |b|)
    ensures var middle := if between == [] then [] else [One(between[0])];
            PiecesFrom(TwoGroups(a, between, b), 0) ==
              [Parens(0)] + ([One(CloseParens)] + (middle + [Parens(|a| + 2 + |between|), One(CloseParens)]))
  {
    var tokens, m, k := TwoGroups(a, between, b), |a| + 2, |a| + 2 + |between|;
    PieceIsGroup(tokens, 0, |a| + 1);
    PieceIsToken(tokens, |a| + 1);
    LastPieces(tokens, k, k + |b| + 1);
    if between != [] {
      assert tokens[m] == between[0];
      PieceIsToken(tokens, m);
    }
  }

  lemma TwoGroupsTyped(t: Tables, a: seq<Token>, between: seq<Token>, b: seq<Token>, joint: Joint)
    requires AreGroups(a, between, b) && Typed(t, a) != [] && Typed(t, b) != []
    requires (between == [] && joint == AllOf)
             || (|between| == 1 && between[0].Operation? && joint == Typist(between[0].operator))
    ensures Typed(t, TwoGroups(a, between, b)) == [GroupItem(First, 0, Typed(t, a)), GroupItem(joint, 0, Typed(t, b))]
  {
    var tokens := TwoGroups(a, between, b);
    var ps := PiecesFrom(tokens, 0);
    TwoPieces(a, between, b);
    PiecesAreSmall(tokens, 0);
    PiecesInOrder(ps, between, |a| + 2 + |between|);
    BothTyped(t, tokens, ps, between, joint, |a| + 2 + |between|);
  }

  lemma PiecesInOrder(ps: seq<Piece>, between: seq<Token>, k: nat)
    requires |between| <= 1
    requires var middle := if between == [] then [] else [One(between[0])];
             ps == [Parens(0)] + ([One(CloseParens)] + (middle + [Parens(k), One(CloseParens)]))
    ensures var j := 2 + |between|;
            && |ps| == j + 2 && ps[0] == Parens(0) && ps[1] == One(CloseParens)
            && ps[j] == Parens(k) && ps[j + 1] == One(CloseParens) && (between != [] ==> ps[2] == One(between[0]))
  {
  }

  lemma BothTyped(t: Tables, tokens: seq<Token>, ps: seq<Piece>, between: seq<Token>, joint: Joint, k: nat)
    requires (between == [] && joint == AllOf)
             || (|between| == 1 && between[0].Operation? && joint == Typist(between[0].operator))
    requires var j := 2 + |between|;
             && Small(ps, |tokens|) && |ps| == j + 2 && ps[0] == Parens(0) && ps[1] == One(CloseParens)
             && ps[j] == Parens(k) && ps[j + 1] == One(CloseParens) && (between != [] ==> ps[2] == One(between[0]))
    requires 0 < k < |tokens| && Typed(t, Inner(tokens, 0)) != [] && Typed(t, Inner(tokens, k)) != []
    ensures TypedFrom(t, tokens, ps, 0, 0, true) ==
              [GroupItem(First, 0, Typed(t, Inner(tokens, 0))), GroupItem(joint, 0, Typed(t, Inner(tokens, k)))]
  {
    SecondTyped(t, tokens, ps, between, joint, k);
    GroupIsTyped(t, tokens, ps, 0, 0, true);
  }

  lemma SecondTyped(t: Tables, tokens: seq<Token>, ps: seq<Piece>, between: seq<Token>, joint: Joint, k: nat)
    requires (between == [] && joint == AllOf)
             || (|between| == 1 && between[0].Operation? && joint == Typist(between[0].operator))
    requires var j := 2 + |between|;
             && Small(ps, |tokens|) && |ps| == j + 2 && ps[1] == One(CloseParens) && ps[j] == Parens(k)
             && ps[j + 1] == One(CloseParens) && (between != [] ==> ps[2] == One(between[0]))
    requires k < |tokens| && Typed(t, Inner(tokens, k)) != []
    ensures TypedFrom(t, tokens, ps, 1, 1, false) == [GroupItem(joint, 0, Typed(t, Inner(tokens, k)))]
  {
    var j := 2 + |between|;
    BetweenGroups(ps, between, j, joint);
    ClosingIsNothing(t, tokens, ps, 1, 1, false);
    if between != [] {
      ClosingIsNothing(t, tokens, ps, 1, 2, false);
    }
    SecondGroup(t, tokens, ps, j);
    GroupIsTyped(t, tokens, ps, 1, j, false);
  }

  lemma BetweenGroups(ps: seq<Piece>, between: seq<Token>, j: nat, joint: Joint)
    requires j == 2 + |between| && j < |ps| && ps[1] == One(CloseParens) && (between != [] ==> ps[2] == One(between[0]))
    requires (between == [] && joint == AllOf)
             || (|between| == 1 && between[0].Operation? && joint == Typist(between[0].operator))
    ensures LastOperator(ps[1..j]) == joint && One(Negation) !in ps[1..j]
  {
    if between == [] {
      assert ps[1..j] == [One(CloseParens)] && [One(CloseParens)][..0] == [];
    } else {
      assert ps[1..j] == [One(CloseParens), One(between[0])];
    }
  }

  lemma SecondGroup(t: Tables, tokens: seq<Token>, ps: seq<Piece>, j: nat)
    requires |ps| == j + 2 && ps[j + 1] == One(CloseParens) && Small(ps, |tokens|)
    ensures TypedFrom(t, tokens, ps, j + 1, j + 1, false) == []
  {
    ClosingIsNothing(t, tokens, ps, j + 1, j + 1, false);
  }

  /** Two groups side by side, or with "&" between them, ask for both; with "|" for either. */
  lemma SignsMean(t: Tables, a: seq<Token>, b: seq<Token>, doc: Document)
    requires Balanced(a) && Balanced(b) && Typed(t, a) != [] && Typed(t, b) != []
    ensures Asked(t, TwoGroups(a, [], b), doc) <==> Asked(t, a, doc) && Asked(t, b, doc)
    ensures Asked(t, TwoGroups(a, [Operation(AndOperator)], b), doc) <==> Asked(t, a, doc) && Asked(t, b, doc)
    ensures Asked(t, TwoGroups(a, [Operation(OrOperator)], b), doc) <==> Asked(t, a, doc) || Asked(t, b, doc)
  {
    BalancedAreGroups(a, [], b);
    BalancedAreGroups(a, [Operation(AndOperator)], b);
    BalancedAreGroups(a, [Operation(OrOperator)], b);
    TwoGroupsTyped(t, a, [], b, AllOf);
    TwoGroupsTyped(t, a, [Operation(AndOperator)], b, AllOf);
    TwoGroupsTyped(t, a, [Operation(OrOperator)], b, AnyOf);
    JointsMean(Typed(t, a), Typed(t, b), doc);
  }

  lemma JointsMean(a: seq<Item>, b: seq<Item>, doc: Document)
    requires a != [] && b != []
    ensures Holds([GroupItem(First, 0, a), GroupItem(AllOf, 0, b)], doc) <==> Holds(a, doc) && Holds(b, doc)
    ensures Holds([GroupItem(First, 0, a), GroupItem(AnyOf, 0, b)], doc) <==> Holds(a, doc) || Holds(b, doc)
  {
    var x, both, either := GroupItem(First, 0, a), GroupItem(AllOf, 0, b), GroupItem(AnyOf, 0, b);
    assert [x, both][..1] == [x] && [x, both][1..] == [both];
    assert [x, either][..1] == [x] && [x, either][1..] == [either];
    assert NextJoint([x, both], AnyOf, 1) == 2 && NextJoint([x, both], AllOf, 1) == 1;
    assert NextJoint([x, either], AnyOf, 1) == 1;
    OneHolds(x, doc);
    OneHolds(both, doc);
    OneHolds(either, doc);
    assert Holds([x, both], doc) <==> HoldAll([x, both], doc);
    assert HoldAll([x, both], doc) <==> HoldsSomewhere([x], doc) && HoldAll([both], doc);
    assert Holds([x, either], doc) <==> HoldAll([x], doc) || Holds([either], doc);
  }

  // ---------- what words mean ----------

  /** The words stand in the document from word i on; the last may go on if it is a prefix. */
  ghost predicate WordsAt(words: seq<string>, prefix: bool, doc: Document, i: int) {
    && words != [] && 0 <= i && i + |words| <= |doc|
    && (forall k :: 0 <= k < |words| - 1 ==> doc[i + k] == words[k])
    && Fits(doc[i + |words| - 1], words[|words| - 1], prefix)
  }

  function MarkedIf(items: seq<Item>, prefix: bool): seq<Item> { if prefix then Marked(items) else items }

  lemma MarkedRest(words: seq<string>, joint: Joint, prefix: bool)
    requires |words| > 1
    ensures var items := MarkedIf(PhraseItems(words, joint), prefix);
            items[0] == Item(joint, 0, Lexeme(words[0], false))
            && items[1..] == MarkedIf(PhraseItems(words[1..], NextTo), prefix)
  {
    var items, rest := PhraseItems(words, joint), PhraseItems(words[1..], NextTo);
    assert items == [items[0]] + rest && rest != [];
    assert items[|items| - 1] == rest[|rest| - 1];
  }

  lemma OneWord(words: seq<string>, joint: Joint, prefix: bool)
    requires |words| == 1
    ensures MarkedIf(PhraseItems(words, joint), prefix) == [Item(joint, 0, Lexeme(words[0], prefix))]
  {
    assert PhraseItems(words, joint) == [Item(joint, 0, Lexeme(words[0], false))] + PhraseItems([], NextTo);
  }

  lemma {:induction false} PhraseStands(words: seq<string>, joint: Joint, prefix: bool, doc: Document, i: int, e: int)
    requires words != []
    ensures StandAt(MarkedIf(PhraseItems(words, joint), prefix), doc, i, e) <==>
              e == i + |words| && WordsAt(words, prefix, doc, i)
  {
    var items := MarkedIf(PhraseItems(words, joint), prefix);
    if |words| == 1 {
      OneWord(words, joint, prefix);
      LastStands(items, doc, i, e);
    } else {
      MarkedRest(words, joint, prefix);
      PhraseStands(words[1..], NextTo, prefix, doc, i + 1, e);
      FirstStands(items, doc, i, e);
      assert WordsAt(words, prefix, doc, i) <==>
               0 <= i < |doc| && doc[i] == words[0] && WordsAt(words[1..], prefix, doc, i + 1) by {
        assert forall k :: 0 <= k < |words| - 2 ==> words[1..][k] == words[k + 1] && i + 1 + k == i + (k + 1);
        if 0 <= i < |doc| && doc[i] == words[0] && WordsAt(words[1..], prefix, doc, i + 1) {
          forall k | 0 <= k < |words| - 1 ensures doc[i + k] == words[k] {
            assert k > 0 ==> doc[i + 1 + (k - 1)] == words[1..][k - 1];
          }
        }
        if WordsAt(words, prefix, doc, i) {
          assert doc[i + 0] == words[0];
          forall k | 0 <= k < |words[1..]| - 1 ensures doc[i + 1 + k] == words[1..][k] {
            assert doc[i + (k + 1)] == words[k + 1];
          }
        }
      }
    }
  }

  lemma FirstStands(items: seq<Item>, doc: Document, i: int, e: int)
    requires items != [] && items[0].atom.Lexeme? && items[0].nots == 0 && !items[0].atom.prefix
    ensures StandAt(items, doc, i, e) <==>
              0 <= i < |doc| && doc[i] == items[0].atom.w && i + 1 <= e && StandAt(items[1..], doc, i + 1, e)
  {
    assert forall m :: ItemAt(items[0], doc, i, m) <==> 0 <= i < |doc| && m == i + 1 && doc[i] == items[0].atom.w;
    if 0 <= i < |doc| && doc[i] == items[0].atom.w && i + 1 <= e && StandAt(items[1..], doc, i + 1, e) {
      assert ItemAt(items[0], doc, i, i + 1);
    }
  }

  lemma LastStands(items: seq<Item>, doc: Document, i: int, e: int)
    requires |items| == 1 && items[0].atom.Lexeme? && items[0].nots == 0
    ensures StandAt(items, doc, i, e) <==>
              0 <= i < |doc| && e == i + 1 && Fits(doc[i], items[0].atom.w, items[0].atom.prefix)
  {
    var x := items[0];
    assert items[1..] == [];
    assert forall m :: StandAt(items[1..], doc, m, e) <==> m == e;
    assert forall m :: ItemAt(x, doc, i, m) <==> 0 <= i < |doc| && m == i + 1 && Fits(doc[i], x.atom.w, x.atom.prefix);
    if 0 <= i < |doc| && e == i + 1 && Fits(doc[i], x.atom.w, x.atom.prefix) {
      assert ItemAt(x, doc, i, e) && StandAt(items[1..], doc, e, e);
    }
  }

  /** The words of an operand. */
  function OneOperand(x: Token, prefix: bool): seq<Token> { if prefix then [x, Wildcard] else [x] }

  lemma OperandIsTyped(t: Tables, x: Token, prefix: bool, words: seq<string>)
    requires PhrasesIn(t, x) == [words] && words != [] && !x.OpenParens?
    ensures Typed(t, OneOperand(x, prefix)) == MarkedIf(PhraseItems(words, First), prefix)
  {
    var tokens := OneOperand(x, prefix);
    var ps, n := PiecesFrom(tokens, 0), |tokens|;
    var items := MarkedIf(PhraseItems(words, First), prefix);
    assert PiecesFrom(tokens, n) == [];
    PieceIsToken(tokens, 0);
    if prefix {
      PieceIsToken(tokens, 1);
      assert ps == [One(x), One(Wildcard)];
      assert TypedFrom(t, tokens, ps, 1, 2, false) == [];
    } else {
      assert ps == [One(x)];
    }
    assert TypedFrom(t, tokens, ps, 1, 1, false) == [];
    WordsOfOnePhrase(t, x, words);
    PhraseIsWords(words, First);
    assert OperandAt(t, tokens, ps, 0) == items && items[0].joint == First && items[0].nots == 0;
    assert ps[0..0] == [] && Introduced(items, First, false) == items;
    assert TypedFrom(t, tokens, ps, 0, 0, true) == items + [];
  }

  lemma WordsOfOnePhrase(t: Tables, x: Token, words: seq<string>)
    requires PhrasesIn(t, x) == [words] && words != []
    ensures WordsOf(t, x) == PhraseItems(words, First) && PhraseItems(words, First) != []
  {
    var phrases := PhrasesIn(t, x);
    assert phrases[1..] == [] && PhrasesItems(phrases[1..], AllOf) == [];
    assert PhraseItems(words, First) + [] == PhraseItems(words, First);
  }

  /** A quoted string, or a run of characters that makes one phrase, asks for its words one after the
      other; with a mark the last one may go on. */
  lemma WordsMean(t: Tables, x: Token, prefix: bool, words: seq<string>, doc: Document)
    requires PhrasesIn(t, x) == [words] && words != []
    ensures Asked(t, OneOperand(x, prefix), doc) <==> exists i :: WordsAt(words, prefix, doc, i)
  {
    var items := MarkedIf(PhraseItems(words, First), prefix);
    OperandIsTyped(t, x, prefix, words);
    PhraseHolds(words, prefix, doc);
  }

  lemma NoJoints(items: seq<Item>, joint: Joint, k: nat)
    requires 1 <= k <= |items| && forall i :: 0 < i < |items| ==> items[i].joint != joint
    ensures NextJoint(items, joint, k) == |items|
    decreases |items| - k
  {
    if k < |items| {
      NoJoints(items, joint, k + 1);
    }
  }

  lemma PhraseHolds(words: seq<string>, prefix: bool, doc: Document)
    requires words != []
    ensures var items := MarkedIf(PhraseItems(words, First), prefix);
            items != [] && (Holds(items, doc) <==> exists i :: WordsAt(words, prefix, doc, i))
  {
    var items := MarkedIf(PhraseItems(words, First), prefix);
    PhraseIsWords(words, First);
    NoJoints(items, AnyOf, 1);
    NoJoints(items, AllOf, 1);
    assert Holds(items, doc) <==> HoldAll(items, doc);
    assert HoldAll(items, doc) <==> HoldsSomewhere(items, doc);
    if |words| == 1 {
      OneWord(words, First, prefix);
      if i :| 0 <= i < |doc| && Fits(doc[i], words[0], prefix) {
        assert WordsAt(words, prefix, doc, i);
      }
    } else {
      MarkedRest(words, First, prefix);
      forall i, e ensures StandAt(items, doc, i, e) <==> e == i + |words| && WordsAt(words, prefix, doc, i) {
        PhraseStands(words, First, prefix, doc, i, e);
      }
      PhraseLength(words, First);
      if i :| WordsAt(words, prefix, doc, i) {
        assert StandAt(items, doc, i, i + |words|);
      }
    }
  }

  lemma {:induction false} PhraseLength(words: seq<string>, joint: Joint)
    ensures |PhraseItems(words, joint)| == |words|
  {
    if words != [] {
      PhraseLength(words[1..], NextTo);
    }
  }

  lemma NegatedIsTyped(t: Tables, x: Token, words: seq<string>)
    requires PhrasesIn(t, x) == [words] && words != [] && !x.OpenParens?
    ensures Typed(t, [Negation, x]) == Introduced(PhraseItems(words, First), First, true)
  {
    var tokens := [Negation, x];
    var ps := PiecesFrom(tokens, 0);
    NoPieces(tokens);
    PieceIsToken(tokens, 0);
    PieceIsToken(tokens, 1);
    TwoInOrder(ps, PiecesFrom(tokens, 1), PiecesFrom(tokens, 2), One(Negation), One(x));
    WordsOfOnePhrase(t, x, words);
    PhraseIsWords(words, First);
    ClosingIsNothing(t, tokens, ps, 0, 0, true);
    var items := PhraseItems(words, First);
    assert OperandAt(t, tokens, ps, 1) == items;
    assert ps[0..1] == [One(Negation)];
    assert TypedFrom(t, tokens, ps, 2, 2, false) == [];
    assert TypedFrom(t, tokens, ps, 0, 1, true) == Introduced(items, First, true) + [];
  }

  lemma NothingInNothing(items: seq<Item>)
    requires |items| > 1 && items[0].nots == 1 && forall i :: 0 < i < |items| ==> items[i].joint == NextTo
    ensures !Holds(items, [])
  {
    NoJoints(items, AnyOf, 1);
    NoJoints(items, AllOf, 1);
    assert Holds(items, []) <==> HoldAll(items, []);
    assert HoldAll(items, []) <==> HoldsSomewhere(items, []);
    forall i, e ensures !StandAt(items, [], i, e) {
      assert forall m :: !ItemAt(items[0], [], i, m);
    }
  }

  /** A negation reaches the first word of an operand only: it asks for the opposite exactly when the
      operand is a single word. */
  lemma NegationIsOppositeExactly(t: Tables, x: Token, words: seq<string>)
    requires PhrasesIn(t, x) == [words] && words != []
    ensures (forall doc: Document :: Asked(t, [Negation, x], doc) <==> !Asked(t, [x], doc)) <==> |words| == 1
  {
    var items := PhraseItems(words, First);
    NegatedIsTyped(t, x, words);
    OperandIsTyped(t, x, false, words);
    PhraseLength(words, First);
    PhraseIsWords(words, First);
    var negated := Introduced(items, First, true);
    if |words| == 1 {
      assert items == [items[0]] && negated == [negated[0]];
      forall doc: Document ensures Asked(t, [Negation, x], doc) <==> !Asked(t, [x], doc) {
        OneHolds(items[0], doc);
        OneHolds(negated[0], doc);
      }
    } else {
      NothingInNothing(negated);
      WordsMean(t, x, false, words, []);
      assert !Asked(t, [Negation, x], []) && !Asked(t, [x], []);
    }
  }

  // ---------- what the characters mean ----------

  /** The signs. */
  lemma SignsAreRead(t: Tables, rest: string)
    ensures TokensOf(t, "(" + rest) == [OpenParens] + TokensOf(t, rest)
    ensures TokensOf(t, ")" + rest) == [CloseParens] + TokensOf(t, rest)
    ensures TokensOf(t, "&" + rest) == [Operation(AndOperator)] + TokensOf(t, rest)
    ensures TokensOf(t, "|" + rest) == [Operation(OrOperator)] + TokensOf(t, rest)
    ensures TokensOf(t, "." + rest) == [Operation(FollowedBy)] + TokensOf(t, rest)
    ensures TokensOf(t, "!" + rest) == [Negation] + TokensOf(t, rest)
    ensures TokensOf(t, "*" + rest) == [Wildcard] + TokensOf(t, rest)
  {
    SignIsRead(t, '(', rest);
    SignIsRead(t, ')', rest);
    SignIsRead(t, '&', rest);
    SignIsRead(t, '|', rest);
    SignIsRead(t, '.', rest);
    SignIsRead(t, '!', rest);
    SignIsRead(t, '*', rest);
  }

  lemma SignIsRead(t: Tables, c: char, rest: string)
    requires CharToken(c).Some?
    ensures TokensOf(t, [c] + rest) == [CharToken(c).value] + TokensOf(t, rest)
  {
    assert ([c] + rest)[1..] == rest;
  }

  /** A run of word characters. */
  lemma RunIsRead(t: Tables, run: string, rest: string)
    requires run != "" && (forall i :: 0 <= i < |run| ==> t.isWord(run[i])) && (rest == "" || !t.isWord(rest[0]))
    requires run[0] !in "()&|.!*\""
    ensures TokensOf(t, run + rest) == [PhraseToken(run)] + TokensOf(t, rest)
  {
    SpanOf(t.isWord, run, rest);
    DropFront(run, rest);
    assert (run + rest)[0] == run[0] && CharToken(run[0]).None?;
  }

  /** Something in quotes, whatever it contains. */
  lemma QuotedIsRead(t: Tables, x: string, rest: string)
    requires x != "" && (rest == "" || rest[0] != '"')
    ensures TokensOf(t, "\"" + (Escape(x, '"') + "\"" + rest)) == [QuotedToken(x)] + TokensOf(t, rest)
  {
    var body := Escape(x, '"') + "\"" + rest;
    QuotedRoundTrip(x, '"', rest);
    assert ("\"" + body)[1..] == body && ("\"" + body)[0] == '"';
  }

  /** Any other character only separates. */
  lemma OthersAreSkipped(t: Tables, c: char, rest: string)
    requires c !in "()&|.!*\"" && !t.isWord(c)
    ensures TokensOf(t, [c] + rest) == TokensOf(t, rest)
  {
    assert ([c] + rest)[1..] == rest && CharToken(c).None? && Span(t.isWord, [c] + rest) == 0;
  }

  // ---------- the text ----------

  /** Main result: the text compiled from any tokens matches exactly the documents that were asked for. */
  lemma TextMeans(t: Tables, tokens: seq<Token>)
    ensures var s := Print(Compile(t, tokens));
            && (Typed(t, tokens) != [] ==> Lex(s).Some? && ReadQuery(Lex(s).value) == Some(Typed(t, tokens)))
            && forall doc: Document :: Matches(s, doc) <==> Asked(t, tokens, doc)
  {
    CompiledMeans(t, tokens);
    CompiledIsAccepted(t, tokens);
    if Typed(t, tokens) == [] {
      assert Lex("") == Some([]) && ReadAtom([]).None? && ReadItems([], true).None?;
    }
  }
}
