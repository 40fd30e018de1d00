/**
 Splitting text into phrases of lexemes: words are lower-cased and transliterated to Latin
 characters; characters of languages without spaces become lexemes of their own.

 The character tables are a parameter.
 */
module Tokenizer {
  import opened Strings
  import opened Wrappers
  import opened LexerBase

  /** The character classes and the transliteration, which knows some characters and not others. */
  datatype RawTables = RawTables(isWord: char -> bool, lower: char -> char, latin: char -> Option<string>)

  predicate IsAlphanumeric(c: char) { 'a' <= c <= 'z' || 'A' <= c <= 'Z' || '0' <= c <= '9' }

  const MAX_ASCII: int := 127

  /** What is asked of the tables: a word character that is ASCII once in lower case is a letter or
      a digit, and the quote is no word character. */
  ghost predicate Sane(t: RawTables) {
    && !t.isWord('\'')
    && forall c :: t.isWord(c) && t.lower(c) as int < MAX_ASCII ==> IsAlphanumeric(t.lower(c))
  }

  type Tables = t: RawTables | Sane(t)
    witness RawTables((c: char) => IsAlphanumeric(c), (c: char) => c, (c: char) => None)

  // ---------- one word character after the other ----------

  /** The lexemes of the phrase so far, and the one being spelt. */
  datatype Spelling = Spelling(phrase: seq<string>, lexeme: string)

  const NOTHING := Spelling([], "")

  function Break(x: Spelling): (r: Spelling)
    ensures r.lexeme == ""
  {
    if x.lexeme == "" then x else Spelling(x.phrase + [x.lexeme], "")
  }

  /** The transliteration without the characters that mean something in a query. */
  function Cleaned(latin: string): string {
    TrimSpace(Replace(Replace(latin, '\'', "_sq_"), '\\', "_bs_"))
  }

  predicate IsUnspaced(c: char) { c as int > 0x1FFF }

  function Transliterate(x: Spelling, latin: Option<string>, unspaced: bool): Spelling {
    if latin.None? then x
    else
      var subst := Cleaned(latin.value);
      var y := x.(lexeme := x.lexeme + subst);
      if unspaced || |subst| == 0 || subst[|subst| - 1] == ' ' then Break(y) else y
  }

  function Feed(t: Tables, x: Spelling, c: char): Spelling {
    var ch := t.lower(c);
    if ch as int < MAX_ASCII then x.(lexeme := x.lexeme + [ch])
    else Transliterate(if IsUnspaced(ch) then Break(x) else x, t.latin(ch), IsUnspaced(ch))
  }

  // ---------- phrases ----------

  /** The first phrase of a string, and what follows it. */
  function PhraseFrom(t: Tables, s: string, x: Spelling): (r: (seq<string>, string))
    ensures |r.1| <= |s| && (|r.1| == |s| ==> r.0 == Break(x).phrase)
    decreases |s|
  {
    if s == "" then (Break(x).phrase, "")
    else if t.isWord(s[0]) then PhraseFrom(t, s[1..], Feed(t, x, s[0]))
    else if Break(x).phrase != [] then (Break(x).phrase, s)
    else PhraseFrom(t, s[1..], NOTHING)
  }

  function Tokenize(t: Tables, s: string): seq<seq<string>>
    decreases |s|
  {
    var (phrase, rest) := PhraseFrom(t, s, NOTHING);
    if phrase == [] then [] else [phrase] + Tokenize(t, rest)
  }

  function Flatten<T>(xs: seq<seq<T>>): seq<T> { if xs == [] then [] else xs[0] + Flatten(xs[1..]) }

  function TokenizeFlat(t: Tables, s: string): seq<string> { Flatten(Tokenize(t, s)) }

  // ---------- the same by splitting first ----------

  /** The maximal runs of word characters. */
  function Runs(t: Tables, s: string): seq<string>
    decreases |s|
  {
    var k := Span(t.isWord, s);
    if s == "" then [] else if k == 0 then Runs(t, s[1..]) else [s[..k]] + Runs(t, s[k..])
  }

  function FeedAll(t: Tables, x: Spelling, run: string): Spelling
    decreases |run|
  {
    if run == "" then x else FeedAll(t, Feed(t, x, run[0]), run[1..])
  }

  /** The phrase that a run makes on its own. */
  function PhraseOf(t: Tables, run: string): seq<string> { Break(FeedAll(t, NOTHING, run)).phrase }

  function Lowered(t: Tables, run: string): string { seq(|run|, i requires 0 <= i < |run| => t.lower(run[i])) }

  /** A run that is ASCII in lower case spells a single lexeme, itself in lower case. */
  lemma AsciiSpells(t: Tables, run: string)
    requires run != "" && forall i :: 0 <= i < |run| ==> t.lower(run[i]) as int < MAX_ASCII
    ensures PhraseOf(t, run) == [Lowered(t, run)]
  {
    AsciiFed(t, NOTHING, run);
    assert "" + Lowered(t, run) == Lowered(t, run);
    assert [] + [Lowered(t, run)] == [Lowered(t, run)];
  }

  lemma {:induction false} AsciiFed(t: Tables, x: Spelling, run: string)
    requires forall i :: 0 <= i < |run| ==> t.lower(run[i]) as int < MAX_ASCII
    ensures FeedAll(t, x, run) == x.(lexeme := x.lexeme + Lowered(t, run))
    decreases |run|
  {
    if run == "" {
      assert x.lexeme + Lowered(t, run) == x.lexeme;
    } else {
      AsciiFed(t, Feed(t, x, run[0]), run[1..]);
      assert Lowered(t, run) == [t.lower(run[0])] + Lowered(t, run[1..]);
      Assoc(x.lexeme, [t.lower(run[0])], Lowered(t, run[1..]));
    }
  }

  /** The character is of a language without spaces and has a transliteration. */
  predicate StandsAlone(t: Tables, c: char) {
    var ch := t.lower(c);
    ch as int > 0x1FFF && t.latin(ch).Some? && Cleaned(t.latin(ch).value) != ""
  }

  function Latin(t: Tables, c: char): string
    requires StandsAlone(t, c)
  {
    Cleaned(t.latin(t.lower(c)).value)
  }

  function Transliterated(t: Tables, run: string): seq<string>
    requires forall i :: 0 <= i < |run| ==> StandsAlone(t, run[i])
  {
    seq(|run|, i requires 0 <= i < |run| && StandsAlone(t, run[i]) => Latin(t, run[i]))
  }

  /** Each character of a language without spaces is a lexeme of its own. */
  lemma UnspacedSpells(t: Tables, run: string)
    requires forall i :: 0 <= i < |run| ==> StandsAlone(t, run[i])
    ensures PhraseOf(t, run) == Transliterated(t, run)
  {
    UnspacedFed(t, NOTHING, run);
    assert [] + Transliterated(t, run) == Transliterated(t, run);
  }

  lemma {:induction false} UnspacedFed(t: Tables, x: Spelling, run: string)
    requires x.lexeme == "" && forall i :: 0 <= i < |run| ==> StandsAlone(t, run[i])
    ensures FeedAll(t, x, run) == Spelling(x.phrase + Transliterated(t, run), "")
    decreases |run|
  {
    if run == "" {
      assert x.phrase + Transliterated(t, run) == x.phrase;
    } else {
      assert StandsAlone(t, run[0]);
      var word := Latin(t, run[0]);
      assert "" + word == word;
      assert Feed(t, x, run[0]) == Spelling(x.phrase + [word], "");
      UnspacedFed(t, Feed(t, x, run[0]), run[1..]);
      assert Transliterated(t, run) == [word] + Transliterated(t, run[1..]);
      Assoc(x.phrase, [word], Transliterated(t, run[1..]));
    }
  }

  /** The phrases of some runs; a run that spells nothing makes none. */
  function PhrasesOf(t: Tables, runs: seq<string>): seq<seq<string>> {
    if runs == [] then []
    else (if PhraseOf(t, runs[0]) == [] then [] else [PhraseOf(t, runs[0])]) + PhrasesOf(t, runs[1..])
  }

  lemma {:induction false} RunRead(t: Tables, s: string, x: Spelling)
    ensures var k := Span(t.isWord, s);
            var y := FeedAll(t, x, s[..k]);
            PhraseFrom(t, s, x) ==
              if s[k..] == "" || Break(y).phrase != []
              then (Break(y).phrase, s[k..])
              else PhraseFrom(t, s[k + 1..], NOTHING)
    decreases |s|
  {
    var k := Span(t.isWord, s);
    if k > 0 {
      RunRead(t, s[1..], Feed(t, x, s[0]));
      assert s[..k][1..] == s[1..][..k - 1] && s[1..][k - 1..] == s[k..];
      assert k < |s| ==> s[1..][k..] == s[k + 1..];
    } else {
      assert s[..0] == "" && s[0..] == s;
    }
  }

  /** Reading a phrase skips the runs that spell nothing. */
  lemma {:induction false} TokenizeSkips(t: Tables, s: string)
    requires s != "" && Span(t.isWord, s) == 0
    ensures Tokenize(t, s) == Tokenize(t, s[1..])
  {
    assert Break(NOTHING).phrase == [];
    assert !t.isWord(s[0]);
  }

  /** Tokenizing is splitting into runs of word characters, each of which makes one phrase. */
  lemma {:induction false} TokenizeByRuns(t: Tables, s: string)
    ensures Tokenize(t, s) == PhrasesOf(t, Runs(t, s))
    decreases |s|
  {
    var k := Span(t.isWord, s);
    if s == "" {
    } else if k == 0 {
      TokenizeSkips(t, s);
      TokenizeByRuns(t, s[1..]);
    } else {
      RunRead(t, s, NOTHING);
      TokenizeByRuns(t, s[k..]);
      assert Runs(t, s)[0] == s[..k] && Runs(t, s)[1..] == Runs(t, s[k..]);
      if PhraseOf(t, s[..k]) == [] && s[k..] != "" {
        TokenizeSkips(t, s[k..]);
        assert s[k..][1..] == s[k + 1..];
      }
    }
  }

  lemma {:induction false} PhrasesConcat(t: Tables, a: seq<string>, b: seq<string>)
    ensures PhrasesOf(t, a + b) == PhrasesOf(t, a) + PhrasesOf(t, b)
  {
    if a == [] {
      assert a + b == b;
    } else {
      assert (a + b)[1..] == a[1..] + b;
      PhrasesConcat(t, a[1..], b);
    }
  }

  lemma {:induction false} RunsSeparate(t: Tables, a: string, c: char, b: string)
    requires !t.isWord(c)
    ensures Runs(t, a + [c] + b) == Runs(t, a) + Runs(t, b)
    decreases |a|
  {
    var k := Span(t.isWord, a);
    SpanSeparated(t.isWord, a, c, b);
    if a == "" {
      assert a + [c] + b == [c] + b;
    } else if k == 0 {
      assert (a + [c] + b)[1..] == a[1..] + [c] + b;
      RunsSeparate(t, a[1..], c, b);
    } else {
      RunsSeparate(t, a[k..], c, b);
      Assoc([a[..k]], Runs(t, a[k..]), Runs(t, b));
    }
  }

  lemma SpanSeparated(p: char -> bool, a: string, c: char, b: string)
    requires !p(c)
    ensures var s, k := a + [c] + b, Span(p, a);
            Span(p, s) == k && s[..k] == a[..k] && s[k..] == a[k..] + [c] + b
  {
    var k := Span(p, a);
    Assoc4(a[..k], a[k..], [c], b);
    Assoc(a[k..], [c], b);
    DropFront(a[..k], a[k..] + [c] + b);
    SpanOf(p, a[..k], a[k..] + [c] + b);
    assert a[..k] + a[k..] == a;
  }

  /** A separator splits the text: what stands before and after it is tokenized on its own. */
  lemma SeparatorSplits(t: Tables, a: string, c: char, b: string)
    requires !t.isWord(c)
    ensures Tokenize(t, a + [c] + b) == Tokenize(t, a) + Tokenize(t, b)
  {
    TokenizeByRuns(t, a + [c] + b);
    TokenizeByRuns(t, a);
    TokenizeByRuns(t, b);
    RunsSeparate(t, a, c, b);
    PhrasesConcat(t, Runs(t, a), Runs(t, b));
  }

  // ---------- what the lexemes look like ----------

  predicate Clean(s: string) { '\'' !in s && '\\' !in s }

  predicate IsLexeme(s: string) { s != "" && Clean(s) }

  predicate AllLexemes(xs: seq<string>) { forall x :: x in xs ==> IsLexeme(x) }

  predicate SpellsClean(x: Spelling) { AllLexemes(x.phrase) && Clean(x.lexeme) }

  lemma CleanedIsClean(latin: string)
    ensures Clean(Cleaned(latin))
  {
    var once := Replace(latin, '\'', "_sq_");
    ReplaceRemoves(latin, '\'', "_sq_");
    ReplaceRemoves(once, '\\', "_bs_");
    TrimKeeps(Replace(once, '\\', "_bs_"));
  }

  lemma FeedKeepsClean(t: Tables, x: Spelling, c: char)
    requires t.isWord(c) && SpellsClean(x)
    ensures SpellsClean(Feed(t, x, c)) && SpellsClean(Break(x))
  {
    var latin := t.latin(t.lower(c));
    if latin.Some? {
      CleanedIsClean(latin.value);
    }
  }

  lemma {:induction false} PhraseIsClean(t: Tables, s: string, x: Spelling)
    requires SpellsClean(x)
    ensures AllLexemes(PhraseFrom(t, s, x).0)
    decreases |s|
  {
    if s != "" && t.isWord(s[0]) {
      FeedKeepsClean(t, x, s[0]);
      PhraseIsClean(t, s[1..], Feed(t, x, s[0]));
    } else if s != "" && Break(x).phrase == [] {
      PhraseIsClean(t, s[1..], NOTHING);
    }
  }

  /** Every phrase has lexemes; every lexeme is non-empty, without quotes and backslashes. */
  lemma {:induction false} TokensAreLexemes(t: Tables, s: string)
    ensures forall p :: p in Tokenize(t, s) ==> p != [] && AllLexemes(p)
    decreases |s|
  {
    PhraseIsClean(t, s, NOTHING);
    var (phrase, rest) := PhraseFrom(t, s, NOTHING);
    if phrase != [] {
      TokensAreLexemes(t, rest);
    }
  }

  lemma {:induction false} FlattenLexemes(xs: seq<seq<string>>)
    requires forall p :: p in xs ==> AllLexemes(p)
    ensures AllLexemes(Flatten(xs))
  {
    if xs != [] {
      assert xs[0] in xs;
      FlattenLexemes(xs[1..]);
    }
  }

  lemma {:induction false} FlattenAppend<T>(xs: seq<seq<T>>, x: seq<T>)
    ensures Flatten(xs + [x]) == Flatten(xs) + x
  {
    if xs == [] {
      assert xs + [x] == [x];
    } else {
      assert (xs + [x])[1..] == xs[1..] + [x];
      FlattenAppend(xs[1..], x);
    }
  }

  // ---------- the reader ----------

  method ReadPhrase(t: Tables, l: Lexer) returns (phrase: seq<string>)
    requires l.Valid()
    modifies l`pos, l`canUnread
    ensures l.Valid() && (phrase, l.Rest()) == PhraseFrom(t, old(l.Rest()), NOTHING)
  {
    phrase := [];
    var lexeme := "";
    while true
      invariant l.Valid() && PhraseFrom(t, l.Rest(), Spelling(phrase, lexeme)) == PhraseFrom(t, old(l.Rest()), NOTHING)
      decreases |l.Rest()|
    {
      ghost var s, x := l.Rest(), Spelling(phrase, lexeme);
      var eof := l.IsEOF();
      if eof {
        phrase, lexeme := BreakWord(phrase, lexeme);
        return;
      }
      var r := l.ReadIf(t.isWord);
      if r.Some? {
        phrase, lexeme := Spell(t, phrase, lexeme, r.value);
      } else {
        phrase, lexeme := BreakWord(phrase, lexeme);
        if |phrase| > 0 {
          return;
        }
        var skipped := l.Read();
      }
    }
  }

  method BreakWord(phrase: seq<string>, lexeme: string) returns (phrase': seq<string>, lexeme': string)
    ensures Spelling(phrase', lexeme') == Break(Spelling(phrase, lexeme))
  {
    phrase', lexeme' := phrase, lexeme;
    if lexeme != "" {
      phrase', lexeme' := phrase + [lexeme], "";
    }
  }

  method Spell(t: Tables, phrase: seq<string>, lexeme: string, c: char) returns (phrase': seq<string>, lexeme': string)
    ensures Spelling(phrase', lexeme') == Feed(t, Spelling(phrase, lexeme), c)
  {
    phrase', lexeme' := phrase, lexeme;
    var ch := t.lower(c);
    if ch as int < MAX_ASCII {
      lexeme' := lexeme' + [ch];
      return;
    }
    var unspaced := ch as int > 0x1FFF;
    if unspaced {
      phrase', lexeme' := BreakWord(phrase', lexeme');
    }
    var latin := t.latin(ch);
    if latin.Some? {
      var subst := Replace(latin.value, '\'', "_sq_");
      subst := Replace(subst, '\\', "_bs_");
      subst := TrimSpace(subst);
      lexeme' := lexeme' + subst;
      if unspaced || |subst| == 0 || subst[|subst| - 1] == ' ' {
        phrase', lexeme' := BreakWord(phrase', lexeme');
      }
    }
  }

  method TokenizeText(t: Tables, str: string) returns (tokens: seq<seq<string>>)
    ensures tokens == Tokenize(t, str)
    ensures forall p :: p in tokens ==> p != [] && AllLexemes(p)
  {
    var l := new Lexer(str);
    tokens := [];
    while true
      invariant l.Valid() && fresh(l) && tokens + Tokenize(t, l.Rest()) == Tokenize(t, str)
      decreases |l.Rest()|
    {
      ghost var s := l.Rest();
      var phrase := ReadPhrase(t, l);
      if |phrase| == 0 {
        break;
      }
      Assoc(tokens, [phrase], Tokenize(t, l.Rest()));
      tokens := tokens + [phrase];
    }
    TokensAreLexemes(t, str);
  }

  method TokenizeTextFlat(t: Tables, str: string) returns (tokens: seq<string>)
    ensures tokens == TokenizeFlat(t, str) && AllLexemes(tokens)
  {
    var phrases := TokenizeText(t, str);
    tokens := [];
    for i := 0 to |phrases|
      invariant tokens == Flatten(phrases[..i])
    {
      FlattenAppend(phrases[..i], phrases[i]);
      assert phrases[..i + 1] == phrases[..i] + [phrases[i]];
      tokens := tokens + phrases[i];
    }
    assert phrases[..|phrases|] == phrases;
    FlattenLexemes(phrases);
  }
}
