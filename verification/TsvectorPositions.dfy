/**
 Which positions the lexemes of added texts get: the lexemes of one text take consecutive
 positions, and between the texts one position stays free.
 */
module TsvectorPositions {
  import opened LexerBase
  import opened TsvectorFormat

  /** The greatest position of a vector; zero when it has no positive one. */
  ghost predicate IsTop(v: Vector, m: int) {
    && m >= 0
    && (forall k :: k in v ==> forall p :: p in v[k] ==> p <= m)
    && (m == 0 || exists k :: k in v && m in v[k])
  }

  lemma {:induction false} GreatestOf(s: set<int>) returns (m: int)
    ensures m >= 0 && (forall p :: p in s ==> p <= m) && (m == 0 || m in s)
  {
    if x :| x in s {
      m := GreatestOf(s - {x});
      assert forall p :: p in s ==> p == x || p in s - {x};
      if x > m {
        m := x;
      }
    } else {
      m := 0;
    }
  }

  lemma TopExists(v: Vector)
    ensures exists m :: IsTop(v, m)
  {
    var all := set k, p | k in v && p in v[k] :: p;
    var m := GreatestOf(all);
    forall k, p | k in v && p in v[k] ensures p <= m {
      assert p in all;
    }
    assert IsTop(v, m);
  }

  lemma TopUnique(v: Vector, m: int, n: int)
    requires IsTop(v, m) && IsTop(v, n)
    ensures m == n
  {
  }

  ghost function Top(v: Vector): (m: int)
    ensures IsTop(v, m)
  {
    TopExists(v);
    var m :| IsTop(v, m);
    m
  }

  /** Where the next text starts when `top` is the greatest position. */
  function StartAfter(top: int): int { if top == 0 then 1 else top + 2 }

  function PutOne(v: Vector, lexeme: string, position: int, weight: char): Vector {
    v[lexeme := (if lexeme in v then v[lexeme] else map[])[position := weight]]
  }

  /** The tokens at consecutive positions. */
  function AddAt(v: Vector, tokens: seq<string>, start: int, weight: char): Vector
    decreases |tokens|
  {
    if tokens == [] then v else AddAt(PutOne(v, tokens[0], start, weight), tokens[1..], start + 1, weight)
  }

  ghost predicate Has(v: Vector, k: string, p: int, w: char) { k in v && p in v[k] && v[k][p] == w }

  /** Token number p - start is k. */
  predicate InTokens(tokens: seq<string>, start: int, k: string, p: int) {
    0 <= p - start < |tokens| && tokens[p - start] == k
  }

  /** Adding at free positions adds exactly the tokens there. */
  lemma {:induction false} AddAtHas(v: Vector, tokens: seq<string>, start: int, weight: char, k: string, p: int,
                                    w: char)
    requires forall j :: j in v ==> forall q :: q in v[j] ==> q < start
    ensures Has(AddAt(v, tokens, start, weight), k, p, w) <==>
              Has(v, k, p, w) || (InTokens(tokens, start, k, p) && w == weight)
    decreases |tokens|
  {
    if tokens != [] {
      var v' := PutOne(v, tokens[0], start, weight);
      AddAtHas(v', tokens[1..], start + 1, weight, k, p, w);
      assert InTokens(tokens, start, k, p) <==>
             (p == start && k == tokens[0]) || InTokens(tokens[1..], start + 1, k, p);
      assert Has(v', k, p, w) <==> Has(v, k, p, w) || (p == start && k == tokens[0] && w == weight);
    }
  }

  /** A text that is added stands at consecutive positions: from 1 in a vector without positions, and
      otherwise from two past the greatest one, with its weight; everything else stays. */
  lemma TextStands(v: Vector, tokens: seq<string>, weight: char)
    ensures var start, added := StartAfter(Top(v)), AddAt(v, tokens, StartAfter(Top(v)), weight);
            && (forall k, p, w :: Has(added, k, p, w) <==>
                  Has(v, k, p, w) || (w == weight && 0 <= p - start < |tokens| && tokens[p - start] == k))
            && ((forall k :: k in v ==> forall p :: p in v[k] ==> p <= 0) ==> start == 1)
            && (forall m, k :: m > 0 && k in v && m in v[k] ==>
                  (forall j :: j in v ==> forall p :: p in v[j] ==> p <= m) ==> start == m + 2)
  {
    var start := StartAfter(Top(v));
    forall k, p, w ensures Has(AddAt(v, tokens, start, weight), k, p, w) <==>
                             Has(v, k, p, w) || (w == weight && 0 <= p - start < |tokens| && tokens[p - start] == k) {
      AddAtHas(v, tokens, start, weight, k, p, w);
    }
    forall m, k | m > 0 && k in v && m in v[k] && (forall j :: j in v ==> forall p :: p in v[j] ==> p <= m)
      ensures Top(v) == m
    {
      TopUnique(v, Top(v), m);
    }
  }

  // ---------- any sequence of texts ----------

  datatype Text = Text(tokens: seq<string>, weight: char)

  /** The vector after adding texts one after the other to an empty one. */
  ghost function Build(texts: seq<Text>): Vector {
    if texts == [] then map[]
    else
      var v, last := Build(texts[..|texts| - 1]), texts[|texts| - 1];
      AddAt(v, last.tokens, StartAfter(Top(v)), last.weight)
  }

  /** The position of the last token. */
  function End(texts: seq<Text>): nat {
    if texts == [] then 0
    else
      var last := texts[|texts| - 1];
      if last.tokens == [] then End(texts[..|texts| - 1])
      else StartAfter(End(texts[..|texts| - 1])) + |last.tokens| - 1
  }

  /** Where text number i starts. */
  function StartOf(texts: seq<Text>, i: nat): int
    requires i < |texts|
  {
    StartAfter(End(texts[..i]))
  }

  /** Some token of text number i is k, belongs at position p and has weight w. */
  ghost predicate PlacedIn(texts: seq<Text>, i: nat, k: string, p: int, w: char)
    requires i < |texts|
  {
    InTokens(texts[i].tokens, StartOf(texts, i), k, p) && w == texts[i].weight
  }

  ghost predicate Placed(texts: seq<Text>, k: string, p: int, w: char) {
    exists i :: 0 <= i < |texts| && PlacedIn(texts, i, k, p, w)
  }

  lemma StartInFront(texts: seq<Text>, n: nat, i: nat)
    requires i < n <= |texts|
    ensures texts[..n][i] == texts[i] && StartOf(texts[..n], i) == StartOf(texts, i)
  {
    assert texts[..n][..i] == texts[..i];
  }

  lemma PlacedInFront(texts: seq<Text>, n: nat, k: string, p: int, w: char)
    requires n <= |texts|
    ensures Placed(texts[..n], k, p, w) <==> exists i :: 0 <= i < n && PlacedIn(texts, i, k, p, w)
  {
    forall i | 0 <= i < n ensures PlacedIn(texts[..n], i, k, p, w) <==> PlacedIn(texts, i, k, p, w) {
      StartInFront(texts, n, i);
    }
  }

  lemma PlacedLast(texts: seq<Text>, k: string, p: int, w: char)
    requires texts != []
    ensures var n := |texts| - 1;
            Placed(texts, k, p, w) <==>
              Placed(texts[..n], k, p, w)
              || (InTokens(texts[n].tokens, StartAfter(End(texts[..n])), k, p) && w == texts[n].weight)
  {
    var n := |texts| - 1;
    PlacedInFront(texts, n, k, p, w);
    assert PlacedIn(texts, n, k, p, w) <==>
             InTokens(texts[n].tokens, StartAfter(End(texts[..n])), k, p) && w == texts[n].weight;
  }

  /** Every token has the position that its text and its place in it determine, and nothing else
      has a position; the greatest one is the end of the last text. */
  lemma {:induction false} PositionsExactly(texts: seq<Text>)
    ensures IsTop(Build(texts), End(texts))
    ensures forall k, p, w :: Has(Build(texts), k, p, w) <==> Placed(texts, k, p, w)
  {
    if texts != [] {
      var front, last := texts[..|texts| - 1], texts[|texts| - 1];
      var v, start := Build(front), StartAfter(End(front));
      PositionsExactly(front);
      TopUnique(v, Top(v), End(front));
      forall k, p, w ensures Has(Build(texts), k, p, w) <==> Placed(texts, k, p, w) {
        AddAtHas(v, last.tokens, start, last.weight, k, p, w);
        PlacedLast(texts, k, p, w);
      }
      TopMoves(v, last, End(front));
    }
  }

  lemma TopMoves(v: Vector, last: Text, top: nat)
    requires IsTop(v, top)
    ensures IsTop(AddAt(v, last.tokens, StartAfter(top), last.weight),
                  if last.tokens == [] then top else StartAfter(top) + |last.tokens| - 1)
  {
    if last.tokens != [] {
      var start, n := StartAfter(top), |last.tokens| - 1;
      var r := AddAt(v, last.tokens, start, last.weight);
      forall k, p | k in r && p in r[k] ensures p <= start + n {
        AddAtHas(v, last.tokens, start, last.weight, k, p, r[k][p]);
      }
      AddAtHas(v, last.tokens, start, last.weight, last.tokens[n], start + n, last.weight);
    }
  }

  /** Texts come one after the other, with a gap. */
  lemma {:induction false} TextsApart(texts: seq<Text>, i: nat, j: nat)
    requires i < j < |texts| && texts[i].tokens != []
    ensures 1 <= StartOf(texts, i) && StartOf(texts, i) + |texts[i].tokens| + 1 <= StartOf(texts, j)
    decreases j
  {
    assert texts[..i + 1][..i] == texts[..i];
    if j > i + 1 {
      TextsApart(texts, i, j - 1);
      assert texts[..j][..j - 1] == texts[..j - 1];
    }
  }

  /** The text that put a lexeme where it is. */
  lemma TextOf(texts: seq<Text>, k: string, p: int, w: char) returns (i: nat)
    requires Has(Build(texts), k, p, w)
    ensures i < |texts| && InTokens(texts[i].tokens, StartOf(texts, i), k, p) && w == texts[i].weight
    ensures p >= 1
  {
    PositionsExactly(texts);
    assert Placed(texts, k, p, w);
    i :| 0 <= i < |texts| && InTokens(texts[i].tokens, StartOf(texts, i), k, p) && w == texts[i].weight;
    StartPositive(texts, i);
  }

  lemma StartPositive(texts: seq<Text>, i: nat)
    requires i < |texts|
    ensures StartOf(texts, i) >= 1
  {
  }

  /** Each position belongs to one lexeme, and positions of different texts differ by at least two. */
  lemma PositionsDoNotMeet(texts: seq<Text>, k1: string, p1: int, w1: char, k2: string, p2: int, w2: char)
    returns (i: nat, j: nat)
    requires Has(Build(texts), k1, p1, w1) && Has(Build(texts), k2, p2, w2)
    ensures p1 == p2 ==> k1 == k2 && w1 == w2
    ensures i < |texts| && InTokens(texts[i].tokens, StartOf(texts, i), k1, p1)
    ensures j < |texts| && InTokens(texts[j].tokens, StartOf(texts, j), k2, p2)
    ensures (i < j ==> p1 + 2 <= p2) && (j < i ==> p2 + 2 <= p1)
  {
    i := TextOf(texts, k1, p1, w1);
    j := TextOf(texts, k2, p2, w2);
    if i < j {
      TextsApart(texts, i, j);
    } else if j < i {
      TextsApart(texts, j, i);
    }
  }

  /** The weights of the texts that have tokens are A to D. */
  predicate WeightsGood(texts: seq<Text>) {
    forall i :: 0 <= i < |texts| && texts[i].tokens != [] ==> IsWeightLetter(texts[i].weight)
  }

  /** A vector built from texts is well-formed, so that it survives printing and parsing, exactly
      when the weights of the texts that have tokens are A to D and no position is too large. */
  lemma BuiltIsWellFormedExactly(texts: seq<Text>)
    requires forall i :: 0 <= i < |texts| ==> "" !in texts[i].tokens
    ensures WellFormed(Build(texts)) <==> WeightsGood(texts) && End(texts) <= MAX_INT64
  {
    PositionsExactly(texts);
    if WellFormed(Build(texts)) {
      forall i | 0 <= i < |texts| && texts[i].tokens != [] ensures IsWeightLetter(texts[i].weight) {
        TextIsThere(texts, i);
      }
    }
    if WeightsGood(texts) && End(texts) <= MAX_INT64 {
      forall k | k in Build(texts) ensures k != "" && GoodLabels(Build(texts)[k], 1) {
        KeysHavePositions(texts, k);
        forall p | p in Build(texts)[k] ensures k != "" && 1 <= p <= MAX_INT64 && IsWeightLetter(Build(texts)[k][p]) {
          LabelIsGood(texts, k, p);
        }
      }
    }
  }

  lemma TextIsThere(texts: seq<Text>, i: nat)
    requires i < |texts| && texts[i].tokens != []
    ensures Has(Build(texts), texts[i].tokens[0], StartOf(texts, i), texts[i].weight)
  {
    PositionsExactly(texts);
    var k, p := texts[i].tokens[0], StartOf(texts, i);
    assert InTokens(texts[i].tokens, p, k, p);
    assert PlacedIn(texts, i, k, p, texts[i].weight);
    assert Placed(texts, k, p, texts[i].weight);
  }

  lemma LabelIsGood(texts: seq<Text>, k: string, p: int)
    requires WeightsGood(texts) && End(texts) <= MAX_INT64 && k in Build(texts) && p in Build(texts)[k]
    requires forall i :: 0 <= i < |texts| ==> "" !in texts[i].tokens
    ensures k != "" && 1 <= p <= MAX_INT64 && IsWeightLetter(Build(texts)[k][p])
  {
    assert Has(Build(texts), k, p, Build(texts)[k][p]);
    var i := TextOf(texts, k, p, Build(texts)[k][p]);
    assert k in texts[i].tokens && texts[i].tokens != [];
    PositionsExactly(texts);
  }

  ghost predicate NoneEmpty(v: Vector) { forall k :: k in v ==> exists p :: p in v[k] }

  /** No lexeme of a built vector is without positions. */
  lemma {:induction false} KeysHavePositions(texts: seq<Text>, k: string)
    requires k in Build(texts)
    ensures exists p :: p in Build(texts)[k]
  {
    BuiltNoneEmpty(texts);
  }

  lemma {:induction false} BuiltNoneEmpty(texts: seq<Text>)
    ensures NoneEmpty(Build(texts))
  {
    if texts != [] {
      BuiltNoneEmpty(texts[..|texts| - 1]);
      var v, last := Build(texts[..|texts| - 1]), texts[|texts| - 1];
      AddAtNoneEmpty(v, last.tokens, StartAfter(Top(v)), last.weight);
    }
  }

  lemma {:induction false} AddAtNoneEmpty(v: Vector, tokens: seq<string>, start: int, weight: char)
    requires NoneEmpty(v)
    ensures NoneEmpty(AddAt(v, tokens, start, weight))
    decreases |tokens|
  {
    if tokens != [] {
      var v' := PutOne(v, tokens[0], start, weight);
      assert start in v'[tokens[0]];
      AddAtNoneEmpty(v', tokens[1..], start + 1, weight);
    }
  }
}
