/** Signed-token algebra (word_utils.py): a token is a word, or a word behind the negation marker
    standing for that word's vector negated; and the vector sum of a session's tokens. */
module WordUtils {
  import opened Errors
  import opened Consts
  import opened Ascii
  import opened Vectors
  import opened Lists
  import WordMaze
  import Db

  /** is_negative_word: the token starts with the negation marker (Python raises IndexError on ""). */
  predicate IsNegativeWord(word: string)
    requires |word| > 0
    ensures IsNegativeWord(word) <==> [NegatingPrefix] <= word
  {
    word[0] == NegatingPrefix
  }

  /** get_positive_form: the token with one leading marker stripped; a positive token unchanged. */
  function GetPositiveForm(word: string): (r: string)
    requires |word| > 0
    ensures IsNegativeWord(word) ==> [NegatingPrefix] + r == word
    ensures !IsNegativeWord(word) ==> r == word
  {
    if IsNegativeWord(word) then
      assert word == [word[0]] + word[1..];
      word[1..]
    else word
  }

  /** get_opposite_form: a negative token loses its marker, a positive one gains it. */
  function GetOppositeForm(word: string): (r: string)
    requires |word| > 0
    ensures IsNegativeWord(word) ==> [NegatingPrefix] + r == word
    ensures !IsNegativeWord(word) ==> r == [NegatingPrefix] + word && IsNegativeWord(r)
  {
    if IsNegativeWord(word) then GetPositiveForm(word) else [NegatingPrefix] + word
  }

  /** A token on which "opposite" is an involution: non-empty, not the bare marker, and not starting
      with two markers. */
  predicate IsWellFormed(t: string) {
    && |t| > 0
    && t != [NegatingPrefix]
    && !(|t| >= 2 && t[0] == NegatingPrefix && t[1] == NegatingPrefix)
  }

  /** The opposite of the opposite of t is t exactly when t is well-formed. (The opposite of the bare
      marker is "", whose opposite raises IndexError, hence the second requires.) */
  lemma OppositeInvolution(t: string)
    requires |t| > 0 && |GetOppositeForm(t)| > 0
    ensures GetOppositeForm(GetOppositeForm(t)) == t <==> IsWellFormed(t)
  {
    var o := GetOppositeForm(t);
    if IsNegativeWord(t) {
      assert t == [NegatingPrefix] + o;
      if |t| >= 2 && t[1] == NegatingPrefix {
        assert IsNegativeWord(o);
        assert |GetOppositeForm(o)| < |t|;
      } else {
        assert !IsNegativeWord(o);
      }
    } else {
      assert o[1..] == t;
    }
  }

  /** The failure case: a doubly negated word loses both markers after two flips. */
  lemma DoubleMarkerCollapses(w: string)
    ensures GetOppositeForm(GetOppositeForm([NegatingPrefix, NegatingPrefix] + w)) == w
  {
    var t := [NegatingPrefix, NegatingPrefix] + w;
    assert GetOppositeForm(t) == [NegatingPrefix] + w;
    assert ([NegatingPrefix] + w)[1..] == w;
  }

  /** A well-formed token and its opposite share one positive form. */
  lemma OppositeSharesPositiveForm(t: string)
    requires IsWellFormed(t)
    ensures |GetOppositeForm(t)| > 0
    ensures GetPositiveForm(GetOppositeForm(t)) == GetPositiveForm(t)
    ensures IsNegativeWord(GetOppositeForm(t)) <==> !IsNegativeWord(t)
  {
    var o := GetOppositeForm(t);
    if !IsNegativeWord(t) {
      assert o[1..] == t;
    }
  }

  /** clean_input: lower-cases the input and drops one leading '+' (Python raises IndexError on ""). */
  function CleanInput(word: string): (r: string)
    requires |word| > 0
    ensures IsLowered(r)
    ensures word[0] == '+' ==> ['+'] + r == Lower(word)
    ensures word[0] != '+' ==> r == Lower(word)
  {
    LowerIsLowered(word);
    var lowered := Lower(word);
    if lowered[0] == '+' then
      assert lowered == [lowered[0]] + lowered[1..];
      lowered[1..]
    else lowered
  }

  /** Cleaning a cleaned input changes it again exactly when the raw input started with two '+'
      signs: "++x" cleans to "+x", which cleans to "x". */
  lemma CleanInputIdempotentIff(word: string)
    requires |word| > 0 && |CleanInput(word)| > 0
    ensures CleanInput(CleanInput(word)) == CleanInput(word)
      <==> !(|word| >= 2 && word[0] == '+' && word[1] == '+')
  {
    var r := CleanInput(word);
    LowerIsLowered(r);
    if word[0] == '+' {
      assert r[0] == Lower(word)[1];
      if word[1] == '+' {
        assert |CleanInput(r)| < |r|;
      }
    }
  }

  /** A lower-case token not starting with '+' is its own cleaned form. */
  lemma CleanInputKeepsTokens(t: string)
    requires |t| > 0 && IsLowered(t) && t[0] != '+'
    ensures CleanInput(t) == t
  {
    LowerIsLowered(t);
  }

  /** Every word of the list can be resolved: it is non-empty and its positive form is stored. */
  predicate Resolvable(c: Db.Collection, words: seq<string>) {
    forall i :: 0 <= i < |words| ==> |words[i]| > 0 && GetPositiveForm(words[i]) in c
  }

  /** The vector a token stands for: its positive form's embedding, negated for a negative token. */
  function SignedEmbedding(c: Db.Collection, word: string): (v: Vector)
    requires |word| > 0 && GetPositiveForm(word) in c
    ensures IsNegativeWord(word) ==> Neg(v) == c[GetPositiveForm(word)]
    ensures !IsNegativeWord(word) ==> v == c[word]
  {
    var e := c[GetPositiveForm(word)];
    if IsNegativeWord(word) then
      NegProperties(e);
      Neg(e)
    else e
  }

  /** The signed embedding of every word, in order. */
  function SignedEmbeddings(c: Db.Collection, words: seq<string>): (vs: seq<Vector>)
    requires Resolvable(c, words)
    ensures |vs| == |words|
    ensures forall i :: 0 <= i < |words| && IsNegativeWord(words[i]) ==> Neg(vs[i]) == c[GetPositiveForm(words[i])]
    ensures forall i :: 0 <= i < |words| && !IsNegativeWord(words[i]) ==> vs[i] == c[words[i]]
  {
    seq(|words|, i requires 0 <= i < |words| => SignedEmbedding(c, words[i]))
  }

  /** The combined guess: the sum of the signed embeddings of the words. */
  function GuessedVectorSum(c: Db.Collection, words: seq<string>, d: nat): (v: Vector)
    requires Resolvable(c, words) && Db.CollectionHasDim(c, d)
    ensures |v| == d
  {
    Sum(SignedEmbeddings(c, words), d)
  }

  lemma SignedEmbeddingsDim(c: Db.Collection, words: seq<string>, d: nat)
    requires Resolvable(c, words) && Db.CollectionHasDim(c, d)
    ensures AllOfDim(SignedEmbeddings(c, words), d)
  {
  }

  /** The sum over a concatenation of word lists is the sum of the two partial sums. */
  lemma GuessedVectorSumAppend(c: Db.Collection, a: seq<string>, b: seq<string>, d: nat)
    requires Resolvable(c, a) && Resolvable(c, b) && Db.CollectionHasDim(c, d)
    ensures Resolvable(c, a + b)
    ensures GuessedVectorSum(c, a + b, d) == Add(GuessedVectorSum(c, a, d), GuessedVectorSum(c, b, d))
  {
    assert Resolvable(c, a + b);
    assert SignedEmbeddings(c, a + b) == SignedEmbeddings(c, a) + SignedEmbeddings(c, b);
    SignedEmbeddingsDim(c, a, d);
    SignedEmbeddingsDim(c, b, d);
    SumAppend(SignedEmbeddings(c, a), SignedEmbeddings(c, b), d);
  }

  /** Moving one word to the front of the list leaves the sum unchanged. */
  lemma MoveToFront(c: Db.Collection, b1: seq<string>, x: string, b2: seq<string>, d: nat)
    requires Resolvable(c, b1 + [x] + b2) && Db.CollectionHasDim(c, d)
    ensures Resolvable(c, [x]) && Resolvable(c, b1 + b2)
    ensures GuessedVectorSum(c, b1 + [x] + b2, d) == Add(GuessedVectorSum(c, [x], d), GuessedVectorSum(c, b1 + b2, d))
  {
    var b := b1 + [x] + b2;
    assert b1 == b[..|b1|] && [x] == b[|b1|..|b1| + 1] && b2 == b[|b1| + 1..];
    assert Resolvable(c, b1) && Resolvable(c, [x]) && Resolvable(c, b2);
    var sx, s1, s2 := GuessedVectorSum(c, [x], d), GuessedVectorSum(c, b1, d), GuessedVectorSum(c, b2, d);
    GuessedVectorSumAppend(c, b1, [x], d);
    GuessedVectorSumAppend(c, b1 + [x], b2, d);
    GuessedVectorSumAppend(c, b1, b2, d);
    calc {
      GuessedVectorSum(c, b, d);
      Add(Add(s1, sx), s2);
      { AddCommutes(s1, sx); }
      Add(Add(sx, s1), s2);
      { AddAssociates(sx, s1, s2); }
      Add(sx, Add(s1, s2));
    }
  }

  /** The sum depends only on which words the list holds and how often, not on their order. */
  lemma {:induction false} GuessedVectorSumPermutation(c: Db.Collection, a: seq<string>, b: seq<string>, d: nat)
    requires Resolvable(c, a) && Resolvable(c, b) && Db.CollectionHasDim(c, d)
    requires multiset(a) == multiset(b)
    ensures GuessedVectorSum(c, a, d) == GuessedVectorSum(c, b, d)
    decreases |a|
  {
    if a == [] {
      assert |b| == |multiset(b)| == 0;
    } else {
      var x, rest := a[0], a[1..];
      assert a == [x] + rest;
      assert x in multiset(b);
      var j :| 0 <= j < |b| && b[j] == x;
      var b1, b2 := b[..j], b[j + 1..];
      assert b == b1 + [x] + b2;
      PermutationWithoutHead(a, b, j);
      MoveToFront(c, b1, x, b2, d);
      assert Resolvable(c, rest) && Resolvable(c, [x]);
      GuessedVectorSumPermutation(c, rest, b1 + b2, d);
      GuessedVectorSumAppend(c, [x], rest, d);
    }
  }

  /** A well-formed token and its opposite, both present, cancel out of the sum. */
  lemma OppositesCancel(c: Db.Collection, t: string, d: nat)
    requires IsWellFormed(t) && GetPositiveForm(t) in c && Db.CollectionHasDim(c, d)
    ensures |GetOppositeForm(t)| > 0
    ensures Resolvable(c, [t, GetOppositeForm(t)])
    ensures GuessedVectorSum(c, [t, GetOppositeForm(t)], d) == Zero(d)
  {
    var o := GetOppositeForm(t);
    OppositeSharesPositiveForm(t);
    var e := c[GetPositiveForm(t)];
    NegProperties(e);
    AddZero(Zero(d));
    var st, so := SignedEmbedding(c, t), SignedEmbedding(c, o);
    assert [t, o][1..] == [o];
    assert SignedEmbeddings(c, [t, o]) == [st, so];
    assert Sum([so], d) == Add(so, Zero(d));
    assert Add(so, Zero(d)) == so by {
      AddZero(so);
      AddCommutes(so, Zero(d));
    }
    if IsNegativeWord(t) {
      assert st == Neg(e) && so == e;
      NegProperties(Neg(e));
      AddCommutes(Neg(e), e);
    } else {
      assert st == e && so == Neg(e);
    }
  }

  /** get_guessed_vector_sum: fetches the embedding of every word's positive form, negates those of
      the negative words in place, and sums them. An empty word raises IndexError while the positive
      forms are computed; a positive form missing from the store raises KeyError. */
  method GetGuessedVectorSum(state: WordMaze.WordMazeState, db: Db.WordDB) returns (r: Result<Vector>)
    requires db.Valid()
    ensures r.Ok? <==> Resolvable(db.collection, state.words)
    ensures r.Err? ==> r.error == (if "" in state.words then IndexError else KeyError)
    ensures r.Ok? ==> r.value == GuessedVectorSum(db.collection, state.words, db.dim)
  {
    var words := state.words;
    if "" in words {
      return Err(IndexError);
    }
    var positives := seq(|words|, i requires 0 <= i < |words| => GetPositiveForm(words[i]));
    var fetched := db.GetEmbeddings(positives);
    if fetched.Err? {
      return Err(fetched.error);
    }
    var embeds := fetched.value;
    assert forall i :: 0 <= i < |words| ==> words[i] != "" && positives[i] in db.collection;
    ghost var signed := SignedEmbeddings(db.collection, words);
    for idx := 0 to |words|
      invariant |embeds| == |words|
      invariant forall k :: 0 <= k < idx ==> embeds[k] == signed[k]
      invariant forall k :: idx <= k < |words| ==> embeds[k] == db.collection[positives[k]]
    {
      var word := words[idx];
      if IsNegativeWord(word) {
        embeds := embeds[idx := Neg(embeds[idx])];
      }
    }
    assert embeds == signed;
    SignedEmbeddingsDim(db.collection, words, db.dim);
    r := Ok(Sum(embeds, db.dim));
  }
}
