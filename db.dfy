/** The embedding store (db.py): a Chroma collection mapping word ids to vectors, built from the
    first BatchSize * LoadNBatches lines of a pretrained embedding file and rebuilt from scratch
    whenever its size disagrees with the size that prefix calls for. */
module Db {
  import opened Errors
  import opened Consts
  import opened Ascii
  import opened Vectors
  import opened Lists

  /** WordDB.BATCH_SIZE: lines per batch read from the file and per insertion call. */
  const BatchSize: nat := 8192
  /** WordDB.LOAD_N_BATCHES: how many batches are ever loaded. */
  const LoadNBatches: nat := 2

  /** One line of the embedding file: its first whitespace-separated token and the numbers after it. */
  datatype Line = Line(word: string, vector: Vector)

  /** The Chroma collection: each id with its stored embedding. */
  type Collection = map<string, Vector>

  predicate FileHasDim(lines: seq<Line>, d: nat) {
    forall i :: 0 <= i < |lines| ==> |lines[i].vector| == d
  }

  predicate CollectionHasDim(c: Collection, d: nat) {
    forall k :: k in c ==> |c[k]| == d
  }

  // ----- _read_lines_in_batches -----

  /** The lines of a list of batches, batch after batch. */
  function Flatten(bs: seq<seq<Line>>): seq<Line>
  {
    if bs == [] then [] else Flatten(bs[..|bs| - 1]) + bs[|bs| - 1]
  }

  /** bs cuts lines, in order, into batches of n lines; only the last batch may be shorter, and none is empty. */
  predicate IsBatching(bs: seq<seq<Line>>, lines: seq<Line>, n: nat) {
    && Flatten(bs) == lines
    && (forall k :: 0 <= k < |bs| ==> 0 < |bs[k]| <= n)
    && (forall k :: 0 <= k < |bs| - 1 ==> |bs[k]| == n)
  }

  lemma {:induction false} FlattenConcat(a: seq<seq<Line>>, b: seq<seq<Line>>)
    ensures Flatten(a + b) == Flatten(a) + Flatten(b)
    decreases |b|
  {
    if b == [] {
      assert a + b == a;
    } else {
      var b' := b[..|b| - 1];
      assert (a + b)[..|a + b| - 1] == a + b';
      FlattenConcat(a, b');
    }
  }

  lemma {:induction false} FlattenBound(bs: seq<seq<Line>>, n: nat)
    requires forall k :: 0 <= k < |bs| ==> |bs[k]| <= n
    ensures |Flatten(bs)| <= n * |bs|
  {
    if bs != [] {
      var bs' := bs[..|bs| - 1];
      FlattenBound(bs', n);
      assert n * |bs| == n * |bs'| + n;
    }
  }

  /** k full batches hold n * k lines. */
  lemma {:induction false} FullBatches(bs: seq<seq<Line>>, n: nat, k: nat)
    requires k <= |bs| && forall j :: 0 <= j < k ==> |bs[j]| == n
    ensures |Flatten(bs[..k])| == n * k
  {
    if k > 0 {
      FullBatches(bs, n, k - 1);
      assert bs[..k][..k - 1] == bs[..k - 1];
      assert n * k == n * (k - 1) + n;
    }
  }

  /** The first k batches of a batching are a prefix of the lines: the first n * k of them, or all
      of them once the short last batch is among the k. */
  lemma FirstBatches(bs: seq<seq<Line>>, lines: seq<Line>, n: nat, k: nat)
    requires IsBatching(bs, lines, n) && k <= |bs|
    ensures lines == Flatten(bs[..k]) + Flatten(bs[k..])
    ensures k < |bs| ==> |Flatten(bs[..k])| == n * k
    ensures k == |bs| ==> Flatten(bs[..k]) == lines
  {
    assert bs == bs[..k] + bs[k..];
    FlattenConcat(bs[..k], bs[k..]);
    if k < |bs| {
      FullBatches(bs, n, k);
    } else {
      assert bs[..k] == bs;
    }
  }

  /** Batch k of a batching sits in the lines right after the batches before it. */
  lemma BatchInLines(bs: seq<seq<Line>>, lines: seq<Line>, n: nat, k: nat)
    requires IsBatching(bs, lines, n) && k < |bs|
    ensures Flatten(bs[..k + 1]) == Flatten(bs[..k]) + bs[k]
    ensures lines == Flatten(bs[..k]) + bs[k] + Flatten(bs[k + 1..])
  {
    assert bs[..k + 1][..k] == bs[..k];
    FirstBatches(bs, lines, n, k + 1);
  }

  // ----- _read_ideal_size -----

  /** How many lines have an alphanumeric first token. */
  function CountAlnum(lines: seq<Line>): (c: nat)
    ensures c <= |lines|
  {
    if lines == [] then 0
    else CountAlnum(lines[..|lines| - 1]) + (if IsAlnum(lines[|lines| - 1].word) then 1 else 0)
  }

  /** The size the store should have: two ids per alphanumeric word among the first `limit` lines.
      Reading past the end of the file raises IndexError. */
  function IdealSize(lines: seq<Line>, limit: nat): (r: Result<nat>)
    ensures r.Ok? <==> |lines| >= limit
    ensures r.Err? ==> r.error == IndexError
    ensures r.Ok? ==> r.value % 2 == 0 && r.value <= 2 * limit
  {
    if |lines| < limit then Err(IndexError) else Ok(2 * CountAlnum(lines[..limit]))
  }

  // ----- _extract_word_embeddings -----

  /** The ids and vectors one line contributes: the word and its negation, with the vector and its
      negation, when the word is alphanumeric; nothing otherwise. */
  function ExtractWordEmbeddings(line: Line): (r: (seq<string>, seq<Vector>))
    ensures |r.0| == |r.1| == (if IsAlnum(line.word) then 2 else 0)
    ensures |r.0| == 2 ==> r.0[0] == line.word && r.0[1] == [NegatingPrefix] + r.0[0]
    ensures |r.0| == 2 ==> r.1[0] == line.vector && |r.1[1]| == |r.1[0]|
    ensures |r.0| == 2 ==> Add(r.1[0], r.1[1]) == Zero(|line.vector|)
  {
    if IsAlnum(line.word) then
      NegProperties(line.vector);
      ([line.word, [NegatingPrefix] + line.word], [line.vector, Neg(line.vector)])
    else ([], [])
  }

  /** The ids and vectors of a run of lines, line after line. */
  function ExtractAll(lines: seq<Line>): (r: (seq<string>, seq<Vector>))
    ensures |r.0| == |r.1| == 2 * CountAlnum(lines)
  {
    if lines == [] then ([], [])
    else
      var init := ExtractAll(lines[..|lines| - 1]);
      var last := ExtractWordEmbeddings(lines[|lines| - 1]);
      (init.0 + last.0, init.1 + last.1)
  }

  lemma {:induction false} ExtractAllConcat(a: seq<Line>, b: seq<Line>)
    ensures ExtractAll(a + b).0 == ExtractAll(a).0 + ExtractAll(b).0
    ensures ExtractAll(a + b).1 == ExtractAll(a).1 + ExtractAll(b).1
    decreases |b|
  {
    if b == [] {
      assert a + b == a;
    } else {
      var b' := b[..|b| - 1];
      assert (a + b)[..|a + b| - 1] == a + b';
      ExtractAllConcat(a, b');
    }
  }

  lemma {:induction false} ExtractAllDim(lines: seq<Line>, d: nat)
    requires FileHasDim(lines, d)
    ensures AllOfDim(ExtractAll(lines).1, d)
  {
    if lines != [] {
      ExtractAllDim(lines[..|lines| - 1], d);
    }
  }

  /** Every id extracted from a run of lines is the alphanumeric word of one of its lines, or that word negated. */
  lemma {:induction false} IdOrigin(lines: seq<Line>, id: string)
    requires id in ExtractAll(lines).0
    ensures exists i :: (0 <= i < |lines| && IsAlnum(lines[i].word)
      && (id == lines[i].word || id == [NegatingPrefix] + lines[i].word))
  {
    var init := lines[..|lines| - 1];
    if id in ExtractAll(init).0 {
      IdOrigin(init, id);
      var i :| 0 <= i < |init| && IsAlnum(init[i].word)
        && (id == init[i].word || id == [NegatingPrefix] + init[i].word);
      assert lines[i] == init[i];
    }
  }

  // ----- collection.add -----

  /** collection.add(ids, vectors): inserts each id with its vector, in order; an id already present
      keeps its stored vector. */
  function AddAll(c: Collection, ids: seq<string>, vecs: seq<Vector>): (r: Collection)
    requires |ids| == |vecs|
    ensures r.Keys == c.Keys + set i | 0 <= i < |ids| :: ids[i]
    ensures forall k :: k in c ==> r[k] == c[k]
    ensures forall k :: k in r && k !in c ==> FirstIndex(ids, k) < |ids| && r[k] == vecs[FirstIndex(ids, k)]
    decreases |ids|
  {
    if ids == [] then c
    else
      var c' := if ids[0] in c then c else c[ids[0] := vecs[0]];
      assert (set i | 0 <= i < |ids| :: ids[i]) == {ids[0]} + set i | 0 <= i < |ids[1..]| :: ids[1..][i];
      AddAll(c', ids[1..], vecs[1..])
  }

  /** Two insertion calls have the effect of one call with both lists. */
  lemma {:induction false} AddAllConcat(c: Collection, a: seq<string>, va: seq<Vector>, b: seq<string>, vb: seq<Vector>)
    requires |a| == |va| && |b| == |vb|
    ensures AddAll(AddAll(c, a, va), b, vb) == AddAll(c, a + b, va + vb)
    decreases |a|
  {
    if a != [] {
      assert (a + b)[1..] == a[1..] + b;
      assert (va + vb)[1..] == va[1..] + vb;
      AddAllConcat(if a[0] in c then c else c[a[0] := va[0]], a[1..], va[1..], b, vb);
    } else {
      assert a + b == b && va + vb == vb;
    }
  }

  /** Inserting distinct new ids grows the collection by exactly their number. */
  lemma {:induction false} AddAllFresh(c: Collection, ids: seq<string>, vecs: seq<Vector>)
    requires |ids| == |vecs| && Distinct(ids)
    requires forall i :: 0 <= i < |ids| ==> ids[i] !in c
    ensures |AddAll(c, ids, vecs)| == |c| + |ids|
    decreases |ids|
  {
    if ids != [] {
      var c' := c[ids[0] := vecs[0]];
      assert |c'| == |c| + 1;
      forall i | 0 <= i < |ids[1..]| ensures ids[1..][i] !in c' {
        assert ids[1..][i] == ids[i + 1] && ids[i + 1] != ids[0];
      }
      AddAllFresh(c', ids[1..], vecs[1..]);
    }
  }

  lemma {:induction false} AddAllDim(c: Collection, ids: seq<string>, vecs: seq<Vector>, d: nat)
    requires |ids| == |vecs| && CollectionHasDim(c, d) && AllOfDim(vecs, d)
    ensures CollectionHasDim(AddAll(c, ids, vecs), d)
    decreases |ids|
  {
    if ids != [] {
      AddAllDim(if ids[0] in c then c else c[ids[0] := vecs[0]], ids[1..], vecs[1..], d);
    }
  }

  // ----- the rebuilt store -----

  /** The collection _fill_db builds into an empty collection from the given lines. */
  function Built(lines: seq<Line>): Collection
  {
    AddAll(map[], ExtractAll(lines).0, ExtractAll(lines).1)
  }

  /** No alphanumeric word occurs on two lines. */
  predicate DistinctWords(lines: seq<Line>) {
    forall i, j :: 0 <= i < j < |lines| && IsAlnum(lines[i].word) && IsAlnum(lines[j].word)
      ==> lines[i].word != lines[j].word
  }

  /** With distinct words, no id is extracted twice. */
  lemma {:induction false} ExtractAllDistinct(lines: seq<Line>)
    requires DistinctWords(lines)
    ensures Distinct(ExtractAll(lines).0)
  {
    if lines != [] {
      var init := lines[..|lines| - 1];
      var last := lines[|lines| - 1];
      assert DistinctWords(init) by {
        forall i, j | 0 <= i < j < |init| ensures init[i] == lines[i] && init[j] == lines[j] { }
      }
      ExtractAllDistinct(init);
      var a := ExtractAll(init).0;
      var e := ExtractWordEmbeddings(last).0;
      if IsAlnum(last.word) {
        var w := last.word;
        assert w[0] != NegatingPrefix;
        forall x | x in a ensures x != w && x != [NegatingPrefix] + w {
          IdOrigin(init, x);
          var i :| 0 <= i < |init| && IsAlnum(init[i].word)
            && (x == init[i].word || x == [NegatingPrefix] + init[i].word);
          var u := init[i].word;
          assert lines[i] == init[i] && i < |lines| - 1;
          assert u != w;
          assert u[0] != NegatingPrefix;
          if x == u {
            assert x[0] != NegatingPrefix;
          } else {
            assert x[0] == NegatingPrefix && x[1..] == u;
            assert ([NegatingPrefix] + w)[1..] == w;
          }
        }
        assert e == [w, [NegatingPrefix] + w];
        forall p, q | 0 <= p < q < |a + e| ensures (a + e)[p] != (a + e)[q] {
          if q >= |a| && p < |a| {
            assert (a + e)[p] in a;
          }
        }
      } else {
        assert e == [];
        assert a + e == a;
      }
    }
  }

  /** With distinct words, the rebuilt store holds exactly two ids per alphanumeric word. */
  lemma BuiltSize(lines: seq<Line>)
    requires DistinctWords(lines)
    ensures |Built(lines)| == 2 * CountAlnum(lines)
  {
    ExtractAllDistinct(lines);
    AddAllFresh(map[], ExtractAll(lines).0, ExtractAll(lines).1);
  }

  /** Every id is a plain alphanumeric word or such a word negated, the two come in pairs, and the
      negated id's vector is the exact additive inverse of the word's vector. */
  predicate NegationClosed(c: Collection) {
    forall k :: k in c ==>
      if |k| > 0 && k[0] == NegatingPrefix then
        IsAlnum(k[1..]) && k[1..] in c && c[k] == Neg(c[k[1..]])
      else
        IsAlnum(k) && [NegatingPrefix] + k in c && c[[NegatingPrefix] + k] == Neg(c[k])
  }

  /** Inserting one line's ids into a negation-closed collection keeps it negation-closed,
      whether or not the word was already present. */
  lemma AddLineKeepsNegationClosed(c: Collection, line: Line)
    requires NegationClosed(c)
    ensures var e := ExtractWordEmbeddings(line); NegationClosed(AddAll(c, e.0, e.1))
  {
    var e := ExtractWordEmbeddings(line);
    if IsAlnum(line.word) {
      var w := line.word;
      var nw := [NegatingPrefix] + w;
      assert w[0] != NegatingPrefix;
      assert nw[1..] == w;
      assert e.0[1..] == [nw] && e.1[1..] == [Neg(line.vector)];
      if w in c {
        assert AddAll(c, e.0, e.1) == AddAll(c, [nw], [Neg(line.vector)]);
        assert nw in c;
        assert [nw][1..] == [] && [Neg(line.vector)][1..] == [];
        assert AddAll(c, [nw], [Neg(line.vector)]) == AddAll(c, [], []);
        assert AddAll(c, e.0, e.1) == c;
      } else {
        assert nw !in c;
        var c1 := c[w := line.vector];
        var c2 := c1[nw := Neg(line.vector)];
        assert AddAll(c, e.0, e.1) == AddAll(c1, [nw], [Neg(line.vector)]);
        assert nw !in c1;
        assert [nw][1..] == [] && [Neg(line.vector)][1..] == [];
        assert AddAll(c1, [nw], [Neg(line.vector)]) == AddAll(c2, [], []);
        assert AddAll(c, e.0, e.1) == c2;
        forall k | k in c2
          ensures if |k| > 0 && k[0] == NegatingPrefix then
              IsAlnum(k[1..]) && k[1..] in c2 && c2[k] == Neg(c2[k[1..]])
            else
              IsAlnum(k) && [NegatingPrefix] + k in c2 && c2[[NegatingPrefix] + k] == Neg(c2[k])
        {
          if k == w {
          } else if k == nw {
          } else if |k| > 0 && k[0] == NegatingPrefix {
            assert k[1..] != w by { assert k == [NegatingPrefix] + k[1..]; }
          } else {
            assert [NegatingPrefix] + k != nw by { assert ([NegatingPrefix] + k)[1..] == k; }
          }
        }
      }
    } else {
      assert AddAll(c, e.0, e.1) == c;
    }
  }

  /** Whatever the file holds, the rebuilt store is negation-closed. */
  lemma {:induction false} BuiltNegationClosed(lines: seq<Line>)
    ensures NegationClosed(Built(lines))
  {
    if lines != [] {
      var init := lines[..|lines| - 1];
      var last := lines[|lines| - 1];
      BuiltNegationClosed(init);
      var e := ExtractWordEmbeddings(last);
      AddAllConcat(map[], ExtractAll(init).0, ExtractAll(init).1, e.0, e.1);
      AddLineKeepsNegationClosed(Built(init), last);
    }
  }

  // ----- _setup_db -----

  /** What the start-up check did: kept the collection or rebuilt it, and the collection after it. */
  datatype Reconciliation = Reconciliation(rebuilt: bool, collection: Collection)

  /** _setup_db on a collection c and a file: keep c when its size is the ideal size, otherwise
      replace it by the store built from the first batchSize * nBatches lines. */
  function Reconcile(c: Collection, lines: seq<Line>, batchSize: nat, nBatches: nat): (r: Result<Reconciliation>)
    ensures r.Ok? <==> |lines| >= batchSize * nBatches
    ensures r.Ok? && !r.value.rebuilt ==> r.value.collection == c
    ensures r.Ok? && r.value.rebuilt ==> NegationClosed(r.value.collection)
  {
    match IdealSize(lines, batchSize * nBatches)
    case Err(e) => Err(e)
    case Ok(ideal) =>
      if |c| == ideal then Ok(Reconciliation(false, c))
      else
        BuiltNegationClosed(lines[..batchSize * nBatches]);
        Ok(Reconciliation(true, Built(lines[..batchSize * nBatches])))
  }

  /** With distinct words, after a successful start-up check the collection has the ideal size. */
  lemma ReconcileReachesIdealSize(c: Collection, lines: seq<Line>, batchSize: nat, nBatches: nat)
    requires |lines| >= batchSize * nBatches
    requires DistinctWords(lines[..batchSize * nBatches])
    ensures Reconcile(c, lines, batchSize, nBatches).Ok?
    ensures |Reconcile(c, lines, batchSize, nBatches).value.collection|
      == IdealSize(lines, batchSize * nBatches).value
  {
    BuiltSize(lines[..batchSize * nBatches]);
  }

  /** With distinct words, running the start-up check again right after a successful one keeps the
      collection: at most the first run rebuilds. */
  lemma ReconcileIdempotent(c: Collection, lines: seq<Line>, batchSize: nat, nBatches: nat)
    requires |lines| >= batchSize * nBatches
    requires DistinctWords(lines[..batchSize * nBatches])
    ensures var c' := Reconcile(c, lines, batchSize, nBatches).value.collection;
      Reconcile(c', lines, batchSize, nBatches) == Ok(Reconciliation(false, c'))
  {
    ReconcileReachesIdealSize(c, lines, batchSize, nBatches);
  }

  // ----- collection.get -----

  /** collection.get(ids): the requested ids that are present, each with its stored vector. */
  function Fetch(c: Collection, ids: seq<string>): (r: seq<(string, Vector)>)
    ensures forall e :: e in r ==> e.0 in ids && e.0 in c && e.1 == c[e.0]
    ensures forall id :: id in ids && id in c ==> (id, c[id]) in r
  {
    if ids == [] then []
    else (if ids[0] in c then [(ids[0], c[ids[0]])] else []) + Fetch(c, ids[1..])
  }

  /** One insertion call per batch: adding the ids of batch b to what the earlier batches inserted
      is inserting the ids of the first b + 1 batches at once, and the vectors keep the file's dimension. */
  lemma BatchStep(c0: Collection, bs: seq<seq<Line>>, lines: seq<Line>, b: nat, d: nat)
    requires IsBatching(bs, lines, BatchSize) && b < |bs| && FileHasDim(lines, d)
    requires CollectionHasDim(AddAll(c0, ExtractAll(Flatten(bs[..b])).0, ExtractAll(Flatten(bs[..b])).1), d)
    ensures var before := ExtractAll(Flatten(bs[..b]));
      var batch := ExtractAll(bs[b]);
      var after := ExtractAll(Flatten(bs[..b + 1]));
      && AddAll(AddAll(c0, before.0, before.1), batch.0, batch.1) == AddAll(c0, after.0, after.1)
      && CollectionHasDim(AddAll(AddAll(c0, before.0, before.1), batch.0, batch.1), d)
  {
    var pre := Flatten(bs[..b]);
    BatchInLines(bs, lines, BatchSize, b);
    assert FileHasDim(bs[b], d) by {
      forall i | 0 <= i < |bs[b]| ensures |bs[b][i].vector| == d {
        assert bs[b][i] == (pre + bs[b] + Flatten(bs[b + 1..]))[|pre| + i];
      }
    }
    ExtractAllDim(bs[b], d);
    var before := ExtractAll(pre);
    var batch := ExtractAll(bs[b]);
    AddAllDim(AddAll(c0, before.0, before.1), batch.0, batch.1, d);
    AddAllConcat(c0, before.0, before.1, batch.0, batch.1);
    ExtractAllConcat(pre, bs[b]);
  }

  /** The store: the embedding file it loads from and the Chroma collection it serves. */
  class WordDB {
    /** The embedding file, line by line. */
    const file: seq<Line>
    /** The dimension shared by every vector of the file and of the collection. */
    const dim: nat
    var collection: Collection

    ghost predicate Valid()
      reads this
    {
      FileHasDim(file, dim) && CollectionHasDim(collection, dim)
    }

    /** Opens the persisted collection (get_or_create_collection); the start-up check is SetupDb. */
    constructor (file: seq<Line>, dim: nat, persisted: Collection)
      requires FileHasDim(file, dim) && CollectionHasDim(persisted, dim)
      ensures this.file == file && this.dim == dim && collection == persisted
      ensures Valid()
    {
      this.file := file;
      this.dim := dim;
      collection := persisted;
    }

    /** _setup_db: computes the ideal size; keeps the collection when its count matches, otherwise
        deletes it, creates an empty one and refills it. Ok(true) reports a rebuild. */
    method SetupDb() returns (r: Result<bool>)
      requires Valid()
      modifies this
      ensures Valid()
      ensures var spec := Reconcile(old(collection), file, BatchSize, LoadNBatches);
        && (r.Ok? <==> spec.Ok?)
        && (r.Ok? ==> r.value == spec.value.rebuilt && collection == spec.value.collection)
        && (r.Err? ==> r.error == spec.error && collection == old(collection))
    {
      var goalWordCount := ReadIdealSize();
      if goalWordCount.Err? {
        return Err(goalWordCount.error);
      }
      if |collection| == goalWordCount.value {
        return Ok(false);
      }
      collection := map[];
      var filled := FillDb();
      assert filled;
      r := Ok(true);
    }

    /** is_valid_word: the id is in the collection. */
    function IsValidWord(word: string): (r: bool)
      reads this
      ensures r <==> word in collection
    {
      var found := Fetch(collection, [word]);
      assert found != [] ==> found[0] in found;
      found != []
    }

    /** _read_ideal_size: reads the first BatchSize * LoadNBatches lines and counts two per
        alphanumeric first token; a file with fewer lines raises IndexError. */
    method ReadIdealSize() returns (r: Result<nat>)
      ensures r == IdealSize(file, BatchSize * LoadNBatches)
    {
      var idealSize := 0;
      var i := 0;
      while i < BatchSize * LoadNBatches
        invariant i <= BatchSize * LoadNBatches && i <= |file|
        invariant idealSize == 2 * CountAlnum(file[..i])
      {
        if i >= |file| {
          return Err(IndexError);
        }
        assert file[..i + 1][..i] == file[..i];
        if IsAlnum(file[i].word) {
          idealSize := idealSize + 2;
        }
        i := i + 1;
      }
      r := Ok(idealSize);
    }

    /** get_size: the collection's count. */
    function GetSize(): (r: nat)
      reads this
      ensures r == |collection.Keys|
    {
      |collection|
    }

    /** get_embeddings: the stored vector of every requested word, in the caller's order; a word
        missing from the collection raises KeyError. */
    method GetEmbeddings(words: seq<string>) returns (r: Result<seq<Vector>>)
      ensures r.Ok? <==> forall i :: 0 <= i < |words| ==> words[i] in collection
      ensures r.Ok? ==> |r.value| == |words|
      ensures r.Ok? ==> forall i :: 0 <= i < |words| ==> r.value[i] == collection[words[i]]
      ensures r.Err? ==> r.error == KeyError
    {
      var res := Fetch(collection, words);
      var mapping: map<string, Vector> := map[];
      var idx := 0;
      while idx < |res|
        invariant 0 <= idx <= |res|
        invariant forall w :: w in mapping ==> w in collection && mapping[w] == collection[w]
        invariant forall j :: 0 <= j < idx ==> res[j].0 in mapping
      {
        var embed := res[idx].1;
        var word := res[idx].0;
        mapping := mapping[word := embed];
        idx := idx + 1;
      }
      forall i | 0 <= i < |words| && words[i] in collection ensures words[i] in mapping {
        assert (words[i], collection[words[i]]) in res;
      }
      if forall i :: 0 <= i < |words| ==> words[i] in mapping {
        r := Ok(seq(|words|, i requires 0 <= i < |words| => mapping[words[i]]));
      } else {
        r := Err(KeyError);
      }
    }

    /** _read_lines_in_batches: the lines of the file in batches of BatchSize, the last one possibly shorter. */
    method ReadLinesInBatches() returns (batches: seq<seq<Line>>)
      ensures IsBatching(batches, file, BatchSize)
    {
      batches := [];
      var batch: seq<Line> := [];
      var i := 0;
      while i < |file|
        invariant 0 <= i <= |file|
        invariant Flatten(batches) + batch == file[..i]
        invariant |batch| < BatchSize
        invariant forall k :: 0 <= k < |batches| ==> |batches[k]| == BatchSize
      {
        batch := batch + [file[i]];
        assert file[..i + 1] == file[..i] + [file[i]];
        i := i + 1;
        if |batch| == BatchSize {
          assert (batches + [batch])[..|batches|] == batches;
          batches := batches + [batch];
          batch := [];
        }
      }
      assert file[..i] == file;
      if batch != [] {
        assert (batches + [batch])[..|batches|] == batches;
        batches := batches + [batch];
      }
    }

    /** _fill_db: inserts the ids and vectors of the first LoadNBatches batches, one insertion call
        per batch. It first reads the ideal size, so a file shorter than BatchSize * LoadNBatches
        lines raises IndexError before anything is inserted. */
    method FillDb() returns (ok: bool)
      requires Valid()
      modifies this
      ensures Valid()
      ensures ok <==> |file| >= BatchSize * LoadNBatches
      ensures ok ==> collection == AddAll(old(collection),
        ExtractAll(file[..BatchSize * LoadNBatches]).0, ExtractAll(file[..BatchSize * LoadNBatches]).1)
      ensures !ok ==> collection == old(collection)
    {
      var totalWords := ReadIdealSize();
      if totalWords.Err? {
        return false;
      }
      var lineBatches := ReadLinesInBatches();
      var n := if LoadNBatches < |lineBatches| then LoadNBatches else |lineBatches|;
      var b := 0;
      while b < n
        invariant 0 <= b <= n
        invariant CollectionHasDim(collection, dim)
        invariant collection == AddAll(old(collection),
          ExtractAll(Flatten(lineBatches[..b])).0, ExtractAll(Flatten(lineBatches[..b])).1)
      {
        var lineBatch := lineBatches[b];
        var words: seq<string> := [];
        var embeddings: seq<Vector> := [];
        var j := 0;
        while j < |lineBatch|
          invariant 0 <= j <= |lineBatch|
          invariant words == ExtractAll(lineBatch[..j]).0 && embeddings == ExtractAll(lineBatch[..j]).1
        {
          var fromLine := ExtractWordEmbeddings(lineBatch[j]);
          assert lineBatch[..j + 1][..j] == lineBatch[..j];
          words := words + fromLine.0;
          embeddings := embeddings + fromLine.1;
          j := j + 1;
        }
        assert lineBatch[..j] == lineBatch;
        BatchStep(old(collection), lineBatches, file, b, dim);
        collection := AddAll(collection, words, embeddings);
        b := b + 1;
      }
      FirstBatches(lineBatches, file, BatchSize, n);
      if n == |lineBatches| {
        FlattenBound(lineBatches, BatchSize);
      }
      assert Flatten(lineBatches[..n]) == file[..BatchSize * LoadNBatches];
      ok := true;
    }
  }
}
