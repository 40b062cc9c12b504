# WordMaze in Dafny

WordMaze is a word-embedding game. The player starts from a start word, for example `dog`. They add or subtract other words, such as `huge` or `-cat`, trying to steer the sum of the embeddings as close as possible to a goal word, for example `whale`. This project models the game's sequential logic and proves properties of it:

- **Signed tokens** (`WordUtils`). A token is a word, optionally prefixed with the negation marker `-`. The module models the negation test, the positive and opposite forms, input cleaning (lower-case, drop one leading `+`), and the signed sum of the guessed words' embeddings.
- **Session state** (`WordMaze.WordMazeState`). This is a class with the `start` and `goal` words and the ordered `words` list, whose first entry is the start word. Its methods append, remove the first occurrence, pop, and reset the list in place.
- **Guess acceptance** (`Page`). The submit handler is a first-match-wins cascade over the cleaned token. The module also models the start and goal setters, and the goal's rank among the neighbours of the combined guess with its ordinal suffix.
- **Embedding store** (`Db`). The embedding file is a sequence of lines, each a word and its vector. The Chroma collection is a finite map from id to vector. The module models:
  - reading the file in fixed-size batches;
  - the ideal size, two ids per alphanumeric word among the first `BATCH_SIZE * LOAD_N_BATCHES` lines;
  - per-line extraction of a word and its negation;
  - filling the collection batch by batch;
  - the start-up check that rebuilds the collection when its size is not the ideal size;
  - order-preserving embedding lookup.

Helper modules:
- `Errors` holds the Python exceptions that matter: `IndexError`, `KeyError`, `ValueError`.
- `Consts` holds the negation marker.
- `Ascii` holds `str.lower` and `str.isalnum`, restricted to ASCII.
- `Vectors` holds exact vector negation, addition and summation over `seq<real>`.
- `Lists` holds `list.index` and `list.remove`.

Main results:
- "Opposite" is an involution exactly on well-formed tokens, i.e. not `-` and not starting with `--`.
- `clean_input` is idempotent exactly when the input does not start with `++`.
- The guessed vector sum does not depend on the order of the words, and a token and its opposite cancel.
- Every submission keeps the session invariant: start first, no duplicates, the goal never among the guesses.
- Submitting a fresh token and then its opposite restores the word list.
- The store built from a file is closed under negation. With distinct words it has exactly the ideal size, so a second start-up check never rebuilds.
- The batches concatenate back to the file.

## Model

| member | source | states |
|---|---|---|
| `WordMaze.WordMazeState.constructor` | source/word_maze_state.py:3-6 | a fresh session has start `dog`, goal `whale`, words `[dog, -cat, huge, dolphin]`, start first and no duplicates |
| `WordMaze.WordMazeState.AddWord` | source/word_maze_state.py:8-9 | the word is appended at the end (old list is a prefix); start and goal unchanged; start stays first |
| `WordMaze.WordMazeState.Clear` | source/word_maze_state.py:11-12 | the list becomes exactly `[start]`; start and goal unchanged |
| `WordMaze.WordMazeState.Undo` | source/word_maze_state.py:14-18 | a list of length 1 is left alone; a longer one loses only its last element; popping an empty list is the only error; the start stays first |
| `WordMaze.WordMazeState.SetStart` | source/word_maze_state.py:20-22 | start becomes the argument and the list is reset to it; goal unchanged |
| `WordMaze.WordMazeState.SetGoal` | source/word_maze_state.py:24-26 | goal becomes the argument and the list is reset to `[start]`; start unchanged |
| `WordMaze.WordMazeState.Remove` | source/word_maze_state.py:28-29 | fails (ValueError) exactly when the word is absent; otherwise deletes its first occurrence and the list shrinks by one; removing a word other than the start keeps the start first |
| `WordMaze.WordMazeState.GetGuessedWords` | source/word_maze_state.py:31-32 | the result is the list without its first slot: `[words[0]] + result == words` |
| `WordMaze.RemovingStartBreaksInvariant` | source/word_maze_state.py:28-29 | removing the start from a list that holds it once leaves a list whose first entry is no longer the start |
| `Lists.FirstIndex` | page.py:136 | `list.index`: the first position holding the element, or the length exactly when it is absent |
| `Lists.RemoveFirst` | source/word_maze_state.py:28-29 | `list.remove`: when present, one occurrence fewer (multiset difference) and length minus one; otherwise unchanged |
| `Lists.RemoveFirstKeepsOrder` | source/word_maze_state.py:28-29 | the result is the prefix before the first occurrence followed by the suffix after it |
| `Lists.RemoveFirstKeepsHead` | source/word_maze_state.py:28-29 | removing anything but the head keeps the head first, and every later survivor comes from the old tail |
| `Lists.RemoveFirstKeepsDistinct` | source/word_maze_state.py:28-29 | removing from a duplicate-free list keeps it duplicate-free |
| `Lists.AppendKeepsDistinct` | source/word_maze_state.py:8-9 | appending an absent element keeps a list duplicate-free |
| `Lists.PermutationWithoutHead` | word_utils.py:28-37 | removing matching elements from two permutations of each other leaves permutations |
| `Ascii.LowerChar` | word_utils.py:23 | upper-case ASCII letters map to their lower case; every other character is kept |
| `Ascii.Lower` | word_utils.py:23 | `str.lower` keeps the length and lowers each character |
| `Ascii.LowerIsLowered` | word_utils.py:23 | lowering yields a lower-case string, and a string is lower-case exactly when lowering leaves it unchanged |
| `WordUtils.IsNegativeWord` | word_utils.py:8-9 | a (non-empty) token is negative exactly when the negation marker is its first character |
| `WordUtils.GetPositiveForm` | word_utils.py:12-15 | strips exactly one leading marker from a negative word; a non-negative word is returned unchanged |
| `WordUtils.GetOppositeForm` | word_utils.py:17-20 | a negative word loses its marker; a non-negative word gains one and becomes negative |
| `WordUtils.OppositeInvolution` | word_utils.py:17-20 | taking the opposite twice gives the token back exactly when it is well-formed |
| `WordUtils.DoubleMarkerCollapses` | word_utils.py:17-20 | for `--w` the double opposite is `w`, not `--w` |
| `WordUtils.OppositeSharesPositiveForm` | word_utils.py:12-20 | a well-formed token and its opposite share their positive form and have opposite signs |
| `WordUtils.CleanInput` | word_utils.py:22-26 | the result is lower-case; it is the lowered input with one leading `+` removed, or the lowered input when there is none |
| `WordUtils.CleanInputIdempotentIff` | word_utils.py:22-26 | cleaning twice equals cleaning once exactly when the input does not start with `++` |
| `WordUtils.CleanInputKeepsTokens` | word_utils.py:22-26 | a lower-case token that does not start with `+` is unchanged by cleaning |
| `WordUtils.SignedEmbedding` | word_utils.py:29-33 | a word's contribution is its positive form's stored vector, negated exactly when the word is negative |
| `WordUtils.SignedEmbeddings` | word_utils.py:29-33 | one contribution per word, in order: entry i is the stored vector of word i's positive form, negated exactly when word i is negative |
| `WordUtils.GuessedVectorSum` | word_utils.py:35 | the sum of the contributions has the store's dimension |
| `WordUtils.SignedEmbeddingsDim` | word_utils.py:29-33 | every contribution has the store's dimension |
| `WordUtils.GuessedVectorSumAppend` | word_utils.py:28-37 | the sum over a concatenation is the sum of the two sums |
| `WordUtils.MoveToFront` | word_utils.py:28-37 | moving one word to the front does not change the sum |
| `WordUtils.GuessedVectorSumPermutation` | word_utils.py:28-37 | any permutation of the words gives the same sum |
| `WordUtils.OppositesCancel` | word_utils.py:28-37 | a well-formed token and its opposite sum to the zero vector |
| `WordUtils.GetGuessedVectorSum` | word_utils.py:28-37 | succeeds exactly when every word's positive form is stored; then returns the signed sum; otherwise fails with IndexError for an empty word, KeyError for a missing one |
| `Vectors.Zero` | word_utils.py:35 | the zero vector of a dimension |
| `Vectors.Neg` | db.py:97 | component-wise negation |
| `Vectors.Add` | word_utils.py:35 | component-wise addition |
| `Vectors.Sum` | word_utils.py:35 | `np.sum(axis=0)` over vectors of one dimension has that dimension |
| `Vectors.NegProperties` | db.py:97 | negation is an involution and a vector plus its negation is zero |
| `Vectors.AddCommutes` | word_utils.py:35 | addition is commutative |
| `Vectors.AddAssociates` | word_utils.py:35 | addition is associative |
| `Vectors.AddZero` | word_utils.py:35 | zero is the identity of addition |
| `Vectors.SumAppend` | word_utils.py:35 | the sum of a concatenation is the sum of the two sums |
| `Db.FlattenConcat` | db.py:79-89 | concatenating batch lists concatenates their lines |
| `Db.FlattenBound` | db.py:79-89 | batches of at most n lines hold at most n times their number of lines |
| `Db.FullBatches` | db.py:79-89 | the first k full batches hold exactly n*k lines |
| `Db.FirstBatches` | db.py:101-116 | the first k batches are the first n*k lines of the file (all of it when k is the number of batches) |
| `Db.BatchInLines` | db.py:79-89 | batch k sits in the file between the earlier and the later batches |
| `Db.CountAlnum` | db.py:52-59 | the number of lines with an alphanumeric word is at most the number of lines |
| `Db.IdealSize` | db.py:52-59 | fails (IndexError) exactly when the file is shorter than the limit; otherwise an even number at most twice the limit |
| `Db.ExtractWordEmbeddings` | db.py:91-99 | `([w, -w], [v, -v])` for an alphanumeric word, `([], [])` otherwise; the second vector is the exact additive inverse of the first |
| `Db.ExtractAll` | db.py:101-111 | the ids and vectors extracted from a run of lines number twice its alphanumeric lines |
| `Db.ExtractAllConcat` | db.py:101-111 | extraction distributes over concatenation of lines |
| `Db.ExtractAllDim` | db.py:101-111 | extracted vectors keep the file's dimension |
| `Db.IdOrigin` | db.py:91-99 | every extracted id is an alphanumeric word of some line, or that word negated |
| `Db.AddAll` | db.py:113-116 | `collection.add`: the keys become the old keys plus the inserted ids; stored vectors are kept; a new id gets the vector at its first position in the call |
| `Db.AddAllConcat` | db.py:113-116 | two insertions in a row equal one insertion of the concatenation |
| `Db.AddAllFresh` | db.py:113-116 | inserting distinct absent ids grows the collection by their number |
| `Db.AddAllDim` | db.py:113-116 | inserting vectors of the collection's dimension keeps it |
| `Db.ExtractAllDistinct` | db.py:91-111 | distinct file words give distinct ids |
| `Db.BuiltSize` | db.py:52-59 | with distinct words, filling an empty collection from the lines inserts exactly the ideal size of ids |
| `Db.AddLineKeepsNegationClosed` | db.py:91-116 | inserting one line's ids keeps the collection closed under negation |
| `Db.BuiltNegationClosed` | db.py:91-116 | every filled collection pairs each word with its negation and the negated vector |
| `Db.Reconcile` | db.py:33-45 | fails exactly when the file is too short; a kept collection is the old one; a rebuilt one is negation-closed |
| `Db.ReconcileReachesIdealSize` | db.py:33-59 | with distinct words, after the start-up check the collection has the ideal size |
| `Db.ReconcileIdempotent` | db.py:33-45 | with distinct words, a second start-up check keeps the collection without rebuilding |
| `Db.Fetch` | db.py:66-69 | `collection.get(ids)` returns exactly the requested ids that are stored, each with its stored vector |
| `Db.BatchStep` | db.py:107-116 | inserting batch b after the earlier batches equals inserting the first b+1 batches at once, and keeps the dimension |
| `Db.WordDB.constructor` | db.py:18-26 | the store opens the given file and the persisted collection, all of one dimension |
| `Db.WordDB.SetupDb` | db.py:33-45 | the store ends as the start-up check prescribes: the old collection when its size is ideal, otherwise the rebuilt one; the error when the file is too short |
| `Db.WordDB.IsValidWord` | db.py:47-50 | true exactly when the word is a key of the collection |
| `Db.WordDB.ReadIdealSize` | db.py:52-59 | the counting loop computes the ideal size, including the failure on a short file |
| `Db.WordDB.GetSize` | db.py:61-62 | the number of keys in the collection |
| `Db.WordDB.GetEmbeddings` | db.py:64-77 | succeeds exactly when every word is stored; then the result has the same length and order, element i being the stored vector of word i; otherwise KeyError |
| `Db.WordDB.ReadLinesInBatches` | db.py:79-89 | the batches concatenate to the file; all but the last are full; none is empty or over-full |
| `Db.WordDB.FillDb` | db.py:101-116 | fails exactly when the file is shorter than the limit; otherwise the collection gains the ids of the first `LOAD_N_BATCHES` batches, inserted in file order |
| `Page.Cascade` | page.py:89-100 | each verdict holds only under its branch's condition and after every earlier branch failed: not valid, already added, cancel the opposite (not the start), cannot remove the start, cannot touch the goal, append |
| `Page.DecideAsWritten` | page.py:82-100 | as written: the input is ignored exactly when empty, and raises IndexError exactly when it is non-empty but cleans to the empty string |
| `Page.Decide` | page.py:82-100 | never raises; the input is ignored exactly when it is empty |
| `Page.Apply` | page.py:93-100 | only a cancellation or an append changes the list; an append adds the token at the end; a cancellation of a present word removes one occurrence of it |
| `Page.Step` | page.py:82-100 | an empty input leaves the list unchanged; the length changes by at most one; a longer list is the old one with the cleaned input appended |
| `Page.InitialSessionInvariant` | source/word_maze_state.py:3-6 | the fresh session satisfies the session invariant |
| `Page.StepPreservesSessionInvariant` | page.py:82-100 | every submission keeps the start first, the list duplicate-free, and the goal and its opposite out of the guesses |
| `Page.CancelRemovesOpposite` | page.py:93-94 | a cancellation removes the opposite completely: one entry fewer, multiset minus the opposite, start still first |
| `Page.SubmitThenOppositeRestores` | page.py:93-100 | a fresh stored token is appended, and submitting its opposite next restores the word list |
| `Page.PlusInputRaises` | page.py:86-87 | as written, the input `+` raises IndexError |
| `Page.DecideDiffersOnlyOnBareSign` | page.py:82-100 | the corrected handler differs from the source only on the input `+` |
| `Page.HandleInput` | page.py:82-100 | the verdict is the cascade's against the store's ids; only a cancellation or an append changes the list; start and goal unchanged; the session invariant is kept |
| `Page.SetStartFromText` | page.py:40-46 | the start changes, and the list resets to it, exactly when the lowered text is non-empty and stored; otherwise nothing changes |
| `Page.SetGoalFromText` | page.py:63-70 | the goal changes, and the list resets to `[start]`, exactly when the lowered text is non-empty and stored; otherwise nothing changes |
| `Page.GoalRank` | page.py:136-148 | the first 0-based position of the goal among the neighbours, or the store size when it is absent |
| `Page.RankSuffixAsWritten` | page.py:137-138 | the source's suffix is `th` exactly when the 0-based rank's last digit is 3 or more; otherwise it is the ordinal suffix of that digit plus one |
| `Page.RankLabel` | page.py:137-141 | the displayed position is rank + 1; its suffix agrees with the source's unless the position ends in 11, 12 or 13, where it is `th` |
| `Page.RankSuffixAsWrittenWrongOnTeens` | page.py:137-141 | the source's suffix is the English one exactly when the displayed number does not end in 11, 12 or 13 |
| `Page.FirstRankLabels` | page.py:137-141 | ranks 0 to 3 read 1st, 2nd, 3rd, 4th, both in the source and corrected; rank 10 reads `11st` in the source and `11th` when corrected |

## Left out

- Streamlit rendering: columns, markdown, forms, `st.error`, `st.rerun`, the neighbour listing and the reset button. A rejection is modelled only as a verdict that leaves the state unchanged.
- `_plot_embeddings` (PCA and scaling), `_query_top_hints`, `_build_info_container`, and the progress formula `1 - (rank/size)**(1/3)`. These are floating-point presentation.
- Chroma internals: persistence, the HNSW nearest-neighbour `query`, and the cosine-space metadata that the rebuilt collection no longer carries (db.py:43). `Page.GoalRank` takes the neighbour list as a parameter.
- Floating point: vectors are exact `seq<real>`, and the parsing of the vector text is not modelled. Each file line is already a word and its vector.
- File I/O, logging and `_get_line_count`. `main.py` and `source/main.py` (download, caching, sqlite override) are not part of this model.
- Blank or empty file lines, where `split()[0]` raises IndexError. A line always has a word.
- Python's Unicode `str.lower` and `str.isalnum` are restricted to ASCII.
- The generator in `_read_lines_in_batches` is not lazy here: all batches are built, and `FillDb` uses the first `LOAD_N_BATCHES`.
- Db.AddAll: Chroma's handling of duplicate ids in `add` is modelled as "the first vector stored for an id wins". That is why the exact-size results (`Db.BuiltSize`, `Db.ReconcileReachesIdealSize`, `Db.ReconcileIdempotent`) require distinct words.
- Db.WordDB.constructor: it does not run the start-up check itself; `Db.WordDB.SetupDb` is called separately.
- Db.WordDB.SetupDb: requires every vector of the file and of the collection to share one dimension. Vectors of mixed dimension are out of scope.
- Db.WordDB.FillDb: the `inserted_words` counter, which the source never updates, is left out. Its only use is a log message.
- WordUtils.GetGuessedVectorSum: `np.sum` over an empty list gives the scalar 0.0, not a vector. The model returns the zero vector, which can only arise for an empty word list, and every session list holds at least the start word.
- Page.HandleInput: models the corrected handler, which rejects the input `+` as not valid. The source raises (see Findings and `Page.DecideAsWritten`).

## Findings

| source | as written | input that shows it | evidently intended | confidence | as-written member | corrected member |
|---|---|---|---|---|---|---|
| page.py:86-87 | a non-empty input that cleans to the empty string reaches `get_positive_form("")`, which indexes `word[0]` | the input `+` raises IndexError | reject the input as not a valid word | not executed | `Page.PlusInputRaises` | `Page.Decide` |
| page.py:137-141 | the suffix comes from the last digit of the 0-based rank, displayed as rank + 1, with no teen exception | rank 10 is shown as `11st`, 11 as `12nd`, 12 as `13rd` | English ordinals: `11th`, `12th`, `13th` | not executed | `Page.RankSuffixAsWrittenWrongOnTeens` | `Page.RankLabel` |
