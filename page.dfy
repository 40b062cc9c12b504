/** The game logic of the page (page.py): accepting or rejecting a guessed token, changing the
    start and goal words, and reporting the goal's rank among the neighbours of the combined guess. */
module Page {
  import opened Errors
  import opened Ascii
  import opened Lists
  import opened WordUtils
  import WordMaze
  import Db

  /** What submitting a guess does. Every verdict but Cancel and Append leaves the session unchanged;
      the rejections carry the message category the page shows. */
  datatype Verdict =
    | EmptyInput                  // nothing typed: ignored
    | NotValid(token: string)     // "... is not a valid word"
    | AlreadyAdded(token: string) // "... is already added"
    | Cancel(opposite: string)    // the token's opposite is removed from the list
    | CannotRemoveStart           // "You cannot remove starting word ..."
    | CannotTouchGoal             // "You cannot add or remove the goal word ..."
    | Append(token: string)       // the token joins the end of the list
    | Raised(error: PyError)      // an uncaught exception (only in DecideAsWritten)

  /** The first-match-wins cascade applied to a cleaned, non-empty token t. `valid` is the set of ids
      in the store. */
  function Cascade(start: string, goal: string, words: seq<string>, valid: set<string>, t: string): (v: Verdict)
    requires |t| > 0
    ensures v.NotValid? ==> v.token == t && GetPositiveForm(t) !in valid
    ensures v.AlreadyAdded? ==> v.token == t && GetPositiveForm(t) in valid && t in words
    ensures v.Cancel? ==> (GetPositiveForm(t) in valid && t !in words
      && v.opposite == GetOppositeForm(t) && v.opposite in words && v.opposite != start)
    ensures v.CannotRemoveStart? ==> GetPositiveForm(t) in valid && t !in words && GetOppositeForm(t) == start
    ensures v.CannotTouchGoal? ==> (GetPositiveForm(t) in valid && t !in words
      && GetOppositeForm(t) !in words && GetOppositeForm(t) != start
      && (t == goal || GetOppositeForm(t) == goal))
    ensures v.Append? ==> (v.token == t && GetPositiveForm(t) in valid && t !in words
      && GetOppositeForm(t) !in words && GetOppositeForm(t) != start
      && t != goal && GetOppositeForm(t) != goal)
    ensures !v.EmptyInput? && !v.Raised?
  {
    var positiveForm := GetPositiveForm(t);
    var oppositeForm := GetOppositeForm(t);
    if positiveForm !in valid then NotValid(t)
    else if t in words then AlreadyAdded(t)
    else if oppositeForm in words && oppositeForm != start then Cancel(oppositeForm)
    else if oppositeForm == start then CannotRemoveStart
    else if t == goal || oppositeForm == goal then CannotTouchGoal
    else Append(t)
  }

  /** _handle_input as written: an input that cleans to the empty string (only "+") reaches
      get_positive_form(""), which raises IndexError. */
  function DecideAsWritten(start: string, goal: string, words: seq<string>, valid: set<string>, text: string): (v: Verdict)
    ensures v.Raised? <==> text != "" && CleanInput(text) == ""
    ensures v.Raised? ==> v.error == IndexError
    ensures v.EmptyInput? <==> text == ""
  {
    if text == "" then EmptyInput
    else
      var t := CleanInput(text);
      if t == "" then Raised(IndexError) else Cascade(start, goal, words, valid, t)
  }

  /** _handle_input with the bare '+' rejected as not a valid word instead of raising. */
  function Decide(start: string, goal: string, words: seq<string>, valid: set<string>, text: string): (v: Verdict)
    ensures !v.Raised?
    ensures v.EmptyInput? <==> text == ""
  {
    if text == "" then EmptyInput
    else
      var t := CleanInput(text);
      if t == "" then NotValid(t) else Cascade(start, goal, words, valid, t)
  }

  /** The word list after a verdict. */
  function Apply(words: seq<string>, v: Verdict): (r: seq<string>)
    ensures !v.Cancel? && !v.Append? ==> r == words
    ensures v.Append? ==> |r| == |words| + 1 && r[..|words|] == words && r[|words|] == v.token
    ensures v.Cancel? && v.opposite in words ==>
      |r| == |words| - 1 && multiset(r) == multiset(words) - multiset{v.opposite}
  {
    match v
    case Cancel(opposite) => RemoveFirst(words, opposite)
    case Append(token) => words + [token]
    case _ => words
  }

  /** The word list after submitting text. */
  function Step(start: string, goal: string, words: seq<string>, valid: set<string>, text: string): (r: seq<string>)
    ensures text == "" ==> r == words
    ensures |words| - 1 <= |r| <= |words| + 1
    ensures |r| == |words| + 1 ==> r[..|words|] == words && r[|words|] == CleanInput(text)
  {
    Apply(words, Decide(start, goal, words, valid, text))
  }

  /** The session invariant the page maintains: the start word first, no word twice, and no guessed
      word that is empty, the goal, or the goal's opposite. */
  predicate SessionInvariant(start: string, goal: string, words: seq<string>) {
    && |words| > 0 && words[0] == start
    && Distinct(words)
    && forall i :: 1 <= i < |words| ==>
         |words[i]| > 0 && words[i] != goal && GetOppositeForm(words[i]) != goal
  }

  /** The fresh session satisfies the invariant. */
  lemma InitialSessionInvariant()
    ensures SessionInvariant("dog", "whale", ["dog", "-cat", "huge", "dolphin"])
  {
    var words := ["dog", "-cat", "huge", "dolphin"];
    assert GetOppositeForm(words[1]) == "cat";
    assert GetOppositeForm(words[2]) == "-huge";
    assert GetOppositeForm(words[3]) == "-dolphin";
  }

  /** Every submission keeps the session invariant. */
  lemma StepPreservesSessionInvariant(start: string, goal: string, words: seq<string>, valid: set<string>, text: string)
    requires SessionInvariant(start, goal, words)
    ensures SessionInvariant(start, goal, Step(start, goal, words, valid, text))
  {
    var v := Decide(start, goal, words, valid, text);
    var r := Step(start, goal, words, valid, text);
    match v {
      case Cancel(o) =>
        RemoveFirstKeepsHead(words, o);
        RemoveFirstKeepsDistinct(words, o);
        forall i | 1 <= i < |r| ensures |r[i]| > 0 && r[i] != goal && GetOppositeForm(r[i]) != goal {
          var k :| 0 <= k < |words[1..]| && words[1..][k] == r[i];
          assert words[k + 1] == r[i];
        }
      case Append(t) =>
        AppendKeepsDistinct(words, t);
      case _ =>
    }
  }

  /** A cancellation takes the opposite out of the list altogether, shortening it by one and keeping
      the start word first. */
  lemma CancelRemovesOpposite(start: string, goal: string, words: seq<string>, valid: set<string>, text: string)
    requires SessionInvariant(start, goal, words)
    requires Decide(start, goal, words, valid, text).Cancel?
    ensures var o := Decide(start, goal, words, valid, text).opposite;
      var r := Step(start, goal, words, valid, text);
      && o in words && o !in r && |r| == |words| - 1 && r[0] == start
      && multiset(r) == multiset(words) - multiset{o}
  {
    var o := Decide(start, goal, words, valid, text).opposite;
    RemoveFirstKeepsHead(words, o);
    RemoveFirstKeepsDistinct(words, o);
  }

  /** A lower-case token whose positive form is a stored alphanumeric word, and whose two forms are
      fresh (neither in the list, neither the goal), is appended; submitting its opposite next
      cancels it and restores the list. */
  lemma SubmitThenOppositeRestores(start: string, goal: string, words: seq<string>, valid: set<string>, t: string)
    requires |words| > 0 && words[0] == start
    requires |t| > 0 && IsLowered(t)
    requires IsAlnum(GetPositiveForm(t)) && GetPositiveForm(t) in valid
    requires t !in words && GetOppositeForm(t) !in words
    requires t != goal && GetOppositeForm(t) != goal
    ensures var o := GetOppositeForm(t);
      && |o| > 0
      && Step(start, goal, words, valid, t) == words + [t]
      && Step(start, goal, words + [t], valid, o) == words
  {
    var p := GetPositiveForm(t);
    assert p[0] != '-' && p[0] != '+' by { assert IsAlnumChar(p[0]); }
    assert t[0] != '+' && IsWellFormed(t);
    CleanInputKeepsTokens(t);
    var o := GetOppositeForm(t);
    OppositeSharesPositiveForm(t);
    OppositeInvolution(t);
    assert Step(start, goal, words, valid, t) == words + [t];
    var w1 := words + [t];
    assert IsLowered(o) && o[0] != '+' by {
      if IsNegativeWord(t) {
        assert t == [t[0]] + o;
        assert forall i :: 0 <= i < |o| ==> o[i] == t[i + 1];
      } else {
        assert o == ['-'] + t;
      }
    }
    CleanInputKeepsTokens(o);
    assert o !in w1;
    assert GetOppositeForm(o) == t && t in w1 && t != start;
    assert Decide(start, goal, w1, valid, o) == Cancel(t);
    assert FirstIndex(w1, t) == |words| by {
      assert w1[|words|] == t;
      assert t !in w1[..|words|] by { assert w1[..|words|] == words; }
    }
    assert w1[..|words|] == words;
  }

  /** The finding at page.py:86-87: the input "+" is not empty, cleans to "", and the source then
      raises IndexError. */
  lemma PlusInputRaises(start: string, goal: string, words: seq<string>, valid: set<string>)
    ensures DecideAsWritten(start, goal, words, valid, "+") == Raised(IndexError)
  {
  }

  /** The corrected decision differs from the source only on inputs that clean to the empty string,
      which is the single input "+". */
  lemma DecideDiffersOnlyOnBareSign(start: string, goal: string, words: seq<string>, valid: set<string>, text: string)
    ensures DecideAsWritten(start, goal, words, valid, text) != Decide(start, goal, words, valid, text)
      <==> text == "+"
  {
    if text != "" && CleanInput(text) == "" {
      assert |Lower(text)| == 1 && Lower(text)[0] == '+';
      assert text[0] == '+';
      assert text == "+";
    }
  }

  /** _handle_input: cleans the text, runs the cascade against the store, and removes the opposite
      or appends the token. The bare "+" is rejected as not valid (the source raises IndexError, see
      DecideAsWritten). */
  method HandleInput(state: WordMaze.WordMazeState, db: Db.WordDB, textInput: string) returns (v: Verdict)
    requires state.Valid()
    modifies state
    ensures v == Decide(old(state.start), old(state.goal), old(state.words), db.collection.Keys, textInput)
    ensures state.words == Apply(old(state.words), v)
    ensures !v.Cancel? && !v.Append? ==> state.words == old(state.words)
    ensures state.start == old(state.start) && state.goal == old(state.goal)
    ensures state.Valid()
    ensures SessionInvariant(old(state.start), old(state.goal), old(state.words))
      ==> SessionInvariant(state.start, state.goal, state.words)
  {
    ghost var before := state.words;
    if SessionInvariant(state.start, state.goal, state.words) {
      StepPreservesSessionInvariant(state.start, state.goal, state.words, db.collection.Keys, textInput);
    }
    if textInput == "" {
      return EmptyInput;
    }
    var text := CleanInput(textInput);
    if text == "" {
      return NotValid(text);
    }
    var positiveForm := GetPositiveForm(text);
    var oppositeForm := GetOppositeForm(text);
    if !db.IsValidWord(positiveForm) {
      v := NotValid(text);
    } else if text in state.words {
      v := AlreadyAdded(text);
    } else if oppositeForm in state.words && oppositeForm != state.start {
      var found := state.Remove(oppositeForm);
      v := Cancel(oppositeForm);
    } else if oppositeForm == state.start {
      v := CannotRemoveStart;
    } else if text == state.goal || oppositeForm == state.goal {
      v := CannotTouchGoal;
    } else {
      state.AddWord(text);
      v := Append(text);
    }
  }

  /** The start and goal setters accept the lower-cased text only when it is non-empty and a stored id. */
  predicate SetterAccepts(text: string, valid: set<string>) {
    Lower(text) != "" && Lower(text) in valid
  }

  /** The start setter of _build_header: on acceptance the start becomes the lower-cased text and
      the list is reset to it; otherwise nothing changes. */
  method SetStartFromText(state: WordMaze.WordMazeState, db: Db.WordDB, setStartText: string) returns (ok: bool)
    modifies state
    ensures ok == SetterAccepts(setStartText, db.collection.Keys)
    ensures ok ==> state.start == Lower(setStartText) && state.words == [state.start]
    ensures ok ==> state.goal == old(state.goal) && SessionInvariant(state.start, state.goal, state.words)
    ensures !ok ==> state.start == old(state.start) && state.goal == old(state.goal) && state.words == old(state.words)
  {
    var text := Lower(setStartText);
    ok := text != "" && db.IsValidWord(text);
    if ok {
      state.SetStart(text);
    }
  }

  /** The goal setter of _build_header: on acceptance the goal becomes the lower-cased text and the
      list is reset to the start word; otherwise nothing changes. */
  method SetGoalFromText(state: WordMaze.WordMazeState, db: Db.WordDB, setGoalText: string) returns (ok: bool)
    modifies state
    ensures ok == SetterAccepts(setGoalText, db.collection.Keys)
    ensures ok ==> state.goal == Lower(setGoalText) && state.words == [state.start]
    ensures ok ==> state.start == old(state.start) && SessionInvariant(state.start, state.goal, state.words)
    ensures !ok ==> state.start == old(state.start) && state.goal == old(state.goal) && state.words == old(state.words)
  {
    var text := Lower(setGoalText);
    ok := text != "" && db.IsValidWord(text);
    if ok {
      state.SetGoal(text);
    }
  }

  /** The goal's 0-based rank: its first position among the neighbours returned by the store's query,
      or the store's size when the query did not return it. */
  function GoalRank(neighbours: seq<string>, goal: string, storeSize: nat): (r: nat)
    ensures goal in neighbours ==> r < |neighbours| && neighbours[r] == goal && goal !in neighbours[..r]
    ensures goal !in neighbours ==> r == storeSize
  {
    var i := FirstIndex(neighbours, goal);
    if i < |neighbours| then i else storeSize
  }

  /** The suffix as the source picks it: from the last decimal digit of the 0-based rank
      (int(str(goal_rank)[-1]) is goal_rank % 10), 0 -> "st", 1 -> "nd", 2 -> "rd", else "th". */
  function RankSuffixAsWritten(goalRank: nat): (suffix: string)
    ensures suffix == "th" <==> goalRank % 10 >= 3
    ensures suffix != "th" ==> suffix == OrdinalSuffix(goalRank % 10 + 1)
  {
    var lastDigit := goalRank % 10;
    if lastDigit < 3 then ["st", "nd", "rd"][lastDigit] else "th"
  }

  /** The English ordinal suffix of a positive number n: "th" for 11, 12 and 13 (and every number
      ending in them), otherwise by the last digit. */
  function OrdinalSuffix(n: nat): string
  {
    if 11 <= n % 100 <= 13 then "th"
    else if n % 10 == 1 then "st"
    else if n % 10 == 2 then "nd"
    else if n % 10 == 3 then "rd"
    else "th"
  }

  /** A displayed rank: the 1-based position and its suffix, as in "3rd". */
  datatype RankText = RankText(position: nat, suffix: string)

  /** The rank as displayed: the 1-based position and its ordinal suffix. */
  function RankLabel(goalRank: nat): (shown: RankText)
    ensures shown.position == goalRank + 1
    ensures !(11 <= shown.position % 100 <= 13) ==> shown.suffix == RankSuffixAsWritten(goalRank)
    ensures 11 <= shown.position % 100 <= 13 ==> shown.suffix == "th"
  {
    RankSuffixAsWrittenWrongOnTeens(goalRank);
    RankText(goalRank + 1, OrdinalSuffix(goalRank + 1))
  }

  /** The finding at page.py:137-141: the source's suffix is the English one except when the
      displayed number ends in 11, 12 or 13, where it writes "11st", "12nd", "13rd". */
  lemma RankSuffixAsWrittenWrongOnTeens(goalRank: nat)
    ensures RankSuffixAsWritten(goalRank) == OrdinalSuffix(goalRank + 1)
      <==> !(11 <= (goalRank + 1) % 100 <= 13)
  {
    var n := goalRank + 1;
    var d := goalRank % 10;
    assert n % 10 == (d + 1) % 10;
    assert (n % 100) % 10 == n % 10;
    if 11 <= n % 100 <= 13 {
      assert 1 <= n % 10 <= 3;
      assert d < 3;
    }
  }

  /** The first four ranks read 1st, 2nd, 3rd and 4th, in the source and corrected; the eleventh
      reads "11st" in the source. */
  lemma FirstRankLabels()
    ensures RankLabel(0) == RankText(1, "st") && RankLabel(1) == RankText(2, "nd")
    ensures RankLabel(2) == RankText(3, "rd") && RankLabel(3) == RankText(4, "th")
    ensures RankSuffixAsWritten(0) == "st" && RankSuffixAsWritten(1) == "nd"
    ensures RankSuffixAsWritten(2) == "rd" && RankSuffixAsWritten(3) == "th"
    ensures RankSuffixAsWritten(10) == "st" && RankLabel(10) == RankText(11, "th")
  {
  }
}
