/** The per-session game state (source/word_maze_state.py): a start word, a goal word and the
    ordered list of words the player has entered, the start word first. */
module WordMaze {
  import opened Lists

  class WordMazeState {
    var start: string
    var goal: string
    /** The start word followed by the guessed words, in the order they were entered. */
    var words: seq<string>

    /** The start word sits in the first slot of the list. */
    ghost predicate Valid()
      reads this
    {
      |words| > 0 && words[0] == start
    }

    /** A fresh session: start "dog", goal "whale" and three example guesses. */
    constructor ()
      ensures start == "dog" && goal == "whale"
      ensures words == ["dog", "-cat", "huge", "dolphin"]
      ensures Valid() && Distinct(words)
    {
      start := "dog";
      goal := "whale";
      words := ["dog", "-cat", "huge", "dolphin"];
    }

    /** Appends a word at the end of the list. */
    method AddWord(word: string)
      modifies this
      ensures words == old(words) + [word]
      ensures start == old(start) && goal == old(goal)
      ensures old(Valid()) ==> Valid()
    {
      words := words + [word];
    }

    /** Truncates the list back to the start word alone. */
    method Clear()
      modifies this
      ensures words == [start]
      ensures start == old(start) && goal == old(goal)
      ensures Valid()
    {
      words := [start];
    }

    /** Drops the last word unless only one is left. list.pop() on an empty list raises IndexError,
        reported here as ok == false with nothing changed. */
    method Undo() returns (ok: bool)
      modifies this
      ensures ok <==> |old(words)| > 0
      ensures |old(words)| <= 1 ==> words == old(words)
      ensures |old(words)| > 1 ==> words == old(words)[..|old(words)| - 1]
      ensures start == old(start) && goal == old(goal)
      ensures old(Valid()) ==> Valid()
    {
      if |words| == 1 {
        return true;
      }
      if |words| == 0 {
        return false;
      }
      words := words[..|words| - 1];
      ok := true;
    }

    /** Makes s the start word and resets the list to it. */
    method SetStart(s: string)
      modifies this
      ensures start == s && words == [s]
      ensures goal == old(goal)
      ensures Valid()
    {
      start := s;
      Clear();
    }

    /** Makes g the goal word and resets the list to the start word. */
    method SetGoal(g: string)
      modifies this
      ensures goal == g && words == [start]
      ensures start == old(start)
      ensures Valid()
    {
      goal := g;
      Clear();
    }

    /** list.remove(word): deletes the first occurrence of word. When word is absent Python raises
        ValueError, reported here as found == false with nothing changed. */
    method Remove(word: string) returns (found: bool)
      modifies this
      ensures found <==> word in old(words)
      ensures words == RemoveFirst(old(words), word)
      ensures found ==> |words| == |old(words)| - 1
      ensures start == old(start) && goal == old(goal)
      ensures old(Valid()) && word != start ==> Valid()
    {
      found := word in words;
      if found && words[0] != word {
        RemoveFirstKeepsHead(words, word);
      }
      words := RemoveFirst(words, word);
    }

    /** The guessed words: everything after the start slot. */
    function GetGuessedWords(): (r: seq<string>)
      reads this
      ensures |words| > 0 ==> [words[0]] + r == words
      ensures |words| == 0 ==> r == []
    {
      if |words| == 0 then [] else words[1..]
    }
  }

  /** Removing the start word itself is the one operation that can break the invariant: when the start
      word occurs only in the first slot, the list loses it there. */
  lemma RemovingStartBreaksInvariant(start: string, words: seq<string>)
    requires |words| > 0 && words[0] == start && start !in words[1..]
    ensures var r := RemoveFirst(words, start); r == words[1..] && (r == [] || r[0] != start)
  {
    assert FirstIndex(words, start) == 0;
    if |words| > 1 {
      assert words[1] in words[1..];
    }
  }
}
