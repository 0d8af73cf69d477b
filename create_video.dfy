/** The prompt-capture command `create-video`: it joins its arguments into
    a prompt, prints usage for a blank prompt, and otherwise makes sure the
    prompts directory exists, overwrites `latest.txt` with the prompt and
    adds a time-stamped line to `history.txt`. The file system is the three
    fields of a `PromptStore`; the time stamp is a parameter. */
module CreateVideo {
  import opened Wrappers
  import opened Text

  /** `argv.slice(2)`: the arguments after the interpreter and the script. */
  function UserArgs(argv: seq<string>): seq<string>
  {
    if |argv| <= 2 then [] else argv[2..]
  }

  /** `process.argv.slice(2).join(' ').trim()` */
  function PromptOf(argv: seq<string>): (p: string)
    ensures p == [] || (!IsSpace(p[0]) && !IsSpace(p[|p| - 1]))
    ensures |p| <= |Join(" ", UserArgs(argv))|
  {
    Trim(Join(" ", UserArgs(argv)))
  }

  /** The usage text is printed exactly when the joined arguments are all
      whitespace (or there are none). */
  lemma BlankPromptIff(argv: seq<string>)
    ensures PromptOf(argv) == [] <==> AllSpace(Join(" ", UserArgs(argv)))
  {
    TrimEmptyIff(Join(" ", UserArgs(argv)));
  }

  /** A prompt passed as one argument without surrounding whitespace is
      saved as it is: `node create-video.js "<prompt>"` leaves exactly
      `<prompt>` in `latest.txt`. */
  lemma SingleArgumentKept(node: string, script: string, prompt: string)
    requires prompt == [] || (!IsSpace(prompt[0]) && !IsSpace(prompt[|prompt| - 1]))
    ensures PromptOf([node, script, prompt]) == prompt
  {
    assert UserArgs([node, script, prompt]) == [prompt];
    TrimTrimmed(prompt);
  }

  /** The line added to the history: `[<timestamp>] <prompt>` and a newline. */
  function HistoryEntry(timestamp: string, prompt: string): string
  {
    "[" + timestamp + "] " + prompt + "\n"
  }

  /** The time stamp and the prompt can be read back from the entry. */
  lemma HistoryEntryReadBack(timestamp: string, prompt: string)
    ensures var e := HistoryEntry(timestamp, prompt);
            var n := |timestamp|;
            && |e| == n + |prompt| + 4
            && e[0] == '[' && e[1..n + 1] == timestamp && e[n + 1..n + 3] == "] "
            && e[n + 3..|e| - 1] == prompt && e[|e| - 1] == '\n'
  {
  }

  /** The prompts directory and the two files it may hold; `None` is a
      file that does not exist. */
  class PromptStore {
    var promptsDir: bool
    var latest: Option<string>
    var history: Option<string>

    /** The two files live in the prompts directory: without it neither exists. */
    predicate Valid()
      reads this
    {
      !promptsDir ==> latest.None? && history.None?
    }

    constructor (promptsDir: bool, latest: Option<string>, history: Option<string>)
      requires !promptsDir ==> latest.None? && history.None?
      ensures Valid()
      ensures this.promptsDir == promptsDir && this.latest == latest && this.history == history
    {
      this.promptsDir := promptsDir;
      this.latest := latest;
      this.history := history;
    }

    /** One run of the script with arguments `argv` at `timestamp`.
        `historyFails` says whether reading or rewriting `history.txt`
        throws, in which case the history is replaced by the new entry. The
        exit status is 0 on both paths. */
    method Run(argv: seq<string>, timestamp: string, historyFails: bool) returns (exitCode: int, showedUsage: bool)
      requires Valid()
      modifies this
      ensures Valid()
      ensures exitCode == 0
      ensures showedUsage <==> PromptOf(argv) == []
      ensures showedUsage ==> promptsDir == old(promptsDir) && latest == old(latest) && history == old(history)
      ensures !showedUsage ==> promptsDir && latest == Some(PromptOf(argv))
      ensures !showedUsage && !historyFails ==>
                history == Some(old(history).GetOr("") + HistoryEntry(timestamp, PromptOf(argv)))
      ensures !showedUsage && !historyFails ==> IsPrefix(old(history).GetOr(""), history.value)
      ensures !showedUsage && historyFails ==> history == Some(HistoryEntry(timestamp, PromptOf(argv)))
    {
      var prompt := Trim(Join(" ", UserArgs(argv)));
      if prompt == [] {
        return 0, true;
      }
      if !promptsDir {
        promptsDir := true;
      }
      latest := Some(prompt);
      var historyEntry := "[" + timestamp + "] " + prompt + "\n";
      if !historyFails {
        var existing := if history.Some? then history.value else "";
        history := Some(existing + historyEntry);
      } else {
        history := Some(historyEntry);
      }
      return 0, false;
    }
  }
}
