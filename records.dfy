/**
 * The stored records of the time tracker, the errors its operations raise,
 * and the rendering of a stint's description from its argument words.
 */
module Records {
  import opened TimeModel

  /** What goes wrong in `add` and `get_project`. */
  datatype Error =
    | DateNeedsTime            // end "now" was asked for on a date other than today
    | NeedStartOrDuration      // both or neither of the start time and the duration were given
    | NoSuchProject(name: string)
    | MultipleProjects(name: string)   // more than one project has the name

  datatype Result<+T> = Success(value: T) | Failure(error: Error)

  datatype Option<+T> = None | Some(value: T)

  /** A row of the `project` table. */
  datatype Project = Project(id: nat, name: string, description: Option<string>)

  /** A row of the `stint` table; `start` and `end` are stored in UTC. */
  datatype Stint = Stint(
    start: Instant,
    end: Instant,
    projectId: nat,
    description: string,
    comment: Option<string>)

  /**
   * `" ".join(words)`: the words separated by single spaces. The text
   * begins with the first word and ends with the last.
   */
  function Join(words: seq<string>): (s: string)
    ensures |words| >= 1 ==> words[0] <= s
    ensures |words| >= 1 ==> |words[|words| - 1]| <= |s| && s[|s| - |words[|words| - 1]|..] == words[|words| - 1]
  {
    if |words| == 0 then ""
    else if |words| == 1 then words[0]
    else words[0] + " " + Join(words[1..])
  }

  /**
   * Splits a text at every space, keeping empty pieces (`s.split(" ")`).
   * This is the inverse that `Join` is checked against.
   */
  function Split(s: string): (pieces: seq<string>)
    ensures |pieces| >= 1
  {
    if |s| == 0 then [""]
    else
      var rest := Split(s[1..]);
      if s[0] == ' ' then [""] + rest
      else [[s[0]] + rest[0]] + rest[1..]
  }

  predicate NoSpace(w: string) {
    forall k :: 0 <= k < |w| ==> w[k] != ' '
  }

  lemma {:induction false} SplitWord(w: string)
    requires NoSpace(w)
    ensures Split(w) == [w]
  {
    if |w| > 0 {
      SplitWord(w[1..]);
      assert [w[0]] + w[1..] == w;
    }
  }

  lemma {:induction false} SplitWordThenSpace(w: string, t: string)
    requires NoSpace(w)
    ensures Split(w + " " + t) == [w] + Split(t)
  {
    if |w| == 0 {
      assert w + " " + t == [' '] + t;
      assert ([' '] + t)[1..] == t;
    } else {
      var s := w + " " + t;
      assert s[1..] == w[1..] + " " + t;
      SplitWordThenSpace(w[1..], t);
      assert [w[0]] + w[1..] == w;
    }
  }

  /**
   * The description keeps the words apart: splitting the joined text at its
   * spaces gives back the words, as long as no word holds a space itself.
   */
  lemma {:induction false} SplitJoin(words: seq<string>)
    requires |words| >= 1
    requires forall i :: 0 <= i < |words| ==> NoSpace(words[i])
    ensures Split(Join(words)) == words
  {
    if |words| == 1 {
      SplitWord(words[0]);
    } else {
      SplitJoin(words[1..]);
      SplitWordThenSpace(words[0], Join(words[1..]));
      assert [words[0]] + words[1..] == words;
    }
  }

  /** The joined text is the words' letters plus one space between each pair of words. */
  lemma {:induction false} JoinLength(words: seq<string>)
    requires |words| >= 1
    ensures |Join(words)| == TotalLength(words) + |words| - 1
  {
    if |words| > 1 {
      JoinLength(words[1..]);
    }
  }

  function TotalLength(words: seq<string>): nat {
    if |words| == 0 then 0 else |words[0]| + TotalLength(words[1..])
  }
}
