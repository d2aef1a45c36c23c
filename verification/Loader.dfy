/**
 * The word loader (Assets/Scripts/DataController.cs). A file is modelled as
 * `Option<seq<string>>`: `None` when the file does not exist, otherwise the
 * lines the reader yields in order. The combined path is an opaque string.
 */
module Loader {
  import opened Wrappers

  /** C#'s int.MaxValue, the cap on the number of lines read. */
  const IntMaxValue: int := 0x7FFF_FFFF

  /** The non-empty lines of `s`, in their original order. */
  function NonEmptyLines(s: seq<string>): seq<string>
  {
    if s == [] then []
    else NonEmptyLines(s[..|s| - 1]) + (if s[|s| - 1] != "" then [s[|s| - 1]] else [])
  }

  /** The lines the reading loop consumes: at most IntMaxValue of them. */
  function LinesRead(file: seq<string>): (r: seq<string>)
    ensures |r| <= IntMaxValue
    ensures |r| == if |file| <= IntMaxValue then |file| else IntMaxValue
    ensures r <= file
    ensures |file| <= IntMaxValue ==> r == file
  {
    if |file| <= IntMaxValue then file else file[..IntMaxValue]
  }

  /** The list GetFileLines returns for a file (None: the file is missing). */
  function LoadedLines(file: Option<seq<string>>): seq<string>
  {
    match file
    case None => []
    case Some(content) => NonEmptyLines(LinesRead(content))
  }

  const ErrorPrefix: string := "No data retrieved from file '"
  const ErrorInfix: string := "'\nFile "

  /** The message GetFileLines stores in `error` when no line was kept. */
  function ErrorMessage(fullPath: string, fileExists: bool): (m: string)
    ensures |m| > |ErrorPrefix| + |fullPath|
    ensures m[|ErrorPrefix|..|ErrorPrefix| + |fullPath|] == fullPath
    ensures fileExists ==> m[|m| - 7..] == "exists."
    ensures !fileExists ==> m[|m| - 10..] == "not found."
  {
    ErrorPrefix + fullPath + ErrorInfix + (if fileExists then "exists." else "not found.")
  }

  /** The value of `error` after GetFileLines, given its value before. */
  function ErrorAfterLoad(prior: string, fullPath: string, file: Option<seq<string>>): string
  {
    if LoadedLines(file) == [] then ErrorMessage(fullPath, file.Some?) else prior
  }

  // ---------------------------------------------------------------------
  // Properties of the filter

  /** Filtering distributes over concatenation: order is kept. */
  lemma {:induction false} NonEmptyLinesAppend(a: seq<string>, b: seq<string>)
    ensures NonEmptyLines(a + b) == NonEmptyLines(a) + NonEmptyLines(b)
    decreases |b|
  {
    if b == [] {
      assert a + b == a;
    } else {
      var b' := b[..|b| - 1];
      assert (a + b)[..|a + b| - 1] == a + b';
      NonEmptyLinesAppend(a, b');
    }
  }

  /** A single line is kept exactly when it is non-empty. */
  lemma NonEmptyLinesSingle(x: string)
    ensures NonEmptyLines([x]) == if x != "" then [x] else []
  {
    assert [x][..0] == [];
  }

  /** No element of the result is the empty string. */
  lemma {:induction false} NonEmptyLinesHasNoEmpty(s: seq<string>)
    ensures forall x :: x in NonEmptyLines(s) ==> x != ""
    decreases |s|
  {
    if s != [] {
      NonEmptyLinesHasNoEmpty(s[..|s| - 1]);
    }
  }

  /** How often the result holds one string `x`. */
  lemma {:induction false} NonEmptyLinesCountOf(s: seq<string>, x: string)
    ensures multiset(NonEmptyLines(s))[x] == if x == "" then 0 else multiset(s)[x]
    decreases |s|
  {
    if s != [] {
      var init, last := s[..|s| - 1], s[|s| - 1];
      NonEmptyLinesCountOf(init, x);
      assert s == init + [last];
      assert multiset(s) == multiset(init) + multiset{last};
    }
  }

  /**
   * The result holds exactly the non-empty lines: each non-empty string
   * occurs in it as often as in the input, the empty string never.
   */
  lemma NonEmptyLinesCount(s: seq<string>)
    ensures multiset(NonEmptyLines(s))[""] == 0
    ensures forall x :: x != "" ==> multiset(NonEmptyLines(s))[x] == multiset(s)[x]
  {
    NonEmptyLinesCountOf(s, "");
    forall x | x != ""
      ensures multiset(NonEmptyLines(s))[x] == multiset(s)[x]
    {
      NonEmptyLinesCountOf(s, x);
    }
  }

  /** The result is no longer than the input. */
  lemma {:induction false} NonEmptyLinesLength(s: seq<string>)
    ensures |NonEmptyLines(s)| <= |s|
    decreases |s|
  {
    if s != [] {
      NonEmptyLinesLength(s[..|s| - 1]);
    }
  }

  /** Nothing is kept exactly when every line is blank. */
  lemma {:induction false} NonEmptyLinesEmptyIff(s: seq<string>)
    ensures NonEmptyLines(s) == [] <==> forall i :: 0 <= i < |s| ==> s[i] == ""
    decreases |s|
  {
    if s != [] {
      var init := s[..|s| - 1];
      NonEmptyLinesEmptyIff(init);
      assert forall i :: 0 <= i < |init| ==> init[i] == s[i];
    }
  }

  /** A file with no blank line comes back unchanged. */
  lemma {:induction false} NonEmptyLinesKeepsAll(s: seq<string>)
    requires forall i :: 0 <= i < |s| ==> s[i] != ""
    ensures NonEmptyLines(s) == s
    decreases |s|
  {
    if s != [] {
      var init := s[..|s| - 1];
      assert forall i :: 0 <= i < |init| ==> init[i] == s[i];
      NonEmptyLinesKeepsAll(init);
      assert s == init + [s[|s| - 1]];
    }
  }

  // ---------------------------------------------------------------------
  // Properties of the loader

  /** The returned list never exceeds int.MaxValue lines and holds no empty string. */
  lemma LoadedLinesBounded(file: Option<seq<string>>)
    ensures |LoadedLines(file)| <= IntMaxValue
    ensures forall x :: x in LoadedLines(file) ==> x != ""
  {
    if file.Some? {
      NonEmptyLinesLength(LinesRead(file.value));
      NonEmptyLinesHasNoEmpty(LinesRead(file.value));
    }
  }

  /**
   * On a fresh instance (`error` still ""), `error` is set exactly when
   * nothing was kept; the message then tells whether the file existed.
   */
  lemma FreshLoadErrorIff(fullPath: string, file: Option<seq<string>>)
    ensures ErrorAfterLoad("", fullPath, file) != "" <==> LoadedLines(file) == []
    ensures LoadedLines(file) == [] ==> ErrorAfterLoad("", fullPath, file) == ErrorMessage(fullPath, file.Some?)
  {
  }

  /** A missing file yields no lines and the "not found." message. */
  lemma MissingFile(prior: string, fullPath: string)
    ensures LoadedLines(None) == []
    ensures ErrorAfterLoad(prior, fullPath, None) == ErrorMessage(fullPath, false)
  {
  }

  /**
   * A file that exists but whose lines within the cap are all blank yields
   * no lines and the "exists." message, whatever follows the cap.
   */
  lemma BlankFile(prior: string, fullPath: string, content: seq<string>)
    requires forall i :: 0 <= i < |content| && i < IntMaxValue ==> content[i] == ""
    ensures LoadedLines(Some(content)) == []
    ensures ErrorAfterLoad(prior, fullPath, Some(content)) == ErrorMessage(fullPath, true)
  {
    var r := LinesRead(content);
    assert forall i :: 0 <= i < |r| ==> r[i] == content[i];
    NonEmptyLinesEmptyIff(r);
  }

  /**
   * A file that exists and holds at least one non-empty line within the
   * cap keeps `error` as it was.
   */
  lemma NonBlankFile(prior: string, fullPath: string, content: seq<string>, k: nat)
    requires k < |content| && k < IntMaxValue && content[k] != ""
    ensures content[k] in LoadedLines(Some(content))
    ensures ErrorAfterLoad(prior, fullPath, Some(content)) == prior
  {
    var r := LinesRead(content);
    assert r[k] == content[k];
    NonEmptyLinesCount(r);
    assert multiset(r)[content[k]] > 0;
  }

  /** The loader of Assets/Scripts/DataController.cs. */
  class DataController {
    var error: string

    constructor ()
      ensures error == ""
    {
      error := "";
    }

    /**
     * Reads the file line by line, keeping the non-empty lines, and stops
     * after int.MaxValue lines. `linesConsumed` counts the lines taken from
     * the reader (none when the file is missing).
     */
    method GetFileLines(fullPath: string, file: Option<seq<string>>)
      returns (lines: seq<string>, ghost linesConsumed: nat)
      modifies this
      ensures lines == LoadedLines(file)
      ensures linesConsumed == if file.None? then 0 else |LinesRead(file.value)|
      ensures linesConsumed <= IntMaxValue
      ensures error == ErrorAfterLoad(old(error), fullPath, file)
    {
      lines := [];
      linesConsumed := 0;
      var fileExists := file.Some?;
      if fileExists {
        var content := file.value;
        // `counter` also is the position of the next line the reader yields
        var counter := 0;
        while counter < |content|
          invariant 0 <= counter <= |content|
          invariant counter < IntMaxValue
          invariant lines == NonEmptyLines(content[..counter])
        {
          var line := content[counter];
          if line != "" {
            lines := lines + [line];
          }
          assert content[..counter + 1][..counter] == content[..counter];
          counter := counter + 1;
          if counter == IntMaxValue {
            break;
          }
        }
        assert content[..counter] == LinesRead(content);
        linesConsumed := counter;
      }

      if lines == [] {
        error := ErrorMessage(fullPath, fileExists);
      }
    }
  }
}
