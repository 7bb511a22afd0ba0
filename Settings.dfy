/**
 * The settings dialog (components/SettingsModal.tsx): the default stage list
 * edited as one line per stage, its reset text, and the length check done
 * before a new password is sent to the auth provider.
 */
module Settings {
  import opened Types
  import opened Text

  /**
   * The text the box is filled with when the dialog is first rendered: the
   * list it is given, one stage per line. Saving it unedited gives a list of
   * clean entries back.
   */
  function InitialText(defaultSteps: seq<string>): (text: string)
    ensures AllClean(defaultSteps) ==> ParseSteps(text) == defaultSteps
  {
    ParseJoined(defaultSteps);
    JoinLines(defaultSteps)
  }

  /** Trims every line. */
  function TrimAll(lines: seq<string>): (r: seq<string>)
    ensures |r| == |lines|
    ensures forall i :: 0 <= i < |lines| ==> r[i] == Trim(lines[i])
  {
    if lines == [] then [] else [Trim(lines[0])] + TrimAll(lines[1..])
  }

  /** Drops the empty lines, keeping the others in order. */
  function NonEmpty(lines: seq<string>): (r: seq<string>)
    ensures |r| <= |lines|
    ensures forall i :: 0 <= i < |r| ==> r[i] != [] && exists j :: 0 <= j < |lines| && lines[j] == r[i]
    ensures forall i :: 0 <= i < |lines| && lines[i] != [] ==> lines[i] in r
    ensures forall x :: x != [] ==> multiset(r)[x] == multiset(lines)[x]
  {
    if lines == [] then []
    else
      assert lines == [lines[0]] + lines[1..];
      if lines[0] == [] then NonEmpty(lines[1..])
      else [lines[0]] + NonEmpty(lines[1..])
  }

  /** The filter works line by line: it distributes over concatenation. */
  lemma {:induction false} NonEmptyConcat(a: seq<string>, b: seq<string>)
    ensures NonEmpty(a + b) == NonEmpty(a) + NonEmpty(b)
  {
    if a == [] {
      assert a + b == b;
    } else {
      assert (a + b)[0] == a[0] && (a + b)[1..] == a[1..] + b;
      NonEmptyConcat(a[1..], b);
    }
  }

  /** `a` is `b` with some elements left out, the rest in their order. */
  predicate IsSubsequence(a: seq<string>, b: seq<string>)
    decreases |b|
  {
    a == [] || (b != [] && if a[0] == b[0] then IsSubsequence(a[1..], b[1..]) else IsSubsequence(a, b[1..]))
  }

  lemma {:induction false} NonEmptyIsSubsequence(lines: seq<string>)
    ensures IsSubsequence(NonEmpty(lines), lines)
  {
    if lines != [] {
      NonEmptyIsSubsequence(lines[1..]);
      if lines[0] != [] {
        assert NonEmpty(lines)[1..] == NonEmpty(lines[1..]);
      } else {
        SubsequenceSkip(NonEmpty(lines[1..]), lines);
      }
    }
  }

  /** A subsequence of the tail that does not start with the head is one of the whole list. */
  lemma {:induction false} SubsequenceSkip(a: seq<string>, b: seq<string>)
    requires b != [] && IsSubsequence(a, b[1..])
    requires a == [] || a[0] != b[0]
    ensures IsSubsequence(a, b)
  {
  }

  /** handleSave: split on newlines, trim each line, drop the empty ones. */
  function ParseSteps(text: string): (r: seq<string>)
    ensures |r| <= |SplitLines(text)|
    ensures forall i :: 0 <= i < |r| ==> r[i] != []
  {
    NonEmpty(TrimAll(SplitLines(text)))
  }

  /** Trimmed lines of a newline-free list are newline-free. */
  lemma TrimAllNoNewline(lines: seq<string>)
    requires forall i :: 0 <= i < |lines| ==> '\n' !in lines[i]
    ensures forall i :: 0 <= i < |lines| ==> '\n' !in TrimAll(lines)[i]
  {
    forall i | 0 <= i < |lines| ensures '\n' !in TrimAll(lines)[i] {
      TrimKeepsNoNewline(lines[i]);
    }
  }

  /**
   * Every saved entry is a non-empty, trimmed, single-line string, and the
   * saved list is, in order, exactly the non-empty trimmed lines.
   */
  lemma ParseStepsEntries(text: string)
    ensures var r := ParseSteps(text);
      forall i :: 0 <= i < |r| ==> r[i] != [] && Trimmed(r[i]) && '\n' !in r[i]
    ensures IsSubsequence(ParseSteps(text), TrimAll(SplitLines(text)))
    ensures forall i :: 0 <= i < |SplitLines(text)| && Trim(SplitLines(text)[i]) != [] ==>
      Trim(SplitLines(text)[i]) in ParseSteps(text)
    ensures forall x :: x != [] ==> multiset(ParseSteps(text))[x] == multiset(TrimAll(SplitLines(text)))[x]
  {
    var lines := SplitLines(text);
    var trimmed := TrimAll(lines);
    TrimAllNoNewline(lines);
    NonEmptyIsSubsequence(trimmed);
    var r := NonEmpty(trimmed);
    forall i | 0 <= i < |r| ensures Trimmed(r[i]) && '\n' !in r[i] {
      var j :| 0 <= j < |trimmed| && trimmed[j] == r[i];
    }
    forall i | 0 <= i < |lines| && Trim(lines[i]) != [] ensures Trim(lines[i]) in r {
      assert trimmed[i] == Trim(lines[i]);
    }
  }

  /** Entries a saved list can hold unchanged: non-empty, trimmed, on one line. */
  predicate CleanEntry(s: string)
  {
    s != [] && Trimmed(s) && '\n' !in s
  }

  /** Every entry of the list is clean. */
  predicate AllClean(xs: seq<string>)
  {
    forall i :: 0 <= i < |xs| ==> CleanEntry(xs[i])
  }

  /** Parsing a list of clean entries written one per line gives the list back. */
  lemma ParseJoined(xs: seq<string>)
    ensures AllClean(xs) ==> ParseSteps(JoinLines(xs)) == xs
  {
    if AllClean(xs) {
      if xs == [] {
        assert SplitLines(JoinLines(xs)) == [[]];
        assert TrimAll([[]]) == [[]];
      } else {
        SplitJoin(xs);
        assert SplitLines(JoinLines(xs)) == xs;
        TrimAllOfTrimmed(xs);
        NonEmptyOfClean(xs);
      }
    }
  }

  lemma TrimAllOfTrimmed(lines: seq<string>)
    requires forall i :: 0 <= i < |lines| ==> Trimmed(lines[i])
    ensures TrimAll(lines) == lines
  {
    forall i | 0 <= i < |lines| ensures TrimAll(lines)[i] == lines[i] {
      TrimOfTrimmed(lines[i]);
    }
  }

  lemma {:induction false} NonEmptyOfClean(lines: seq<string>)
    requires forall i :: 0 <= i < |lines| ==> lines[i] != []
    ensures NonEmpty(lines) == lines
  {
    if lines != [] {
      NonEmptyOfClean(lines[1..]);
      assert lines[0] != [];
      assert NonEmpty(lines) == [lines[0]] + NonEmpty(lines[1..]);
      assert lines == [lines[0]] + lines[1..];
    }
  }

  /**
   * A saved list, given to a freshly rendered dialog and saved unedited,
   * stays the same.
   */
  lemma ParseStable(text: string)
    ensures ParseSteps(InitialText(ParseSteps(text))) == ParseSteps(text)
  {
    ParseStepsEntries(text);
  }

  /** The list handleReset writes into the text box (a copy of the defaults). */
  const RESET_STEPS: seq<string> := ["已投递", "初筛", "笔试", "一面", "二面", "HR面", "OC"]

  /**
   * handleReset, after the user confirms: the reset list is the
   * application-wide default list, and saving the reset text gives exactly it.
   */
  function ResetText(): (text: string)
    ensures RESET_STEPS == DEFAULT_STEPS
    ensures ParseSteps(text) == DEFAULT_STEPS
  {
    ResetStepsClean();
    ParseJoined(RESET_STEPS);
    JoinLines(RESET_STEPS)
  }

  lemma ResetStepsClean()
    ensures AllClean(RESET_STEPS)
  {
    forall i | 0 <= i < |RESET_STEPS| ensures CleanEntry(RESET_STEPS[i]) {
      var s := RESET_STEPS[i];
      assert !IsWhitespace(s[0]) && !IsWhitespace(s[|s| - 1]);
    }
  }

  /**
   * The text the box holds when the dialog is opened, as the code is written.
   * The box is filled once, at the dialog's first render, and the dialog is
   * rendered from the start, while the application still holds the built-in
   * list; the saved list is loaded afterwards and never reaches the box.
   */
  function OpenedTextAsWritten(savedSteps: seq<string>): string
  {
    InitialText(DEFAULT_STEPS)
  }

  /**
   * After a reload, opening the dialog on a saved list and saving it unedited
   * replaces the saved list with the built-in one.
   */
  lemma ReloadShowsBuiltInSteps()
    ensures var saved := ["笔试", "OC"];
      AllClean(saved) && ParseSteps(OpenedTextAsWritten(saved)) == DEFAULT_STEPS != saved
  {
    var saved := ["笔试", "OC"];
    assert CleanEntry(saved[0]) && CleanEntry(saved[1]);
    ResetStepsClean();
  }

  /** `s.length`: UTF-16 code units, two for a character outside the basic plane. */
  function Utf16Length(s: string): (n: nat)
    ensures |s| <= n <= 2 * |s|
  {
    if s == [] then 0 else (if s[0] as int > 0xFFFF then 2 else 1) + Utf16Length(s[1..])
  }

  datatype PasswordStep = TooShort(message: string) | SendToProvider(password: string)

  const PASSWORD_TOO_SHORT: string := "密码长度至少需要6位"

  /** handleUpdatePassword up to the provider call: shorter than six is refused locally. */
  function CheckNewPassword(password: string): (r: PasswordStep)
    ensures r.TooShort? <==> Utf16Length(password) < 6
    ensures r.TooShort? ==> r.message == PASSWORD_TOO_SHORT
    ensures r.SendToProvider? ==> r.password == password && |password| >= 3
  {
    if Utf16Length(password) < 6 then TooShort(PASSWORD_TOO_SHORT) else SendToProvider(password)
  }
}
