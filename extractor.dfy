/**
 `AIEngine.extract_shell_commands`: split the model's answer on '\n', strip each
 line, and keep the stripped line when the pattern
 `\b(apt-get|yum|systemctl|docker|reboot|echo|cp|mv|chmod|chown|ansible-playbook)\b.*`
 matches at its start (`re.match`).
 */
module CommandExtractor {
  import opened Wrappers
  import opened Text

  /** The alternatives of the pattern's group, in the order the pattern lists them. */
  const VERBS: seq<string> :=
    ["apt-get", "yum", "systemctl", "docker", "reboot", "echo", "cp", "mv", "chmod", "chown", "ansible-playbook"]

  /** The characters `\w` stands for, over ASCII. */
  predicate IsWordChar(c: char) {
    ('a' <= c <= 'z') || ('A' <= c <= 'Z') || ('0' <= c <= '9') || c == '_'
  }

  predicate StartsWith(s: string, prefix: string) {
    |prefix| <= |s| && s[..|prefix|] == prefix
  }

  // ---- The regular expression, as the matcher reads it ----

  /** `\b` at position i: exactly one of the characters around i is a word character. */
  predicate WordBoundary(s: string, i: nat)
    requires i <= |s|
  {
    (0 < i && IsWordChar(s[i - 1])) != (i < |s| && IsWordChar(s[i]))
  }

  /**
   The group followed by `\b`, tried at position 0 one alternative after the other, as a
   backtracking matcher does: the position after the first alternative that is a prefix
   of `s` and is followed by a word boundary.
   */
  function MatchGroup(s: string, alternatives: seq<string>): Option<nat>
  {
    if alternatives == [] then None
    else if StartsWith(s, alternatives[0]) && WordBoundary(s, |alternatives[0]|) then Some(|alternatives[0]|)
    else MatchGroup(s, alternatives[1..])
  }

  /** `re.match(pattern, s)` succeeds; the trailing `.*` matches any remainder, the empty one included. */
  predicate PatternMatches(s: string) {
    WordBoundary(s, 0) && MatchGroup(s, VERBS).Some?
  }

  // ---- The same test, stated directly ----

  /** `line` begins with the whole word `verb`: the verb is followed by the end of the line or a non-word character. */
  predicate StartsWithVerb(line: string, verb: string) {
    StartsWith(line, verb) && (|line| == |verb| || !IsWordChar(line[|verb|]))
  }

  /** The line begins with one of the eleven verbs, as a whole word. */
  predicate IsCommand(line: string) {
    exists k :: 0 <= k < |VERBS| && StartsWithVerb(line, VERBS[k])
  }

  /** Every verb begins and ends with a word character. */
  lemma VerbsAreWords()
    ensures forall k :: 0 <= k < |VERBS| ==> |VERBS[k]| > 0 && IsWordChar(VERBS[k][0])
                                             && IsWordChar(VERBS[k][|VERBS[k]| - 1])
  {
  }

  lemma {:induction false} MatchGroupFinds(s: string, alternatives: seq<string>)
    ensures MatchGroup(s, alternatives).Some? <==>
            exists k :: 0 <= k < |alternatives| && StartsWith(s, alternatives[k])
                        && WordBoundary(s, |alternatives[k]|)
  {
    if alternatives != [] {
      MatchGroupFinds(s, alternatives[1..]);
      assert forall k :: 0 <= k < |alternatives[1..]| ==> alternatives[1..][k] == alternatives[k + 1];
    }
  }

  /** The pattern matches exactly the lines that begin with a whole verb. */
  lemma PatternMatchesIsCommand(s: string)
    ensures PatternMatches(s) <==> IsCommand(s)
  {
    VerbsAreWords();
    MatchGroupFinds(s, VERBS);
    if IsCommand(s) {
      var k :| 0 <= k < |VERBS| && StartsWithVerb(s, VERBS[k]);
      assert s[0] == VERBS[k][0];
      assert s[|VERBS[k]| - 1] == VERBS[k][|VERBS[k]| - 1];
    }
    if PatternMatches(s) {
      var k :| 0 <= k < |VERBS| && StartsWith(s, VERBS[k]) && WordBoundary(s, |VERBS[k]|);
      assert s[|VERBS[k]| - 1] == VERBS[k][|VERBS[k]| - 1];
      assert StartsWithVerb(s, VERBS[k]);
    }
  }

  // ---- The extractor ----

  /** The stripped lines that match, in order: what the loop appends to `commands`. */
  function Keep(lines: seq<string>): seq<string>
  {
    if lines == [] then []
    else
      var line := Strip(lines[|lines| - 1]);
      Keep(lines[..|lines| - 1]) + (if IsCommand(line) then [line] else [])
  }

  /** The commands extracted from the model's answer. */
  function Commands(recommendations: string): seq<string>
  {
    Keep(Split(recommendations, '\n'))
  }

  method ExtractShellCommands(recommendations: string) returns (commands: seq<string>)
    ensures commands == Commands(recommendations)
  {
    commands := [];
    var lines := Split(recommendations, '\n');
    for i := 0 to |lines|
      invariant commands == Keep(lines[..i])
    {
      var line := Strip(lines[i]);
      PatternMatchesIsCommand(line);
      if PatternMatches(line) {
        commands := commands + [line];
      }
      assert lines[..i + 1][..i] == lines[..i];
    }
    assert lines[..|lines|] == lines;
  }

  /**
   The positions of the lines that are kept, in increasing order.
   */
  function KeptPositions(lines: seq<string>): seq<nat>
  {
    if lines == [] then []
    else
      KeptPositions(lines[..|lines| - 1])
      + (if IsCommand(Strip(lines[|lines| - 1])) then [|lines| - 1] else [])
  }

  /** The kept positions are in range and strictly increasing. */
  lemma {:induction false} KeptPositionsIncreasing(lines: seq<string>)
    ensures forall j :: 0 <= j < |KeptPositions(lines)| ==> KeptPositions(lines)[j] < |lines|
    ensures forall j, j' :: 0 <= j < j' < |KeptPositions(lines)| ==> KeptPositions(lines)[j] < KeptPositions(lines)[j']
  {
    if lines != [] {
      KeptPositionsIncreasing(lines[..|lines| - 1]);
    }
  }

  /** A position is kept iff the stripped line there is a command. */
  lemma {:induction false} KeptPositionsExact(lines: seq<string>)
    ensures forall i :: 0 <= i < |lines| ==> (i in KeptPositions(lines) <==> IsCommand(Strip(lines[i])))
  {
    if lines != [] {
      var n := |lines| - 1;
      var init := lines[..n];
      KeptPositionsExact(init);
      KeptPositionsIncreasing(init);
    }
  }

  /** Output element j is the stripped line at the j-th kept position. */
  lemma {:induction false} KeepAtPositions(lines: seq<string>)
    ensures |KeptPositions(lines)| == |Keep(lines)| <= |lines|
    ensures forall j :: 0 <= j < |Keep(lines)| ==>
              KeptPositions(lines)[j] < |lines| && Keep(lines)[j] == Strip(lines[KeptPositions(lines)[j]])
  {
    KeptPositionsIncreasing(lines);
    if lines != [] {
      var n := |lines| - 1;
      var init := lines[..n];
      KeepAtPositions(init);
    }
  }

  /**
   `Keep` is an order-preserving selection of the stripped lines: its elements are the
   stripped lines at strictly increasing positions, and those positions are exactly the
   lines whose stripped form is a command.
   */
  lemma KeepSelects(lines: seq<string>)
    ensures |KeptPositions(lines)| == |Keep(lines)| <= |lines|
    ensures forall j :: 0 <= j < |Keep(lines)| ==>
              KeptPositions(lines)[j] < |lines| && Keep(lines)[j] == Strip(lines[KeptPositions(lines)[j]])
    ensures forall j, j' :: 0 <= j < j' < |Keep(lines)| ==> KeptPositions(lines)[j] < KeptPositions(lines)[j']
    ensures forall i :: 0 <= i < |lines| ==> (i in KeptPositions(lines) <==> IsCommand(Strip(lines[i])))
  {
    KeptPositionsIncreasing(lines);
    KeptPositionsExact(lines);
    KeepAtPositions(lines);
  }

  /** Every kept line is a stripped, non-empty, single-line command. */
  lemma {:induction false} KeepWellFormed(lines: seq<string>)
    requires forall i :: 0 <= i < |lines| ==> '\n' !in lines[i]
    ensures forall j :: 0 <= j < |Keep(lines)| ==>
              var c := Keep(lines)[j];
              IsCommand(c) && Strip(c) == c && c != [] && '\n' !in c
  {
    if lines != [] {
      var init := lines[..|lines| - 1];
      KeepWellFormed(init);
      var line := Strip(lines[|lines| - 1]);
      if IsCommand(line) {
        StripIdempotent(lines[|lines| - 1]);
        StripInfix(lines[|lines| - 1]);
        assert forall c :: c in line ==> c in lines[|lines| - 1];
      }
    }
  }

  /** For any answer: at most one command per line, each matching the pattern, stripped, non-empty and single-line. */
  lemma CommandsWellFormed(recommendations: string)
    ensures |Commands(recommendations)| <= |Split(recommendations, '\n')|
    ensures forall j :: 0 <= j < |Commands(recommendations)| ==>
              var c := Commands(recommendations)[j];
              PatternMatches(c) && Strip(c) == c && c != [] && '\n' !in c
  {
    KeepSelects(Split(recommendations, '\n'));
    SplitParts(recommendations, '\n');
    KeepWellFormed(Split(recommendations, '\n'));
    forall j | 0 <= j < |Commands(recommendations)| ensures PatternMatches(Commands(recommendations)[j]) {
      PatternMatchesIsCommand(Commands(recommendations)[j]);
    }
  }

  /** Lines that are already stripped commands are all kept, unchanged. */
  lemma {:induction false} KeepCommands(lines: seq<string>)
    requires forall i :: 0 <= i < |lines| ==> IsCommand(lines[i]) && Strip(lines[i]) == lines[i]
    ensures Keep(lines) == lines
  {
    if lines != [] {
      var init := lines[..|lines| - 1];
      KeepCommands(init);
      assert lines == init + [lines[|lines| - 1]];
    }
  }

  /** Running the extractor on its own output, joined with '\n', returns that output. */
  lemma ExtractIdempotent(recommendations: string)
    ensures Commands(Join(Commands(recommendations), '\n')) == Commands(recommendations)
  {
    var cs := Commands(recommendations);
    SplitParts(recommendations, '\n');
    KeepWellFormed(Split(recommendations, '\n'));
    if cs == [] {
      assert Split([], '\n') == [[]];
      assert Keep([[]]) == Keep([]) + (if IsCommand(Strip([])) then [Strip([])] else []);
    } else {
      SplitJoin(cs, '\n');
      KeepCommands(cs);
    }
  }

  /** The first letters of the verbs, and the verbs that begin with 'd' and with 'r'. */
  lemma VerbInitials()
    ensures forall k :: 0 <= k < |VERBS| ==> VERBS[k][0] in "aysdrecm"
    ensures forall k :: 0 <= k < |VERBS| && VERBS[k][0] == 'd' ==> k == 3
    ensures forall k :: 0 <= k < |VERBS| && VERBS[k][0] == 'r' ==> k == 4
  {
  }

  /** A line whose first character begins no verb is not a command. */
  lemma RejectByInitial(line: string)
    requires line == [] || line[0] !in "aysdrecm"
    ensures !IsCommand(line)
  {
    VerbInitials();
    VerbsAreWords();
  }

  /** A verb and a shorter verb differ in one of their first two characters. */
  lemma VerbsDifferEarly()
    ensures forall k :: 0 <= k < |VERBS| ==> |VERBS[k]| >= 2
    ensures forall k, k' :: 0 <= k < |VERBS| && 0 <= k' < |VERBS| && |VERBS[k']| < |VERBS[k]| ==>
              VERBS[k][0] != VERBS[k'][0] || VERBS[k][1] != VERBS[k'][1]
  {
  }

  /** No verb is a proper prefix of another verb. */
  lemma NoVerbPrefix()
    ensures forall k, k' :: 0 <= k < |VERBS| && 0 <= k' < |VERBS| && |VERBS[k']| < |VERBS[k]| ==>
              VERBS[k][..|VERBS[k']|] != VERBS[k']
  {
    VerbsDifferEarly();
    forall k, k' | 0 <= k < |VERBS| && 0 <= k' < |VERBS| && |VERBS[k']| < |VERBS[k]|
      ensures VERBS[k][..|VERBS[k']|] != VERBS[k']
    {
      var p := VERBS[k][..|VERBS[k']|];
      assert p[0] == VERBS[k][0] && p[1] == VERBS[k][1];
    }
  }

  /** A line that begins with a verb glued to a further word character is not a command. */
  lemma RejectLongerWord(line: string, k: nat)
    requires k < |VERBS| && |line| > |VERBS[k]| && line[..|VERBS[k]|] == VERBS[k] && IsWordChar(line[|VERBS[k]|])
    ensures !IsCommand(line)
  {
    NoVerbPrefix();
    var n := |VERBS[k]|;
    forall k' | 0 <= k' < |VERBS| ensures !StartsWithVerb(line, VERBS[k']) {
      var m := |VERBS[k']|;
      if m < n {
        assert line[..m] == VERBS[k][..m];
      } else if m > n && m <= |line| {
        assert line[..n] == line[..m][..n];
      }
    }
  }

  /** Lines the pattern accepts. */
  lemma AcceptedExamples()
    ensures IsCommand("chmod 600 /etc/secret")
    ensures IsCommand("docker-compose up -d")
    ensures IsCommand("reboot")
    ensures IsCommand("echo hello")
  {
    assert StartsWithVerb("echo hello", VERBS[5]);
    assert StartsWithVerb("chmod 600 /etc/secret", VERBS[8]);
    assert StartsWithVerb("docker-compose up -d", VERBS[3]);
    assert StartsWithVerb("reboot", VERBS[4]);
  }

  /** Lines the pattern rejects: a verb glued to more letters, a verb in mid-line, a blank line. */
  lemma RejectedExamples()
    ensures !IsCommand("dockering")
    ensures !IsCommand("rebooting the instance")
    ensures !IsCommand("apt-getx")
    ensures !IsCommand("chmodx")
    ensures !IsCommand("Then run echo hello")
    ensures !IsCommand("")
  {
    RejectLongerWord("dockering", 3);
    RejectLongerWord("rebooting the instance", 4);
    RejectLongerWord("apt-getx", 0);
    RejectLongerWord("chmodx", 8);
    RejectByInitial("Then run echo hello");
    RejectByInitial("");
  }

  /** Four lines of which the first and third are commands once stripped: those two are kept, stripped, in order. */
  lemma KeepFirstAndThird(l0: string, l1: string, l2: string, l3: string)
    requires IsCommand(Strip(l0)) && !IsCommand(Strip(l1)) && IsCommand(Strip(l2)) && !IsCommand(Strip(l3))
    ensures Keep([l0, l1, l2, l3]) == [Strip(l0), Strip(l2)]
  {
    var lines := [l0, l1, l2, l3];
    assert lines[..1][..0] == [];
    assert Keep(lines[..1]) == [Strip(l0)];
    assert lines[..2][..1] == lines[..1];
    assert Keep(lines[..2]) == [Strip(l0)];
    assert lines[..3][..2] == lines[..2];
    assert Keep(lines[..3]) == [Strip(l0), Strip(l2)];
    assert lines[..3] == lines[..|lines| - 1];
  }

  /**
   A four-line answer: a command, prose, an indented command and the empty line after
   a final '\n'. The two commands are kept, stripped, in order.
   */
  lemma ScenarioExample()
    ensures Commands(Join(["reboot", "note", "  echo hello", ""], '\n')) == ["reboot", "echo hello"]
  {
    SplitJoin(["reboot", "note", "  echo hello", ""], '\n');
    StripUnchanged("reboot");
    StripUnchanged("note");
    assert TrimLeft("  echo hello") == "echo hello";
    StripUnchanged("echo hello");
    AcceptedExamples();
    RejectByInitial("note");
    RejectByInitial("");
    KeepFirstAndThird("reboot", "note", "  echo hello", "");
  }

  /** The indentation of a command line is stripped away. */
  lemma StripIndented()
    ensures Strip("  chmod 600 /etc/secret") == "chmod 600 /etc/secret"
  {
    var t := "chmod 600 /etc/secret";
    assert TrimLeft(t) == t;
    assert " chmod 600 /etc/secret"[1..] == t;
    assert TrimLeft(" chmod 600 /etc/secret") == t;
    assert "  chmod 600 /etc/secret"[1..] == " chmod 600 /etc/secret";
    StripUnchanged(t);
  }

  /** The three-line answer below splits into its lines and a last, empty line. */
  lemma ThreeLineAnswerSplit()
    ensures Split("echo hello\n" + "this is not a command\n" + "  chmod 600 /etc/secret\n", '\n')
            == ["echo hello", "this is not a command", "  chmod 600 /etc/secret", ""]
  {
    var l0, l1, l2 := "echo hello", "this is not a command", "  chmod 600 /etc/secret";
    var lines := [l0, l1, l2, ""];
    assert [l2, ""][1..] == [""];
    assert Join([l2, ""], '\n') == l2 + "\n" + "";
    assert [l1, l2, ""][1..] == [l2, ""];
    assert Join([l1, l2, ""], '\n') == l1 + "\n" + Join([l2, ""], '\n');
    assert lines[1..] == [l1, l2, ""];
    assert Join(lines, '\n') == l0 + "\n" + (l1 + "\n" + (l2 + "\n" + ""));
    assert "echo hello\n" == l0 + "\n";
    assert "this is not a command\n" == l1 + "\n";
    assert "  chmod 600 /etc/secret\n" == l2 + "\n";
    assert Join(lines, '\n') == "echo hello\n" + "this is not a command\n" + "  chmod 600 /etc/secret\n";
    SplitJoin(lines, '\n');
  }

  /** Of those lines the first and the third are kept, the third without its indentation. */
  lemma ThreeLineAnswerKept()
    ensures Keep(["echo hello", "this is not a command", "  chmod 600 /etc/secret", ""])
            == ["echo hello", "chmod 600 /etc/secret"]
  {
    StripUnchanged("echo hello");
    StripUnchanged("this is not a command");
    StripIndented();
    AcceptedExamples();
    RejectByInitial("this is not a command");
    RejectByInitial("");
    KeepFirstAndThird("echo hello", "this is not a command", "  chmod 600 /etc/secret", "");
  }

  /**
   An answer holding a command, a line of prose and an indented command, each ended by
   '\n': the two commands are extracted, the second without its indentation.
   */
  lemma ThreeLineAnswer()
    ensures Commands("echo hello\n" + "this is not a command\n" + "  chmod 600 /etc/secret\n")
            == ["echo hello", "chmod 600 /etc/secret"]
  {
    ThreeLineAnswerSplit();
    ThreeLineAnswerKept();
  }
}
