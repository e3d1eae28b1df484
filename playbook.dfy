/**
 `AIEngine.generate_ansible_playbook`: extract the commands, refuse an empty list,
 build one task per command and wrap the tasks under `hosts: all`. The document is
 the value handed to `yaml.safe_dump(..., sort_keys=False)`, so mappings keep their
 insertion order.
 */
module Playbook {
  import opened Wrappers
  import opened Text
  import CommandExtractor

  /** A YAML document: a scalar, a list, or a mapping whose entries keep their order. */
  datatype Node = Scalar(text: string) | List(items: seq<Node>) | Mapping(entries: seq<(string, Node)>)

  const TASK_NAME_PREFIX := "Apply security fix "
  const NO_COMMANDS_MESSAGE := "No valid shell commands found in the recommendations."
  const FAILURE_PREFIX := "Failed to generate Ansible playbook: "

  /** `f"Apply security fix {idx + 1}"`. */
  function TaskName(idx: nat): string
  {
    TASK_NAME_PREFIX + NatToString(idx + 1)
  }

  /** `{'name': ..., 'shell': command}` for the command at position idx. */
  function Task(idx: nat, command: string): Node
  {
    Mapping([("name", Scalar(TaskName(idx))), ("shell", Scalar(command))])
  }

  /** The tasks for `commands`, the first one numbered from position `start`. */
  function TasksFrom(commands: seq<string>, start: nat): (tasks: seq<Node>)
    ensures |tasks| == |commands|
    ensures forall i :: 0 <= i < |commands| ==> tasks[i] == Task(start + i, commands[i])
  {
    if commands == [] then [] else [Task(start, commands[0])] + TasksFrom(commands[1..], start + 1)
  }

  /** `{'hosts': 'all', 'tasks': tasks}`. */
  function PlaybookOf(tasks: seq<Node>): Node
  {
    Mapping([("hosts", Scalar("all")), ("tasks", List(tasks))])
  }

  /** The playbook for a command list. */
  function PlaybookFor(commands: seq<string>): Node
  {
    PlaybookOf(TasksFrom(commands, 0))
  }

  /** `f"correctif_{current_datetime}.yml"`. */
  function PlaybookFilename(timestamp: string): (name: string)
    ensures |name| == |timestamp| + |"correctif_"| + |".yml"|
    ensures name[..|"correctif_"|] == "correctif_"
    ensures name[|"correctif_"|..|name| - |".yml"|] == timestamp
    ensures name[|name| - |".yml"|..] == ".yml"
  {
    "correctif_" + timestamp + ".yml"
  }

  /** What a successful run produces: the file name and the document written to it. */
  datatype Generated = Generated(filename: string, document: Node)

  /** The `for idx, command in enumerate(commands)` loop that fills `tasks`. */
  method BuildTasks(commands: seq<string>) returns (tasks: seq<Node>)
    ensures tasks == TasksFrom(commands, 0)
  {
    tasks := [];
    for idx := 0 to |commands|
      invariant |tasks| == idx
      invariant forall i :: 0 <= i < idx ==> tasks[i] == Task(i, commands[i])
    {
      tasks := tasks + [Task(idx, commands[idx])];
    }
  }

  /**
   The whole operation. The current time is the `timestamp` parameter; the outcome of
   opening and writing the file is `writeError` (`Some(message)` when that raises).
   Every exception is re-raised with the "Failed to generate Ansible playbook: " prefix.
   */
  method GenerateAnsiblePlaybook(recommendations: string, timestamp: string, writeError: Option<string>)
    returns (r: Result<Generated>)
    ensures CommandExtractor.Commands(recommendations) == [] ==>
              r == Err(FAILURE_PREFIX + NO_COMMANDS_MESSAGE)
    ensures CommandExtractor.Commands(recommendations) != [] && writeError.Some? ==>
              r == Err(FAILURE_PREFIX + writeError.value)
    ensures CommandExtractor.Commands(recommendations) != [] && writeError.None? ==>
              r == Ok(Generated(PlaybookFilename(timestamp), PlaybookFor(CommandExtractor.Commands(recommendations))))
  {
    var commands := CommandExtractor.ExtractShellCommands(recommendations);
    if commands == [] {
      return Err(FAILURE_PREFIX + NO_COMMANDS_MESSAGE);
    }
    var tasks := BuildTasks(commands);
    var playbook := PlaybookOf(tasks);
    var filename := PlaybookFilename(timestamp);
    if writeError.Some? {
      return Err(FAILURE_PREFIX + writeError.value);
    }
    return Ok(Generated(filename, playbook));
  }

  // ---- Reading a document back ----

  /** The commands of a task list numbered from `start`, if every item has the shape of a task. */
  function ReadTasks(items: seq<Node>, start: nat): Option<seq<string>>
  {
    if items == [] then Some([])
    else
      match items[0]
      case Mapping(es) =>
        if |es| == 2 && es[0] == ("name", Scalar(TaskName(start))) && es[1].0 == "shell" && es[1].1.Scalar? then
          match ReadTasks(items[1..], start + 1)
          case Some(rest) => Some([es[1].1.text] + rest)
          case None => None
        else None
      case _ => None
  }

  /**
   The commands of a playbook document, if it has exactly the keys `hosts` then `tasks`,
   `hosts` is "all", and task i has exactly the keys `name` then `shell`, named
   "Apply security fix i+1".
   */
  function ReadCommands(doc: Node): Option<seq<string>>
  {
    match doc
    case Mapping(es) =>
      if |es| == 2 && es[0] == ("hosts", Scalar("all")) && es[1].0 == "tasks" && es[1].1.List? then
        ReadTasks(es[1].1.items, 0)
      else None
    case _ => None
  }

  lemma {:induction false} ReadTasksFrom(commands: seq<string>, start: nat)
    ensures ReadTasks(TasksFrom(commands, start), start) == Some(commands)
  {
    if commands != [] {
      ReadTasksFrom(commands[1..], start + 1);
      assert TasksFrom(commands, start)[1..] == TasksFrom(commands[1..], start + 1);
      assert commands == [commands[0]] + commands[1..];
    }
  }

  lemma {:induction false} ReadTasksExact(items: seq<Node>, start: nat, commands: seq<string>)
    requires ReadTasks(items, start) == Some(commands)
    ensures items == TasksFrom(commands, start)
  {
    if items != [] {
      var es := items[0].entries;
      var rest := ReadTasks(items[1..], start + 1).value;
      ReadTasksExact(items[1..], start + 1, rest);
      assert commands == [es[1].1.text] + rest;
      assert commands[1..] == rest;
      assert es == [es[0], es[1]];
      assert items == [items[0]] + items[1..];
    }
  }

  /**
   The playbook for a command list reads back as that command list, and a document that
   reads back as a command list is that list's playbook: the document records exactly the
   commands, in order, and nothing else.
   */
  lemma PlaybookRoundTrip(commands: seq<string>, doc: Node)
    ensures ReadCommands(PlaybookFor(commands)) == Some(commands)
    ensures ReadCommands(doc) == Some(commands) ==> doc == PlaybookFor(commands)
  {
    ReadTasksFrom(commands, 0);
    if ReadCommands(doc) == Some(commands) {
      var es := doc.entries;
      ReadTasksExact(es[1].1.items, 0, commands);
      assert es == [es[0], es[1]];
    }
  }

  /**
   For N commands the playbook maps `hosts` to "all" and then `tasks` to N tasks; task i
   maps `name` to "Apply security fix " followed by the decimal i+1, then `shell` to
   command i.
   */
  lemma PlaybookShape(commands: seq<string>)
    ensures var doc := PlaybookFor(commands);
            doc.Mapping? && |doc.entries| == 2
            && doc.entries[0] == ("hosts", Scalar("all"))
            && doc.entries[1].0 == "tasks" && doc.entries[1].1.List?
            && |doc.entries[1].1.items| == |commands|
            && forall i :: 0 <= i < |commands| ==>
                 doc.entries[1].1.items[i]
                 == Mapping([("name", Scalar(TASK_NAME_PREFIX + NatToString(i + 1))), ("shell", Scalar(commands[i]))])
  {
  }

  /** No two tasks share a name. */
  lemma TaskNamesDistinct(i: nat, j: nat)
    requires i != j
    ensures TaskName(i) != TaskName(j)
  {
    if TaskName(i) == TaskName(j) {
      assert TaskName(i)[|TASK_NAME_PREFIX|..] == NatToString(i + 1);
      assert TaskName(j)[|TASK_NAME_PREFIX|..] == NatToString(j + 1);
      NatToStringInjective(i + 1, j + 1);
    }
  }

  /** Three commands give tasks named "Apply security fix 1", "2" and "3", in that order. */
  lemma ThreeTasksExample(a: string, b: string, c: string)
    ensures PlaybookFor([a, b, c]).entries[1].1.items ==
            [Mapping([("name", Scalar("Apply security fix 1")), ("shell", Scalar(a))]),
             Mapping([("name", Scalar("Apply security fix 2")), ("shell", Scalar(b))]),
             Mapping([("name", Scalar("Apply security fix 3")), ("shell", Scalar(c))])]
  {
    assert NatToString(1) == "1" && NatToString(2) == "2" && NatToString(3) == "3";
    assert TaskName(0) == "Apply security fix 1";
    assert TaskName(1) == "Apply security fix 2";
    assert TaskName(2) == "Apply security fix 3";
    var tasks := TasksFrom([a, b, c], 0);
    assert tasks == [Task(0, a), Task(1, b), Task(2, c)];
  }
}
