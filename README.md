# CalderaOpsManager remediation pipeline, modelled in Dafny

CalderaOpsManager reads operations from a Caldera adversary-emulation server. It asks a
language model for remediation steps and writes them as an Ansible playbook. This project
models the deterministic part of `AIEngine` (`modules/ai_module.py`) and proves its
properties:

- **Operation filter** (`OperationFilter`, `operations.dfy`). Each operation record is a
  dictionary. It is projected to `{id, status, name}`, and a missing key reads as `None`.
  Only records whose `status` is the string `"success"` are kept, and at most the first
  five of them.
- **Shell-command extractor** (`CommandExtractor`, `extractor.dfy`). The model's answer is
  split on `'\n'` and each line is stripped. A stripped line is kept when
  `\b(apt-get|yum|systemctl|docker|reboot|echo|cp|mv|chmod|chown|ansible-playbook)\b.*`
  matches at its start. The pattern is modelled twice:
  - `PatternMatches` follows the matcher: `\b`, then the alternatives tried in order with
    backtracking, then `\b`, then `.*`.
  - `IsCommand` states it directly: the line begins with a verb, followed by the end of the
    line or a non-word character.
  - `PatternMatchesIsCommand` proves the two equal.
  - The loop is the method `ExtractShellCommands`, proved against the function `Commands`.
- **Playbook builder** (`Playbook`, `playbook.dfy`). An empty command list is refused with
  the source's error message. Otherwise task i is `{name: "Apply security fix <i+1>",
  shell: command i}`, and the tasks go under `{hosts: "all", tasks: ...}`.
  - The YAML document is a `Node` whose mappings are ordered key/value lists. This is what
    `sort_keys=False` preserves.
  - `ReadCommands` reads the document back. `PlaybookRoundTrip` shows that it recovers
    exactly the command list, and that only that list's playbook reads back as it.
- **File names** (`Templates`, `templates.dfy`, and `Playbook.PlaybookFilename`). The
  playbook is named `correctif_<timestamp>.yml`. Template and profile files are named
  `name.lower().replace(' ', '_')` followed by `_ability.yml`, `_adversary.yml` or
  `_operation.yml`.

`Text` (`text.dfy`) holds the ASCII versions of the Python string operations the source
calls: `strip`, `split`, `lower`, `replace` and `str(int)`. It also defines `Join`, which
the source never calls: it only serves to state that `split` can be undone and that the
extractor is idempotent. `Wrappers` holds `Option` and
`Result`; `Result.Err` carries the message of the exception Python raises.

Inputs from the environment are parameters:
- The current time is the `timestamp` string, already formatted as `%Y%m%d_%H%M%S`.
- The outcome of opening and writing a file is `writeError: Option<string>`. It is
  `Some(message)` when the write raises, and the model re-wraps that message the way the
  `except` clauses do.

`main.py:33` displays an operation's `state`, while the filter tests `status`
(`modules/ai_module.py:22`). The model keeps this split: a record with `state` and no
`status` is dropped (`OperationFilter.StateIsNotStatus`).

## Model

| member | source | states |
|---|---|---|
| `OperationFilter.Get` | modules/ai_module.py:21-22 | `op.get(key)`: the value under the key, or `None` when it is missing; `StateIsNotStatus` shows a missing `status` reads as `None` |
| `OperationFilter.IsSuccess` | modules/ai_module.py:22 | the comprehension's condition `op.get('status') == 'success'`; `SuccessfulResultsFacts` and `StateIsNotStatus` characterise it |
| `OperationFilter.Project` | modules/ai_module.py:21 | the `{id, status, name}` projection, each read with `op.get`; `SuccessfulResultsComplete` places it in the output |
| `OperationFilter.SuccessfulResults` | modules/ai_module.py:20-23 | the list comprehension; `SuccessfulResultsFacts`, `SuccessfulResultsSound` and `SuccessfulResultsComplete` characterise it |
| `OperationFilter.SuccessfulResultsFacts` | modules/ai_module.py:20-23 | the comprehension has one element per success record (its length is the number of success records, at most the input length), and every element has status "success" |
| `OperationFilter.FilterOperations` | modules/ai_module.py:20-24 | the output has at most 5 elements, exactly min(5, k) for k success records; every element has status "success"; it is a prefix of the comprehension |
| `OperationFilter.SuccessfulResultsComplete` | modules/ai_module.py:20-23 | every success record appears, projected to id/status/name, at the position equal to the number of success records before it |
| `OperationFilter.SuccessfulResultsSound` | modules/ai_module.py:20-23 | every element of the comprehension is the projection of a success record, at that record's rank |
| `OperationFilter.FilterOperationsComplete` | modules/ai_module.py:20-24 | a success record with fewer than 5 success records before it is in the output, at its rank |
| `OperationFilter.FilterOperationsSound` | modules/ai_module.py:20-24 | output element j is the projection of the success record with exactly j success records before it, so the output keeps input order |
| `OperationFilter.StateIsNotStatus` | modules/ai_module.py:22 | a record carrying `state: "finished"` but no `status` key is dropped |
| `OperationFilter.SevenRecordsExample` | modules/ai_module.py:20-24 | statuses success, failed, then five successes give records 1, 3, 4, 5, 6 |
| `Text.IsSpace` | modules/ai_module.py:50 | the ASCII characters `strip()` removes; `Strip` and `StripInfix` characterise it |
| `Text.TrimLeft` | modules/ai_module.py:50 | the result is no longer than the line and does not start with whitespace |
| `Text.TrimLeftSuffix` | modules/ai_module.py:50 | what is left after trimming the front is a suffix of the line, and everything removed is whitespace |
| `Text.TrimRight` | modules/ai_module.py:50 | the result is no longer than the line, does not end with whitespace, and keeps the first character |
| `Text.TrimRightPrefix` | modules/ai_module.py:50 | what is left after trimming the back is a prefix of the line, and everything removed is whitespace |
| `Text.Strip` | modules/ai_module.py:50 | the stripped line is no longer than the line and has no whitespace at either end |
| `Text.StripInfix` | modules/ai_module.py:50 | the stripped line is an infix of the line, and only whitespace lies outside it |
| `Text.StripIdempotent` | modules/ai_module.py:50 | stripping a stripped line changes nothing |
| `Text.StripBlank` | modules/ai_module.py:50 | a line made only of whitespace strips to the empty string |
| `Text.Split` | modules/ai_module.py:49 | `split('\n')` yields at least one part, even for the empty text |
| `Text.SplitParts` | modules/ai_module.py:49 | no part of a split contains the separator |
| `Text.SplitPrefix` | modules/ai_module.py:49 | text without a separator in front of more text is glued to the first part of the rest's split |
| `Text.JoinSplit` | modules/ai_module.py:49 | joining the parts of a split with the separator gives back the text |
| `Text.SplitJoin` | modules/ai_module.py:49 | splitting the join of a non-empty list of separator-free lines gives back the lines |
| `Text.NatToString` | modules/ai_module.py:68 | `str(idx + 1)` is a non-empty run of decimal digits with no leading zero |
| `Text.ParseNatToString` | modules/ai_module.py:68 | reading the decimal rendering back gives the number |
| `Text.NatToStringInjective` | modules/ai_module.py:68 | distinct numbers render differently |
| `Text.LowerChar` | modules/ai_module.py:102 | ASCII `lower()` of one character; `Lower` lifts it to a string |
| `Text.Lower` | modules/ai_module.py:102 | ASCII `lower()` keeps the length, lowers each character, and leaves no capital |
| `Text.Replace` | modules/ai_module.py:102 | `replace(' ', '_')` keeps the length and replaces exactly the matching characters |
| `CommandExtractor.IsWordChar` | modules/ai_module.py:46 | the ASCII `\w` class that `\b` consults; its Unicode gap is under "Left out" |
| `CommandExtractor.WordBoundary` | modules/ai_module.py:46 | `\b` at a position: exactly one neighbour is a word character; used by `MatchGroupFinds` |
| `CommandExtractor.MatchGroup` | modules/ai_module.py:46 | the group and its trailing `\b`, alternatives tried in order; `MatchGroupFinds` characterises it |
| `CommandExtractor.PatternMatches` | modules/ai_module.py:46-51 | `re.match` of the pattern; `PatternMatchesIsCommand` proves it equal to `IsCommand` |
| `CommandExtractor.IsCommand` | modules/ai_module.py:46 | the line begins with one of the 11 verbs as a whole word; `PatternMatchesIsCommand`, `RejectLongerWord` and `RejectByInitial` characterise it |
| `CommandExtractor.NoVerbPrefix` | modules/ai_module.py:46 | no verb is a proper prefix of another, so at most one verb begins a line as a whole word and the matched alternative is unique |
| `CommandExtractor.Keep` | modules/ai_module.py:49-52 | the stripped lines that match, in order; `KeepSelects` and `KeepWellFormed` characterise it |
| `CommandExtractor.Commands` | modules/ai_module.py:49-54 | the extractor's result; `ExtractShellCommands` computes it and `CommandsWellFormed` and `ExtractIdempotent` characterise it |
| `CommandExtractor.MatchGroupFinds` | modules/ai_module.py:46 | the ordered, backtracking group match succeeds iff some alternative is a prefix followed by a word boundary |
| `CommandExtractor.PatternMatchesIsCommand` | modules/ai_module.py:45-51 | `re.match` of the pattern succeeds on a line iff the line begins with one of the 11 verbs followed by the end of the line or a non-word character |
| `CommandExtractor.ExtractShellCommands` | modules/ai_module.py:40-54 | the loop returns the stripped matching lines of the split text, in order |
| `CommandExtractor.KeptPositionsIncreasing` | modules/ai_module.py:49-52 | the positions of the kept lines are in range and strictly increasing |
| `CommandExtractor.KeptPositionsExact` | modules/ai_module.py:49-52 | a position is kept iff the stripped line there is a command |
| `CommandExtractor.KeepAtPositions` | modules/ai_module.py:49-52 | output element j is the stripped line at the j-th kept position |
| `CommandExtractor.KeepSelects` | modules/ai_module.py:49-52 | the output is the stripped lines at strictly increasing positions; a position is selected iff its stripped line is a command; the output is no longer than the line list, and duplicates are kept |
| `CommandExtractor.KeepWellFormed` | modules/ai_module.py:49-52 | every kept line is a command, is already stripped, is non-empty (blank lines are dropped) and holds no '\n' |
| `CommandExtractor.CommandsWellFormed` | modules/ai_module.py:49-54 | for any text, the output is no longer than the number of lines, and each command matches, is stripped, non-empty and a single line |
| `CommandExtractor.KeepCommands` | modules/ai_module.py:49-52 | lines that are already stripped commands are all kept unchanged |
| `CommandExtractor.ExtractIdempotent` | modules/ai_module.py:49-54 | extracting from the output joined with '\n' returns the output |
| `CommandExtractor.RejectByInitial` | modules/ai_module.py:46 | a line whose first character begins no verb is not a command |
| `CommandExtractor.RejectLongerWord` | modules/ai_module.py:46 | a line made of any of the 11 verbs followed by a further word character is not a command |
| `CommandExtractor.AcceptedExamples` | modules/ai_module.py:46 | "chmod 600 /etc/secret", "docker-compose up -d", "reboot" and "echo hello" are commands |
| `CommandExtractor.RejectedExamples` | modules/ai_module.py:46 | "dockering", "rebooting the instance", "apt-getx", "chmodx", a verb in mid-line and the empty line are not |
| `CommandExtractor.KeepFirstAndThird` | modules/ai_module.py:49-52 | of four lines where only the first and third are commands once stripped, exactly those two are kept, stripped, in order |
| `CommandExtractor.ScenarioExample` | modules/ai_module.py:40-54 | "reboot", the prose line "note", "  echo hello" and an empty line yield exactly ["reboot", "echo hello"] |
| `CommandExtractor.StripIndented` | modules/ai_module.py:50 | "  chmod 600 /etc/secret" strips to "chmod 600 /etc/secret" |
| `CommandExtractor.ThreeLineAnswerSplit` | modules/ai_module.py:49 | the answer "echo hello\nthis is not a command\n  chmod 600 /etc/secret\n" splits into its three lines and a final empty line |
| `CommandExtractor.ThreeLineAnswerKept` | modules/ai_module.py:49-52 | of those four lines exactly "echo hello" and "chmod 600 /etc/secret" are kept |
| `CommandExtractor.ThreeLineAnswer` | modules/ai_module.py:40-54 | that answer yields exactly ["echo hello", "chmod 600 /etc/secret"] |
| `Playbook.TaskName` | modules/ai_module.py:68 | `f"Apply security fix {idx + 1}"`; `TaskNamesDistinct` shows the names are distinct |
| `Playbook.Task` | modules/ai_module.py:67-70 | the `{name, shell}` task for a command; `ReadTasksExact` shows every item read as a task is one |
| `Playbook.PlaybookOf` | modules/ai_module.py:72-75 | the `{hosts: "all", tasks}` document; `PlaybookShape` states its layout |
| `Playbook.PlaybookFor` | modules/ai_module.py:65-75 | the playbook of a command list; `PlaybookShape` and `PlaybookRoundTrip` characterise it |
| `Playbook.ReadCommands` | modules/ai_module.py:72-75 | reads a document back as its command list; `PlaybookRoundTrip` proves it inverts `PlaybookFor` |
| `Playbook.TasksFrom` | modules/ai_module.py:65-70 | one task per command; task i is named "Apply security fix" with number start+i+1 and runs command i |
| `Playbook.BuildTasks` | modules/ai_module.py:65-70 | the enumerate loop builds exactly the task list for the commands |
| `Playbook.PlaybookFilename` | modules/ai_module.py:77-78 | the name is "correctif_", then the timestamp, then ".yml" |
| `Playbook.GenerateAnsiblePlaybook` | modules/ai_module.py:56-84 | no extracted command gives the error "Failed to generate Ansible playbook: No valid shell commands found in the recommendations." and no playbook; a failed write gives the wrapped write message; otherwise the result is the timestamped file name and the playbook of the extracted commands |
| `Playbook.ReadTasksFrom` | modules/ai_module.py:65-70 | a task list numbered from `start` reads back as its commands |
| `Playbook.ReadTasksExact` | modules/ai_module.py:65-70 | a list of items that reads back as commands is exactly those commands' task list |
| `Playbook.PlaybookRoundTrip` | modules/ai_module.py:65-75 | the playbook of a command list reads back as that list, and only that list's playbook reads back as it |
| `Playbook.PlaybookShape` | modules/ai_module.py:65-75 | keys `hosts` then `tasks`, hosts "all", N tasks for N commands, each with keys `name` then `shell` |
| `Playbook.TaskNamesDistinct` | modules/ai_module.py:68 | no two tasks share a name |
| `Playbook.ThreeTasksExample` | modules/ai_module.py:66-70 | three commands give tasks "Apply security fix 1", "2" and "3", in order |
| `Templates.Slug` | modules/ai_module.py:102 | the slug has the name's length; each space becomes '_' and each other character is lowered |
| `Templates.SlugClean` | modules/ai_module.py:102 | a slug contains no space and no capital letter |
| `Templates.SlugIdempotent` | modules/ai_module.py:102 | slugging a slug changes nothing |
| `Templates.SlugFilename` | modules/ai_module.py:102-133 | the file name of lines 102, 117 and 133: the slug followed by the suffix, with no space when the suffix has none |
| `Templates.Created` | modules/ai_module.py:103-107 | the `try`/`except` around a write, shared by the three writers (also lines 118-122 and 134-138): the file name when the write succeeds, and otherwise the prefix plus the write error |
| `Templates.CreateAbilityTemplate` | modules/ai_module.py:102-107 | it returns `<slug>_ability.yml`, which has no space, when the write succeeds, and otherwise "Failed to create ability template: " plus the write error |
| `Templates.CreateAdversaryProfile` | modules/ai_module.py:117-122 | it returns `<slug>_adversary.yml` when the write succeeds, and otherwise "Failed to create adversary profile: " plus the write error |
| `Templates.CreateOperationProfile` | modules/ai_module.py:133-138 | it returns `<slug>_operation.yml` when the write succeeds, and otherwise "Failed to create operation profile: " plus the write error |

## Left out

- `modules/caldera_module.py`: HTTP GET/POST/PATCH/DELETE wrappers around `requests`. Nothing in them can be stated without the remote server.
- `main.py`: argument parsing and `print` formatting.
- `AIEngine.__init__`: reading the YAML configuration and setting the OpenAI key. This is file I/O and global library state.
- The prompt f-string and the OpenAI `ChatCompletion.create` call (`modules/ai_module.py:25-38`). They are a foreign service, and the prompt embeds Python's `repr` of a list. The final `.strip()` of the model's answer is left out along with them: the extractor's input is whatever text the model returned.
- YAML serialisation, `open` and the file write. The model stops at the in-memory document. A write failure is the `writeError` parameter; a partly written file is not modelled.
- `datetime.now().strftime("%Y%m%d_%H%M%S")`: the timestamp is a parameter.
- The fixed-content dictionaries written by `create_ability_template`, `create_adversary_profile` and `create_operation_profile`. They hold constants and the caller's arguments, and only their file names are modelled. The parameters used only in those dictionaries (description, tactic, technique id, abilities, adversary and planner ids) are dropped.
- Unicode. `strip` removes only the ASCII whitespace set (space, \t \n \v \f \r, \x1c-\x1f); Python also removes Unicode spaces such as \x85 and \xa0. `lower` lowers only ASCII capitals; Python's can also change non-ASCII letters and even the length.
- `CommandExtractor.IsWordChar`: also ASCII only. For str patterns Python's `\b` treats any Unicode letter or digit as a word character, so the model accepts "echoé" while Python rejects it.
- `OperationFilter.Value`: only `None`, strings, integers and booleans are told apart. A float, list or object under `id` or `name` becomes `Other`, so the model does not show which such value the projection carries.
- Exceptions other than the ones the source raises on purpose or the write failure, such as a record that is not a dictionary or a name that is not a string.
