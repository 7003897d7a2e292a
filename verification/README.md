# Llyra core, modelled in Dafny

Llyra is a small toolkit for running language-model inference. This model covers its core, which has four parts.

- **The conversation log** (`Logs`, `LogOperations`, `LogErrors`). The log database holds *sections*. A section is one conversation of type `call` or `chat`. Each section holds *branches*, and each branch holds an ordered list of query/response *iterations*.
  - A `Log` object is a cursor over the database. It has a current section, a current branch, and the iterations of that branch.
  - `change_section` and `change_branch` either recall a stored record or start a new one. A new record gets the id "largest stored id + 1", or 0 when nothing is stored.
  - `call` and `chat` enforce the mode rules and then write through `update_record`, which updates a stored row or inserts a new one. A call branch holds exactly one iteration, and calls and chats never mix in one section.
  - `get` reads a stored section and branch back.
  - Every failure of the cursor methods is a `LogError`, and its text is fixed. `get` also rejects a negative id with its own invalid-input error, which is not a `LogError`.
- **The prompt builders.** There are four versions of one engine, and they differ in where the additional prompt goes:
  - `ComponentPrompts`: in front of the history.
  - `RemotePrompts`: as a leading record, or as a separate system value when the prompt role is `system`. It builds on `BasePrompts`, which only keeps the history and makes records.
  - `LocalPrompts`: after the history.
  - `LocalPrompt` builds a flat single-call prompt.
- **The local in-memory log** (`LocalLogs`). It keeps an id counter and a list of call and chat records. A chat with `keep` continues the last chat record.
- **The local strategy and configuration** (`LocalStrategys`, `ModelPath`, `LocalConfigs`):
  - Settings are updated field by field, and a `None` argument keeps the current value.
  - Missing settings produce warnings.
  - Calls and chats need a temperature.
  - The model file path is normalised from a name and a directory.

## How the model is built

- **The database** is the class `LogOperations.Logbase`. It holds a map from section id to section row. Each section row carries its branch rows.
- **Queries on the branch table** become scans of the section's branch sequence. `StoreValid` states that every branch stored under section `k` belongs to `k`, has a unique id, and holds at least one iteration. Every branch of a call section holds exactly one iteration.
- **Cursor methods are proved against their specifications.** `Logs.Log.Valid` ties the cursor to the stored rows. Each cursor method states its whole new state and keeps `Valid`. `call` and `chat` also promise that `get` afterwards returns exactly the cursor's section and branch.
- **Failures are results.** Errors are `Outcome`/`Result` values, not exceptions. Where Python keeps writing fields before it raises, the model does the same.
- **Ids are allocated from the stored rows only.** The code computes a new id from the *stored* rows only (`llyra/components/logs/definition.py:43-49`, `:72-78`), so an id that was allocated but never written is handed out again, and ids are not guaranteed to be unique over the life of a `Log`. `Logs.UnwrittenSectionIdReused` shows two consecutive new sections both getting id 0. `Logs.SectionIdsConsecutive` and `Logs.BranchIdsConsecutive` state the part that does hold: once the allocated id is written, the next allocation is the following integer.

## Model

| member | source | states |
|---|---|---|
| LogErrors.IntToString | llyra/errors/components/logs.py:15 | an id is rendered as Python prints it: non-empty, a minus sign exactly for negatives, and never a backtick, so the backticks around it in a message stay unambiguous |
| LogErrors.NatToStringRoundTrip | llyra/errors/components/logs.py:15 | the decimal digits printed for a natural number read back as that number |
| LogErrors.IntToStringInjective | llyra/errors/components/logs.py:28 | different ids print differently |
| LogErrors.Message | llyra/errors/components/logs.py:2-59 | the message of each error kind: the section-not-created text has the id between backticks at a fixed place; the branch-not-created text names the branch first and the section last; only the operation-failed error has an empty text |
| LogErrors.KindMarks | llyra/errors/components/logs.py:36-52 | the fixed texts "Section hasn't been set.", "Branch hasn't been set." and "Inference mode not compatible." differ from each other and from the id-carrying texts in their first, eighth or ninth character |
| LogErrors.SectionNotCreatedInjective | llyra/errors/components/logs.py:15 | the section-not-created message determines its id |
| LogErrors.BranchNotCreatedInjective | llyra/errors/components/logs.py:28 | the branch-not-created message determines both its branch id and its section id |
| LogErrors.MessageDeterminesError | llyra/errors/components/logs.py:2-59 | no two different log errors carry the same message |
| LogOperations.FindBranch | llyra/components/logs/utils/operations.py:21-25 | the first branch the filter `belonging == section and id == id` selects: it matches, no earlier branch matches, and `None` means no branch matches |
| LogOperations.GetSection | llyra/components/logs/utils/operations.py:63-69 | a row is returned exactly when the id is stored; in a valid database it is the row with that id and it has a type |
| LogOperations.GetBranch | llyra/components/logs/utils/operations.py:84-91 | a branch is returned only if it is stored in the section and matches both the section and the id; `None` means no stored branch matches |
| LogOperations.MaxOf | llyra/components/logs/utils/operations.py:110-111 | `max(ids)` is an element of the ids and no id exceeds it |
| LogOperations.LatestSectionId | llyra/components/logs/utils/operations.py:96-114 | `None` exactly when there are no sections, otherwise a stored id that no stored id exceeds |
| LogOperations.LatestBranchId | llyra/components/logs/utils/operations.py:119-138 | only branches belonging to the section count; `None` exactly when there are none, otherwise the id of such a branch that no such branch exceeds |
| LogOperations.Attached | llyra/components/logs/utils/operations.py:32-39 | the stored branch belongs to the section and keeps the id and iterations it was given |
| LogOperations.Upsert | llyra/components/logs/utils/operations.py:32-36 | the written branch replaces the matching branch, or is appended when none matches; the length grows by one exactly when none matched; every other branch keeps its place; nothing else is introduced |
| LogOperations.UpsertFinds | llyra/components/logs/utils/operations.py:21-36 | after the write, the branch filter finds exactly the written branch |
| LogOperations.UpsertKeepsUnique | llyra/components/logs/utils/operations.py:21-37 | a write keeps the branch ids of a section unique |
| LogOperations.Committed | llyra/components/logs/utils/operations.py:27-40 | an existing row takes model, addition, role and temperature from the given section and the written branch, and keeps its id, type and creation time; an unknown section is inserted with the branch appended |
| LogOperations.CommitKeepsValid | llyra/components/logs/utils/operations.py:18-44 | a write keeps the whole database valid: rows under their own ids with a type, unique branch ids, every branch with an iteration, one iteration per branch in a call section |
| LogOperations.UpdateRecord | llyra/components/logs/utils/operations.py:7-48 | the database afterwards is the old one with the committed row at the section's id, and nothing else changes; it returns the stored branch and section |
| Logs.NewSectionIdFresh | llyra/components/logs/definition.py:43-49 | a new section id is non-negative, not stored, greater than every stored id, and 0 exactly when nothing is stored |
| Logs.SectionIdsConsecutive | llyra/components/logs/definition.py:43-49 | once the allocated section is written, the next allocation is one more |
| Logs.NewBranchIdFresh | llyra/components/logs/definition.py:72-80 | a new branch id is non-negative, not found in the section, greater than the ids of its branches, and 0 exactly when the section has none |
| Logs.BranchIdsConsecutive | llyra/components/logs/definition.py:72-80 | once the allocated branch is written, the next allocation in that section is one more |
| Logs.Log.constructor | llyra/components/logs/definition.py:16-26 | a new log has section, branch and iterations unset and is valid |
| Logs.Log.ChangeSection | llyra/components/logs/definition.py:29-52 | an unknown non-negative id fails with the section-not-created error and changes nothing; a stored id selects the stored row; a negative id starts a new section with the next id; on success branch and iterations are cleared |
| Logs.Log.ChangeBranch | llyra/components/logs/definition.py:54-80 | without a section it fails with the section-not-set error; a stored id selects that branch and its iterations; an unknown id fails with the branch-not-created error naming section then branch; a negative id starts an empty branch with the next id; the section is never changed |
| Logs.Log.Call | llyra/components/logs/definition.py:83-114 | fails, with nothing changed, on no section, then on no branch, then on a chat section or a branch that already holds an iteration; otherwise the branch holds exactly the one new iteration, the section becomes a call section with the new model and temperature and its addition and role kept, only that section's row changes, and `get` returns the cursor |
| Logs.Log.Chat | llyra/components/logs/definition.py:116-153 | fails, with nothing changed, on no section, then on no branch, then only on a call section; otherwise the iteration is appended after the earlier ones, model, addition, role and temperature are overwritten, only that section's row changes, and `get` returns the cursor |
| Logs.Log.Commit | llyra/components/logs/definition.py:112-114 | the write both record methods end with: the cursor becomes the stored section and branch, the database stays valid, and `get` reads the cursor back |
| Logs.Log.Get | llyra/components/logs/definition.py:156-196 | a negative id gives the invalid-input error before any lookup; then an unknown section, then an unknown branch, gives its error; when both ids are stored, the result is the snapshot of the stored section's columns and the stored branch with that id |
| Logs.FirstCallRecorded | tests/logs/test_logs.py:155-177 | on a fresh database, a new section, a new branch and one call give section 0 of type call with branch 0 holding the one iteration, and branch 1 is reported missing |
| Logs.UnwrittenSectionIdReused | llyra/components/logs/definition.py:43-49 | starting two new sections without recording anything gives both the id 0 |
| Common.Iterated | llyra/components/prompts/defination.py:59-67 | the history after `iterate`: the old history is kept as a prefix only with `keep`, exactly one record is appended at the end when there is one, and otherwise the history is unchanged or empty |
| ComponentPrompts.Prompt.constructor | llyra/components/prompts/defination.py:7-10 | a new builder has an empty history |
| ComponentPrompts.Prompt.Call | llyra/components/prompts/defination.py:13-23 | the single-call prompt is the content unchanged, and the history is not touched |
| ComponentPrompts.Prompt.Chat | llyra/components/prompts/defination.py:25-49 | one record more than the history, two with a non-empty addition; the addition record comes first, then the history unchanged, then the user record last; the history itself is only read |
| ComponentPrompts.Prompt.Iterate | llyra/components/prompts/defination.py:52-67 | the new history is the old one, or empty without `keep`, plus the record when role and content are both given |
| BasePrompts.Prompt.constructor | llyra/base/prompts.py:6-9 | a new builder has an empty history |
| BasePrompts.Prompt.Make | llyra/base/prompts.py:31-43 | the record carries the given role and content |
| BasePrompts.Prompt.Iterate | llyra/base/prompts.py:12-27 | the new history is the old one, or empty without `keep`, plus the record when role and content are both given |
| RemotePrompts.PromptRemote.constructor | llyra/remote/prompts.py:7-10 | a new builder starts from a new base builder with an empty history |
| RemotePrompts.PromptRemote.Chat | llyra/remote/prompts.py:13-41 | the user record is always last. A non-empty addition under a prompt role other than `system` is the first record, and the system value is `None`. Under `system` it is the system value and not a record. Without an addition the system value is `None`. The history is unchanged between. |
| RemotePrompts.SystemValueExclusive | llyra/remote/prompts.py:29-36 | the system value is set exactly for a non-empty addition under the `system` role, and the addition is then not among the records |
| RemotePrompts.PromptRemote.Call | llyra/remote/prompts.py:45-56 | the single-call prompt is the content unchanged |
| LocalPrompts.Make | llyra/local/prompts.py:2-13 | the record maps exactly the role to the content |
| LocalPrompts.OrEmpty | llyra/local/prompts.py:39-40 | `role or ''`: the role when set, the empty string otherwise |
| LocalPrompts.Prompt.constructor | llyra/local/prompts.py:20-26 | a new builder has an empty history |
| LocalPrompts.Prompt.Call | llyra/local/prompts.py:29-44 | the prompt is the input role, then the content, then the output role, each unset role counting as empty; with both unset it is the content |
| LocalPrompts.Prompt.Chat | llyra/local/prompts.py:46-69 | the history comes first and unchanged, then the addition record when the addition is non-empty, then the user record last |
| LocalPrompts.Prompt.Iterate | llyra/local/prompts.py:72-87 | the new history is the old one, or empty without `keep`, plus the record when role and content are both given |
| LocalPrompt.Prompt | llyra/local/prompt.py:2-16 | the length is the sum of the three lengths, the prompt starts with the input role and ends with the output role |
| LocalPrompt.MessageAtInputOffset | llyra/local/prompt.py:14 | the message sits at offset `len(input role)` |
| LocalPrompt.PromptInjective | llyra/local/prompt.py:14 | under the same roles, different messages give different prompts |
| LocalLogs.New | llyra/local/logs.py:4-35 | a chat record with the given id, model, prompt, role, temperature and strategy, and no iterations |
| LocalLogs.HistoryBoundedByCounter | llyra/local/logs.py:66-83 | records with strictly increasing ids between 1 and the counter number at most the counter |
| LocalLogs.Log.constructor | llyra/local/logs.py:41-48 | counter 0 and an empty history |
| LocalLogs.Log.Call | llyra/local/logs.py:51-83 | the counter rises by one and one call record with that id and exactly the one iteration is appended; ids stay strictly increasing and within the counter |
| LocalLogs.Log.Chat | llyra/local/logs.py:85-136 | with `keep` and a chat record last, only that record changes: it gains the iteration and keeps its id and settings, and the counter stays. Otherwise the counter rises by one and a new chat record with that id and the one iteration is appended. Earlier records never change. |
| LocalStrategys.Necessary | llyra/local/strategys.py:7-33 | a warning for the input role, output role or stop exactly when it is unset or empty, and for the token limit exactly when it is unset or 0, in the order checked, each at most once |
| LocalStrategys.Override | llyra/local/strategys.py:135-144 | a `None` argument keeps the current value; any other argument, `''` and `0` included, replaces it |
| LocalStrategys.OverrideIdempotent | llyra/local/strategys.py:135-144 | repeating an update changes nothing more, and an all-`None` update changes nothing |
| LocalStrategys.Strategy.constructor | llyra/local/strategys.py:40-61 | every call and chat setting is unset |
| LocalStrategys.Strategy.Call | llyra/local/strategys.py:121-150 | each call setting is overridden by its argument; the warnings are those for the updated settings; it fails with the temperature text exactly when no temperature is set before or by the call, after the fields are written; chat settings are untouched |
| LocalStrategys.Strategy.Chat | llyra/local/strategys.py:152-185 | the same for the chat settings, prompt included; call settings are untouched |
| ModelPath.Name | llyra/local/config.py:36-49 | a name ending in `.gguf` loses exactly that ending, any other name is returned as is (`llyra/local/configs.py:7-20` defines the same function) |
| ModelPath.Folder | llyra/local/config.py:52-65 | the result ends with `/`, starts with the directory and is at most one character longer; it equals the directory exactly when that already ends with `/` (`llyra/local/configs.py:23-36` defines the same function) |
| ModelPath.Path | llyra/local/config.py:68-84 | the path ends with `.gguf` and starts with the directory and with the normalised directory |
| ModelPath.NameRemovesExtension | llyra/local/config.py:44-47 | `name(x + '.gguf') == x` |
| ModelPath.NameStripsOnce | llyra/local/configs.py:15-16 | `name('a.gguf.gguf') == 'a.gguf'`, so `name` is not idempotent |
| ModelPath.FolderIdempotent | llyra/local/config.py:60-63 | normalising a directory twice equals normalising it once |
| ModelPath.PathIgnoresTrailingSlash | llyra/local/config.py:59-82 | `path(m, d) == path(m, d + '/')` when `d` does not end with `/` |
| ModelPath.PathIgnoresExtension | llyra/local/config.py:44-82 | `path(m, d) == path(m + '.gguf', d)` when `m` does not end with `.gguf` |
| ModelPath.PathRecoversName | llyra/local/config.py:77-82 | the part of the path after the folder is the normalised name plus `.gguf`, and `name` recovers the normalised name from it |
| LocalConfigs.Config.constructor | llyra/local/configs.py:43-48 | the configuration file is `config/config.json` |
| LocalConfigs.Config.Load | llyra/local/configs.py:51-102 | a non-empty `path` replaces the configuration file. An unreadable file fails with the text for a given or a default path. Every setting is taken from the file. A missing or empty model, then directory, fails with its text before normalisation. Otherwise the model name loses `.gguf`, the directory ends with `/`, the path is their join with `.gguf`, and the warnings are exactly a missing-strategy warning, then a missing-format warning, each only when that setting is missing or empty. |

## Left out

- Database session mechanics (`select`, `exec`, `commit`, `refresh`, `close`): the session is the in-memory map of `Logbase`.
- `LogbaseOperationFailed` raising: a failure inside the database driver cannot be stated on the map, so no operation takes that path. The error kind and its empty text are modelled.
- JSON encoding of iterations and roles: stored values are the decoded ones, so encoding followed by decoding is the identity.
- The helper modules that define `Section`, `Branch` and the `convert_*` functions in the shipped version are not part of this model. Row shapes follow `llyra/components/logs/definition.py` and `tests/logs/test_logs.py`.
- `make_new_inference` (`llyra/components/prompts/utils`) is not part of this model. Its `{'role', 'content'}` record shape follows `tests/prompts/test_prompts.py`.
- Timestamps (`time.time()`, `create_at`): passed in as the parameter `now`.
- Floating-point temperatures are `real`. They are only stored and compared with `None`.
- Object identity of database rows: Python may hand the cursor the very row object the session holds, while the model copies values. With one `Log` per database, both give the same rows. Several `Log` objects on one database are not modelled, because `Logs.Log.Valid` requires the cursor to agree with the stored rows.
- The subclass relation of `PromptRemote` to the base `Prompt` is modelled by holding a base builder, whose history and `Iterate` it uses.
- Python dynamic typing: role mappings and configuration values are given fixed types, such as strings, booleans and optional strings.
- `Logs.Log.constructor`: requires a valid database (`StoreValid`), while Python's `Log(logbase)` accepts any database. Every database this library writes stays valid (`LogOperations.CommitKeepsValid`), so only a database changed from outside is excluded.
- `LocalPrompt.Prompt`: an unset role makes Python raise `TypeError` on concatenation. The model requires both roles to be set instead of modelling that error.
- Warning texts of `necessary` and `Config.load`: the model returns the warning kinds in order, not the text passed to `warnings.warn`.
- File reading and parsing in `Config.load`: the parsed content is a parameter, and `None` stands for a missing file. `Config.load` in `llyra/local/config.py`, `Strategy.load`, `llyra/local/strategy.py`, `llyra/local/llama.py`, the `Model` class, `llyra/local/log.py` and `llyra/errors/remotes.py` are outside the core.
- The attributes of a `Config` that exist only after `load` are `None` before it.
