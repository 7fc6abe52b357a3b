# TwitchGPT in Dafny

TwitchGPT is a Twitch chat bot. It learns from the lines of a channel's chat
and posts text produced by a fine-tuned completion model. This project models its
deterministic core and proves properties of that model:

- `GPTBot` (TwitchGPT.py): the start-up merge of the `gpt.defaults` settings
  into every channel's configuration, and the blacklist check.
- `GPTHandler` (GPTHandler.py), one per channel:
  - the message filter;
  - learning a line into the `messages` table;
  - the cooldown gates;
  - generation and the message-count trigger;
  - the chat commands;
  - the training file built for a fine-tune;
  - the promotion that follows a succeeded fine-tune job: a `models` row is
    appended and the consumed `messages` rows are pruned.
- run.py: the argument check of `upload_file`, the arguments `create_model`
  sends, the wait loop of `wait_for_fine_tuning`, and the result of
  `stream_fine_tuning`.

Layout, one module per file:

- `wrappers.dfy`: `Option` and `Result`.
- `py.dfy`: the Python string and integer operations the bot relies on:
  `str.isspace`, `lower`, `strip`, `split(' ')`, `str(int)`, `int(str)`.
- `twitch_gpt.dfy`: class `GPTBot`, the defaults merge and the blacklist.
- `message_filter.dfy`: `filterMessage`. Each `re.sub` is modelled as the
  left-to-right scan Python performs.
- `corpus.dfy`: the two SQLite tables, as sequences in key order. It covers
  SQLite's key allocation (largest key + 1, or 1 for an empty table), the
  insert and the prune.
- `dataset.dfy`: `formatDataSet`'s text.
- `handler_spec.dfy`: the handler as a state machine on values.
- `handler.dfy`: class `GPTHandler`. Its methods update its fields in place.
  Each method is proved to end in the state `HandlerSpec` computes.
- `run.dfy`: run.py.

Several inputs are parameters rather than calls:

- Time is `now`, in whole seconds since the epoch.
- The completion service's answer is an `Option<string>`: `None` when the
  request raised.
- A fine-tune job's final status is a parameter.
- The answers of successive status polls are a sequence.
- The lines the bot sends are recorded in the `sent` log.

Where the code and the bot's intended design differ, the model follows the
code:

- Only `!commands`, `!speak` and mention replies have a cooldown. The
  privileged commands have none.
- Nothing in the code starts a fine-tune on its own. `fineTuneModel` is
  modelled as an operation a caller invokes.
- Lines written while a job trains survive its promotion, unless a `!wipe`
  came in between. A wipe restarts rowids at 1, so the next lines fall under
  the cutoff and are lost; rows written after a wipe survive only once their
  rowid exceeds the cutoff. `HandlerSpec.WipeDuringFineTuneLosesLine` proves
  that a wipe loses the next line.

## Model

| member | source | states |
|---|---|---|
| TwitchGPT.MergeChannelDefaults | TwitchGPT.py:22-24 | These settings get the default: one that is missing, and one whose value is falsy (None, False, 0, 0.0, "", [] or {}). A truthy setting is kept. Keys outside the defaults are kept. The keys are exactly the union of both. |
| TwitchGPT.MergeIdempotent | TwitchGPT.py:20-24 | Running the merge a second time changes nothing. |
| TwitchGPT.GPTBot.constructor | TwitchGPT.py:20-25 | Every channel keeps its name. Its configuration becomes the merge of its own settings with the defaults. |
| TwitchGPT.GPTBot.CheckBlacklisted | TwitchGPT.py:39-44 | The result is true iff some word matches, case-insensitively and after a word boundary. An empty list gives false. |
| TwitchGPT.BlacklistedIgnoresOrder | TwitchGPT.py:39-44 | Any reordering of the word list gives the same verdict. |
| TwitchGPT.CheckBlacklistedAsWritten | TwitchGPT.py:15-16 | The word list is never loaded, so the check raises on every message. With a loaded list it agrees with the blacklist. |
| TwitchGPT.BlacklistAsWrittenRaises | TwitchGPT.py:15-16 | As written, even an empty line cannot be judged. A loaded empty list accepts it. |
| MessageFilter.FilterMessage | GPTHandler.py:113-127 | The rejection comes iff the blacklist matches. Otherwise the text has no "http" followed by a non-space character. It has no such "@" either when mentions are disallowed. It has no two adjacent spaces and no whitespace at either end. |
| MessageFilter.FilterIdempotent | GPTHandler.py:113-127 | Filtering a filtered text returns it unchanged, unless the blacklist now rejects it. |
| MessageFilter.FilterNotIdempotent | GPTHandler.py:113-127 | With the list `["a b"]`, the line `a httpz b` passes and becomes `a b`, which the filter then rejects. |
| MessageFilter.FilterKeepsWellFormed | GPTHandler.py:113-127 | The filter changes nothing it need not: a text without links, without mentions when they are disallowed, without double spaces and without whitespace at its ends comes back unchanged unless blacklisted. |
| MessageFilter.StripTokensClean | GPTHandler.py:118 | After the substitution, no match of the pattern is left. |
| MessageFilter.StripPreserves | GPTHandler.py:121 | Removing mentions creates no new link. |
| MessageFilter.CollapseNoDouble | GPTHandler.py:125 | After collapsing runs of spaces, no two spaces are adjacent. |
| MessageFilter.CollapsePreserves | GPTHandler.py:125 | Collapsing spaces creates no new link or mention. |
| MessageFilter.StripShape | GPTHandler.py:126 | `strip()` keeps the earlier guarantees and leaves no whitespace at either end. |
| Py.Strip | GPTHandler.py:126 | The result is a slice of the input with only whitespace removed before and after it, and with no whitespace at either end. |
| Py.SplitJoin | GPTHandler.py:242 | Joining the pieces of `split(' ')` back together gives the line. |
| Py.ParseIntRoundTrip | GPTHandler.py:290 | `int(str(n)) == n` for every integer. |
| Corpus.NextRowid | GPTHandler.py:104 | The new rowid is the largest rowid in use plus 1: it exceeds every rowid, and for positive rowids one of them is exactly one below it. It is 1 for an empty table. |
| Corpus.NextRowidAfterLast | GPTHandler.py:104 | In a table in key order the new rowid is the last row's plus 1. |
| Corpus.NextIteration | GPTHandler.py:195 | The new iteration is the largest iteration in use plus 1: it exceeds every iteration, and for positive iterations one of them is exactly one below it. It is 1 for an empty table. |
| Corpus.NextIterationAfterLast | GPTHandler.py:195 | In a models table in key order the new iteration is the last row's plus 1. |
| Corpus.Append | GPTHandler.py:104 | The insert keeps the old rows as a prefix and adds one row holding the text, with rowid `NextRowid` (largest + 1) as SQLite assigns it. It keeps rowids increasing. |
| Corpus.AppendModel | GPTHandler.py:195 | The insert keeps the old rows and adds one row with the next iteration. It keeps iterations increasing. |
| Corpus.Prune | GPTHandler.py:234 | The survivors are exactly the rows with rowid above the cutoff. |
| Corpus.PruneSuffix | GPTHandler.py:234 | On a table in key order, the deleted rows form a prefix. The survivors keep their order. |
| Corpus.PruneIdempotent | GPTHandler.py:234 | Pruning again with the same or any smaller cutoff deletes nothing. |
| Corpus.PruneKeepsOrder | GPTHandler.py:234 | A table in key order is still in key order after a prune. |
| Corpus.PruneOrdered | GPTHandler.py:234 | On a table in key order, a prune leaves a suffix in key order, all above the cutoff, that a second prune keeps. |
| Corpus.AppendAllExtends | GPTHandler.py:99-111 | N inserts add N rows after the old ones, holding the N texts in order. |
| Corpus.PruneKeepsLaterRows | GPTHandler.py:231-239 | With the snapshot's last rowid as cutoff, exactly the rows added after the snapshot survive. |
| Corpus.WritesDuringTrainingSurvive | GPTHandler.py:131-132 | Texts inserted after the snapshot all survive the prune, in order. |
| Corpus.WipeThenWriteIsPruned | GPTHandler.py:262 | After a wipe, allocation restarts at rowid 1, so the next row falls under any cutoff of 1 or more. |
| Corpus.InsertAsWritten | GPTHandler.py:104 | The insert as written succeeds only for a one-character text. |
| Corpus.InsertAsWrittenRejectsLongText | GPTHandler.py:104 | As written, "hi" is not stored. The intended insert stores it. |
| DataSet.JsonlAppend | GPTHandler.py:210-214 | The text for two lists of rows is the concatenation of their texts. The empty list gives "". |
| DataSet.JsonlSnoc | GPTHandler.py:212-213 | One more row appends exactly its record. |
| DataSet.JsonlRoundTrip | GPTHandler.py:210-214 | When no text holds a double quote, the completions read back in row order. |
| DataSet.QuotedTextMisread | GPTHandler.py:213 | The completion is not escaped: a record whose text holds a double quote never reads back as that text. |
| DataSet.UnescapedQuoteBreaksRecord | GPTHandler.py:213 | Example: the record of the single text `a"b` does not parse at all. |
| HandlerSpec.InitCooldowns | GPTHandler.py:28-36 | Exactly the gates speak, commands and reply exist. No other field changes. |
| HandlerSpec.InitialGates | GPTHandler.py:28-36 | After initialisation, reply opens from 120 seconds past the epoch, and speak and commands from 300. |
| HandlerSpec.Initial | GPTHandler.py:15-26 | The settings and both tables are the ones given. The counter is 0 and nothing has been sent. The ignored users are lower-cased. The invariant holds. |
| HandlerSpec.GenerateAndSend | GPTHandler.py:84-97 | The counter is 0 afterwards, whatever the service returns. One line is sent iff a text came back and sending is on. That line is the text, prefixed with `@target ` when it answers someone (lines 92-93). Nothing else changes. |
| HandlerSpec.WriteMessage | GPTHandler.py:99-111 | One row is added iff the filtered text is non-empty. The row holds that text under the next rowid, with the counter +1. Otherwise the state is unchanged. |
| HandlerSpec.WriteMessageAsWritten | GPTHandler.py:104 | As written, a non-empty filtered text is stored only when it has exactly one character. |
| HandlerSpec.WriteMessageAsWrittenFails | GPTHandler.py:104 | A stored line of two or more characters raises as written. The intended write adds its row. |
| HandlerSpec.CommandOfWord | GPTHandler.py:242 | The command is the word between `!` and the first space, lower-cased. |
| HandlerSpec.SetAfterArg | GPTHandler.py:288-292 | An accepted threshold is always above 0. |
| HandlerSpec.SetAfter | GPTHandler.py:286-297 | The threshold becomes the argument when it is valid and is unchanged otherwise. One reply is sent. Nothing else changes. |
| HandlerSpec.SetAfterRoundTrip | GPTHandler.py:286-293 | `!setafter` followed by str(n), for n > 0, is recognised and sets the threshold to n. |
| HandlerSpec.SetAfterAsWritten | GPTHandler.py:293-297 | As written, the threshold is stored and the usage line is then sent instead of the confirmation. |
| HandlerSpec.SetAfterAsWrittenMisreports | GPTHandler.py:295 | For `!setafter n`, the code as written sends the usage line. The intended code sends something else. |
| HandlerSpec.ToggleUnsetFlag | GPTHandler.py:251 | Reading a never-assigned flag raises. An assigned flag flips. |
| HandlerSpec.FreshFlagToggle | GPTHandler.py:250-258 | A fresh handler raises on `!clear` as written. With the flag initialised, `!clear` flips it, and the as-written toggle gives the same new value. |
| HandlerSpec.PublicCommandFrame | GPTHandler.py:243-248 | `!commands` and `!speak` change no setting and no table. |
| HandlerSpec.PrivilegedCommandFrame | GPTHandler.py:249-299 | The privileged commands never touch the gates, the models table or the model. messages is either kept or emptied. A changed threshold is above 0. |
| HandlerSpec.UnprivilegedCommandHarmless | GPTHandler.py:249 | A sender who is not privileged changes no setting and no table. |
| HandlerSpec.WipeEmptiesMessages | GPTHandler.py:259-267 | A privileged `!wipe` empties messages and leaves models unchanged. |
| HandlerSpec.ToggleFlips | GPTHandler.py:268-276 | A privileged `!toggle` flips sending, and a second one restores it. |
| HandlerSpec.PrivilegedGenerateOn | GPTHandler.py:249-299 | Among the privileged commands only `!setafter` with an accepted argument moves the threshold, to that argument. |
| HandlerSpec.SetAfterOnlyPositive | GPTHandler.py:286-297 | The threshold changes only through a privileged `!setafter`. It becomes that command's positive argument. |
| HandlerSpec.CommandsGate | GPTHandler.py:243-245 | `!commands` answers and stamps its gate iff the cooldown has passed. Otherwise nothing changes. |
| HandlerSpec.SpeakGate | GPTHandler.py:246-248 | `!speak` generates and stamps its gate iff the cooldown has passed. Otherwise nothing changes. |
| HandlerSpec.IgnoredUserChangesNothing | GPTHandler.py:66-67 | A line from an ignored user, in any letter case, changes nothing. |
| HandlerSpec.CounterBelowThreshold | GPTHandler.py:77-78 | After any other line, the counter is below the threshold or was just reset. |
| HandlerSpec.StoredLineTriggersGeneration | GPTHandler.py:75-78 | Suppose a learned line brings the counter to the threshold. Then a generation runs: the counter resets, and the line is sent iff a text came back and sending is on. |
| HandlerSpec.ClosedReplyGate | GPTHandler.py:70-74 | A mention while the reply gate is closed, below the threshold, changes nothing. |
| HandlerSpec.OpenReplyGate | GPTHandler.py:70-74 | With sending on and a positive threshold, a mention with the reply gate open sends the text with the `@sender ` prefix of lines 92-93, and stamps the gate. |
| HandlerSpec.OpenReplyGateStamps | GPTHandler.py:70-74 | Every mention with the reply gate open stamps the gate, whatever the settings and whatever the service returns. |
| HandlerSpec.RouteValid | GPTHandler.py:66-76 | Routing a line keeps the handler invariant: the gates are set up and both tables stay in key order. |
| HandlerSpec.OnPubMsgValid | GPTHandler.py:64-78 | Every chat line keeps the handler invariant. |
| HandlerSpec.BeginFineTune | GPTHandler.py:131-134 | An empty table raises. Otherwise the snapshot holds the last rowid, the row count and the training text. |
| HandlerSpec.SetModel | GPTHandler.py:191-198 | The model switches, and exactly one models row is appended with the next iteration. |
| HandlerSpec.PruneMessages | GPTHandler.py:231-239 | Exactly the rows at or below the cutoff are deleted. Nothing else changes. |
| HandlerSpec.FineTuneResult | GPTHandler.py:178-189 | The new model is returned iff the status is `succeeded`. |
| HandlerSpec.FineTuneOutcome | GPTHandler.py:178-189 | Status `succeeded` appends one models row (next iteration, snapshot length) and switches the model. It deletes a prefix: exactly the rows up to the cutoff, in order. A second prune is a no-op, and the invariant holds. Any other status changes nothing. |
| HandlerSpec.WriteAllAppends | GPTHandler.py:99-111 | A run of learned lines appends exactly their non-empty filtered texts, in order. |
| HandlerSpec.WritesDuringFineTuneSurvive | GPTHandler.py:131-182 | Lines learned between the snapshot and a succeeded promotion are exactly what remains, in order. |
| HandlerSpec.WipeDuringFineTuneLosesLine | GPTHandler.py:259-266 | After a `!wipe` between the snapshot and the promotion, the next learned line is pruned. |
| Handler.GPTHandler.constructor | GPTHandler.py:15-26 | The fields start as `Initial` describes. A database in key order gives a valid handler. |
| Handler.GPTHandler.InitCooldowns | GPTHandler.py:28-36 | The fields become `InitCooldowns` of the old ones. |
| Handler.GPTHandler.GenerateAndSendMessage | GPTHandler.py:84-97 | The new state is `GenerateAndSend` of the old one. |
| Handler.GPTHandler.WriteMessage | GPTHandler.py:99-111 | The new state is `WriteMessage` of the old one. The result says whether a row was stored. |
| Handler.GPTHandler.StoreMessage | GPTHandler.py:101-111 | A non-empty filtered text becomes the next row and is counted; otherwise nothing changes. The result says which. |
| Handler.GPTHandler.SetAfter | GPTHandler.py:286-297 | The new state is `SetAfter` of the old one. |
| Handler.GPTHandler.HandleCommands | GPTHandler.py:241-299 | The new state is `HandleCommands` of the old one. |
| Handler.GPTHandler.PublicCommand | GPTHandler.py:243-248 | The new state is `PublicCommand` of the old one. |
| Handler.GPTHandler.PrivilegedCommand | GPTHandler.py:249-299 | The new state is `PrivilegedCommand` of the old one. |
| Handler.GPTHandler.OnPubMsg | GPTHandler.py:64-78 | The new state is `OnPubMsg` of the old one, and the invariant is kept. |
| Handler.GPTHandler.Route | GPTHandler.py:66-76 | The new state is `Route` of the old one: a command, a gated reply, or a line to learn. |
| Handler.GPTHandler.FormatDataSet | GPTHandler.py:210-214 | The loop builds the records of all rows, in order. |
| Handler.GPTHandler.SetModel | GPTHandler.py:191-198 | The new state is `SetModel` of the old one. |
| Handler.GPTHandler.PruneMessages | GPTHandler.py:231-239 | The new state is `PruneMessages` of the old one. |
| Handler.GPTHandler.BeginFineTune | GPTHandler.py:131-134 | The snapshot is `BeginFineTune` of the current state. |
| Handler.GPTHandler.CompleteFineTune | GPTHandler.py:175-189 | Returns the model iff the status is `succeeded`. The new state is `CompleteFineTune` of the old one, and the invariant is kept. |
| Handler.GPTHandler.FineTuneModel | GPTHandler.py:129-189 | An empty table raises IndexError (None) and changes nothing. Otherwise the result is `Some` of the job's outcome, with None inside for a job that did not succeed, and the state follows the snapshot and the final status. |
| Run.UploadSourceOf | run.py:27-33 | ValueError is raised iff both or neither of file and content are given. Otherwise the upload uses the one given. |
| Run.CreateArgs | run.py:49-66 | `training_file` is always present. `validation_file` is present iff a truthy path was given. Any other key is present iff it is an allowed option and its value is not None, and it holds the value passed. |
| Run.WaitForFineTuning | run.py:75-81 | The loop stops on the first status other than `pending`, after only `pending` before it. If every poll said `pending`, it stops only when the polls run out. |
| Run.StreamResult | run.py:107-115 | The model name is returned iff the final status is `succeeded`, otherwise None. |
| Run.StreamResultMatchesHandler | run.py:110-115 | The script and the bot report the same outcome for the same final answer. |

## Left out

- Remote services: completions, file upload and fine-tune jobs (create,
  retrieve, the event stream). Their answers are parameters.
- The polling and reconnect loops of `fineTuneModel` and of
  `stream_fine_tuning`: they end only when the remote job does. Only the final
  status they hand on is modelled; `wait_for_fine_tuning` is modelled on a
  finite sequence of answers.
- `time.sleep`, `datetime.now`, `time.time`: `now` is a parameter. The
  second `datetime.now()` that stamps a gate is taken equal to the one that
  checked it. Elapsed time is whole seconds, not a float.
- SQLite mechanics: connections, timeouts, WAL, adapters, `vacuum`, the
  `config` table. A table is the sequence of its rows in key order.
- Logging, `config.save()`, the IRC transport of `send_message`: sent lines
  are only recorded in `sent`.
- `load_blacklist`, `setup_logger`, `load_config`, `main`: file reading and
  process setup. The blacklist is given to the bot's constructor.
- `generateMessage` and `max_tokens`: the completion request itself.
- `uploadDataSet` and the upload in `upload_file`: file reading and the remote call.
- The unused `words = message.split()` in `filterMessage`: it has no effect.
- TwitchGPT.Blacklisted: `\b` is taken over ASCII word characters. Each word is
  matched literally, not as a regular expression. Case folding is ASCII only.
- Py.Lower: ASCII letters only.
- MessageFilter.FilterIdempotent: holds only while the filtered text is not
  blacklisted. The blacklist judges the raw line, and removing a link can join
  two words into a listed phrase (`MessageFilter.FilterNotIdempotent`), so the
  program does not keep `filter(filter(m)) == filter(m)` for every line.
- Corpus.NextRowid: "largest plus 1" holds for positive rowids below 2^63 - 1.
  `MaxOf` counts an empty or non-positive table as 0, and SQLite's random
  choice of an unused rowid once 2^63 - 1 is in use is not modelled.
- HandlerSpec.CompleteFineTune: the creation date is a parameter, and the
  subscript `resp["result_files"]["created_at"]` of GPTHandler.py:180 is taken
  to succeed. If the service answers with a list of result files there, the
  line raises TypeError before `setModel` and `pruneMessages`, so a succeeded
  job would change neither table; the response's shape is not part of this model.
- Py.Value: YAML values other than None, booleans, integers, floats, strings,
  lists and mappings (dates, sets, custom tags) are not modelled.
- Py.ParseInt: ASCII digits only. Python's `int()` also accepts every other
  Unicode decimal digit (`int('٣') == 3`), so `!setafter` with such digits sets
  the threshold in the program but gets the usage line in the model.
- TwitchGPT.GPTBot.constructor: `allowMentions` is a constructor parameter.
  TwitchGPT.py never assigns `allow_mentions`, yet GPTHandler.py:120 reads it;
  it can only come from the retroBot base class, which is not part of this
  model (if it does not, every learned line raises as `blacklist_words` does).
  The setting is a bool here; the program tests `== False`, so a None value
  would keep mentions, which the model does not capture.
- Handler.GPTHandler.FormatDataSet: the text is not JSON Lines in the sense of
  RFC 8259: the prompt holds a raw line feed and the completion is not
  escaped. The model states only the concatenation and when it reads back.
- HandlerSpec.ChatMessage: `userId` is an integer. The message class of the
  bot framework is not part of this model, so whether its `user_id` can equal
  the integer allow-list is not known.
- HandlerSpec.OnPubMsg: an exception inside a handler (see Findings) is not
  modelled on the chat path. The chat path uses the intended behaviour.
- Concurrency and crash recovery between promotion and prune: the code starts
  no threads and the model runs one operation at a time. Interleaving is
  modelled as a sequence of operations between the snapshot and the
  promotion.

## Findings

| source | as written | input that shows it | evidently intended | confidence | as-written member | corrected member |
|---|---|---|---|---|---|---|
| GPTHandler.py:104 | `(message)` is the string itself, so each character is one binding for the single placeholder | any filtered line of two or more characters, e.g. "hi" | insert one row holding the text | not executed | HandlerSpec.WriteMessageAsWritten | HandlerSpec.WriteMessage |
| GPTHandler.py:295 | `"..." + self.generate_on` adds an int to a str. The TypeError comes after the threshold is stored, and the bare `except` sends the usage line | `!setafter 5` from a moderator | store 5 and confirm it | not executed | HandlerSpec.SetAfterAsWritten | HandlerSpec.SetAfter |
| GPTHandler.py:251 | `clear_logs_after` (and `unique`, line 278) is never assigned, so `!clear` (and `!unique`) raise AttributeError | the first `!clear` from a moderator | initialise the flag and toggle it | not executed | HandlerSpec.ToggleUnsetFlag | HandlerSpec.PrivilegedCommand |
| TwitchGPT.py:15-16 | the word-list loading is commented out, so `checkBlacklisted` raises AttributeError and no chat line is ever learned | any chat line that is not a command or a mention | load the word list at start-up | not executed | TwitchGPT.CheckBlacklistedAsWritten | TwitchGPT.GPTBot.CheckBlacklisted |
