/**
 * The per-channel chat handler of GPTHandler.py as a state machine on values.
 * A State holds the handler's fields, the two tables of its database and the
 * chat lines it has sent. Wall-clock time is the `now` parameter (seconds
 * since the epoch); the text the completion service returns, and the status
 * of a fine-tuning job, are parameters too.
 */
module HandlerSpec {
  import opened Wrappers
  import opened Py
  import opened Corpus
  import MessageFilter
  import TwitchGPT
  import DataSet

  /** Ids that may run privileged commands without being a moderator or the broadcaster. */
  const AllowListedIds: seq<int> := [54714257, 37749713]

  const CommandsReply := "You can find a list of my commands here: https://www.retrontology.com/index.php/neuralbronson-commands/"
  const ClearOffReply := "No longer clearing memory after message! MrDestructoid"
  const ClearOnReply := "Clearing memory after every message! MrDestructoid"
  const WipeReply := "Wiped memory banks. MrDestructoid"
  const ToggleOffReply := "Messages will no longer be sent! MrDestructoid"
  const ToggleOnReply := "Messages are now turned on! MrDestructoid"
  const UniqueOffReply := "Messages will no longer be unique. MrDestructoid"
  const UniqueOnReply := "Messages will now be unique. MrDestructoid"
  const AliveReply := "Yeah, I'm alive and learning. MrDestructoid"

  /** What the handler reads from the bot that owns it. */
  datatype Parent = Parent(username: string, allowMentions: bool, blacklistWords: seq<string>)

  /** One chat line as the IRC layer delivers it. */
  datatype ChatMessage = ChatMessage(username: string, content: string, mod: bool, broadcaster: bool, userId: int)

  datatype State = State(
    messageCount: int,
    generateOn: int,
    sendMessages: bool,
    model: string,
    ignoredUsers: seq<string>,
    cooldowns: map<string, int>,
    lastUsed: map<string, int>,
    clearLogsAfter: bool,
    unique: bool,
    messages: seq<Row>,
    models: seq<ModelRow>,
    sent: seq<string>)

  /** The three cooldown gates are set up. */
  predicate HasCooldowns(st: State) {
    && "speak" in st.cooldowns && "commands" in st.cooldowns && "reply" in st.cooldowns
    && "speak" in st.lastUsed && "commands" in st.lastUsed && "reply" in st.lastUsed
  }

  /** The invariant every handler keeps: gates set up, both tables keyed in increasing order. */
  ghost predicate Valid(st: State) {
    HasCooldowns(st) && Ordered(st.messages) && ModelsOrdered(st.models)
  }

  // ---------------------------------------------------------------------------
  // Construction and cooldowns

  /** initCooldowns: speak and commands every 300 seconds, replies every 120, all last used at the epoch. */
  function InitCooldowns(st: State): (r: State)
    ensures HasCooldowns(r)
    ensures r.cooldowns.Keys == r.lastUsed.Keys == {"speak", "commands", "reply"}
    ensures r.(cooldowns := st.cooldowns, lastUsed := st.lastUsed) == st
  {
    st.(cooldowns := map["speak" := 300, "commands" := 300, "reply" := 120],
        lastUsed := map["speak" := 0, "commands" := 0, "reply" := 0])
  }

  /**
   * The handler as its constructor leaves it: counter at zero, settings from
   * the channel's configuration, ignored users lower-cased, the tables as the
   * database file holds them and nothing sent.
   */
  function Initial(generateOn: int, sendMessages: bool, model: string, ignoredUsers: seq<string>,
                   clearLogsAfter: bool, unique: bool, messages: seq<Row>, models: seq<ModelRow>): (r: State)
    ensures HasCooldowns(r) && r.messageCount == 0 && r.sent == []
    ensures && r.generateOn == generateOn && r.sendMessages == sendMessages && r.model == model
            && r.clearLogsAfter == clearLogsAfter && r.unique == unique
            && r.messages == messages && r.models == models
    ensures |r.ignoredUsers| == |ignoredUsers|
    ensures forall i | 0 <= i < |ignoredUsers| :: r.ignoredUsers[i] == Lower(ignoredUsers[i])
    ensures Ordered(messages) && ModelsOrdered(models) ==> Valid(r)
  {
    InitCooldowns(State(0, generateOn, sendMessages, model,
                        seq(|ignoredUsers|, i requires 0 <= i < |ignoredUsers| => Lower(ignoredUsers[i])),
                        map[], map[], clearLogsAfter, unique, messages, models, []))
  }

  /** The gate named `key` is open: at least its cooldown has passed since it was last used. */
  predicate Ready(st: State, key: string, now: int)
    requires key in st.cooldowns && key in st.lastUsed
  {
    now - st.lastUsed[key] >= st.cooldowns[key]
  }

  /** Right after initCooldowns each gate opens once its own cooldown has passed since the epoch. */
  lemma InitialGates(st: State, now: int)
    ensures var r := InitCooldowns(st);
      && (Ready(r, "reply", now) <==> now >= 120)
      && (Ready(r, "speak", now) <==> now >= 300)
      && (Ready(r, "commands", now) <==> now >= 300)
  {
  }

  // ---------------------------------------------------------------------------
  // generateAndSendMessage, writeMessage

  /** The generated line, prefixed with `@target ` when it answers someone. */
  function Addressed(target: Option<string>, text: string): string {
    match target
    case Some(t) => "@" + t + " " + text
    case None => text
  }

  /**
   * generateAndSendMessage: the counter is reset before the completion is
   * requested, so it is zero whether or not a text comes back; a text is sent
   * only when one came back and sending is switched on.
   */
  function GenerateAndSend(st: State, target: Option<string>, generated: Option<string>): (r: State)
    ensures r.messageCount == 0
    ensures |r.sent| == |st.sent| + 1 <==> generated.Some? && st.sendMessages
    ensures generated.Some? && st.sendMessages ==> r.sent == st.sent + [Addressed(target, generated.value)]
    ensures !(generated.Some? && st.sendMessages) ==> r.sent == st.sent
    ensures r.(messageCount := st.messageCount, sent := st.sent) == st
  {
    var line := if generated.Some? && st.sendMessages then [Addressed(target, generated.value)] else [];
    st.(messageCount := 0, sent := st.sent + line)
  }

  /** filterMessage with the bot's blacklist and mention setting. */
  function Filtered(p: Parent, content: string): Option<string> {
    MessageFilter.FilterMessage(content, p.blacklistWords, p.allowMentions)
  }

  /** `if message:` in writeMessage: the filter kept a non-empty text. */
  predicate Stored(p: Parent, content: string) {
    var f := Filtered(p, content);
    f.Some? && f.value != ""
  }

  /**
   * writeMessage: exactly one row holding the filtered text is appended and
   * the counter goes up by one when the filtered text is non-empty; otherwise
   * nothing changes.
   */
  function WriteMessage(st: State, p: Parent, content: string): (r: State)
    ensures |r.messages| == |st.messages| + 1 <==> Stored(p, content)
    ensures !Stored(p, content) ==> r == st
    ensures TwitchGPT.Blacklisted(p.blacklistWords, content) ==> r == st
    ensures Stored(p, content) ==>
      && r.messages[..|st.messages|] == st.messages
      && r.messages[|st.messages|] == Row(NextRowid(st.messages), Filtered(p, content).value)
      && r.messageCount == st.messageCount + 1
      && r.(messages := st.messages, messageCount := st.messageCount) == st
    ensures Stored(p, content) ==>
      var t := r.messages[|st.messages|].text;
      t != "" && MessageFilter.WellFormed(t, p.allowMentions)
    ensures Ordered(st.messages) ==> Ordered(r.messages)
  {
    Store(st, Filtered(p, content))
  }

  /** The insert of writeMessage: a non-empty filtered text becomes the next row and is counted. */
  function Store(st: State, f: Option<string>): State {
    if f.Some? && f.value != "" then
      st.(messages := Append(st.messages, f.value), messageCount := st.messageCount + 1)
    else st
  }

  /**
   * writeMessage as written: the text is passed as the parameter sequence of
   * the insert, so sqlite3 sees one binding per character and raises (None)
   * unless the text is a single character.
   */
  function WriteMessageAsWritten(st: State, p: Parent, content: string): (r: Option<State>)
    ensures !Stored(p, content) ==> r == Some(st)
    ensures Stored(p, content) ==> (r.Some? <==> |Filtered(p, content).value| == 1)
  {
    var f := Filtered(p, content);
    if f.Some? && f.value != "" then
      match InsertAsWritten(st.messages, f.value)
      case Some(rows) => Some(st.(messages := rows, messageCount := st.messageCount + 1))
      case None => None
    else Some(st)
  }

  /** The insert as written loses every stored line of two or more characters; the intended one keeps it. */
  lemma WriteMessageAsWrittenFails(st: State, p: Parent, content: string)
    requires Stored(p, content) && |Filtered(p, content).value| >= 2
    ensures WriteMessageAsWritten(st, p, content) == None
    ensures |WriteMessage(st, p, content).messages| == |st.messages| + 1
  {
  }

  // ---------------------------------------------------------------------------
  // handleCommands

  /** `msg.content.split(' ')[0][1:].lower()` */
  function CommandOf(content: string): string {
    var first := Split(content, ' ')[0];
    Lower(if |first| > 0 then first[1..] else "")
  }

  /** The command word is what follows the `!` up to the first space, lower-cased. */
  lemma CommandOfWord(word: string, rest: string)
    requires ' ' !in word
    ensures CommandOf("!" + word + " " + rest) == Lower(word)
    ensures CommandOf("!" + word) == Lower(word)
  {
    SplitAtFirst("!" + word, ' ', rest);
    assert "!" + word + " " + rest == ("!" + word) + [' '] + rest;
    assert ("!" + word)[1..] == word;
    SplitNoSep("!" + word, ' ');
  }

  /** The command words handleCommands compares against. */
  datatype Command = Commands | Speak | Clear | Wipe | Toggle | Unique | SetAfterCmd | IsAlive | Unknown

  function ParseCommand(cmd: string): Command {
    if cmd == "commands" then Commands
    else if cmd == "speak" then Speak
    else if cmd == "clear" then Clear
    else if cmd == "wipe" then Wipe
    else if cmd == "toggle" then Toggle
    else if cmd == "unique" then Unique
    else if cmd == "setafter" then SetAfterCmd
    else if cmd == "isalive" then IsAlive
    else Unknown
  }

  /** The command a chat line asks for. */
  function CommandIn(content: string): Command {
    ParseCommand(CommandOf(content))
  }

  /** A moderator, the broadcaster or one of the allow-listed ids. */
  predicate Privileged(msg: ChatMessage) {
    msg.mod || msg.broadcaster || msg.userId in AllowListedIds
  }

  /** The record of using a gate now. */
  function Use(st: State, key: string, now: int): State {
    st.(lastUsed := st.lastUsed[key := now])
  }

  /** The `commands` and `speak` branches, open to everybody and each behind its own gate. */
  function PublicCommand(st: State, cmd: Command, now: int, generated: Option<string>): State
    requires HasCooldowns(st)
  {
    if cmd == Commands && Ready(st, "commands", now) then
      Use(st.(sent := st.sent + [CommandsReply]), "commands", now)
    else if cmd == Speak && Ready(st, "speak", now) then
      Use(GenerateAndSend(st, None, generated), "speak", now)
    else st
  }

  /** The positive integer argument of `!setafter n`, if there is one. */
  function SetAfterArg(content: string): (r: Option<int>)
    ensures r.Some? ==> r.value > 0
  {
    var parts := Split(content, ' ');
    if |parts| < 2 then None
    else
      match ParseInt(parts[1])
      case Some(n) => if n > 0 then Some(n) else None
      case None => None
  }

  function UsageReply(n: int): string {
    "Current value: " + IntToString(n) + ". To set, use: setafter [number of messages]"
  }

  /** setafter, as evidently intended: a positive argument becomes the threshold and is confirmed. */
  function SetAfter(st: State, content: string): (r: State)
    ensures r.generateOn == (if SetAfterArg(content).Some? then SetAfterArg(content).value else st.generateOn)
    ensures r.generateOn > 0 || r.generateOn == st.generateOn
    ensures r.(generateOn := st.generateOn, sent := st.sent) == st
    ensures |r.sent| == |st.sent| + 1 && r.sent[..|st.sent|] == st.sent
  {
    match SetAfterArg(content)
    case Some(n) => st.(generateOn := n, sent := st.sent + ["Messages will now be sent after " + IntToString(n) + " chat messages. MrDestructoid"])
    case None => st.(sent := st.sent + [UsageReply(st.generateOn)])
  }

  /**
   * setafter as written: the confirmation adds an int to a str, which raises
   * after the threshold has been stored, so the bare except sends the usage
   * line showing the new value.
   */
  function SetAfterAsWritten(st: State, content: string): (r: State)
    ensures r.generateOn == SetAfter(st, content).generateOn
    ensures r.sent == st.sent + [UsageReply(r.generateOn)]
  {
    match SetAfterArg(content)
    case Some(n) => st.(generateOn := n, sent := st.sent + [UsageReply(n)])
    case None => st.(sent := st.sent + [UsageReply(st.generateOn)])
  }

  /** A valid `!setafter n` is answered with the usage line as written, with the confirmation as intended. */
  lemma SetAfterAsWrittenMisreports(st: State, n: int)
    requires n > 0
    ensures var content := "!setafter " + IntToString(n);
      && SetAfterAsWritten(st, content).sent[|st.sent|] == UsageReply(n)
      && SetAfter(st, content).sent[|st.sent|] != UsageReply(n)
  {
    SetAfterRoundTrip(st, n);
    var content := "!setafter " + IntToString(n);
    var intended := SetAfter(st, content).sent[|st.sent|];
    assert intended[0] == 'M' && UsageReply(n)[0] == 'C';
  }

  /** `!setafter` followed by str(n), for any positive n, sets the threshold to n. */
  lemma SetAfterRoundTrip(st: State, n: int)
    requires n > 0
    ensures CommandIn("!setafter " + IntToString(n)) == SetAfterCmd
    ensures SetAfterArg("!setafter " + IntToString(n)) == Some(n)
    ensures SetAfter(st, "!setafter " + IntToString(n)).generateOn == n
  {
    DigitsHaveNoSpace(n);
    SetAfterCommand(IntToString(n));
    SetAfterParts(IntToString(n));
    ParseIntRoundTrip(n);
  }

  lemma SetAfterCommand(arg: string)
    ensures CommandIn("!setafter " + arg) == SetAfterCmd
  {
    CommandOfWord("setafter", arg);
    assert "!setafter " + arg == "!" + "setafter" + " " + arg;
    assert Lower("setafter") == "setafter";
  }

  lemma DigitsHaveNoSpace(n: int)
    requires n > 0
    ensures ' ' !in IntToString(n)
  {
    var digits := IntToString(n);
    assert forall i | 0 <= i < |digits| :: IsDigit(digits[i]);
  }

  lemma SetAfterParts(arg: string)
    requires ' ' !in arg
    ensures Split("!setafter " + arg, ' ') == ["!setafter", arg]
  {
    assert "!setafter " + arg == "!setafter" + [' '] + arg;
    SplitAtFirst("!setafter", ' ', arg);
    SplitNoSep(arg, ' ');
  }

  /** The branches only moderators, the broadcaster and allow-listed ids reach. */
  function PrivilegedCommand(st: State, cmd: Command, content: string): State {
    if cmd == Clear then
      st.(clearLogsAfter := !st.clearLogsAfter,
          sent := st.sent + [if st.clearLogsAfter then ClearOffReply else ClearOnReply])
    else if cmd == Wipe then
      st.(messages := [], sent := st.sent + [WipeReply])
    else if cmd == Toggle then
      st.(sendMessages := !st.sendMessages,
          sent := st.sent + [if st.sendMessages then ToggleOffReply else ToggleOnReply])
    else if cmd == Unique then
      st.(unique := !st.unique,
          sent := st.sent + [if st.unique then UniqueOffReply else UniqueOnReply])
    else if cmd == SetAfterCmd then
      SetAfter(st, content)
    else if cmd == IsAlive then
      st.(sent := st.sent + [AliveReply])
    else st
  }

  /** handleCommands: the public branch, then the privileged one. */
  function HandleCommands(st: State, msg: ChatMessage, now: int, generated: Option<string>): State
    requires HasCooldowns(st)
  {
    var cmd := CommandIn(msg.content);
    var st1 := PublicCommand(st, cmd, now, generated);
    if Privileged(msg) then PrivilegedCommand(st1, cmd, msg.content) else st1
  }

  /**
   * The `if self.flag:` of `!clear` and `!unique` as written: the constructor
   * never assigns either attribute, so None (no value) raises AttributeError.
   */
  function ToggleUnsetFlag(flag: Option<bool>): (r: Option<bool>)
    ensures r.None? <==> flag.None?
    ensures r.Some? ==> r.value != flag.value
  {
    match flag
    case Some(b) => Some(!b)
    case None => None
  }

  /**
   * On a handler fresh from the constructor as written, `!clear` raises; with the
   * flag initialised the as-written toggle is exactly the state change the model makes.
   */
  lemma FreshFlagToggle(st: State, msg: ChatMessage, now: int)
    requires HasCooldowns(st) && Privileged(msg) && CommandIn(msg.content) == Clear
    ensures ToggleUnsetFlag(None) == None
    ensures HandleCommands(st, msg, now, None).clearLogsAfter == !st.clearLogsAfter
    ensures ToggleUnsetFlag(Some(st.clearLogsAfter)) == Some(HandleCommands(st, msg, now, None).clearLogsAfter)
  {
  }

  // ---------------------------------------------------------------------------
  // on_pubmsg

  predicate IsCommand(content: string) {
    |content| > 0 && content[0] == '!'
  }

  /** The line mentions the bot: `@username` occurs in it, ignoring case. */
  predicate MentionsBot(p: Parent, content: string) {
    Contains(Lower(content), "@" + Lower(p.username))
  }

  /** The routing part of on_pubmsg: a command, a reply behind its gate, or a line to learn. */
  function Route(st: State, p: Parent, msg: ChatMessage, now: int, routed: Option<string>): State
    requires HasCooldowns(st)
  {
    if IsCommand(msg.content) then HandleCommands(st, msg, now, routed)
    else if MentionsBot(p, msg.content) then
      if Ready(st, "reply", now) then Use(GenerateAndSend(st, Some(msg.username), routed), "reply", now)
      else st
    else WriteMessage(st, p, msg.content)
  }

  /**
   * on_pubmsg: lines from ignored users are dropped; the others are routed,
   * and then a generation is attempted whenever the counter has reached the
   * threshold. `routed` is the completion a reply or `!speak` receives,
   * `triggered` the one the threshold asks for.
   */
  function OnPubMsg(st: State, p: Parent, msg: ChatMessage, now: int,
                    routed: Option<string>, triggered: Option<string>): State
    requires HasCooldowns(st)
  {
    if Lower(msg.username) in st.ignoredUsers then st
    else
      var st1 := Route(st, p, msg, now, routed);
      if st1.messageCount >= st1.generateOn then GenerateAndSend(st1, None, triggered) else st1
  }

  // ---------------------------------------------------------------------------
  // Properties of the chat path

  /** Every step keeps the gates, the table order and the settings other than those it names. */
  lemma PublicCommandFrame(st: State, cmd: Command, now: int, generated: Option<string>)
    requires HasCooldowns(st)
    ensures var r := PublicCommand(st, cmd, now, generated);
      && HasCooldowns(r) && r.cooldowns == st.cooldowns
      && r.messages == st.messages && r.models == st.models
      && r.generateOn == st.generateOn && r.sendMessages == st.sendMessages
      && r.clearLogsAfter == st.clearLogsAfter && r.unique == st.unique
      && r.model == st.model && r.ignoredUsers == st.ignoredUsers
  {
    var r := PublicCommand(st, cmd, now, generated);
    if cmd == Commands && Ready(st, "commands", now) {
      assert r.(lastUsed := st.lastUsed, sent := st.sent) == st;
    } else if cmd == Speak && Ready(st, "speak", now) {
      assert r.(lastUsed := st.lastUsed, sent := st.sent, messageCount := st.messageCount) == st;
    }
  }

  /** The privileged branch never touches the gates, the models table or the model in use, and only empties messages. */
  lemma PrivilegedCommandFrame(st: State, cmd: Command, content: string)
    ensures var r := PrivilegedCommand(st, cmd, content);
      && r.cooldowns == st.cooldowns && r.lastUsed == st.lastUsed
      && r.models == st.models && r.model == st.model && r.ignoredUsers == st.ignoredUsers
      && (r.messages == st.messages || r.messages == [])
      && r.messageCount == st.messageCount
      && (r.generateOn == st.generateOn || r.generateOn > 0)
  {
    var r := PrivilegedCommand(st, cmd, content);
    if cmd == SetAfterCmd {
      assert r.(generateOn := st.generateOn, sent := st.sent) == st;
    } else if cmd == Wipe {
      assert r.messages == [];
    } else {
      assert r.messages == st.messages && r.generateOn == st.generateOn;
    }
  }

  /** A command from anybody else never reaches the privileged branch: no setting and no table changes. */
  lemma UnprivilegedCommandHarmless(st: State, msg: ChatMessage, now: int, generated: Option<string>)
    requires HasCooldowns(st) && !Privileged(msg)
    ensures var r := HandleCommands(st, msg, now, generated);
      && r.messages == st.messages && r.models == st.models
      && r.generateOn == st.generateOn && r.sendMessages == st.sendMessages
      && r.clearLogsAfter == st.clearLogsAfter && r.unique == st.unique
  {
    PublicCommandFrame(st, CommandIn(msg.content), now, generated);
  }

  /** `!wipe` from a privileged sender empties the messages table and leaves the models table alone. */
  lemma WipeEmptiesMessages(st: State, msg: ChatMessage, now: int, generated: Option<string>)
    requires HasCooldowns(st) && Privileged(msg) && CommandIn(msg.content) == Wipe
    ensures HandleCommands(st, msg, now, generated).messages == []
    ensures HandleCommands(st, msg, now, generated).models == st.models
  {
  }

  /** `!toggle` from a privileged sender flips sending, and a second one restores it. */
  lemma ToggleFlips(st: State, msg: ChatMessage, now: int, generated: Option<string>)
    requires HasCooldowns(st) && Privileged(msg) && CommandIn(msg.content) == Toggle
    ensures HandleCommands(st, msg, now, generated).sendMessages == !st.sendMessages
    ensures var r := HandleCommands(st, msg, now, generated);
      HandleCommands(r, msg, now, generated).sendMessages == st.sendMessages
  {
  }

  /** The threshold changes only through a privileged `!setafter` with a positive integer argument, which it becomes. */
  lemma SetAfterOnlyPositive(st: State, msg: ChatMessage, now: int, generated: Option<string>)
    requires HasCooldowns(st)
    ensures var r := HandleCommands(st, msg, now, generated);
      r.generateOn != st.generateOn ==>
        && Privileged(msg) && CommandIn(msg.content) == SetAfterCmd
        && SetAfterArg(msg.content) == Some(r.generateOn) && r.generateOn > 0
  {
    var cmd := CommandIn(msg.content);
    PublicCommandFrame(st, cmd, now, generated);
    if Privileged(msg) {
      PrivilegedGenerateOn(PublicCommand(st, cmd, now, generated), cmd, msg.content);
    }
  }

  /** The `!commands` gate: it answers and is stamped with now only when open; otherwise nothing changes. */
  lemma CommandsGate(st: State, msg: ChatMessage, now: int, generated: Option<string>)
    requires HasCooldowns(st) && CommandIn(msg.content) == Commands
    ensures var r := HandleCommands(st, msg, now, generated);
      if Ready(st, "commands", now) then
        r.sent == st.sent + [CommandsReply] && r.lastUsed == st.lastUsed["commands" := now]
      else r == st
  {
  }

  /** The `!speak` gate: when open, a generation runs and the gate is stamped; otherwise nothing changes. */
  lemma SpeakGate(st: State, msg: ChatMessage, now: int, generated: Option<string>)
    requires HasCooldowns(st) && CommandIn(msg.content) == Speak
    ensures var r := HandleCommands(st, msg, now, generated);
      if Ready(st, "speak", now) then
        r.messageCount == 0 && r.lastUsed == st.lastUsed["speak" := now]
        && r.sent == GenerateAndSend(st, None, generated).sent
      else r == st
  {
  }

  /** A line from an ignored user, in any letter case, changes nothing at all. */
  lemma IgnoredUserChangesNothing(st: State, p: Parent, msg: ChatMessage, now: int,
                                  routed: Option<string>, triggered: Option<string>)
    requires HasCooldowns(st) && Lower(msg.username) in st.ignoredUsers
    ensures OnPubMsg(st, p, msg, now, routed, triggered) == st
  {
  }

  /** After any other line the counter is below the threshold or was just reset. */
  lemma CounterBelowThreshold(st: State, p: Parent, msg: ChatMessage, now: int,
                              routed: Option<string>, triggered: Option<string>)
    requires HasCooldowns(st) && Lower(msg.username) !in st.ignoredUsers
    ensures var r := OnPubMsg(st, p, msg, now, routed, triggered);
      r.messageCount < r.generateOn || r.messageCount == 0
  {
  }

  /**
   * A plain chat line that is stored and brings the counter to the threshold
   * starts a generation: the counter is reset and the generated text, if any,
   * is sent when sending is on.
   */
  lemma StoredLineTriggersGeneration(st: State, p: Parent, msg: ChatMessage, now: int,
                                     routed: Option<string>, triggered: Option<string>)
    requires HasCooldowns(st) && Lower(msg.username) !in st.ignoredUsers
    requires !IsCommand(msg.content) && !MentionsBot(p, msg.content)
    requires Stored(p, msg.content) && st.messageCount + 1 >= st.generateOn
    ensures var r := OnPubMsg(st, p, msg, now, routed, triggered);
      && r.messageCount == 0
      && r.messages == WriteMessage(st, p, msg.content).messages
      && r.sent == st.sent + (if triggered.Some? && st.sendMessages then [triggered.value] else [])
  {
  }

  /** A mention while the reply gate is closed, below the threshold, changes nothing. */
  lemma ClosedReplyGate(st: State, p: Parent, msg: ChatMessage, now: int,
                        routed: Option<string>, triggered: Option<string>)
    requires HasCooldowns(st) && Lower(msg.username) !in st.ignoredUsers
    requires !IsCommand(msg.content) && MentionsBot(p, msg.content)
    requires !Ready(st, "reply", now) && st.messageCount < st.generateOn
    ensures OnPubMsg(st, p, msg, now, routed, triggered) == st
  {
  }

  /** A mention with the reply gate open answers the sender by name and stamps the gate. */
  lemma OpenReplyGate(st: State, p: Parent, msg: ChatMessage, now: int, text: string)
    requires HasCooldowns(st) && Lower(msg.username) !in st.ignoredUsers
    requires !IsCommand(msg.content) && MentionsBot(p, msg.content)
    requires Ready(st, "reply", now) && st.sendMessages && st.generateOn > 0
    ensures var r := OnPubMsg(st, p, msg, now, Some(text), None);
      && r.sent == st.sent + ["@" + msg.username + " " + text]
      && r.lastUsed == st.lastUsed["reply" := now]
      && r.messageCount == 0
  {
  }

  /** Whatever the service returns and whatever the settings, a mention with the reply gate open stamps the gate. */
  lemma OpenReplyGateStamps(st: State, p: Parent, msg: ChatMessage, now: int,
                            routed: Option<string>, triggered: Option<string>)
    requires HasCooldowns(st) && Lower(msg.username) !in st.ignoredUsers
    requires !IsCommand(msg.content) && MentionsBot(p, msg.content)
    requires Ready(st, "reply", now)
    ensures OnPubMsg(st, p, msg, now, routed, triggered).lastUsed == st.lastUsed["reply" := now]
  {
  }

  /** Every chat line keeps the handler's invariant. */
  lemma OnPubMsgValid(st: State, p: Parent, msg: ChatMessage, now: int,
                      routed: Option<string>, triggered: Option<string>)
    requires Valid(st)
    ensures Valid(OnPubMsg(st, p, msg, now, routed, triggered))
  {
    if Lower(msg.username) !in st.ignoredUsers {
      RouteValid(st, p, msg, now, routed);
    }
  }

  /** Only `!setafter` moves the threshold, and only to what its argument says. */
  lemma PrivilegedGenerateOn(st: State, cmd: Command, content: string)
    ensures PrivilegedCommand(st, cmd, content).generateOn ==
      if cmd == SetAfterCmd && SetAfterArg(content).Some? then SetAfterArg(content).value else st.generateOn
  {
    var r := PrivilegedCommand(st, cmd, content);
    match cmd
    case SetAfterCmd =>
      assert r.generateOn == SetAfter(st, content).generateOn;
    case _ =>
      assert r.generateOn == st.generateOn;
  }

  lemma RouteValid(st: State, p: Parent, msg: ChatMessage, now: int, routed: Option<string>)
    requires Valid(st)
    ensures Valid(Route(st, p, msg, now, routed))
  {
    if IsCommand(msg.content) {
      var cmd := CommandIn(msg.content);
      PublicCommandFrame(st, cmd, now, routed);
      var st1 := PublicCommand(st, cmd, now, routed);
      assert Valid(st1);
      PrivilegedCommandFrame(st1, cmd, msg.content);
    } else if MentionsBot(p, msg.content) {
      var g := GenerateAndSend(st, Some(msg.username), routed);
      assert g.(messageCount := st.messageCount, sent := st.sent) == st;
    } else {
      var w := WriteMessage(st, p, msg.content);
      assert Ordered(w.messages);
    }
  }

  // ---------------------------------------------------------------------------
  // The fine-tuning tail

  /** What fineTuneModel fixes before training: the last rowid, the row count and the uploaded text. */
  datatype Snapshot = Snapshot(cutoff: int, length: nat, dataset: string)

  /**
   * retrieveDataSet and formatDataSet: an empty table raises (None) when the
   * first and last rows are read.
   */
  function BeginFineTune(st: State): (r: Option<Snapshot>)
    ensures r.Some? <==> st.messages != []
    ensures r.Some? ==>
      && r.value.cutoff == st.messages[|st.messages| - 1].rowid
      && r.value.length == |st.messages|
      && r.value.dataset == DataSet.Jsonl(st.messages)
  {
    if st.messages == [] then None
    else Some(Snapshot(st.messages[|st.messages| - 1].rowid, |st.messages|, DataSet.Jsonl(st.messages)))
  }

  /** setModel: the new model is used from now on and recorded in the models table. */
  function SetModel(st: State, model: string, datasetLength: int, createdDate: int): (r: State)
    ensures r.model == model
    ensures |r.models| == |st.models| + 1 && r.models[..|st.models|] == st.models
    ensures r.models[|st.models|] == ModelRow(NextIteration(st.models), createdDate, datasetLength, model)
    ensures ModelsOrdered(st.models) ==> ModelsOrdered(r.models)
    ensures r.(model := st.model, models := st.models) == st
  {
    st.(model := model, models := AppendModel(st.models, createdDate, datasetLength, model))
  }

  /** pruneMessages: exactly the rows at or below the cutoff are deleted. */
  function PruneMessages(st: State, cutoff: int): (r: State)
    ensures forall i | 0 <= i < |r.messages| :: r.messages[i] in st.messages && r.messages[i].rowid > cutoff
    ensures forall i | 0 <= i < |st.messages| && st.messages[i].rowid > cutoff :: st.messages[i] in r.messages
    ensures r.(messages := st.messages) == st
  {
    st.(messages := Prune(st.messages, cutoff))
  }

  /** The outcome fineTuneModel returns for the job's final status. */
  function FineTuneResult(status: string, fineTunedModel: string): (r: Option<string>)
    ensures r.Some? <==> status == "succeeded"
    ensures r.Some? ==> r.value == fineTunedModel
  {
    if status == "succeeded" then Some(fineTunedModel)
    else if status == "failed" then None
    else None
  }

  /** The status and promotion tail of fineTuneModel. */
  function CompleteFineTune(st: State, snap: Snapshot, status: string, fineTunedModel: string, createdDate: int): State {
    if status == "succeeded" then
      PruneMessages(SetModel(st, fineTunedModel, snap.length, createdDate), snap.cutoff)
    else st
  }

  /**
   * A succeeded job appends exactly one models row (next iteration, snapshot
   * length), switches the model and deletes exactly the rows up to the cutoff,
   * keeping the order of the others; any other status changes nothing.
   */
  lemma FineTuneOutcome(st: State, snap: Snapshot, status: string, fineTunedModel: string, createdDate: int)
    requires Valid(st)
    ensures var r := CompleteFineTune(st, snap, status, fineTunedModel, createdDate);
      && (status != "succeeded" ==> r == st)
      && (status == "succeeded" ==>
        && r.model == fineTunedModel
        && r.models == st.models + [ModelRow(NextIteration(st.models), createdDate, snap.length, fineTunedModel)]
        && r.messages == st.messages[PrunedCount(st.messages, snap.cutoff)..]
        && (forall i | 0 <= i < |r.messages| :: r.messages[i].rowid > snap.cutoff)
        && Prune(r.messages, snap.cutoff) == r.messages
        && Valid(r))
  {
    if status == "succeeded" {
      var m := SetModel(st, fineTunedModel, snap.length, createdDate);
      assert m.messages == st.messages;
      assert m.models == st.models + [ModelRow(NextIteration(st.models), createdDate, snap.length, fineTunedModel)];
      PruneOrdered(st.messages, snap.cutoff);
    }
  }

  /** The chat lines learned one after another, with no command and no mention among them. */
  function WriteAll(st: State, p: Parent, contents: seq<string>): State
    decreases |contents|
  {
    if contents == [] then st else WriteAll(WriteMessage(st, p, contents[0]), p, contents[1..])
  }

  /** The texts those lines leave in the table. */
  function StoredTexts(p: Parent, contents: seq<string>): seq<string>
    decreases |contents|
  {
    if contents == [] then []
    else (if Stored(p, contents[0]) then [Filtered(p, contents[0]).value] else []) + StoredTexts(p, contents[1..])
  }

  lemma {:induction false} WriteAllAppends(st: State, p: Parent, contents: seq<string>)
    ensures WriteAll(st, p, contents).messages == AppendAll(st.messages, StoredTexts(p, contents))
    decreases |contents|
  {
    if contents != [] {
      var next := WriteMessage(st, p, contents[0]);
      WriteAllAppends(next, p, contents[1..]);
      if Stored(p, contents[0]) {
        assert next.messages == Append(st.messages, Filtered(p, contents[0]).value);
        assert StoredTexts(p, contents) == [Filtered(p, contents[0]).value] + StoredTexts(p, contents[1..]);
      } else {
        assert StoredTexts(p, contents) == StoredTexts(p, contents[1..]);
      }
    }
  }

  /** Lines learned while a job trains, with no wipe in between, survive its promotion, in order. */
  lemma WritesDuringFineTuneSurvive(st: State, p: Parent, contents: seq<string>, fineTunedModel: string, createdDate: int)
    requires Valid(st) && st.messages != []
    ensures var snap := BeginFineTune(st).value;
      Texts(CompleteFineTune(WriteAll(st, p, contents), snap, "succeeded", fineTunedModel, createdDate).messages)
        == StoredTexts(p, contents)
  {
    WriteAllAppends(st, p, contents);
    WritesDuringTrainingSurvive(st.messages, StoredTexts(p, contents));
  }

  /**
   * A privileged `!wipe` between the snapshot and the promotion restarts rowids
   * at 1, so the next learned line is deleted by the prune although it was
   * written after the snapshot.
   */
  lemma WipeDuringFineTuneLosesLine(st: State, p: Parent, wipe: ChatMessage, content: string, now: int,
                                    fineTunedModel: string, createdDate: int)
    requires Valid(st) && st.messages != []
    requires Privileged(wipe) && CommandIn(wipe.content) == Wipe
    requires Stored(p, content)
    ensures var snap := BeginFineTune(st).value;
      var wiped := HandleCommands(st, wipe, now, None);
      var written := WriteMessage(wiped, p, content);
      && |written.messages| == 1
      && CompleteFineTune(written, snap, "succeeded", fineTunedModel, createdDate).messages == []
  {
    var snap := BeginFineTune(st).value;
    assert snap.cutoff >= 1;
    WipeEmptiesMessages(st, wipe, now, None);
    WipeThenWriteIsPruned(Filtered(p, content).value, snap.cutoff);
  }
}
