/**
 * The GPTHandler object: one per joined channel. Its methods update the
 * handler's fields and its two tables in place; each is proved to leave the
 * object in the state HandlerSpec computes from the state it started in.
 */
module Handler {
  import opened Wrappers
  import opened Py
  import opened Corpus
  import TwitchGPT
  import DataSet
  import opened HandlerSpec

  class GPTHandler {
    const parent: TwitchGPT.GPTBot
    var messageCount: int
    var generateOn: int
    var sendMessages: bool
    var model: string
    var ignoredUsers: seq<string>
    var cooldowns: map<string, int>
    var lastUsed: map<string, int>
    var clearLogsAfter: bool
    var unique: bool
    /** The `messages` table, in rowid order. */
    var messages: seq<Row>
    /** The `models` table, in iteration order. */
    var models: seq<ModelRow>
    /** The chat lines sent to the channel, oldest first. */
    var sent: seq<string>

    function Abs(): State
      reads this
    {
      State(messageCount, generateOn, sendMessages, model, ignoredUsers, cooldowns, lastUsed,
            clearLogsAfter, unique, messages, models, sent)
    }

    ghost predicate Valid()
      reads this
    {
      HandlerSpec.Valid(Abs())
    }

    /** The settings of the owning bot the handler consults. */
    function ParentView(): Parent {
      Parent(parent.username, parent.allowMentions, parent.blacklistWords)
    }

    /**
     * __init__: settings from the channel's configuration, ignored users
     * lower-cased, the tables as the channel's database file holds them.
     */
    constructor (parent: TwitchGPT.GPTBot, generateOn: int, sendMessages: bool, model: string,
                 ignoredUsers: seq<string>, clearLogsAfter: bool, unique: bool,
                 messages: seq<Row>, models: seq<ModelRow>)
      ensures this.parent == parent
      ensures Abs() == Initial(generateOn, sendMessages, model, ignoredUsers, clearLogsAfter, unique, messages, models)
      ensures Ordered(messages) && ModelsOrdered(models) ==> Valid()
    {
      this.parent := parent;
      this.messageCount := 0;
      this.messages := messages;
      this.models := models;
      this.model := model;
      this.generateOn := generateOn;
      this.sendMessages := sendMessages;
      this.ignoredUsers := seq(|ignoredUsers|, i requires 0 <= i < |ignoredUsers| => Lower(ignoredUsers[i]));
      this.clearLogsAfter := clearLogsAfter;
      this.unique := unique;
      this.sent := [];
      this.cooldowns := map[];
      this.lastUsed := map[];
      new;
      InitCooldowns();
    }

    method InitCooldowns()
      modifies this
      ensures Abs() == HandlerSpec.InitCooldowns(old(Abs()))
    {
      cooldowns := map[];
      lastUsed := map[];
      cooldowns := cooldowns["speak" := 300];
      lastUsed := lastUsed["speak" := 0];
      cooldowns := cooldowns["commands" := 300];
      lastUsed := lastUsed["commands" := 0];
      cooldowns := cooldowns["reply" := 120];
      lastUsed := lastUsed["reply" := 0];
    }

    /** `generated` is what the completion service returned, None when the request failed. */
    method GenerateAndSendMessage(target: Option<string>, generated: Option<string>)
      modifies this
      ensures Abs() == GenerateAndSend(old(Abs()), target, generated)
    {
      messageCount := 0;
      if generated.Some? {
        var line := generated.value;
        if target.Some? {
          line := "@" + target.value + " " + line;
        }
        if sendMessages {
          sent := sent + [line];
        }
      }
    }

    method WriteMessage(content: string) returns (stored: bool)
      modifies this
      ensures stored == Stored(ParentView(), content)
      ensures Abs() == HandlerSpec.WriteMessage(old(Abs()), ParentView(), content)
    {
      var message := Filtered(ParentView(), content);
      stored := StoreMessage(message);
    }

    /** The insert of writeMessage, for the text the filter returned. */
    method StoreMessage(message: Option<string>) returns (stored: bool)
      modifies this
      ensures stored == (message.Some? && message.value != "")
      ensures Abs() == Store(old(Abs()), message)
    {
      stored := message.Some? && message.value != "";
      if stored {
        messages := Append(messages, message.value);
        messageCount := messageCount + 1;
      }
    }

    /** The `setafter` branch of handleCommands, with the confirmation the code evidently means to send. */
    method SetAfter(content: string)
      modifies this
      ensures Abs() == HandlerSpec.SetAfter(old(Abs()), content)
    {
      var parts := Split(content, ' ');
      if |parts| >= 2 {
        var num := ParseInt(parts[1]);
        if num.Some? && num.value > 0 {
          generateOn := num.value;
          sent := sent + ["Messages will now be sent after " + IntToString(generateOn) + " chat messages. MrDestructoid"];
          return;
        }
      }
      sent := sent + [UsageReply(generateOn)];
    }

    method HandleCommands(msg: ChatMessage, now: int, generated: Option<string>)
      requires HasCooldowns(Abs())
      modifies this
      ensures Abs() == HandlerSpec.HandleCommands(old(Abs()), msg, now, generated)
    {
      var cmd := CommandIn(msg.content);
      PublicCommand(cmd, now, generated);
      if Privileged(msg) {
        PrivilegedCommand(cmd, msg.content);
      }
    }

    /** The `commands` and `speak` branches of handleCommands, each behind its gate. */
    method PublicCommand(cmd: Command, now: int, generated: Option<string>)
      requires HasCooldowns(Abs())
      modifies this
      ensures Abs() == HandlerSpec.PublicCommand(old(Abs()), cmd, now, generated)
    {
      if cmd == Commands && now - lastUsed["commands"] >= cooldowns["commands"] {
        sent := sent + [CommandsReply];
        lastUsed := lastUsed["commands" := now];
      } else if cmd == Speak && now - lastUsed["speak"] >= cooldowns["speak"] {
        GenerateAndSendMessage(None, generated);
        lastUsed := lastUsed["speak" := now];
      }
    }

    /** The branches of handleCommands only privileged senders reach. */
    method PrivilegedCommand(cmd: Command, content: string)
      modifies this
      ensures Abs() == HandlerSpec.PrivilegedCommand(old(Abs()), cmd, content)
    {
      if cmd == Clear {
        if clearLogsAfter {
          clearLogsAfter := false;
          sent := sent + [ClearOffReply];
        } else {
          clearLogsAfter := true;
          sent := sent + [ClearOnReply];
        }
      } else if cmd == Wipe {
        messages := [];
        sent := sent + [WipeReply];
      } else if cmd == Toggle {
        if sendMessages {
          sendMessages := false;
          sent := sent + [ToggleOffReply];
        } else {
          sendMessages := true;
          sent := sent + [ToggleOnReply];
        }
      } else if cmd == Unique {
        if unique {
          unique := false;
          sent := sent + [UniqueOffReply];
        } else {
          unique := true;
          sent := sent + [UniqueOnReply];
        }
      } else if cmd == SetAfterCmd {
        SetAfter(content);
      } else if cmd == IsAlive {
        sent := sent + [AliveReply];
      }
    }

    /**
     * on_pubmsg. `routed` is the completion a reply or `!speak` receives,
     * `triggered` the one the message threshold asks for.
     */
    method OnPubMsg(msg: ChatMessage, now: int, routed: Option<string>, triggered: Option<string>)
      requires Valid()
      modifies this
      ensures Abs() == HandlerSpec.OnPubMsg(old(Abs()), ParentView(), msg, now, routed, triggered)
      ensures Valid()
    {
      OnPubMsgValid(Abs(), ParentView(), msg, now, routed, triggered);
      if Lower(msg.username) in ignoredUsers {
        return;
      }
      Route(msg, now, routed);
      if messageCount >= generateOn {
        GenerateAndSendMessage(None, triggered);
      }
    }

    /** The routing part of on_pubmsg: a command, a reply behind its gate, or a line to learn. */
    method Route(msg: ChatMessage, now: int, routed: Option<string>)
      requires HasCooldowns(Abs())
      modifies this
      ensures Abs() == HandlerSpec.Route(old(Abs()), ParentView(), msg, now, routed)
    {
      if IsCommand(msg.content) {
        HandleCommands(msg, now, routed);
      } else if MentionsBot(ParentView(), msg.content) {
        if now - lastUsed["reply"] >= cooldowns["reply"] {
          GenerateAndSendMessage(Some(msg.username), routed);
          lastUsed := lastUsed["reply" := now];
        }
      } else {
        var stored := WriteMessage(msg.content);
      }
    }

    /** formatDataSet: one record per row, accumulated in row order. */
    method FormatDataSet(dataset: seq<Row>) returns (content: string)
      ensures content == DataSet.Jsonl(dataset)
    {
      content := "";
      for i := 0 to |dataset|
        invariant content == DataSet.Jsonl(dataset[..i])
      {
        DataSet.JsonlSnoc(dataset[..i], dataset[i]);
        assert dataset[..i + 1] == dataset[..i] + [dataset[i]];
        content := content + DataSet.RecordPrefix + dataset[i].text + DataSet.RecordSuffix;
      }
      assert dataset[..|dataset|] == dataset;
    }

    method SetModel(newModel: string, datasetLength: int, createdDate: int)
      modifies this
      ensures Abs() == HandlerSpec.SetModel(old(Abs()), newModel, datasetLength, createdDate)
    {
      model := newModel;
      models := AppendModel(models, createdDate, datasetLength, newModel);
    }

    method PruneMessages(cutoffRow: int)
      modifies this
      ensures Abs() == HandlerSpec.PruneMessages(old(Abs()), cutoffRow)
    {
      messages := Prune(messages, cutoffRow);
    }

    /**
     * The part of fineTuneModel before the job is created: the snapshot of the
     * table, its last rowid and the training text. An empty table raises (None).
     */
    method BeginFineTune() returns (snap: Option<Snapshot>)
      ensures snap == HandlerSpec.BeginFineTune(Abs())
    {
      var dataset := messages;
      if dataset == [] {
        return None;
      }
      var cutoffRow := dataset[|dataset| - 1].rowid;
      var datasetLength := |dataset|;
      var content := FormatDataSet(dataset);
      return Some(Snapshot(cutoffRow, datasetLength, content));
    }

    /** The tail of fineTuneModel once the job's final status is known. */
    method CompleteFineTune(snap: Snapshot, status: string, fineTunedModel: string, createdDate: int)
      returns (result: Option<string>)
      requires Valid()
      modifies this
      ensures result == FineTuneResult(status, fineTunedModel)
      ensures Abs() == HandlerSpec.CompleteFineTune(old(Abs()), snap, status, fineTunedModel, createdDate)
      ensures Valid()
    {
      FineTuneOutcome(Abs(), snap, status, fineTunedModel, createdDate);
      if status == "succeeded" {
        SetModel(fineTunedModel, snap.length, createdDate);
        PruneMessages(snap.cutoff);
        return Some(fineTunedModel);
      } else if status == "failed" {
        return None;
      } else {
        return None;
      }
    }

    /**
     * fineTuneModel with nothing arriving while the job trains: the snapshot,
     * then the outcome for the job's final status. None stands for the
     * IndexError an empty table raises; Some(None) for a job that did not succeed.
     */
    method FineTuneModel(status: string, fineTunedModel: string, createdDate: int)
      returns (result: Option<Option<string>>)
      requires Valid()
      modifies this
      ensures result.None? <==> old(messages) == []
      ensures result.None? ==> Abs() == old(Abs())
      ensures result.Some? ==>
        && result.value == FineTuneResult(status, fineTunedModel)
        && Abs() == HandlerSpec.CompleteFineTune(old(Abs()), HandlerSpec.BeginFineTune(old(Abs())).value,
                                                  status, fineTunedModel, createdDate)
      ensures Valid()
    {
      var snap := BeginFineTune();
      if snap.None? {
        return None;
      }
      var outcome := CompleteFineTune(snap.value, status, fineTunedModel, createdDate);
      return Some(outcome);
    }
  }
}
