/**
 * The bot object of TwitchGPT.py: the merge of the `gpt.defaults` settings
 * into every channel's configuration, done once at start-up, and the
 * blacklist check every chat line goes through before it is learned.
 */
module TwitchGPT {
  import opened Wrappers
  import opened Py

  // ---------------------------------------------------------------------------
  // Blacklist: re.search(r"\b" + word, message, re.IGNORECASE), word taken literally

  /** The characters \w matches, restricted to ASCII. */
  predicate IsWordChar(c: char) {
    ('a' <= c <= 'z') || ('A' <= c <= 'Z') || ('0' <= c <= '9') || c == '_'
  }

  /** \b at position p: a word character on exactly one side of p. */
  predicate BoundaryAt(message: string, p: nat)
    requires p <= |message|
  {
    (p > 0 && IsWordChar(message[p - 1])) != (p < |message| && IsWordChar(message[p]))
  }

  predicate WordMatchesAt(word: string, message: string, p: nat) {
    && p + |word| <= |message|
    && BoundaryAt(message, p)
    && Lower(message[p..p + |word|]) == Lower(word)
  }

  /** The search for one blacklisted word succeeds somewhere in the message. */
  predicate WordMatches(word: string, message: string) {
    exists p | 0 <= p <= |message| :: WordMatchesAt(word, message, p)
  }

  predicate Blacklisted(blacklistWords: seq<string>, message: string) {
    exists i | 0 <= i < |blacklistWords| :: WordMatches(blacklistWords[i], message)
  }

  /** The verdict depends on which words are listed, not on their order. */
  lemma BlacklistedIgnoresOrder(words1: seq<string>, words2: seq<string>, message: string)
    requires multiset(words1) == multiset(words2)
    ensures Blacklisted(words1, message) <==> Blacklisted(words2, message)
  {
    if Blacklisted(words1, message) {
      BlacklistedByMember(words1, words2, message);
    }
    if Blacklisted(words2, message) {
      BlacklistedByMember(words2, words1, message);
    }
  }

  lemma BlacklistedByMember(words1: seq<string>, words2: seq<string>, message: string)
    requires multiset(words1) <= multiset(words2)
    requires Blacklisted(words1, message)
    ensures Blacklisted(words2, message)
  {
    var i :| 0 <= i < |words1| && WordMatches(words1[i], message);
    assert words1[i] in multiset(words1);
    assert words1[i] in multiset(words2);
    var j :| 0 <= j < |words2| && words2[j] == words1[i];
  }

  /**
   * checkBlacklisted on the bot as written: the two lines that would load the
   * word list are commented out, so the attribute is missing (None) and the
   * loop raises AttributeError (None) whatever the message.
   */
  function CheckBlacklistedAsWritten(blacklistWords: Option<seq<string>>, message: string): (r: Option<bool>)
    ensures r.None? <==> blacklistWords.None?
    ensures r.Some? ==> (r.value <==> Blacklisted(blacklistWords.value, message))
  {
    match blacklistWords
    case None => None
    case Some(words) => Some(Blacklisted(words, message))
  }

  /** The bot as written cannot judge even an empty line, while a loaded empty list accepts it. */
  lemma BlacklistAsWrittenRaises(message: string)
    ensures CheckBlacklistedAsWritten(None, message) == None
    ensures CheckBlacklistedAsWritten(Some([]), message) == Some(false)
  {
  }

  // ---------------------------------------------------------------------------
  // Channel defaults

  /** One channel's configuration after the merge loop has run over every default. */
  function Merged(channelConfig: map<string, Value>, defaults: map<string, Value>): map<string, Value> {
    map k | k in channelConfig.Keys + defaults.Keys ::
      if k in defaults && (k !in channelConfig || !Truthy(channelConfig[k])) then defaults[k]
      else channelConfig[k]
  }

  /** Running the merge a second time changes nothing. */
  lemma MergeIdempotent(channelConfig: map<string, Value>, defaults: map<string, Value>)
    ensures Merged(Merged(channelConfig, defaults), defaults) == Merged(channelConfig, defaults)
  {
    var once := Merged(channelConfig, defaults);
    var twice := Merged(once, defaults);
    assert twice.Keys == once.Keys;
    forall k | k in once ensures twice[k] == once[k] {
      if k in defaults && !Truthy(once[k]) {
        assert once[k] == defaults[k];
      }
    }
  }

  /** The inner loop of the merge, for one channel: copies each default whose setting is missing or falsy. */
  method MergeChannelDefaults(channelConfig: map<string, Value>, defaults: map<string, Value>)
    returns (merged: map<string, Value>)
    ensures merged.Keys == channelConfig.Keys + defaults.Keys
    ensures forall k | k in channelConfig && Truthy(channelConfig[k]) :: merged[k] == channelConfig[k]
    ensures forall k | k in defaults && (k !in channelConfig || !Truthy(channelConfig[k])) :: merged[k] == defaults[k]
    ensures forall k | k in channelConfig && k !in defaults :: merged[k] == channelConfig[k]
    ensures merged == Merged(channelConfig, defaults)
  {
    merged := channelConfig;
    var remaining := defaults.Keys;
    while remaining != {}
      invariant remaining <= defaults.Keys
      invariant merged.Keys == channelConfig.Keys + (defaults.Keys - remaining)
      invariant forall k | k in merged && k !in remaining ::
        merged[k] == Merged(channelConfig, defaults)[k]
      invariant forall k | k in merged && k in remaining :: merged[k] == channelConfig[k]
      decreases remaining
    {
      var setting :| setting in remaining;
      if setting !in merged || !Truthy(merged[setting]) {
        merged := merged[setting := defaults[setting]];
      }
      remaining := remaining - {setting};
    }
  }

  /** GPTBot: the process-wide bot that owns the configuration and the blacklist. */
  class GPTBot {
    const username: string
    const allowMentions: bool
    const blacklistWords: seq<string>
    var channels: map<string, map<string, Value>>

    /** The start-up merge: every channel gets every default its own setting does not override. */
    constructor (username: string, allowMentions: bool, blacklistWords: seq<string>,
                 channels: map<string, map<string, Value>>, defaults: map<string, Value>)
      ensures this.username == username && this.allowMentions == allowMentions
      ensures this.blacklistWords == blacklistWords
      ensures this.channels.Keys == channels.Keys
      ensures forall c | c in channels :: this.channels[c] == Merged(channels[c], defaults)
    {
      this.username := username;
      this.allowMentions := allowMentions;
      this.blacklistWords := blacklistWords;
      var result := channels;
      var todo := channels.Keys;
      while todo != {}
        invariant todo <= channels.Keys
        invariant result.Keys == channels.Keys
        invariant forall c | c in channels && c !in todo :: result[c] == Merged(channels[c], defaults)
        invariant forall c | c in todo :: result[c] == channels[c]
        decreases todo
      {
        var channel :| channel in todo;
        var merged := MergeChannelDefaults(result[channel], defaults);
        result := result[channel := merged];
        todo := todo - {channel};
      }
      this.channels := result;
    }

    /** checkBlacklisted: tries each word in turn and stops at the first that is found. */
    method CheckBlacklisted(message: string) returns (found: bool)
      ensures found <==> exists i | 0 <= i < |blacklistWords| :: WordMatches(blacklistWords[i], message)
      ensures blacklistWords == [] ==> !found
    {
      for i := 0 to |blacklistWords|
        invariant forall j | 0 <= j < i :: !WordMatches(blacklistWords[j], message)
      {
        if WordMatches(blacklistWords[i], message) {
          return true;
        }
      }
      return false;
    }
  }
}
