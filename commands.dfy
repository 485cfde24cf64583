/**
 * The small rules of the message handler in src/main.rs: which history a
 * channel's messages go to, the `!cap` command, stripping the bot mention
 * from a chat message, cutting a reply to Discord's size, and the mention
 * path that ties them to `ask_llama`.
 */
module Commands {
  import opened Wrappers
  import opened Text
  import opened Db
  import opened Chat

  // ---------------------------------------------------------------------
  // Context keys

  /** The history key: "<channel>:<author>" in "user" mode, the channel itself in any other mode. */
  function ContextKey(mode: string, channelId: string, authorId: string): (key: string)
    ensures mode != "user" ==> key == channelId
    ensures mode == "user" ==>
      |key| == |channelId| + 1 + |authorId| && key[..|channelId|] == channelId
      && key[|channelId|] == ':' && key[|channelId| + 1..] == authorId
  {
    if mode == "user" then channelId + ":" + authorId else channelId
  }

  /**
   * With channel ids free of ':' (Discord ids are decimal numbers), every
   * (channel, author) pair has its own per-user history, and no per-user
   * history is the shared history of a channel.
   */
  lemma ContextKeysSeparate(channel1: string, author1: string, channel2: string, author2: string)
    requires ':' !in channel1 && ':' !in channel2
    ensures ContextKey("user", channel1, author1) == ContextKey("user", channel2, author2)
        <==> channel1 == channel2 && author1 == author2
    ensures ContextKey("user", channel1, author1) != ContextKey("channel", channel2, author2)
  {
    var k1, k2 := channel1 + ":" + author1, channel2 + ":" + author2;
    assert k1[|channel1|] == ':' && k2[|channel2|] == ':';
    if k1 == k2 {
      assert |channel1| == |channel2|;
      assert channel1 == k1[..|channel1|] && channel2 == k2[..|channel2|];
      assert author1 == k1[|channel1| + 1..] && author2 == k2[|channel2| + 1..];
    }
  }

  /** The key lookup the `!clear` and mention branches do under the lock. */
  method ResolveContextKey(store: ConversationStore, channelId: string, authorId: string) returns (key: string)
    ensures key == ContextKey(ContextMode(store.config, channelId), channelId, authorId)
    ensures ModeKey(channelId) !in store.config ==> key == channelId
  {
    var mode := store.GetContextMode(channelId);
    key := ContextKey(mode, channelId, authorId);
  }

  // ---------------------------------------------------------------------
  // `!cap`

  /** The argument of `!cap`: the text after every leading "!cap", trimmed. */
  function CapArgument(content: string): string {
    Trim(TrimStartMatches(content, "!cap"))
  }

  /** The cap a `!cap` argument sets: a u32 in 1..=500, or nothing. */
  function ValidCap(arg: string): (r: Option<nat>)
    ensures r.Some? <==> ParseU32(arg).Some? && 1 <= ParseU32(arg).value <= 500
    ensures r.Some? ==> r.value == ParseU32(arg).value
  {
    match ParseU32(arg)
    case Some(n) => if 1 <= n <= 500 then Some(n) else None
    case None => None
  }

  /** Every cap from 1 to 500 written in decimal is accepted as itself; 0 and 501 are refused. */
  lemma ValidCapRange(n: nat)
    ensures ValidCap(NatToString(n)) == (if 1 <= n <= 500 then Some(n) else None)
  {
    if n <= U32Max {
      ParseU32OfNatToString(n);
    } else {
      NatToStringDigits(n);
    }
  }

  /** An accepted cap is the one the next prompt uses. */
  lemma CapIsReadBack(config: map<string, string>, arg: string)
    requires ValidCap(arg).Some?
    ensures ResponseCap(config[ResponseCapKey := NatToString(ValidCap(arg).value)]) == ValidCap(arg).value
  {
    ParseU32OfNatToString(ValidCap(arg).value);
  }

  lemma NatToString500()
    ensures NatToString(500) == "500"
  {
    assert NatToString(5) == "5";
    assert NatToString(50) == "50";
  }

  /** `!cap 500` leads to the reminder "in 500 words or less". */
  lemma Cap500Reminder(config: map<string, string>)
    ensures ValidCap("500") == Some(500)
    ensures CapSuffix(ResponseCap(config[ResponseCapKey := "500"]))
         == "\n(Reply in " + "500" + " words or less. Stay in character.)"
  {
    NatToString500();
    ValidCapRange(500);
    CapIsReadBack(config, "500");
  }

  /**
   * The `!cap` branch: with no argument it reports the cap in force;
   * otherwise it stores an argument that is a u32 in 1..=500 and leaves the
   * configuration untouched for any other.
   */
  method CapCommand(store: ConversationStore, content: string) returns (reply: string)
    modifies store`config
    ensures var arg := CapArgument(content);
      && (arg == "" ==>
            && store.config == old(store.config)
            && reply == "Response word cap is currently **" + NatToString(ResponseCap(store.config)) + "**. Usage: `!cap <1-500>`")
      && (arg != "" && ValidCap(arg).Some? ==>
            && store.config == old(store.config)[ResponseCapKey := NatToString(ValidCap(arg).value)]
            && reply == "Response word cap set to **" + NatToString(ValidCap(arg).value) + "**.")
      && (arg != "" && ValidCap(arg).None? ==>
            && store.config == old(store.config) && reply == "Cap must be a number between 1 and 500.")
  {
    var arg := CapArgument(content);
    if arg == "" {
      var cap := ResponseCap(store.config);
      reply := "Response word cap is currently **" + NatToString(cap) + "**. Usage: `!cap <1-500>`";
    } else {
      match ParseU32(arg) {
        case Some(n) =>
          if 1 <= n <= 500 {
            store.SetConfig(ResponseCapKey, NatToString(n));
            reply := "Response word cap set to **" + NatToString(n) + "**.";
          } else {
            reply := "Cap must be a number between 1 and 500.";
          }
        case None =>
          reply := "Cap must be a number between 1 and 500.";
      }
    }
  }

  // ---------------------------------------------------------------------
  // Mention stripping

  /** The index of the first occurrence of `c` in `s`. */
  function FirstIndexOf(s: string, c: char): (r: Option<nat>)
    ensures r.None? <==> c !in s
    ensures r.Some? ==> r.value < |s| && s[r.value] == c && c !in s[..r.value]
  {
    if s == [] then None
    else if s[0] == c then Some(0)
    else match FirstIndexOf(s[1..], c)
      case Some(i) => assert s[1..][..i] == s[1..i + 1]; Some(i + 1)
      case None => None
  }

  /**
   * `content.split_once('>').map(|(_, rest)| rest.trim()).unwrap_or(&content)`:
   * the trimmed text after the first '>', or the whole message, untrimmed,
   * when it has none.
   */
  function StripMention(content: string): (r: string)
    ensures '>' !in content ==> r == content
    ensures '>' in content ==>
      exists i :: 0 <= i < |content| && content[i] == '>' && '>' !in content[..i] && r == Trim(content[i + 1..])
  {
    match FirstIndexOf(content, '>')
    case Some(i) =>
      var r := Trim(content[i + 1..]);
      assert 0 <= i < |content| && content[i] == '>' && '>' !in content[..i] && r == Trim(content[i + 1..]);
      r
    case None => content
  }

  // ---------------------------------------------------------------------
  // Reply truncation

  /** The byte budget of a reply before "..." is added. */
  const ReplyBytes: nat := 1990

  /** The longest prefix of `s` whose UTF-8 encoding fits in `budget` bytes. */
  function FittingPrefix(s: string, budget: nat): (p: string)
    ensures |p| <= |s| && p == s[..|p|]
    ensures ByteLen(p) <= budget
    ensures |p| < |s| ==> ByteLen(p) + Utf8Width(s[|p|]) > budget
  {
    if s == [] || Utf8Width(s[0]) > budget then []
    else
      var rest := FittingPrefix(s[1..], budget - Utf8Width(s[0]));
      assert ([s[0]] + rest)[1..] == rest;
      [s[0]] + rest
  }

  /** A prefix that ends exactly on the budget is the fitting prefix: it is what `&s[..budget]` gives. */
  lemma {:induction false} BoundaryPrefixIsFitting(s: string, budget: nat, k: nat)
    requires k <= |s| && ByteLen(s[..k]) == budget
    ensures FittingPrefix(s, budget) == s[..k]
  {
    if k > 0 {
      assert s[..k] == [s[0]] + s[1..][..k - 1];
      assert ByteLen(s[..k]) == Utf8Width(s[0]) + ByteLen(s[1..][..k - 1]);
      BoundaryPrefixIsFitting(s[1..], budget - Utf8Width(s[0]), k - 1);
    } else if s != [] {
      assert Utf8Width(s[0]) > budget;
    }
  }

  /**
   * The truncation as written: `&response[..1990]` on a reply longer than
   * 1990 bytes. Rust panics when byte 1990 falls inside a character; that
   * outcome is `None`.
   */
  function TruncateAsWritten(response: string): (r: Option<string>)
    ensures ByteLen(response) <= ReplyBytes ==> r == Some(response)
    ensures r.Some? && ByteLen(response) > ReplyBytes ==>
      exists k :: 0 <= k <= |response| && ByteLen(response[..k]) == ReplyBytes && r.value == response[..k] + "..."
  {
    if ByteLen(response) <= ReplyBytes then Some(response)
    else
      var p := FittingPrefix(response, ReplyBytes);
      if ByteLen(p) == ReplyBytes then Some(p + "...") else None
  }

  /** Whenever some prefix ends at byte 1990, the code as written does not panic. */
  lemma AsWrittenPanicsOnlyInsideACharacter(response: string, k: nat)
    requires k <= |response| && ByteLen(response[..k]) == ReplyBytes
    ensures TruncateAsWritten(response).Some?
  {
    BoundaryPrefixIsFitting(response, ReplyBytes, k);
  }

  function Repeat(c: char, n: nat): (s: string)
    ensures |s| == n && forall i :: 0 <= i < n ==> s[i] == c
  {
    seq(n, _ => c)
  }

  /** ASCII text takes one byte per character. */
  lemma {:induction false} AsciiByteLen(s: string)
    requires forall i :: 0 <= i < |s| ==> s[i] as int < 0x80
    ensures ByteLen(s) == |s|
  {
    if s != [] {
      AsciiByteLen(s[1..]);
    }
  }

  /**
   * ASCII text followed by one multi-byte character that straddles the
   * budget: the reply is over budget, and no prefix of it ends exactly on
   * the budget.
   */
  lemma {:induction false} StraddlingCharacter(a: string, c: char, budget: nat)
    requires forall i :: 0 <= i < |a| ==> a[i] as int < 0x80
    requires |a| + 1 == budget && Utf8Width(c) >= 2
    ensures ByteLen(a + [c]) > budget
    ensures ByteLen(FittingPrefix(a + [c], budget)) != budget
  {
    var s := a + [c];
    AsciiByteLen(a);
    ByteLenConcat(a, [c]);
    var p := FittingPrefix(s, budget);
    assert p != s;
    assert |p| < |s|;
    assert p == a[..|p|];
    AsciiByteLen(a[..|p|]);
  }

  /** A reply of 1989 'a's and then 'é' (two bytes) makes the code as written panic. */
  lemma TruncateAsWrittenPanics()
    ensures TruncateAsWritten(Repeat('a', 1989) + "é") == None
  {
    StraddlingCharacter(Repeat('a', 1989), 'é', ReplyBytes);
  }

  /**
   * The truncation the code evidently intends: a reply of at most 1990
   * bytes is sent as it is; a longer one is cut at the last character
   * boundary at or before byte 1990 and gets "...". The result is never
   * longer than 1993 bytes, below Discord's 2000.
   */
  function Truncate(response: string): (r: string)
    ensures ByteLen(r) <= ReplyBytes + 3
    ensures ByteLen(response) <= ReplyBytes ==> r == response
    ensures ByteLen(response) > ReplyBytes ==>
      && |r| >= 3 && r[|r| - 3..] == "..."
      && var kept := r[..|r| - 3];
         |kept| < |response| && kept == response[..|kept|]
         && ReplyBytes - 3 <= ByteLen(kept) <= ReplyBytes
         && ByteLen(kept) + Utf8Width(response[|kept|]) > ReplyBytes
  {
    if ByteLen(response) <= ReplyBytes then response
    else
      var p := FittingPrefix(response, ReplyBytes);
      ByteLenConcat(p, "...");
      assert |p| < |response| by {
        assert |p| == |response| ==> p == response;
      }
      assert (p + "...")[..|p|] == p;
      p + "..."
  }

  /** Where the code as written does not panic it gives the same reply as `Truncate`. */
  lemma TruncateAgreesWithAsWritten(response: string)
    ensures TruncateAsWritten(response).Some? ==> TruncateAsWritten(response).value == Truncate(response)
  {
  }

  /** On replies of ASCII text the code as written never panics. */
  lemma {:induction false} AsciiNeverPanics(response: string)
    requires forall i :: 0 <= i < |response| ==> response[i] as int < 0x80
    ensures TruncateAsWritten(response).Some?
  {
    AsciiByteLen(response);
    if ByteLen(response) > ReplyBytes {
      AsciiByteLen(response[..ReplyBytes]);
      AsWrittenPanicsOnlyInsideACharacter(response, ReplyBytes);
    }
  }

  // ---------------------------------------------------------------------
  // The mention branch

  /** What the bot says for the outcome of `ask_llama`. */
  function MentionResponse(answer: Result<string, string>): string {
    match answer
    case Ok(reply) => reply
    case Err(e) => "Sorry, I couldn't get a response: " + e
  }

  /**
   * The branch run when the bot is mentioned: strip the mention, refuse an
   * empty question, resolve the history key, ask the model and cut the
   * answer to size (with the corrected truncation).
   */
  method HandleMention(store: ConversationStore, llamaConfigured: bool, channelId: string, authorId: string,
                       content: string, outcome: ChatOutcome)
    returns (reply: string)
    requires store.Valid()
    modifies store`messages, store`nextId
    ensures store.Valid()
    ensures StripMention(content) == "" ==>
      reply == "You mentioned me but didn't say anything!"
      && store.messages == old(store.messages) && store.nextId == old(store.nextId)
    ensures StripMention(content) != "" ==>
      var answer := if llamaConfigured then ReplyOf(outcome) else Err(NotConfigured);
      && reply == Truncate(MentionResponse(answer))
      && (!llamaConfigured ==> store.messages == old(store.messages) && store.nextId == old(store.nextId))
      && (llamaConfigured ==>
            var key := ContextKey(ContextMode(store.config, channelId), channelId, authorId);
            && store.nextId == old(store.nextId) + (if answer.Ok? then 2 else 1)
            && store.messages == old(store.messages) + [Row(old(store.nextId), key, "user", StripMention(content))]
                 + (if answer.Ok? then [Row(old(store.nextId) + 1, key, "assistant", answer.value)] else []))
  {
    var text := StripMention(content);
    if text == "" {
      return "You mentioned me but didn't say anything!";
    }
    var key := ResolveContextKey(store, channelId, authorId);
    var answer, _ := AskLlama(store, llamaConfigured, key, text, outcome);
    assert key == ContextKey(ContextMode(store.config, channelId), channelId, authorId);
    reply := Truncate(MentionResponse(answer));
  }
}
