/**
 * The conversation store of src/db.rs: a `config` table used as a key/value
 * map with upsert, and an append-only `messages` table of
 * (id, channel_id, role, content) rows. The SQLite connection becomes an
 * object whose fields are the two tables; rows are kept in insertion order,
 * which is the order of their AUTOINCREMENT ids.
 */
module Db {
  import opened Wrappers

  const DefaultSystemPrompt: string :=
    "You are a helpful Discord bot. Be concise and friendly in your responses."
  const SystemPromptKey: string := "system_prompt"
  const ResponseCapKey: string := "response_cap"
  const ModeKeyPrefix: string := "context_mode:"
  const DefaultContextMode: string := "channel"

  /** What `get_recent_messages` hands back for one row. */
  datatype StoredMessage = StoredMessage(role: string, content: string)

  /** One row of the `messages` table; `id` is its AUTOINCREMENT key. */
  datatype Row = Row(id: nat, channelId: string, role: string, content: string) {
    function Message(): StoredMessage {
      StoredMessage(role, content)
    }
  }

  // ---------------------------------------------------------------------
  // The config table

  /** `SELECT value FROM config WHERE key = ?1`, on the map that the table is. */
  function Lookup(config: map<string, string>, key: string): (r: Option<string>)
    ensures r.None? <==> key !in config
    ensures r.Some? ==> r.value == config[key]
  {
    if key in config then Some(config[key]) else None
  }

  /** An upsert of one key is read back by the next lookup of that key. */
  lemma SetThenGet(config: map<string, string>, key: string, value: string)
    ensures Lookup(config[key := value], key) == Some(value)
  {
  }

  /** Two upserts of one key leave the table as the second alone would: last writer wins. */
  lemma LastWriterWins(config: map<string, string>, key: string, first: string, second: string)
    ensures config[key := first][key := second] == config[key := second]
    ensures Lookup(config[key := first][key := second], key) == Some(second)
  {
  }

  /** An upsert of one key changes the lookup of no other key. */
  lemma SetLeavesOtherKeys(config: map<string, string>, key: string, value: string, other: string)
    requires other != key
    ensures Lookup(config[key := value], other) == Lookup(config, other)
  {
  }

  /**
   * The seeding step of `init`: `INSERT OR IGNORE` of the default system
   * prompt. It adds the key when it is missing and never overwrites.
   */
  function Seeded(config: map<string, string>): (c: map<string, string>)
    ensures c.Keys == config.Keys + {SystemPromptKey}
    ensures forall k :: k in config ==> c[k] == config[k]
    ensures SystemPromptKey !in config ==> c[SystemPromptKey] == DefaultSystemPrompt
  {
    if SystemPromptKey in config then config else config[SystemPromptKey := DefaultSystemPrompt]
  }

  /** Running `init` on an initialised database changes nothing. */
  lemma SeededIdempotent(config: map<string, string>)
    ensures Seeded(Seeded(config)) == Seeded(config)
  {
  }

  // ---------------------------------------------------------------------
  // Context mode, a config entry under a derived key

  /** `format!("context_mode:{}", channel_id)`. */
  function ModeKey(channelId: string): (k: string)
    ensures |k| == |ModeKeyPrefix| + |channelId|
    ensures k[..|ModeKeyPrefix|] == ModeKeyPrefix && k[|ModeKeyPrefix|..] == channelId
  {
    ModeKeyPrefix + channelId
  }

  /** `get_context_mode`: the stored mode, or "channel" when there is none. */
  function ContextMode(config: map<string, string>, channelId: string): (mode: string)
    ensures ModeKey(channelId) !in config ==> mode == DefaultContextMode
    ensures ModeKey(channelId) in config ==> mode == config[ModeKey(channelId)]
  {
    Lookup(config, ModeKey(channelId)).GetOr(DefaultContextMode)
  }

  /** Distinct channels have distinct mode keys. */
  lemma ModeKeyInjective(a: string, b: string)
    ensures ModeKey(a) == ModeKey(b) <==> a == b
  {
    if ModeKey(a) == ModeKey(b) {
      assert a == ModeKey(a)[|ModeKeyPrefix|..];
      assert b == ModeKey(b)[|ModeKeyPrefix|..];
    }
  }

  /** A mode key is never the key of a bot setting. */
  lemma ModeKeyIsNotASetting(channelId: string)
    ensures ModeKey(channelId) != SystemPromptKey
    ensures ModeKey(channelId) != ResponseCapKey
  {
    assert ModeKey(channelId)[0] == 'c';
  }

  /** With no entry for the channel the mode is "channel". */
  lemma ContextModeDefault(config: map<string, string>, channelId: string)
    requires ModeKey(channelId) !in config
    ensures ContextMode(config, channelId) == "channel"
  {
  }

  /**
   * After `set_context_mode(c, m)` the mode of `c` is `m`, and the mode of
   * every other channel is what it was.
   */
  lemma SetContextModeThenGet(config: map<string, string>, channelId: string, mode: string, other: string)
    ensures ContextMode(config[ModeKey(channelId) := mode], channelId) == mode
    ensures other != channelId ==>
      ContextMode(config[ModeKey(channelId) := mode], other) == ContextMode(config, other)
  {
    ModeKeyInjective(channelId, other);
  }

  // ---------------------------------------------------------------------
  // The messages table

  /** The messages of one channel, in insertion order. */
  function ChannelLog(rows: seq<Row>, channelId: string): (log: seq<StoredMessage>)
    ensures |log| <= |rows|
  {
    if rows == [] then []
    else
      var last := rows[|rows| - 1];
      ChannelLog(rows[..|rows| - 1], channelId) + (if last.channelId == channelId then [last.Message()] else [])
  }

  /** The last `n` elements of `s` (all of `s` when it is shorter). */
  function LastN<T>(s: seq<T>, n: nat): (r: seq<T>)
    ensures |r| == if |s| <= n then |s| else n
    ensures r == s[|s| - |r|..]
  {
    if |s| <= n then s else s[|s| - n..]
  }

  /** What `get_recent_messages` promises: the last `limit` messages of the channel, oldest first. */
  function Recent(rows: seq<Row>, channelId: string, limit: nat): (r: seq<StoredMessage>)
    ensures |r| <= limit && |r| <= |ChannelLog(rows, channelId)|
    ensures r == ChannelLog(rows, channelId)[|ChannelLog(rows, channelId)| - |r|..]
    ensures |ChannelLog(rows, channelId)| <= limit ==> r == ChannelLog(rows, channelId)
  {
    LastN(ChannelLog(rows, channelId), limit)
  }

  /**
   * The rows the SQL query yields before the reversal:
   * `WHERE channel_id = ?1 ORDER BY timestamp DESC, id DESC LIMIT ?2`,
   * read from the newest row backwards.
   */
  function NewestFirst(rows: seq<Row>, channelId: string, limit: nat): (r: seq<StoredMessage>)
    ensures |r| <= limit
  {
    if rows == [] || limit == 0 then []
    else
      var last := rows[|rows| - 1];
      if last.channelId == channelId then [last.Message()] + NewestFirst(rows[..|rows| - 1], channelId, limit - 1)
      else NewestFirst(rows[..|rows| - 1], channelId, limit)
  }

  function Reversed<T>(s: seq<T>): (r: seq<T>)
    ensures |r| == |s|
    ensures forall i :: 0 <= i < |s| ==> r[i] == s[|s| - 1 - i]
  {
    seq(|s|, i requires 0 <= i < |s| => s[|s| - 1 - i])
  }

  /** Fetching newest-first under the limit and reversing yields the last `limit` messages oldest-first. */
  lemma {:induction false} ReversedNewestFirstIsRecent(rows: seq<Row>, channelId: string, limit: nat)
    ensures Reversed(NewestFirst(rows, channelId, limit)) == Recent(rows, channelId, limit)
  {
    if rows == [] || limit == 0 {
      assert NewestFirst(rows, channelId, limit) == [];
      assert |Reversed(NewestFirst(rows, channelId, limit))| == 0;
      assert |LastN(ChannelLog(rows, channelId), limit)| == 0;
    } else {
      var init, last := rows[..|rows| - 1], rows[|rows| - 1];
      var log := ChannelLog(init, channelId);
      if last.channelId == channelId {
        var rest := NewestFirst(init, channelId, limit - 1);
        ReversedNewestFirstIsRecent(init, channelId, limit - 1);
        ReversedCons(last.Message(), rest);
        LastNSnoc(log, last.Message(), limit);
        assert ChannelLog(rows, channelId) == log + [last.Message()];
      } else {
        ReversedNewestFirstIsRecent(init, channelId, limit);
        assert ChannelLog(rows, channelId) == log + [];
        assert log + [] == log;
      }
    }
  }

  lemma ReversedCons<T>(x: T, s: seq<T>)
    ensures Reversed([x] + s) == Reversed(s) + [x]
  {
  }

  lemma LastNSnoc<T>(s: seq<T>, x: T, n: nat)
    requires n > 0
    ensures LastN(s + [x], n) == LastN(s, n - 1) + [x]
  {
  }

  /** Every message returned is one stored under the requested channel, and there are at most `limit`. */
  lemma {:induction false} RecentFromChannel(rows: seq<Row>, channelId: string, limit: nat)
    ensures |Recent(rows, channelId, limit)| <= limit
    ensures forall m :: m in Recent(rows, channelId, limit) ==>
      exists i :: 0 <= i < |rows| && rows[i].channelId == channelId && rows[i].Message() == m
  {
    var log := ChannelLog(rows, channelId);
    ChannelLogFromChannel(rows, channelId);
    forall m | m in Recent(rows, channelId, limit) ensures m in log {
      var k :| 0 <= k < |log[|log| - |Recent(rows, channelId, limit)|..]| && log[|log| - |Recent(rows, channelId, limit)|..][k] == m;
      assert log[|log| - |Recent(rows, channelId, limit)| + k] == m;
    }
  }

  lemma {:induction false} ChannelLogFromChannel(rows: seq<Row>, channelId: string)
    ensures forall m :: m in ChannelLog(rows, channelId) ==>
      exists i :: 0 <= i < |rows| && rows[i].channelId == channelId && rows[i].Message() == m
  {
    if rows != [] {
      var init := rows[..|rows| - 1];
      ChannelLogFromChannel(init, channelId);
      forall m | m in ChannelLog(rows, channelId)
        ensures exists i :: 0 <= i < |rows| && rows[i].channelId == channelId && rows[i].Message() == m
      {
        if m in ChannelLog(init, channelId) {
          var i :| 0 <= i < |init| && init[i].channelId == channelId && init[i].Message() == m;
          assert rows[i] == init[i];
        } else {
          assert rows[|rows| - 1].channelId == channelId && rows[|rows| - 1].Message() == m;
        }
      }
    }
  }

  /** Appending a row for one channel leaves every other channel's history unchanged. */
  lemma StoreLeavesOtherChannels(rows: seq<Row>, row: Row, other: string, limit: nat)
    requires row.channelId != other
    ensures ChannelLog(rows + [row], other) == ChannelLog(rows, other)
    ensures Recent(rows + [row], other, limit) == Recent(rows, other, limit)
  {
    ChannelLogSnoc(rows, row, other);
  }

  lemma ChannelLogSnoc(rows: seq<Row>, row: Row, channelId: string)
    ensures ChannelLog(rows + [row], channelId)
         == ChannelLog(rows, channelId) + (if row.channelId == channelId then [row.Message()] else [])
  {
    assert (rows + [row])[..|rows|] == rows;
  }

  /** The rows that storing `ms` one by one on `channelId` appends, ids counting up from `firstId`. */
  function Appended(channelId: string, ms: seq<StoredMessage>, firstId: nat): (rows: seq<Row>)
    ensures |rows| == |ms|
  {
    if ms == [] then []
    else Appended(channelId, ms[..|ms| - 1], firstId) + [Row(firstId + |ms| - 1, channelId, ms[|ms| - 1].role, ms[|ms| - 1].content)]
  }

  lemma {:induction false} ChannelLogOfAppended(rows: seq<Row>, channelId: string, ms: seq<StoredMessage>, firstId: nat)
    ensures ChannelLog(rows + Appended(channelId, ms, firstId), channelId) == ChannelLog(rows, channelId) + ms
  {
    if ms == [] {
      assert rows + Appended(channelId, ms, firstId) == rows;
    } else {
      var init, last := ms[..|ms| - 1], ms[|ms| - 1];
      var before := rows + Appended(channelId, init, firstId);
      var row := Row(firstId + |ms| - 1, channelId, last.role, last.content);
      assert rows + Appended(channelId, ms, firstId) == before + [row];
      ChannelLogSnoc(before, row, channelId);
      ChannelLogOfAppended(rows, channelId, init, firstId);
      assert ms == init + [last];
    }
  }

  /**
   * Round trip: messages stored on one channel are read back, within the
   * window, with their roles, contents and order. With 20 stored and a
   * limit of 5 this gives the 16th to the 20th.
   */
  lemma StoreThenReadBack(rows: seq<Row>, channelId: string, ms: seq<StoredMessage>, firstId: nat, limit: nat)
    requires limit <= |ms|
    ensures Recent(rows + Appended(channelId, ms, firstId), channelId, limit) == ms[|ms| - limit..]
  {
    ChannelLogOfAppended(rows, channelId, ms, firstId);
  }

  /** On a channel with no earlier messages, a window at least as large as what was stored returns all of it. */
  lemma FreshChannelReadsBackAll(rows: seq<Row>, channelId: string, ms: seq<StoredMessage>, firstId: nat, limit: nat)
    requires ChannelLog(rows, channelId) == []
    requires |ms| <= limit
    ensures Recent(rows + Appended(channelId, ms, firstId), channelId, limit) == ms
  {
    ChannelLogOfAppended(rows, channelId, ms, firstId);
  }

  // ---------------------------------------------------------------------
  // The connection

  /** Ids strictly increase along the log and stay below the next one to be handed out. */
  ghost predicate IdsOrdered(rows: seq<Row>, nextId: nat) {
    && (forall i, j :: 0 <= i < j < |rows| ==> rows[i].id < rows[j].id)
    && (forall i :: 0 <= i < |rows| ==> rows[i].id < nextId)
  }

  class ConversationStore {
    var config: map<string, string>
    var messages: seq<Row>
    var nextId: nat

    /** Insertion order is id order, so `ORDER BY id DESC` reads the log backwards. */
    ghost predicate Valid()
      reads this
    {
      IdsOrdered(messages, nextId)
    }

    /** A fresh database after `init`: empty tables, then the seeded system prompt. */
    constructor Open()
      ensures Valid()
      ensures config == map[SystemPromptKey := DefaultSystemPrompt] && messages == []
    {
      config := map[];
      messages := [];
      nextId := 1;
      new;
      Init();
    }

    /** `init`: seeds `system_prompt` with the default only when it is absent. */
    method Init()
      modifies this`config
      ensures config == Seeded(old(config))
    {
      if SystemPromptKey !in config {
        config := config[SystemPromptKey := DefaultSystemPrompt];
      }
    }

    /** `get_config`: the value stored under `key`, or None when it was never set. */
    method GetConfig(key: string) returns (value: Option<string>)
      ensures value.Some? <==> key in config
      ensures value.Some? ==> value.value == config[key]
      ensures value == Lookup(config, key)
    {
      if key in config {
        value := Some(config[key]);
      } else {
        value := None;
      }
    }

    /** `set_config`: insert, or update on key conflict. */
    method SetConfig(key: string, value: string)
      modifies this`config
      ensures config == old(config)[key := value]
    {
      config := config[key := value];
    }

    /** `get_context_mode`. */
    method GetContextMode(channelId: string) returns (mode: string)
      ensures mode == ContextMode(config, channelId)
      ensures ModeKey(channelId) !in config ==> mode == DefaultContextMode
    {
      var stored := GetConfig(ModeKey(channelId));
      mode := stored.GetOr(DefaultContextMode);
    }

    /** `set_context_mode`. */
    method SetContextMode(channelId: string, mode: string)
      modifies this`config
      ensures config == old(config)[ModeKey(channelId) := mode]
    {
      SetConfig(ModeKey(channelId), mode);
    }

    /** `store_message`: appends one row with the next id. */
    method StoreMessage(channelId: string, role: string, content: string)
      requires Valid()
      modifies this`messages, this`nextId
      ensures Valid()
      ensures messages == old(messages) + [Row(old(nextId), channelId, role, content)]
      ensures nextId == old(nextId) + 1
    {
      messages := messages + [Row(nextId, channelId, role, content)];
      nextId := nextId + 1;
    }

    /**
     * `get_recent_messages`: runs the newest-first query under the limit,
     * collects the rows into a buffer and reverses the buffer in place.
     */
    method GetRecentMessages(channelId: string, limit: nat) returns (result: seq<StoredMessage>)
      ensures result == Recent(messages, channelId, limit)
    {
      var fetched := QueryNewestFirst(channelId, limit);
      var buffer := new StoredMessage[|fetched|](k requires 0 <= k < |fetched| => fetched[k]);
      assert buffer[..] == fetched;
      ReverseInPlace(buffer);
      result := buffer[..];
      ReversedNewestFirstIsRecent(messages, channelId, limit);
    }

    /** The SQL query of `get_recent_messages`: newest row first, stopping at `limit` rows of the channel. */
    method QueryNewestFirst(channelId: string, limit: nat) returns (fetched: seq<StoredMessage>)
      ensures fetched == NewestFirst(messages, channelId, limit)
    {
      fetched := [];
      var i := |messages|;
      assert messages[..i] == messages;
      while i > 0 && |fetched| < limit
        invariant 0 <= i <= |messages|
        invariant |fetched| <= limit
        invariant fetched + NewestFirst(messages[..i], channelId, limit - |fetched|)
               == NewestFirst(messages, channelId, limit)
      {
        ghost var before := messages[..i];
        assert before[..i - 1] == messages[..i - 1] && before[i - 1] == messages[i - 1];
        i := i - 1;
        var row := messages[i];
        if row.channelId == channelId {
          assert NewestFirst(before, channelId, limit - |fetched|)
              == [row.Message()] + NewestFirst(messages[..i], channelId, limit - |fetched| - 1);
          fetched := fetched + [row.Message()];
        }
      }
    }
  }

  /** `Vec::reverse`: swaps from both ends towards the middle. */
  method ReverseInPlace<T>(a: array<T>)
    modifies a
    ensures a[..] == Reversed(old(a[..]))
  {
    var lo, hi := 0, a.Length;
    while lo + 1 < hi
      invariant 0 <= lo <= hi <= a.Length && lo + hi == a.Length
      invariant forall k :: 0 <= k < lo ==> a[k] == old(a[a.Length - 1 - k])
      invariant forall k :: hi <= k < a.Length ==> a[k] == old(a[a.Length - 1 - k])
      invariant forall k :: lo <= k < hi ==> a[k] == old(a[k])
    {
      a[lo], a[hi - 1] := a[hi - 1], a[lo];
      lo, hi := lo + 1, hi - 1;
    }
  }
}
