/**
 * The `!levelcheck` and `!levelcheckraw` commands of src/main.rs: every
 * tracked character is fetched from the Blizzard profile API with the cached
 * Battle.net token, the answers are split into entries and errors, the
 * entries are sorted by level (highest first), optionally annotated with a
 * one-line insult from the language model, and rendered as one message.
 * The tracked names, the clock readings and the outcomes of all HTTP
 * exchanges are inputs; `join_all` hands back answers index-aligned with
 * its requests, and the token lock serialises the callers, so the fetches
 * are modelled one after the other, in the order of the names.
 */
module LevelCheck {
  import opened Wrappers
  import opened Http
  import opened Text
  import opened Db
  import opened Chat
  import opened Auth
  import opened LevelSort

  /** The fields of a character profile that the code reads. */
  datatype Character = Character(name: string, level: nat, race: string, characterClass: string)

  /** The two clock readings of one `get_battlenet_token` call: at `is_expired` and after the refresh. */
  datatype Clock = Clock(now: nat, refreshedAt: nat)

  const NotFound: nat := 404

  /**
   * What `fetch_wow_character` returns once the token step has produced
   * `token`: a token error is passed on unchanged; then an unreachable API, a
   * 404 (reported with the name as the user typed it), any other non-2xx
   * status and an undecodable body are errors, in that order.
   */
  function CharacterResult(name: string, token: Result<string, string>, api: HttpOutcome<Character>): (r: Result<Character, string>)
    ensures token.Err? ==> r == Err(token.error)
    ensures r.Ok? <==> token.Ok? && api.Responded? && IsSuccess(api.status) && api.body.Ok?
    ensures r.Ok? ==> r.value == api.body.value
    ensures token.Ok? && api.Responded? && api.status == NotFound ==>
      r == Err("Character **" + name + "** not found on Nightslayer.")
  {
    match token
    case Err(e) => Err(e)
    case Ok(_) =>
      match api
      case Unreachable(detail) => Err("API request failed: " + detail)
      case Responded(status, statusText, body) =>
        if status == NotFound then Err("Character **" + name + "** not found on Nightslayer.")
        else if !IsSuccess(status) then Err("Blizzard API returned status " + statusText)
        else
          match body
          case Err(e) => Err("Failed to parse character data: " + e)
          case Ok(c) => Ok(c)
  }

  /** `fetch_wow_character`: the token step, then the profile request. */
  method FetchWowCharacter(auth: BattleNetAuth?, clock: Clock, exchange: HttpOutcome<TokenResponse>,
                           name: string, api: HttpOutcome<Character>)
    returns (r: Result<Character, string>)
    requires auth != null ==> auth.Valid()
    requires clock.now <= clock.refreshedAt
    modifies auth
    ensures auth == null ==> r == Err("Battle.net not configured")
    ensures auth != null ==>
      var (s', token) := Acquire(old(auth.State()), clock.now, clock.refreshedAt, exchange);
      auth.Valid() && auth.State() == s' && r == CharacterResult(name, token, api)
  {
    var token := GetBattlenetToken(auth, clock.now, clock.refreshedAt, exchange);
    if token.Err? {
      return Err(token.error);
    }
    match api {
      case Unreachable(detail) =>
        r := Err("API request failed: " + detail);
      case Responded(status, statusText, body) =>
        if status == NotFound {
          r := Err("Character **" + name + "** not found on Nightslayer.");
        } else if !IsSuccess(status) {
          r := Err("Blizzard API returned status " + statusText);
        } else {
          match body {
            case Err(e) => r := Err("Failed to parse character data: " + e);
            case Ok(c) => r := Ok(c);
          }
        }
    }
  }

  /** The token calls of a run of fetches: the cache state after them and what each returned. */
  function TokenRun(s: AuthState, clocks: seq<Clock>, exchanges: seq<HttpOutcome<TokenResponse>>)
    : (r: (AuthState, seq<Result<string, string>>))
    requires Consistent(s) && |exchanges| == |clocks|
    ensures Consistent(r.0) && |r.1| == |clocks|
    decreases |clocks|
  {
    if clocks == [] then (s, [])
    else
      AcquireKeepsConsistent(s, clocks[0].now, clocks[0].refreshedAt, exchanges[0]);
      var (s1, t) := Acquire(s, clocks[0].now, clocks[0].refreshedAt, exchanges[0]);
      var (s2, ts) := TokenRun(s1, clocks[1..], exchanges[1..]);
      (s2, [t] + ts)
  }

  /**
   * While the cached token stays fresh, every fetch reuses it: no exchange
   * is used and the cache does not change.
   */
  lemma {:induction false} TokenRunWhileFresh(s: AuthState, clocks: seq<Clock>, exchanges: seq<HttpOutcome<TokenResponse>>)
    requires Consistent(s) && |exchanges| == |clocks|
    requires forall i :: 0 <= i < |clocks| ==> !Expired(s, clocks[i].now)
    ensures TokenRun(s, clocks, exchanges).0 == s
    ensures forall i :: 0 <= i < |clocks| ==> TokenRun(s, clocks, exchanges).1[i] == Ok(s.token.value)
  {
    if clocks != [] {
      CacheHit(s, clocks[0].now, clocks[0].refreshedAt, exchanges[0]);
      TokenRunWhileFresh(s, clocks[1..], exchanges[1..]);
    }
  }

  /**
   * After a token call that succeeds, whether from the cache or by a refresh,
   * the later fetches that read the clock before the new expiry get the
   * same token.
   */
  lemma RefreshServesLaterFetches(s: AuthState, first: Clock, exchange: HttpOutcome<TokenResponse>,
                                  clocks: seq<Clock>, exchanges: seq<HttpOutcome<TokenResponse>>)
    requires Consistent(s) && |exchanges| == |clocks|
    requires Acquire(s, first.now, first.refreshedAt, exchange).1.Ok?
    requires forall i :: 0 <= i < |clocks| ==> !Expired(Acquire(s, first.now, first.refreshedAt, exchange).0, clocks[i].now)
    ensures forall i :: 0 <= i < |clocks| ==>
      TokenRun(Acquire(s, first.now, first.refreshedAt, exchange).0, clocks, exchanges).1[i]
        == Acquire(s, first.now, first.refreshedAt, exchange).1
  {
    var r := Acquire(s, first.now, first.refreshedAt, exchange);
    AcquireKeepsConsistent(s, first.now, first.refreshedAt, exchange);
    assert r.1 == Ok(r.0.token.value);
    TokenRunWhileFresh(r.0, clocks, exchanges);
  }

  /** The index-aligned results of `join_all` over the fetches. */
  function Results(names: seq<string>, tokens: seq<Result<string, string>>, apis: seq<HttpOutcome<Character>>)
    : (r: seq<Result<Character, string>>)
    requires |tokens| == |names| && |apis| == |names|
    ensures |r| == |names|
  {
    seq(|names|, i requires 0 <= i < |names| => CharacterResult(names[i], tokens[i], apis[i]))
  }

  /** One step of the fetch loop: the run from fetch `i` on is fetch `i`'s token call followed by the run from `i + 1` on. */
  lemma TokenRunStep(s: AuthState, clocks: seq<Clock>, exchanges: seq<HttpOutcome<TokenResponse>>, i: nat,
                     tokens: seq<Result<string, string>>)
    requires Consistent(s) && |exchanges| == |clocks| && i < |clocks|
    ensures var (s1, t) := Acquire(s, clocks[i].now, clocks[i].refreshedAt, exchanges[i]);
      Consistent(s1) &&
      TokenRun(s, clocks[i..], exchanges[i..]).0 == TokenRun(s1, clocks[i + 1..], exchanges[i + 1..]).0 &&
      tokens + TokenRun(s, clocks[i..], exchanges[i..]).1
        == (tokens + [t]) + TokenRun(s1, clocks[i + 1..], exchanges[i + 1..]).1
  {
    AcquireKeepsConsistent(s, clocks[i].now, clocks[i].refreshedAt, exchanges[i]);
    assert clocks[i..][1..] == clocks[i + 1..] && exchanges[i..][1..] == exchanges[i + 1..];
    var (s1, t) := Acquire(s, clocks[i].now, clocks[i].refreshedAt, exchanges[i]);
    var rest := TokenRun(s1, clocks[i + 1..], exchanges[i + 1..]);
    assert TokenRun(s, clocks[i..], exchanges[i..]) == (rest.0, [t] + rest.1);
    ConcatAssoc(tokens, [t], rest.1);
  }

  /** `fetch_wow_character` for every name in turn, sharing one token cache. */
  method FetchAll(auth: BattleNetAuth, names: seq<string>, clocks: seq<Clock>,
                  exchanges: seq<HttpOutcome<TokenResponse>>, apis: seq<HttpOutcome<Character>>)
    returns (results: seq<Result<Character, string>>)
    requires auth.Valid()
    requires |clocks| == |names| && |exchanges| == |names| && |apis| == |names|
    requires forall i :: 0 <= i < |clocks| ==> clocks[i].now <= clocks[i].refreshedAt
    modifies auth
    ensures auth.Valid()
    ensures var (s', tokens) := TokenRun(old(auth.State()), clocks, exchanges);
      auth.State() == s' && results == Results(names, tokens, apis)
  {
    ghost var start := auth.State();
    ghost var tokens: seq<Result<string, string>> := [];
    results := [];
    var i := 0;
    assert clocks[0..] == clocks && exchanges[0..] == exchanges;
    assert TokenRun(start, clocks, exchanges).1 == tokens + TokenRun(start, clocks[0..], exchanges[0..]).1;
    while i < |names|
      invariant 0 <= i <= |names|
      invariant auth.Valid()
      invariant |tokens| == i && |results| == i
      invariant TokenRun(start, clocks, exchanges)
             == (TokenRun(auth.State(), clocks[i..], exchanges[i..]).0,
                 tokens + TokenRun(auth.State(), clocks[i..], exchanges[i..]).1)
      invariant forall k :: 0 <= k < i ==> results[k] == CharacterResult(names[k], tokens[k], apis[k])
    {
      ghost var before := auth.State();
      ghost var t := Acquire(before, clocks[i].now, clocks[i].refreshedAt, exchanges[i]).1;
      var r := FetchWowCharacter(auth, clocks[i], exchanges[i], names[i], apis[i]);
      TokenRunStep(before, clocks, exchanges, i, tokens);
      results := results + [r];
      tokens := tokens + [t];
      i := i + 1;
    }
    assert clocks[i..] == [] && exchanges[i..] == [];
    assert tokens + [] == tokens;
  }

  /** The report entry of a fetched character: its name, level and "<race> <class>". */
  function EntryOf(c: Character): Entry {
    Entry(c.name, c.level, c.race + " " + c.characterClass)
  }

  /** The entries of the successful fetches, in input order. */
  function Successes(results: seq<Result<Character, string>>): (entries: seq<Entry>)
    ensures |entries| <= |results|
  {
    if results == [] then []
    else
      var last := results[|results| - 1];
      Successes(results[..|results| - 1]) + (if last.Ok? then [EntryOf(last.value)] else [])
  }

  /** The "<name>: <error>" lines of the failed fetches, in input order. */
  function Failures(names: seq<string>, results: seq<Result<Character, string>>): (errors: seq<string>)
    requires |names| == |results|
    ensures |errors| <= |results|
  {
    if results == [] then []
    else
      var last := results[|results| - 1];
      Failures(names[..|names| - 1], results[..|results| - 1])
        + (if last.Err? then [names[|names| - 1] + ": " + last.error] else [])
  }

  /** The indices of the results that succeeded (`ok`) or failed (`!ok`), ascending. */
  function Positions(results: seq<Result<Character, string>>, ok: bool): (idx: seq<nat>)
    ensures forall k :: 0 <= k < |idx| ==> idx[k] < |results| && results[idx[k]].Ok? == ok
  {
    if results == [] then []
    else
      var init := results[..|results| - 1];
      var idx := Positions(init, ok);
      assert forall k :: 0 <= k < |idx| ==> results[idx[k]] == init[idx[k]];
      idx + (if results[|results| - 1].Ok? == ok then [|results| - 1] else [])
  }

  /** The positions are ascending and miss no result of the requested kind. */
  lemma {:induction false} PositionsComplete(results: seq<Result<Character, string>>, ok: bool)
    ensures var idx := Positions(results, ok);
      && (forall k, m :: 0 <= k < m < |idx| ==> idx[k] < idx[m])
      && (forall i :: 0 <= i < |results| && results[i].Ok? == ok ==> i in idx)
  {
    if results != [] {
      var n := |results|;
      var init := results[..n - 1];
      PositionsComplete(init, ok);
      var idx := Positions(init, ok);
      assert Positions(results, ok) == idx + (if results[n - 1].Ok? == ok then [n - 1] else []);
      forall i | 0 <= i < n - 1 && results[i].Ok? == ok ensures i in idx {
        assert init[i] == results[i];
      }
    }
  }

  /** Every result is either an entry or an error line. */
  lemma {:induction false} PartitionCounts(names: seq<string>, results: seq<Result<Character, string>>)
    requires |names| == |results|
    ensures |Successes(results)| + |Failures(names, results)| == |names|
  {
    if results != [] {
      PartitionCounts(names[..|names| - 1], results[..|results| - 1]);
    }
  }

  /** The entries are the successful results, one each, in input order. */
  lemma {:induction false} SuccessesInInputOrder(results: seq<Result<Character, string>>)
    ensures var idx := Positions(results, true);
      |Successes(results)| == |idx|
      && forall k :: 0 <= k < |idx| ==> Successes(results)[k] == EntryOf(results[idx[k]].value)
  {
    if results != [] {
      var n := |results|;
      var init, last := results[..n - 1], results[n - 1];
      SuccessesInInputOrder(init);
      var idx := Positions(init, true);
      assert Positions(results, true) == idx + (if last.Ok? then [n - 1] else []);
      assert Successes(results) == Successes(init) + (if last.Ok? then [EntryOf(last.value)] else []);
      forall k | 0 <= k < |idx| ensures results[idx[k]] == init[idx[k]] {
      }
    }
  }

  /** The error lines are the failed results, one each, in input order, each led by its name. */
  lemma {:induction false} FailuresInInputOrder(names: seq<string>, results: seq<Result<Character, string>>)
    requires |names| == |results|
    ensures var idx := Positions(results, false);
      |Failures(names, results)| == |idx|
      && forall k :: 0 <= k < |idx| ==>
           Failures(names, results)[k] == names[idx[k]] + ": " + results[idx[k]].error
  {
    if results != [] {
      var n := |results|;
      var init, initNames, last := results[..n - 1], names[..n - 1], results[n - 1];
      FailuresInInputOrder(initNames, init);
      var idx := Positions(init, false);
      assert Positions(results, false) == idx + (if last.Err? then [n - 1] else []);
      assert Failures(names, results) == Failures(initNames, init) + (if last.Err? then [names[n - 1] + ": " + last.error] else []);
      forall k | 0 <= k < |idx| ensures results[idx[k]] == init[idx[k]] && names[idx[k]] == initNames[idx[k]] {
      }
    }
  }

  /** The loop of the command that splits the results into entries and error lines. */
  method Partition(names: seq<string>, results: seq<Result<Character, string>>)
    returns (entries: seq<Entry>, errors: seq<string>)
    requires |names| == |results|
    ensures entries == Successes(results) && errors == Failures(names, results)
  {
    entries, errors := [], [];
    var i := 0;
    while i < |results|
      invariant 0 <= i <= |results|
      invariant entries == Successes(results[..i]) && errors == Failures(names[..i], results[..i])
    {
      assert results[..i + 1][..i] == results[..i] && names[..i + 1][..i] == names[..i];
      match results[i] {
        case Ok(c) => entries := entries + [EntryOf(c)];
        case Err(e) => errors := errors + [names[i] + ": " + e];
      }
      i := i + 1;
    }
    assert results[..i] == results && names[..i] == names;
  }

  /** The request for one insult. */
  function InsultPrompt(e: Entry): string {
    "Give a 1-5 word insult for a level " + NatToString(e.level) + " " + e.desc + " named " + e.name
      + ". Reply with ONLY the insult, nothing else."
  }

  /** The one-shot requests sent for the insults, one per entry, all with the stored system prompt. */
  function InsultRequests(systemPrompt: string, entries: seq<Entry>): (reqs: seq<seq<ChatMessage>>)
    ensures |reqs| == |entries|
    ensures forall i :: 0 <= i < |entries| ==>
      reqs[i] == [ChatMessage("system", systemPrompt), ChatMessage("user", InsultPrompt(entries[i]))]
  {
    seq(|entries|, i requires 0 <= i < |entries| => OneShotMessages(systemPrompt, InsultPrompt(entries[i])))
  }

  /**
   * The annotation of each of `n` entries: with insults on, the reply to
   * the entry's request, or nothing when that request failed; otherwise
   * nothing for every entry.
   */
  function Annotations(annotate: bool, outcomes: seq<ChatOutcome>, n: nat): (r: seq<Option<string>>)
    requires annotate ==> |outcomes| >= n
    ensures |r| == n
    ensures !annotate ==> forall i :: 0 <= i < n ==> r[i] == None
    ensures annotate ==> forall i :: 0 <= i < n ==>
      (r[i].Some? <==> ReplyOf(outcomes[i]).Ok?) && (r[i].Some? ==> r[i].value == ReplyOf(outcomes[i]).value)
  {
    if annotate then seq(n, i requires 0 <= i < n => QueryLlmOneshot(true, outcomes[i]).ToOption())
    else seq(n, _ => None)
  }

  /** "—" and "⚠" as the source file spells them: their UTF-8 bytes read as Windows-1252. */
  const Dash: string := "\U{00E2}\U{20AC}\U{201D}"
  const Warn: string := "\U{00E2}\U{0161}\U{00A0}"
  const Header: string := "**Level Check " + Dash + " Nightslayer**\n"

  /** One entry's line, with the trimmed insult in italics when there is one. */
  function EntryLine(e: Entry, insult: Option<string>): string {
    var head := "  " + e.name + " " + Dash + " Level " + NatToString(e.level) + " " + e.desc;
    match insult
    case Some(text) => head + " " + Dash + " *" + Trim(text) + "*\n"
    case None => head + "\n"
  }

  function ErrorLine(err: string): string {
    "  " + Warn + " " + err + "\n"
  }

  /** `entries.iter().zip(insults.iter())`: pairs up to the shorter of the two. */
  function Zip(entries: seq<Entry>, insults: seq<Option<string>>): (pairs: seq<(Entry, Option<string>)>)
    ensures |pairs| == if |entries| <= |insults| then |entries| else |insults|
    ensures forall i :: 0 <= i < |pairs| ==> pairs[i] == (entries[i], insults[i])
  {
    var n := if |entries| <= |insults| then |entries| else |insults|;
    seq(n, i requires 0 <= i < n => (entries[i], insults[i]))
  }

  /** The lines of the first `n` pairs. */
  function EntryLines(pairs: seq<(Entry, Option<string>)>, n: nat): string
    requires n <= |pairs|
  {
    if n == 0 then "" else EntryLines(pairs, n - 1) + EntryLine(pairs[n - 1].0, pairs[n - 1].1)
  }

  /** The lines of the first `n` errors. */
  function ErrorLines(errors: seq<string>, n: nat): string
    requires n <= |errors|
  {
    if n == 0 then "" else ErrorLines(errors, n - 1) + ErrorLine(errors[n - 1])
  }

  /** The whole message: the header, one line per entry, then one line per error. */
  function Report(pairs: seq<(Entry, Option<string>)>, errors: seq<string>): string {
    Header + EntryLines(pairs, |pairs|) + ErrorLines(errors, |errors|)
  }

  /** The `push_str` loops that build the message. */
  method Render(entries: seq<Entry>, insults: seq<Option<string>>, errors: seq<string>) returns (response: string)
    ensures response == Report(Zip(entries, insults), errors)
  {
    response := PushEntryLines(Header, Zip(entries, insults));
    response := PushErrorLines(response, errors);
  }

  lemma EntryLinesStep(prefix: string, pairs: seq<(Entry, Option<string>)>, i: nat)
    requires i < |pairs|
    ensures (prefix + EntryLines(pairs, i)) + EntryLine(pairs[i].0, pairs[i].1) == prefix + EntryLines(pairs, i + 1)
  {
    var a, b := EntryLines(pairs, i), EntryLine(pairs[i].0, pairs[i].1);
    assert EntryLines(pairs, i + 1) == a + b;
    ConcatAssoc(prefix, a, b);
  }

  lemma ErrorLinesStep(prefix: string, errors: seq<string>, j: nat)
    requires j < |errors|
    ensures (prefix + ErrorLines(errors, j)) + ErrorLine(errors[j]) == prefix + ErrorLines(errors, j + 1)
  {
    var a, b := ErrorLines(errors, j), ErrorLine(errors[j]);
    assert ErrorLines(errors, j + 1) == a + b;
    ConcatAssoc(prefix, a, b);
  }

  /** The first loop: one line per entry and its annotation. */
  method PushEntryLines(prefix: string, pairs: seq<(Entry, Option<string>)>) returns (response: string)
    ensures response == prefix + EntryLines(pairs, |pairs|)
  {
    response := prefix;
    var i := 0;
    while i < |pairs|
      invariant 0 <= i <= |pairs|
      invariant response == prefix + EntryLines(pairs, i)
    {
      EntryLinesStep(prefix, pairs, i);
      response := response + EntryLine(pairs[i].0, pairs[i].1);
      i := i + 1;
    }
  }

  /** The second loop: one line per error. */
  method PushErrorLines(prefix: string, errors: seq<string>) returns (response: string)
    ensures response == prefix + ErrorLines(errors, |errors|)
  {
    response := prefix;
    var j := 0;
    while j < |errors|
      invariant 0 <= j <= |errors|
      invariant response == prefix + ErrorLines(errors, j)
    {
      ErrorLinesStep(prefix, errors, j);
      response := response + ErrorLine(errors[j]);
      j := j + 1;
    }
  }

  /** The number of line breaks in `s`. */
  function Newlines(s: string): nat {
    if s == [] then 0 else Newlines(s[..|s| - 1]) + (if s[|s| - 1] == '\n' then 1 else 0)
  }

  lemma {:induction false} NewlinesConcat(a: string, b: string)
    ensures Newlines(a + b) == Newlines(a) + Newlines(b)
  {
    if b == [] {
      assert a + b == a;
    } else {
      assert (a + b)[..|a + b| - 1] == a + b[..|b| - 1];
      NewlinesConcat(a, b[..|b| - 1]);
    }
  }

  lemma {:induction false} NoNewlines(s: string)
    requires '\n' !in s
    ensures Newlines(s) == 0
  {
    if s != [] {
      assert s[|s| - 1] in s;
      NoNewlines(s[..|s| - 1]);
    }
  }

  /** A line made of text without line breaks and one final line break counts once. */
  lemma OneLine(body: string)
    requires '\n' !in body
    ensures Newlines(body + "\n") == 1
  {
    assert (body + "\n")[..|body|] == body;
    NoNewlines(body);
  }

  predicate SingleLine(s: string) {
    '\n' !in s
  }

  lemma DigitsAreSingleLine(n: nat)
    ensures SingleLine(NatToString(n))
  {
    NatToStringDigits(n);
  }

  /** An entry whose fields and insult hold no line break is one line of the message. */
  lemma {:induction false} EntryLineIsOneLine(e: Entry, insult: Option<string>)
    requires SingleLine(e.name) && SingleLine(e.desc)
    requires insult.Some? ==> SingleLine(insult.value)
    ensures Newlines(EntryLine(e, insult)) == 1
  {
    DigitsAreSingleLine(e.level);
    var head := "  " + e.name + " " + Dash + " Level " + NatToString(e.level) + " " + e.desc;
    assert '\n' !in head;
    match insult {
      case Some(text) =>
        var t := Trim(text);
        assert forall c :: c in t ==> c in text;
        assert EntryLine(e, insult) == (head + " " + Dash + " *" + t + "*") + "\n";
        OneLine(head + " " + Dash + " *" + t + "*");
      case None =>
        OneLine(head);
    }
  }

  lemma {:induction false} EntryLinesCount(pairs: seq<(Entry, Option<string>)>, n: nat)
    requires n <= |pairs|
    requires forall i :: 0 <= i < |pairs| ==> SingleLine(pairs[i].0.name) && SingleLine(pairs[i].0.desc)
    requires forall i :: 0 <= i < |pairs| ==> pairs[i].1.Some? ==> SingleLine(pairs[i].1.value)
    ensures Newlines(EntryLines(pairs, n)) == n
  {
    if n > 0 {
      var last := pairs[n - 1];
      var before, line := EntryLines(pairs, n - 1), EntryLine(last.0, last.1);
      EntryLinesCount(pairs, n - 1);
      EntryLineIsOneLine(last.0, last.1);
      NewlinesConcat(before, line);
      assert EntryLines(pairs, n) == before + line;
    }
  }

  lemma {:induction false} ErrorLinesCount(errors: seq<string>, n: nat)
    requires n <= |errors|
    requires forall i :: 0 <= i < |errors| ==> SingleLine(errors[i])
    ensures Newlines(ErrorLines(errors, n)) == n
  {
    if n > 0 {
      var last := errors[n - 1];
      ErrorLinesCount(errors, n - 1);
      assert ErrorLine(last) == ("  " + Warn + " " + last) + "\n";
      OneLine("  " + Warn + " " + last);
      NewlinesConcat(ErrorLines(errors, n - 1), ErrorLine(last));
    }
  }

  /**
   * When no name, description, insult or error message contains a line
   * break, the message has the header line, one line per entry and one line
   * per error.
   */
  lemma ReportLineCount(pairs: seq<(Entry, Option<string>)>, errors: seq<string>)
    requires forall i :: 0 <= i < |pairs| ==> SingleLine(pairs[i].0.name) && SingleLine(pairs[i].0.desc)
    requires forall i :: 0 <= i < |pairs| ==> pairs[i].1.Some? ==> SingleLine(pairs[i].1.value)
    requires forall i :: 0 <= i < |errors| ==> SingleLine(errors[i])
    ensures Newlines(Report(pairs, errors)) == 1 + |pairs| + |errors|
  {
    assert Header == "**Level Check " + Dash + " Nightslayer**" + "\n";
    OneLine("**Level Check " + Dash + " Nightslayer**");
    EntryLinesCount(pairs, |pairs|);
    ErrorLinesCount(errors, |errors|);
    NewlinesConcat(Header, EntryLines(pairs, |pairs|));
    NewlinesConcat(Header + EntryLines(pairs, |pairs|), ErrorLines(errors, |errors|));
  }

  const NotConfiguredReply: string := "Battle.net API not configured."
  const NoCharactersReply: string := "No characters tracked. Use `!addcharacter <name>` to add one."

  /**
   * `!levelcheck` / `!levelcheckraw`. Without Battle.net credentials, or
   * with no tracked names, it answers at once and fetches nothing.
   * Otherwise every name is fetched, the entries are sorted by level, and
   * when the command is not `!levelcheckraw` and a language model is
   * configured, one insult request per entry is sent with the stored system
   * prompt (`insultOutcomes[i]` answers the i-th of them).
   */
  method LevelCheckCommand(content: string, auth: BattleNetAuth?, llamaConfigured: bool, store: ConversationStore,
                           names: seq<string>, clocks: seq<Clock>, exchanges: seq<HttpOutcome<TokenResponse>>,
                           apis: seq<HttpOutcome<Character>>, insultOutcomes: seq<ChatOutcome>)
    returns (response: string, insultRequests: seq<seq<ChatMessage>>)
    requires "!levelcheck" <= content
    requires auth != null ==> auth.Valid()
    requires |clocks| == |names| && |exchanges| == |names| && |apis| == |names| && |insultOutcomes| == |names|
    requires forall i :: 0 <= i < |clocks| ==> clocks[i].now <= clocks[i].refreshedAt
    modifies auth
    ensures auth == null ==> response == NotConfiguredReply && insultRequests == []
    ensures auth != null && names == [] ==>
      response == NoCharactersReply && insultRequests == [] && auth.State() == old(auth.State())
    ensures auth != null && names != [] ==>
      var (s', tokens) := TokenRun(old(auth.State()), clocks, exchanges);
      var results := Results(names, tokens, apis);
      var entries := SortedByLevel(Successes(results));
      var annotate := !("!levelcheckraw" <= content) && llamaConfigured;
      && auth.Valid() && auth.State() == s'
      && insultRequests == (if annotate then InsultRequests(Lookup(store.config, SystemPromptKey).GetOr(""), entries) else [])
      && response == Report(Zip(entries, Annotations(annotate, insultOutcomes, |entries|)), Failures(names, results))
  {
    var useInsults := !("!levelcheckraw" <= content);
    if auth == null {
      return NotConfiguredReply, [];
    }
    if names == [] {
      return NoCharactersReply, [];
    }
    var results := FetchAll(auth, names, clocks, exchanges, apis);
    var entries, errors := Partition(names, results);
    entries := SortedByLevel(entries);
    var insults: seq<Option<string>>;
    if useInsults && llamaConfigured {
      var storedPrompt := store.GetConfig(SystemPromptKey);
      var systemPrompt := storedPrompt.GetOr("");
      insultRequests := InsultRequests(systemPrompt, entries);
      insults := Annotations(true, insultOutcomes, |entries|);
    } else {
      insultRequests := [];
      insults := Annotations(false, insultOutcomes, |entries|);
    }
    response := Render(entries, insults, errors);
  }
}
