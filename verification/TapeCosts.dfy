/** What requests cost: every request that is sent uses up a call and is charged, also when it
    fails or its answer is rejected, and a budget that is used up stays so. */
module TapeCosts {
  import opened Prelude
  import opened Tapes

  /** The outcomes that the provider delivers during an attempt, by what is cached at the start:
      a request is sent when it fits, has no recorded answer and a call is left, and the next
      one is reached when this one has a valid answer that could be stored. */
  function Sent(valid: Answer -> bool, requests: seq<Request>, records: map<Key, Item>, cursor: nat, recorder: bool,
                calls: nat, outcomes: seq<Outcome>): seq<Outcome>
    requires |outcomes| == |requests|
    decreases |requests|
  {
    if requests == [] || !Fits(requests[0]) then []
    else if (cursor, requests[0].fingerprint) in records then
      if valid(records[(cursor, requests[0].fingerprint)].response) then
        Sent(valid, requests[1..], records, cursor + 1, recorder, calls, outcomes[1..])
      else []
    else if calls == 0 then []
    else
      match outcomes[0]
      case Failed(_) => [outcomes[0]]
      case Completed(answer, _) =>
        [outcomes[0]] + if valid(answer) && (recorder ==> Encodable(answer.Written())) then
                          Sent(valid, requests[1..], records, cursor + 1, recorder, calls - 1, outcomes[1..])
                        else []
  }

  /** The outcomes that the provider delivers during a run. */
  function SentInRun<S>(client: Client<S>, s: S, t: Tape, moves: seq<Move<S>>): seq<Outcome>
    decreases |moves|
  {
    if moves == [] then []
    else
      match moves[0]
      case Rewind(state, cursor) => SentInRun(client, state, t.(cursor := cursor), moves[1..])
      case Change(change) => SentInRun(client, change(s), t, moves[1..])
      case Try(outcomes) =>
        if |outcomes| != |client.asks(s)| then SentInRun(client, s, t, moves[1..])
        else
          var (s', t', _) := Step(client, s, t, outcomes);
          Sent(client.valid(s), client.asks(s), t.records, t.cursor, t.recorder, Remaining(t), outcomes)
          + SentInRun(client, s', t', moves[1..])
  }

  /** What the provider charges, failed requests included. */
  function Charged(sent: seq<Outcome>): nat {
    if sent == [] then 0
    else
      (match sent[0]
       case Failed(charged) => charged
       case Completed(_, tokens) => tokens) + Charged(sent[1..])
  }

  lemma {:induction false} ChargedAdds(a: seq<Outcome>, b: seq<Outcome>)
    ensures Charged(a + b) == Charged(a) + Charged(b)
  {
    if a == [] {
      assert a + b == b;
    } else {
      assert (a + b)[1..] == a[1..] + b;
      ChargedAdds(a[1..], b);
    }
  }

  /** One call for each request sent, and the tokens that they were charged. */
  predicate Billed(t: Tape, u: Tape, sent: seq<Outcome>) {
    u.liveCalls == t.liveCalls + |sent| && u.totalTokens == t.totalTokens + Charged(sent)
  }

  lemma {:induction false} BilledAdds(t: Tape, u: Tape, v: Tape, a: seq<Outcome>, b: seq<Outcome>)
    requires Billed(t, u, a) && Billed(u, v, b)
    ensures Billed(t, v, a + b)
  {
    ChargedAdds(a, b);
  }

  lemma {:induction false} LaterRecordIsIgnored(valid: Answer -> bool, requests: seq<Request>, records: map<Key, Item>,
                                                item: Item, cursor: nat, recorder: bool, calls: nat,
                                                outcomes: seq<Outcome>)
    requires |outcomes| == |requests| && item.index < cursor
    ensures Sent(valid, requests, records[KeyOf(item) := item], cursor, recorder, calls, outcomes)
            == Sent(valid, requests, records, cursor, recorder, calls, outcomes)
    decreases |requests|
  {
    if requests != [] {
      LaterRecordIsIgnored(valid, requests[1..], records, item, cursor + 1, recorder, calls, outcomes[1..]);
      if calls > 0 {
        LaterRecordIsIgnored(valid, requests[1..], records, item, cursor + 1, recorder, calls - 1, outcomes[1..]);
      }
    }
  }

  lemma {:induction false} LineIsEncodable(request: Request, answer: Answer)
    requires Encodable(request.text)
    ensures Encodable(request.text + answer.Written()) <==> Encodable(answer.Written())
  {
    var a, b := request.text, answer.Written();
    if Encodable(a + b) {
      forall k | 0 <= k < |b| ensures !(0xD800 <= b[k] <= 0xDFFF) {
        assert (a + b)[|a| + k] == b[k];
      }
    }
  }

  /** A decision that sends its request pays for it, whatever comes back. */
  lemma {:induction false} DecideIsBilled(t: Tape, request: Request, outcome: Outcome)
    requires Fits(request) && (t.cursor, request.fingerprint) !in t.records && Remaining(t) > 0
    ensures var (u, answer) := Decided(t, request, outcome);
            && u.liveCalls == t.liveCalls + 1 && u.totalTokens == t.totalTokens + Charged([outcome])
            && u.budget == t.budget && u.recorder == t.recorder
            && match outcome
               case Failed(_) => answer == None && u.records == t.records
               case Completed(response, tokens) =>
                 var item := Item(t.cursor, request.fingerprint, request.text, response, tokens);
                 && u.records == t.records[KeyOf(item) := item]
                 && if t.recorder && !Encodable(response.Written()) then answer == None
                    else answer == Some(response) && u.cursor == t.cursor + 1
  {
    assert [outcome][1..] == [];
    if outcome.Completed? {
      LineIsEncodable(request, outcome.response);
    }
  }

  /** An attempt pays for exactly the requests that it sends. */
  lemma {:induction false} AttemptIsBilled(valid: Answer -> bool, requests: seq<Request>, t: Tape,
                                           outcomes: seq<Outcome>)
    requires |outcomes| == |requests|
    ensures var u := Attempt(valid, requests, t, outcomes).0;
            var sent := Sent(valid, requests, t.records, t.cursor, t.recorder, Remaining(t), outcomes);
            Billed(t, u, sent)
    decreases |requests|
  {
    if requests != [] && Fits(requests[0]) {
      var (u, answer) := Decided(t, requests[0], outcomes[0]);
      if (t.cursor, requests[0].fingerprint) in t.records {
        if valid(answer.value) {
          AttemptIsBilled(valid, requests[1..], u, outcomes[1..]);
        }
      } else if Remaining(t) > 0 {
        SentIsBilled(valid, requests, t, outcomes);
      }
    }
  }

  lemma {:induction false} SentIsBilled(valid: Answer -> bool, requests: seq<Request>, t: Tape, outcomes: seq<Outcome>)
    requires |outcomes| == |requests| > 0 && Fits(requests[0])
    requires (t.cursor, requests[0].fingerprint) !in t.records && Remaining(t) > 0
    ensures var u := Attempt(valid, requests, t, outcomes).0;
            var sent := Sent(valid, requests, t.records, t.cursor, t.recorder, Remaining(t), outcomes);
            Billed(t, u, sent)
    decreases |requests|, 0
  {
    DecideIsBilled(t, requests[0], outcomes[0]);
    var (u, answer) := Decided(t, requests[0], outcomes[0]);
    assert [outcomes[0]] + [] == [outcomes[0]];
    if answer.Some? && valid(answer.value) {
      var item := Item(t.cursor, requests[0].fingerprint, requests[0].text, outcomes[0].response, outcomes[0].tokens);
      AttemptIsBilled(valid, requests[1..], u, outcomes[1..]);
      LaterRecordIsIgnored(valid, requests[1..], t.records, item, t.cursor + 1, t.recorder, Remaining(u),
                           outcomes[1..]);
      ChargedAdds([outcomes[0]], Sent(valid, requests[1..], t.records, t.cursor + 1, t.recorder, Remaining(u),
                                      outcomes[1..]));
    }
  }

  /** Over any run the calls made are the requests sent, and the tokens are what they were
      charged: nothing is given back by a failure, a rewind or a rejected answer. */
  lemma {:induction false} RunIsBilled<S>(client: Client<S>, s: S, t: Tape, moves: seq<Move<S>>)
    ensures var u := Run(client, s, t, moves).1;
            var sent := SentInRun(client, s, t, moves);
            Billed(t, u, sent)
    decreases |moves|
  {
    if moves != [] {
      match moves[0]
      case Rewind(state, cursor) =>
        RunIsBilled(client, state, t.(cursor := cursor), moves[1..]);
      case Change(change) =>
        RunIsBilled(client, change(s), t, moves[1..]);
      case Try(outcomes) =>
        if |outcomes| != |client.asks(s)| {
          RunIsBilled(client, s, t, moves[1..]);
        } else {
          var (s', t', _) := Step(client, s, t, outcomes);
          AttemptIsBilled(client.valid(s), client.asks(s), t, outcomes);
          RunIsBilled(client, s', t', moves[1..]);
          BilledAdds(t, t', Run(client, s', t', moves[1..]).1,
                     Sent(client.valid(s), client.asks(s), t.records, t.cursor, t.recorder, Remaining(t), outcomes),
                     SentInRun(client, s', t', moves[1..]));
        }
    }
  }

  // ----- a budget that is used up -----

  /** Without a call left an attempt changes nothing but the cursor and the replay count. */
  lemma {:induction false} SpentAttempt(valid: Answer -> bool, requests: seq<Request>, t: Tape, outcomes: seq<Outcome>)
    requires |outcomes| == |requests| && t.budget.Some? && t.liveCalls >= t.budget.value
    ensures var (u, answers) := Attempt(valid, requests, t, outcomes);
            && u == t.(cursor := u.cursor, replayedCalls := u.replayedCalls)
            && (answers.Some? ==> Places(t.cursor, requests) <= t.records.Keys)
  {
    if requests != [] {
      var (u, answer) := Decided(t, requests[0], outcomes[0]);
      if answer.Some? && valid(answer.value) {
        SpentAttempt(valid, requests[1..], u, outcomes[1..]);
      }
    }
  }

  /** Then no later outcome completes a step that misses an answer: the calls, the tokens and
      the records stay, and the completed steps use recorded answers only. */
  lemma {:induction false} SpentBudgetIsFinal<S>(client: Client<S>, s: S, t: Tape, moves: seq<Move<S>>)
    requires t.budget.Some? && t.liveCalls >= t.budget.value
    ensures var u := Run(client, s, t, moves).1;
            u == t.(cursor := u.cursor, replayedCalls := u.replayedCalls)
    ensures Used(client, s, t, moves) <= t.records.Keys
    decreases |moves|
  {
    if moves != [] {
      match moves[0]
      case Rewind(state, cursor) =>
        SpentBudgetIsFinal(client, state, t.(cursor := cursor), moves[1..]);
      case Change(change) =>
        SpentBudgetIsFinal(client, change(s), t, moves[1..]);
      case Try(outcomes) =>
        if |outcomes| != |client.asks(s)| {
          SpentBudgetIsFinal(client, s, t, moves[1..]);
        } else {
          SpentAttempt(client.valid(s), client.asks(s), t, outcomes);
          var (s', t', _) := Step(client, s, t, outcomes);
          SpentBudgetIsFinal(client, s', t', moves[1..]);
        }
    }
  }

  /** A continuation adds no record and no call, and completes by recorded answers alone. */
  ghost predicate AddsNothing<S>(client: Client<S>, s: S, t: Tape, more: seq<Move<S>>) {
    var u := Run(client, s, t, more).1;
    u.records == t.records && u.liveCalls == t.liveCalls && Used(client, s, t, more) <= t.records.Keys
  }

  /** A live tape never sends more requests than its budget, failed ones included, and a run
      that has sent as many is continued by recorded answers alone, whatever the provider
      would answer. */
  lemma {:induction false} SentBudgetIsFinal<S>(client: Client<S>, s: S, budget: nat, moves: seq<Move<S>>,
                                                more: seq<Move<S>>)
    ensures |SentInRun(client, s, LiveTape(budget), moves)| <= budget
    ensures |SentInRun(client, s, LiveTape(budget), moves)| == budget ==>
              var (last, t, _) := Run(client, s, LiveTape(budget), moves);
              AddsNothing(client, last, t, more)
  {
    RunIsBilled(client, s, LiveTape(budget), moves);
    RunFollows(client, s, LiveTape(budget), moves);
    assert Writable(LiveTape(budget).records) == map[];
    var (last, t, _) := Run(client, s, LiveTape(budget), moves);
    if t.liveCalls == budget {
      SpentBudgetIsFinal(client, last, t, more);
    }
  }

  // ----- failing tries -----

  /** A try of a step whose first request fails. */
  predicate FailsFirst<S>(client: Client<S>, s: S, move: Move<S>) {
    move.Try? && |move.outcomes| == |client.asks(s)| > 0 && move.outcomes[0].Failed?
  }

  /** Tries whose first request fails cost one call each. */
  lemma {:induction false} FailedTriesPay<S>(client: Client<S>, s: S, t: Tape, tries: seq<Move<S>>, rest: seq<Move<S>>)
    returns (tokens: nat)
    requires client.asks(s) != [] && Fits(client.asks(s)[0])
    requires (t.cursor, client.asks(s)[0].fingerprint) !in t.records && |tries| <= Remaining(t)
    requires forall k {:trigger tries[k]} :: 0 <= k < |tries| ==> FailsFirst(client, s, tries[k])
    ensures Run(client, s, t, tries + rest)
            == Run(client, s, t.(liveCalls := t.liveCalls + |tries|, totalTokens := tokens), rest)
    decreases |tries|
  {
    if tries == [] {
      assert tries + rest == rest;
      tokens := t.totalTokens;
    } else {
      var outcomes := tries[0].outcomes;
      assert FailsFirst(client, s, tries[0]);
      DecideIsBilled(t, client.asks(s)[0], outcomes[0]);
      var u := t.(liveCalls := t.liveCalls + 1, totalTokens := t.totalTokens + outcomes[0].charged);
      assert Step(client, s, t, outcomes) == (s, u, false);
      assert (tries + rest)[1..] == tries[1..] + rest;
      tokens := FailedTriesPay(client, s, u, tries[1..], rest);
    }
  }

  /** Without a call left tries of a step that misses its first answer all fail. */
  lemma {:induction false} NothingCompletes<S>(client: Client<S>, s: S, t: Tape, tries: seq<Move<S>>)
    requires client.asks(s) != [] && (t.cursor, client.asks(s)[0].fingerprint) !in t.records
    requires t.budget.Some? && t.liveCalls >= t.budget.value
    requires forall k {:trigger tries[k]} :: 0 <= k < |tries| ==> tries[k].Try?
    ensures Run(client, s, t, tries) == (s, t, [])
    decreases |tries|
  {
    if tries != [] {
      assert tries[0].Try?;
      NothingCompletes(client, s, t, tries[1..]);
    }
  }

  /** As many failures as the budget allows calls are the end: no try ever completes, whatever
      the provider would answer. */
  lemma {:induction false} FailuresExhaustBudget<S>(
        client: Client<S>, s: S, budget: nat, failing: seq<Move<S>>, tries: seq<Move<S>>)
    requires client.asks(s) != [] && Fits(client.asks(s)[0]) && |failing| == budget
    requires forall k {:trigger failing[k]} :: 0 <= k < |failing| ==> FailsFirst(client, s, failing[k])
    requires forall k {:trigger tries[k]} :: 0 <= k < |tries| ==> tries[k].Try?
    ensures var (last, t, kept) := Run(client, s, LiveTape(budget), failing + tries);
            (last, t.liveCalls, t.records, kept) == (s, budget, map[], [])
  {
    var tokens := FailedTriesPay(client, s, LiveTape(budget), failing, tries);
    NothingCompletes(client, s, LiveTape(budget).(liveCalls := budget, totalTokens := tokens), tries);
  }

  /** One failure fewer leaves the call with which the step completes. */
  lemma {:induction false} LastCallCompletes<S>(client: Client<S>, s: S, budget: nat, failing: seq<Move<S>>,
                                                request: Request, good: Answer)
    requires client.asks(s) == [request] && Askable(request.text) && |failing| == budget - 1
    requires client.valid(s)(good) && Encodable(good.Written())
    requires forall k {:trigger failing[k]} :: 0 <= k < |failing| ==> FailsFirst(client, s, failing[k])
    ensures var (last, t, kept) := Run(client, s, LiveTape(budget), failing + [Try([Completed(good, 0)])]);
            (last, t.liveCalls, kept) == (client.finish(s, [good]), budget, [Stepped])
  {
    var last: Move<S> := Try([Completed(good, 0)]);
    var tokens := FailedTriesPay(client, s, LiveTape(budget), failing, [last]);
    var t := LiveTape(budget).(liveCalls := budget - 1, totalTokens := tokens);
    var (u, answer) := Decided(t, request, Completed(good, 0));
    DecideIsBilled(t, request, Completed(good, 0));
    assert [request][1..] == [] && [Completed(good, 0)][1..] == [];
    assert Attempt(client.valid(s), [], u, []) == (u, Some([])) && [good] + [] == [good];
    assert Step(client, s, t, [Completed(good, 0)]) == (client.finish(s, [good]), u, true);
    assert [last][1..] == [] && Run(client, client.finish(s, [good]), u, []) == (client.finish(s, [good]), u, []);
    var kept: seq<Kept<S>> := [Stepped];
    assert kept + [] == kept;
  }

  // ----- prompts and recordings that are accepted -----

  /** At most 16,000 characters, and no lone surrogate. */
  predicate Askable(text: Text) {
    |text| <= 16_000 && forall k :: 0 <= k < |text| ==> text[k] < 0xD800 || text[k] > 0xDFFF
  }

  /** A step whose first prompt cannot be asked is never completed, and costs nothing. */
  lemma {:induction false} UnaskableNeverCompletes<S>(client: Client<S>, s: S, t: Tape, tries: seq<Move<S>>)
    requires client.asks(s) != [] && !Askable(client.asks(s)[0].text)
    requires forall k {:trigger tries[k]} :: 0 <= k < |tries| ==> tries[k].Try?
    ensures Run(client, s, t, tries) == (s, t, [])
    decreases |tries|
  {
    if tries != [] {
      assert tries[0].Try?;
      UnaskableNeverCompletes(client, s, t, tries[1..]);
    }
  }

  /** A line that the loader takes: an index in range, and none of the three separators. */
  predicate Readable(item: Item) {
    && item.index <= 1_000_000_000
    && forall k :: 0 <= k < |item.Line()| ==> item.Line()[k] !in {0x85, 0x2028, 0x2029}
  }

  predicate SamePlace(a: Item, b: Item) {
    a.index == b.index && a.fingerprint == b.fingerprint
  }

  predicate SameAnswers(lines: seq<Item>) {
    forall i, j {:trigger SamePlace(lines[i], lines[j])} ::
      0 <= i < j < |lines| && SamePlace(lines[i], lines[j]) ==> lines[i] == lines[j]
  }

  /** A cache lists the lines by index and fingerprint, and nothing else. */
  ghost predicate ListsLines(lines: seq<Item>, records: map<Key, Item>) {
    && (forall k {:trigger lines[k]} :: 0 <= k < |lines| ==>
          var key := (lines[k].index, lines[k].fingerprint);
          key in records && records[key] == lines[k])
    && forall key {:trigger records[key]} :: key in records ==> records[key] in lines && KeyOf(records[key]) == key
  }

  /** A recording loads exactly when every line is readable and no two of them give one place
      different answers, and then the cache lists its lines. */
  lemma {:induction false} LoadIff(lines: seq<Item>)
    ensures Load(lines).Some? <==> SameAnswers(lines) && forall k :: 0 <= k < |lines| ==> Readable(lines[k])
    ensures Load(lines).Some? ==> ListsLines(lines, Load(lines).value)
  {
    IndexedIff(lines);
    if Load(lines).Some? {
      IndexedLists(lines);
    }
    assert forall k :: 0 <= k < |lines| ==> (Legible(lines[k]) <==> Readable(lines[k]));
  }

  lemma {:induction false} IndexedLists(lines: seq<Item>)
    requires Indexed(lines).Some?
    ensures ListsLines(lines, Indexed(lines).value)
  {
    if lines != [] {
      var last := |lines| - 1;
      IndexedLists(lines[..last]);
      assert lines == lines[..last] + [lines[last]];
    }
  }

  lemma {:induction false} IndexedIff(lines: seq<Item>)
    ensures Indexed(lines).Some? <==> SameAnswers(lines)
  {
    if lines != [] {
      var last := |lines| - 1;
      IndexedIff(lines[..last]);
      if Indexed(lines[..last]).Some? {
        IndexedLists(lines[..last]);
        LastFitsIff(lines, Indexed(lines[..last]).value);
      } else {
        var i, j :| 0 <= i < j < last && SamePlace(lines[..last][i], lines[..last][j])
                    && lines[..last][i] != lines[..last][j];
        assert SamePlace(lines[i], lines[j]) && lines[i] != lines[j];
      }
    }
  }

  lemma {:induction false} LastFitsIff(lines: seq<Item>, records: map<Key, Item>)
    requires lines != []
    requires ListsLines(lines[..|lines| - 1], records) && SameAnswers(lines[..|lines| - 1])
    ensures var last := lines[|lines| - 1];
            SameAnswers(lines) <==> (KeyOf(last) in records ==> records[KeyOf(last)] == last)
  {
    var before, last := lines[..|lines| - 1], lines[|lines| - 1];
    if KeyOf(last) in records && records[KeyOf(last)] != last {
      var k :| 0 <= k < |before| && before[k] == records[KeyOf(last)];
      assert SamePlace(lines[k], lines[|lines| - 1]);
    } else {
      forall i, j | 0 <= i < j < |lines| && SamePlace(lines[i], lines[j]) ensures lines[i] == lines[j] {
        assert lines[i] == before[i];
        assert j < |before| ==> SamePlace(before[i], before[j]);
      }
    }
  }
}
