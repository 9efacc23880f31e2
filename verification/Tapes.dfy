/** The replayable decision tape: a cache keyed by call index and request fingerprint,
    a call budget, and the recording from which a fresh process can replay. */
module Tapes {
  import opened Prelude

  /** A prompt as serialised, with its fingerprint. */
  datatype Request = Request(fingerprint: string, text: Text)

  /** A decoded answer: the chosen action or name, the message or note, and all other text. */
  datatype Answer = Answer(choice: Text, note: Text, others: Text) {
    function Written(): Text {
      choice + note + others
    }
  }

  /** One record. Its line holds the prompt and the answer unescaped; what else is on the
      line, the punctuation and the escapes, is plain ASCII without control characters. */
  datatype Item = Item(index: nat, fingerprint: string, prompt: Text, response: Answer, tokens: nat) {
    function Line(): Text {
      prompt + response.Written()
    }
  }

  /** What the remote provider would do for one request. A failure may still be charged. */
  datatype Outcome = Completed(response: Answer, tokens: nat) | Failed(charged: nat)

  type Key = (nat, string)

  const PROMPT_LIMIT := 16000

  /** A lone surrogate has no UTF-8 encoding. */
  predicate Encodable(text: Text) {
    forall k :: 0 <= k < |text| ==> !(0xD800 <= text[k] <= 0xDFFF)
  }

  /** The line separators that JSON leaves as they are; the reader of lines splits on them. */
  predicate Separator(letter: Letter) {
    letter == 0x85 || letter == 0x2028 || letter == 0x2029
  }

  predicate Unbroken(text: Text) {
    forall k :: 0 <= k < |text| ==> !Separator(text[k])
  }

  /** `budget` is the call limit of a live tape; a replaying tape has none. A tape with a
      recorder writes each new record as a line of its recording. */
  datatype Tape = Tape(
    budget: Option<nat>,
    recorder: bool,
    cursor: nat,
    liveCalls: nat,
    replayedCalls: nat,
    totalTokens: nat,
    records: map<Key, Item>,
    recording: seq<Item>)

  function KeyOf(item: Item): Key {
    (item.index, item.fingerprint)
  }

  /** Keep a new record: it is cached before its line is written, and a line that cannot be
      encoded is not written at all and fails the decision. */
  function Stored(t: Tape, item: Item): (Tape, Option<Answer>) {
    var cached := t.(records := t.records[KeyOf(item) := item]);
    if !t.recorder then (cached.(cursor := t.cursor + 1), Some(item.response))
    else if !Encodable(item.Line()) then (cached, None)
    else (cached.(recording := t.recording + [item], cursor := t.cursor + 1), Some(item.response))
  }

  /** A prompt that can be asked: it is not too long, and has an encoding to fingerprint. */
  predicate Fits(request: Request) {
    |request.text| <= PROMPT_LIMIT && Encodable(request.text)
  }

  /** One decision: replay a recorded answer, or spend one live call. A prompt that
      does not fit changes nothing. */
  function Decided(t: Tape, request: Request, outcome: Outcome): (Tape, Option<Answer>) {
    var key := (t.cursor, request.fingerprint);
    if !Fits(request) then (t, None)
    else if key in t.records then
      (t.(cursor := t.cursor + 1, replayedCalls := t.replayedCalls + 1), Some(t.records[key].response))
    else if t.budget.None? || t.liveCalls >= t.budget.value then (t, None)
    else
      match outcome
      case Failed(charged) => (t.(liveCalls := t.liveCalls + 1, totalTokens := t.totalTokens + charged), None)
      case Completed(response, tokens) =>
        Stored(t.(liveCalls := t.liveCalls + 1, totalTokens := t.totalTokens + tokens),
               Item(t.cursor, request.fingerprint, request.text, response, tokens))
  }

  /** The lines by key; a line that contradicts an earlier one leaves no answer. */
  function Indexed(lines: seq<Item>): Option<map<Key, Item>> {
    if lines == [] then Some(map[])
    else
      var before, last := Indexed(lines[..|lines| - 1]), lines[|lines| - 1];
      if before.None? then None
      else if KeyOf(last) in before.value && before.value[KeyOf(last)] != last then None
      else Some(before.value[KeyOf(last) := last])
  }

  /** The loader takes no index beyond the limit, and a line with a separator inside falls
      into pieces of which the first is no JSON. */
  predicate Legible(item: Item) {
    item.index <= LIMIT && Unbroken(item.Line())
  }

  predicate AllLegible(lines: seq<Item>) {
    forall k :: 0 <= k < |lines| ==> Legible(lines[k])
  }

  /** What the loader makes of a recording. */
  function Load(lines: seq<Item>): Option<map<Key, Item>> {
    if AllLegible(lines) then Indexed(lines) else None
  }

  /** The records whose lines can be written. */
  function Writable(records: map<Key, Item>): map<Key, Item> {
    map k | k in records && Encodable(records[k].Line()) :: records[k]
  }

  /** The budget is respected, and a recording holds exactly the cached records that can be
      written, as on a live tape. */
  predicate Sound(t: Tape) {
    && (t.budget.Some? ==> t.liveCalls <= t.budget.value)
    && (t.recorder ==> Indexed(t.recording) == Some(Writable(t.records)))
  }

  /** A tape that replays the given records. */
  function Fresh(records: map<Key, Item>): Tape {
    Tape(None, false, 0, 0, 0, 0, records, [])
  }

  /** A live tape with a recorder, before its first call. */
  function LiveTape(budget: nat): Tape {
    Tape(Some(budget), true, 0, 0, 0, 0, map[], [])
  }

  predicate Extends(small: map<Key, Item>, large: map<Key, Item>) {
    forall k :: k in small ==> k in large && large[k] == small[k]
  }

  /** What any sequence of decisions keeps: no key is rebound, calls are never given back,
      and a live tape stays sound. */
  predicate Follows(t: Tape, u: Tape) {
    && Extends(t.records, u.records) && u.budget == t.budget && u.recorder == t.recorder
    && t.liveCalls <= u.liveCalls && (Sound(t) ==> Sound(u))
  }

  lemma {:induction false} StoredFollows(t: Tape, item: Item)
    requires Sound(t) && KeyOf(item) !in t.records
    ensures Sound(Stored(t, item).0)
  {
    var u := Stored(t, item).0;
    if Encodable(item.Line()) {
      assert Writable(u.records) == Writable(t.records)[KeyOf(item) := item];
      assert t.recorder ==> u.recording[..|u.recording| - 1] == t.recording;
    } else {
      assert Writable(u.records) == Writable(t.records);
    }
  }

  /** One decision keeps the budget and the recording, and never rebinds a key. An answer
      is the one cached at the decision's place, for a prompt that fits and can be encoded. */
  lemma {:induction false} DecideFollows(t: Tape, request: Request, outcome: Outcome)
    ensures var (u, answer) := Decided(t, request, outcome);
            && Follows(t, u) && u.liveCalls <= t.liveCalls + 1
            && u.cursor == t.cursor + (if answer.Some? then 1 else 0)
            && (answer.Some? ==> (t.cursor, request.fingerprint) in u.records
                                 && u.records[(t.cursor, request.fingerprint)].response == answer.value
                                 && Fits(request))
  {
    var key := (t.cursor, request.fingerprint);
    if Sound(t) && key !in t.records && outcome.Completed? && t.budget.Some? && t.liveCalls < t.budget.value {
      StoredFollows(t.(liveCalls := t.liveCalls + 1, totalTokens := t.totalTokens + outcome.tokens),
                    Item(t.cursor, request.fingerprint, request.text, outcome.response, outcome.tokens));
    }
  }

  // ----- steps of a client -----

  /** A step asks a list of requests, checks every answer against the state, and applies
      them all. */
  datatype Client<!S> = Client(
    asks: S -> seq<Request>,
    valid: S -> Answer -> bool,
    finish: (S, seq<Answer>) -> S)

  /** Ask the requests in order; the first failure or invalid answer stops the attempt. */
  function Attempt(valid: Answer -> bool, requests: seq<Request>, t: Tape,
                   outcomes: seq<Outcome>): (Tape, Option<seq<Answer>>)
    requires |outcomes| == |requests|
  {
    if requests == [] then (t, Some([]))
    else
      var (u, answer) := Decided(t, requests[0], outcomes[0]);
      if answer.None? || !valid(answer.value) then (u, None)
      else
        var (v, rest) := Attempt(valid, requests[1..], u, outcomes[1..]);
        (v, if rest.None? then None else Some([answer.value] + rest.value))
  }

  /** The transactional step: a failed attempt rolls the cursor back and changes no state;
      recorded answers and spent calls remain. */
  function Step<S>(client: Client<S>, s: S, t: Tape, outcomes: seq<Outcome>): (S, Tape, bool)
    requires |outcomes| == |client.asks(s)|
  {
    var (u, answers) := Attempt(client.valid(s), client.asks(s), t, outcomes);
    if answers.None? then (s, u.(cursor := t.cursor), false)
    else (client.finish(s, answers.value), u, true)
  }

  lemma {:induction false} AttemptFollows(valid: Answer -> bool, requests: seq<Request>, t: Tape,
                                          outcomes: seq<Outcome>)
    requires |outcomes| == |requests|
    ensures var (u, answers) := Attempt(valid, requests, t, outcomes);
            && Follows(t, u)
            && (answers.Some? ==> u.cursor == t.cursor + |requests| && |answers.value| == |requests|)
  {
    if requests != [] {
      DecideFollows(t, requests[0], outcomes[0]);
      var (u, answer) := Decided(t, requests[0], outcomes[0]);
      if answer.Some? && valid(answer.value) {
        AttemptFollows(valid, requests[1..], u, outcomes[1..]);
      }
    }
  }

  /** The first answer of an attempt is in the cache at its end. */
  lemma {:induction false} AnswerStays(valid: Answer -> bool, requests: seq<Request>, t: Tape, outcomes: seq<Outcome>)
    requires |outcomes| == |requests| && requests != [] && Decided(t, requests[0], outcomes[0]).1.Some?
    ensures var (u, answer) := Decided(t, requests[0], outcomes[0]);
            var key := (t.cursor, requests[0].fingerprint);
            var records := Attempt(valid, requests, t, outcomes).0.records;
            u.cursor == t.cursor + 1 && key in records && records[key].response == answer.value
            && Fits(requests[0])
  {
    DecideFollows(t, requests[0], outcomes[0]);
    AttemptFollows(valid, requests[1..], Decided(t, requests[0], outcomes[0]).0, outcomes[1..]);
  }

  /** The places at which a completed attempt reads its answers. */
  function Places(cursor: nat, requests: seq<Request>): set<Key>
    decreases |requests|
  {
    if requests == [] then {}
    else {(cursor, requests[0].fingerprint)} + Places(cursor + 1, requests[1..])
  }

  /** Two caches bind no key differently. */
  predicate Agree(a: map<Key, Item>, b: map<Key, Item>) {
    forall k :: k in a && k in b ==> a[k] == b[k]
  }

  /** What a completed attempt read is in its cache. */
  lemma {:induction false} PlacesAreCached(valid: Answer -> bool, requests: seq<Request>, t: Tape,
                                           outcomes: seq<Outcome>)
    requires |outcomes| == |requests| && Attempt(valid, requests, t, outcomes).1.Some?
    ensures Places(t.cursor, requests) <= Attempt(valid, requests, t, outcomes).0.records.Keys
  {
    if requests != [] {
      AnswerStays(valid, requests, t, outcomes);
      var u := Decided(t, requests[0], outcomes[0]).0;
      PlacesAreCached(valid, requests[1..], u, outcomes[1..]);
    }
  }

  /** An attempt that completed completes identically from any agreeing tape, live or
      replaying, that holds an answer at each of its places, whatever the provider would do,
      without a live call. */
  lemma {:induction false} AttemptReplays(valid: Answer -> bool, requests: seq<Request>, t: Tape,
                                          outcomes: seq<Outcome>, r: Tape, others: seq<Outcome>)
    requires |outcomes| == |requests| == |others|
    requires Attempt(valid, requests, t, outcomes).1.Some?
    requires r.cursor == t.cursor && Agree(Attempt(valid, requests, t, outcomes).0.records, r.records)
    requires Places(t.cursor, requests) <= r.records.Keys
    ensures var (u, answers) := Attempt(valid, requests, t, outcomes);
            var (v, replayed) := Attempt(valid, requests, r, others);
            replayed == answers && v == r.(cursor := u.cursor, replayedCalls := r.replayedCalls + |requests|)
  {
    if requests != [] {
      AnswerStays(valid, requests, t, outcomes);
      var (u, answer) := Decided(t, requests[0], outcomes[0]);
      assert (t.cursor, requests[0].fingerprint) in Places(t.cursor, requests);
      var v := r.(cursor := t.cursor + 1, replayedCalls := r.replayedCalls + 1);
      assert Decided(r, requests[0], others[0]) == (v, answer);
      AttemptReplays(valid, requests[1..], u, outcomes[1..], v, others[1..]);
    }
  }

  /** A replaying tape that lacks an answer at one of the places does not complete. */
  lemma {:induction false} AttemptMisses(valid: Answer -> bool, requests: seq<Request>, r: Tape, others: seq<Outcome>)
    requires |others| == |requests| && r.budget.None? && !(Places(r.cursor, requests) <= r.records.Keys)
    ensures Attempt(valid, requests, r, others).1.None?
  {
    var (v, answer) := Decided(r, requests[0], others[0]);
    if answer.Some? {
      AttemptMisses(valid, requests[1..], v, others[1..]);
    }
  }

  // ----- runs -----

  /** A run tries steps, each possibly failing and retried later. In between it may rewind
      to a checkpoint, a state and a cursor, and the state may be changed from outside, as by
      a treatment. Spent calls and recorded answers never rewind. */
  datatype Move<!S> = Try(outcomes: seq<Outcome>) | Rewind(state: S, cursor: nat) | Change(change: S -> S)

  /** What a replay repeats: the completed steps, the rewinds and the changes. */
  datatype Kept<!S> = Stepped | Rewound(state: S, cursor: nat) | Changed(change: S -> S)

  function Run<S>(client: Client<S>, s: S, t: Tape, moves: seq<Move<S>>): (S, Tape, seq<Kept<S>>)
    decreases |moves|
  {
    if moves == [] then (s, t, [])
    else
      match moves[0]
      case Rewind(state, cursor) =>
        var (s', t', kept) := Run(client, state, t.(cursor := cursor), moves[1..]);
        (s', t', [Rewound(state, cursor)] + kept)
      case Change(change) =>
        var (s', t', kept) := Run(client, change(s), t, moves[1..]);
        (s', t', [Changed(change)] + kept)
      case Try(outcomes) =>
        if |outcomes| != |client.asks(s)| then Run(client, s, t, moves[1..])
        else
          var (s', t', completed) := Step(client, s, t, outcomes);
          var (s'', t'', kept) := Run(client, s', t', moves[1..]);
          (s'', t'', if completed then [Stepped] + kept else kept)
  }

  /** The places at which the completed steps of a run read their answers. */
  function Used<S>(client: Client<S>, s: S, t: Tape, moves: seq<Move<S>>): set<Key>
    decreases |moves|
  {
    if moves == [] then {}
    else
      match moves[0]
      case Rewind(state, cursor) => Used(client, state, t.(cursor := cursor), moves[1..])
      case Change(change) => Used(client, change(s), t, moves[1..])
      case Try(outcomes) =>
        if |outcomes| != |client.asks(s)| then Used(client, s, t, moves[1..])
        else
          var (s', t', completed) := Step(client, s, t, outcomes);
          (if completed then Places(t.cursor, client.asks(s)) else {}) + Used(client, s', t', moves[1..])
  }

  /** The offline replay: the provider is never consulted, so it may as well always fail. */
  function Replay<S>(client: Client<S>, s: S, t: Tape, kept: seq<Kept<S>>): Option<(S, Tape)>
    decreases |kept|
  {
    if kept == [] then Some((s, t))
    else
      match kept[0]
      case Rewound(state, cursor) => Replay(client, state, t.(cursor := cursor), kept[1..])
      case Changed(change) => Replay(client, change(s), t, kept[1..])
      case Stepped =>
        var (s', t', completed) := Step(client, s, t, Offline(|client.asks(s)|));
        if completed then Replay(client, s', t', kept[1..]) else None
  }

  function Offline(n: nat): seq<Outcome> {
    seq(n, i => Failed(0))
  }

  lemma {:induction false} RunFollows<S>(client: Client<S>, s: S, t: Tape, moves: seq<Move<S>>)
    ensures Follows(t, Run(client, s, t, moves).1)
    ensures Used(client, s, t, moves) <= Run(client, s, t, moves).1.records.Keys
    decreases |moves|
  {
    if moves != [] {
      match moves[0]
      case Rewind(state, cursor) =>
        RunFollows(client, state, t.(cursor := cursor), moves[1..]);
      case Change(change) =>
        RunFollows(client, change(s), t, moves[1..]);
      case Try(outcomes) =>
        if |outcomes| != |client.asks(s)| {
          RunFollows(client, s, t, moves[1..]);
        } else {
          AttemptFollows(client.valid(s), client.asks(s), t, outcomes);
          var (s', t', completed) := Step(client, s, t, outcomes);
          RunFollows(client, s', t', moves[1..]);
          if completed {
            PlacesAreCached(client.valid(s), client.asks(s), t, outcomes);
          }
        }
    }
  }

  /** The replay on `r` of what a run kept: it completes when `r` holds every answer that
      the completed steps used, and then without a live call in the state and at the cursor
      of the run. A replaying tape without one of these answers does not complete it. */
  predicate Replays<S(==)>(client: Client<S>, s: S, t: Tape, moves: seq<Move<S>>, r: Tape) {
    var (s', u, kept) := Run(client, s, t, moves);
    var replayed := Replay(client, s, r, kept);
    if Used(client, s, t, moves) <= r.records.Keys then
      && replayed.Some? && replayed.value.0 == s'
      && replayed.value.1 == r.(cursor := u.cursor, replayedCalls := replayed.value.1.replayedCalls)
    else
      r.budget.None? ==> replayed.None?
  }

  /** So it is for a run from any tape and a replay on any tape that agrees with it. */
  lemma {:induction false} RunReplays<S>(client: Client<S>, s: S, t: Tape, moves: seq<Move<S>>, r: Tape)
    requires r.cursor == t.cursor && Agree(Run(client, s, t, moves).1.records, r.records)
    ensures Replays(client, s, t, moves, r)
    decreases |moves|
  {
    if moves != [] {
      var kept := Run(client, s, t, moves).2;
      match moves[0]
      case Rewind(state, cursor) =>
        RunReplays(client, state, t.(cursor := cursor), moves[1..], r.(cursor := cursor));
        assert kept[1..] == Run(client, state, t.(cursor := cursor), moves[1..]).2;
      case Change(change) =>
        RunReplays(client, change(s), t, moves[1..], r);
        assert kept[1..] == Run(client, change(s), t, moves[1..]).2;
      case Try(outcomes) =>
        if |outcomes| != |client.asks(s)| {
          RunReplays(client, s, t, moves[1..], r);
        } else {
          assert [Try(outcomes)] + moves[1..] == moves;
          StepReplays(client, s, t, outcomes, moves[1..], r);
        }
    }
  }

  lemma {:induction false} StepReplays<S>(client: Client<S>, s: S, t: Tape, outcomes: seq<Outcome>, rest: seq<Move<S>>,
                                          r: Tape)
    requires r.cursor == t.cursor && |outcomes| == |client.asks(s)|
    requires Agree(Run(client, s, t, [Try(outcomes)] + rest).1.records, r.records)
    ensures Replays(client, s, t, [Try(outcomes)] + rest, r)
    decreases |rest| + 1, 0
  {
    var moves := [Try(outcomes)] + rest;
    assert moves[1..] == rest;
    AttemptFollows(client.valid(s), client.asks(s), t, outcomes);
    var (s', t', completed) := Step(client, s, t, outcomes);
    var (s'', t'', kept) := Run(client, s', t', rest);
    RunFollows(client, s', t', rest);
    if completed {
      var offline := Offline(|client.asks(s)|);
      if Places(t.cursor, client.asks(s)) <= r.records.Keys {
        AttemptReplays(client.valid(s), client.asks(s), t, outcomes, r, offline);
        RunReplays(client, s', t', rest, Attempt(client.valid(s), client.asks(s), r, offline).0);
      } else if r.budget.None? {
        AttemptMisses(client.valid(s), client.asks(s), r, offline);
      }
      assert ([Stepped] + kept)[1..] == kept;
    } else {
      RunReplays(client, s', t', rest, r);
    }
  }

  /** The recording of this live run loads exactly when every line is legible. A fresh tape
      loaded from it completes the replay exactly when each answer that the completed steps
      used could be written, and then it reaches the same state and cursor through the
      completed steps, rewinds and changes alone, without a single live call. */
  predicate RecordingReplays<S(==)>(client: Client<S>, s: S, budget: nat, moves: seq<Move<S>>) {
    var (s', t, kept) := Run(client, s, LiveTape(budget), moves);
    && t.liveCalls <= budget
    && (Load(t.recording).Some? <==> AllLegible(t.recording))
    && (Load(t.recording).Some? ==>
          var replayed := Replay(client, s, Fresh(Load(t.recording).value), kept);
          && Used(client, s, LiveTape(budget), moves) <= t.records.Keys
          && (replayed.Some? <==>
                forall k :: k in Used(client, s, LiveTape(budget), moves) ==> Encodable(t.records[k].Line()))
          && (replayed.Some? ==> replayed.value.0 == s' && replayed.value.1.cursor == t.cursor
                                 && replayed.value.1.liveCalls == 0))
  }

  /** So it is for every live run, with any failures, retries, rewinds and changes. */
  lemma {:induction false} RecordedRunReplays<S>(client: Client<S>, s: S, budget: nat, moves: seq<Move<S>>)
    ensures RecordingReplays(client, s, budget, moves)
  {
    var start := LiveTape(budget);
    RunFollows(client, s, start, moves);
    var t := Run(client, s, start, moves).1;
    assert Writable(start.records) == map[];
    RunReplays(client, s, start, moves, Fresh(Writable(t.records)));
  }

  // ----- recordings that fail -----

  /** A step of one prompt on a fresh live tape. */
  lemma {:induction false} OnePromptStep<S>(client: Client<S>, s: S, request: Request, good: Answer)
    requires client.asks(s) == [request] && client.valid(s)(good) && Fits(request)
    ensures var item := Item(0, request.fingerprint, request.text, good, 0);
            var (t, answers) := Attempt(client.valid(s), [request], LiveTape(1), [Completed(good, 0)]);
            && t.liveCalls == 1 && t.records == map[KeyOf(item) := item]
            && (if Encodable(item.Line()) then answers == Some([good]) && t.recording == [item]
                else answers == None && t.recording == [])
  {
    assert [request][1..] == [] && [Completed(good, 0)][1..] == [];
    var (u, _) := Decided(LiveTape(1), request, Completed(good, 0));
    assert Attempt(client.valid(s), [], u, []) == (u, Some([]));
    assert [good] + [] == [good];
  }

  /** A valid answer with a line separator in it completes its step, at index zero, and its
      recording cannot be opened. */
  lemma {:induction false} SeparatorBreaksRecording<S>(client: Client<S>, s: S, request: Request, good: Answer)
    requires client.asks(s) == [request] && client.valid(s)(good)
    requires Fits(request) && Encodable(good.Written()) && !Unbroken(good.Written())
    ensures var (s', t, completed) := Step(client, s, LiveTape(1), [Completed(good, 0)]);
            && completed && s' == client.finish(s, [good])
            && |t.recording| == 1 && t.recording[0].index == 0 && Load(t.recording).None?
  {
    OnePromptStep(client, s, request, good);
    var item := Item(0, request.fingerprint, request.text, good, 0);
    var k :| 0 <= k < |good.Written()| && Separator(good.Written()[k]);
    assert item.Line()[|request.text| + k] == good.Written()[k];
  }

  /** A valid answer with a lone surrogate in it fails its step, whose retry completes from
      the cache; the recording loads, but it lacks that answer and the replay fails. */
  lemma {:induction false} UnwritableAnswerIsLost<S>(client: Client<S>, s: S, request: Request, good: Answer)
    requires client.asks(s) == [request] && client.valid(s)(good)
    requires Fits(request) && !Encodable(good.Written())
    ensures var moves := [Try([Completed(good, 0)]), Try([Failed(0)])];
            var (s', t, kept) := Run(client, s, LiveTape(1), moves);
            && s' == client.finish(s, [good]) && kept == [Stepped] && t.liveCalls == 1
            && Load(t.recording) == Some(map[]) && Replay(client, s, Fresh(map[]), kept).None?
  {
    var moves: seq<Move<S>> := [Try([Completed(good, 0)]), Try([Failed(0)])];
    LostThenCached(client, s, request, good);
    var (_, t, _) := Step(client, s, LiveTape(1), [Completed(good, 0)]);
    var (s', u, _) := Step(client, s, t, [Failed(0)]);
    assert moves[1..] == [Try([Failed(0)])] && moves[1..][1..] == [];
    assert Run(client, s', u, []) == (s', u, []);
    var kept: seq<Kept<S>> := [Stepped];
    assert kept + [] == kept;
    assert Run(client, s, t, moves[1..]) == (s', u, kept);
  }

  lemma {:induction false} LostThenCached<S>(client: Client<S>, s: S, request: Request, good: Answer)
    requires client.asks(s) == [request] && client.valid(s)(good)
    requires Fits(request) && !Encodable(good.Written())
    ensures var (s', t, completed) := Step(client, s, LiveTape(1), [Completed(good, 0)]);
            var (s'', u, again) := Step(client, s, t, [Failed(0)]);
            && s' == s && !completed && s'' == client.finish(s, [good]) && again
            && u.liveCalls == 1 && u.recording == []
  {
    OnePromptStep(client, s, request, good);
    var item := Item(0, request.fingerprint, request.text, good, 0);
    var k :| 0 <= k < |good.Written()| && 0xD800 <= good.Written()[k] <= 0xDFFF;
    assert item.Line()[|request.text| + k] == good.Written()[k];
    var t := Step(client, s, LiveTape(1), [Completed(good, 0)]).1;
    var (u, answer) := Decided(t, request, Failed(0));
    assert [request][1..] == [] && [Failed(0)][1..] == [];
    assert answer == Some(good) && Attempt(client.valid(s), [], u, []) == (u, Some([]));
    assert [good] + [] == [good];
  }

  /** A step of two prompts that completes from the last index a checkpoint may name records
      an index beyond the limit, and its recording cannot be opened. */
  lemma {:induction false} RecordingOutrunsTheLimit<S>(
        client: Client<S>, s: S, first: Request, second: Request, good: Answer)
    requires client.asks(s) == [first, second] && client.valid(s)(good) && Encodable(good.Written())
    requires Fits(first) && Fits(second)
    ensures var (t, answers) := Attempt(client.valid(s), client.asks(s), LiveTape(2).(cursor := LIMIT),
                                        [Completed(good, 0), Completed(good, 0)]);
            && answers.Some? && |t.recording| == 2 && t.recording[1].index == LIMIT + 1
            && Load(t.recording).None?
  {
    var valid, start := client.valid(s), LiveTape(2).(cursor := LIMIT);
    var outcomes := [Completed(good, 0), Completed(good, 0)];
    var (a, _) := Decided(start, first, outcomes[0]);
    var (b, y) := Decided(a, second, outcomes[1]);
    assert y == Some(good) && b.recording[1].index == LIMIT + 1;
    assert [first, second][1..] == [second] && outcomes[1..] == [outcomes[1]];
    assert [second][1..] == [] && [outcomes[1]][1..] == [];
    assert Attempt(valid, [], b, []) == (b, Some([]));
    assert Attempt(valid, [second], a, [outcomes[1]]).0 == b;
  }

  // ----- the price and the fate of a retry -----

  /** How many of the requests have no recorded answer at their place. */
  function Missing(records: map<Key, Item>, cursor: nat, requests: seq<Request>): nat
    decreases |requests|
  {
    if requests == [] then 0
    else (if (cursor, requests[0].fingerprint) in records then 0 else 1) + Missing(records, cursor + 1, requests[1..])
  }

  /** Every prompt fits and can be encoded, and no recorded answer at a place is invalid. */
  predicate Answerable(valid: Answer -> bool, records: map<Key, Item>, cursor: nat, requests: seq<Request>)
    decreases |requests|
  {
    requests == [] || (
      var key := (cursor, requests[0].fingerprint);
      && Fits(requests[0])
      && (key in records ==> valid(records[key].response))
      && Answerable(valid, records, cursor + 1, requests[1..]))
  }

  /** The live calls a tape can still make; a replaying tape can make none. */
  function Remaining(t: Tape): nat {
    if t.budget.None? || t.liveCalls >= t.budget.value then 0 else t.budget.value - t.liveCalls
  }

  lemma {:induction false} LaterPlacesUnchanged(valid: Answer -> bool, records: map<Key, Item>, key: Key, item: Item,
                                                cursor: nat, requests: seq<Request>)
    requires key.0 < cursor
    ensures Missing(records[key := item], cursor, requests) == Missing(records, cursor, requests)
    ensures Answerable(valid, records[key := item], cursor, requests) == Answerable(valid, records, cursor, requests)
    decreases |requests|
  {
    if requests != [] {
      LaterPlacesUnchanged(valid, records, key, item, cursor + 1, requests[1..]);
    }
  }

  /** A decision leaves what is missing and recorded at later places as it was, and spends a
      call at most when its own answer is missing. */
  lemma {:induction false} DecideAtItsPlace(valid: Answer -> bool, t: Tape, request: Request, outcome: Outcome,
                                            rest: seq<Request>)
    ensures var (u, answer) := Decided(t, request, outcome);
            var key := (t.cursor, request.fingerprint);
            var price := if key in t.records then 0 else 1;
            && Missing(u.records, t.cursor + 1, rest) == Missing(t.records, t.cursor + 1, rest)
            && Answerable(valid, u.records, t.cursor + 1, rest) == Answerable(valid, t.records, t.cursor + 1, rest)
            && u.liveCalls <= t.liveCalls + price
            && (answer.Some? ==> && u.cursor == t.cursor + 1 && Remaining(t) == Remaining(u) + price
                                 && Fits(request)
                                 && (price == 0 ==> answer.value == t.records[key].response))
  {
    var key := (t.cursor, request.fingerprint);
    var u := Decided(t, request, outcome).0;
    if u.records != t.records {
      LaterPlacesUnchanged(valid, t.records, key, u.records[key], t.cursor + 1, rest);
    }
  }

  /** An attempt pays at most for the answers that are missing. */
  lemma {:induction false} AttemptPaysForMissing(
        valid: Answer -> bool, requests: seq<Request>, t: Tape, outcomes: seq<Outcome>)
    requires |outcomes| == |requests|
    ensures Attempt(valid, requests, t, outcomes).0.liveCalls <= t.liveCalls + Missing(t.records, t.cursor, requests)
  {
    if requests != [] {
      DecideAtItsPlace(valid, t, requests[0], outcomes[0], requests[1..]);
      var (u, answer) := Decided(t, requests[0], outcomes[0]);
      if answer.Some? && valid(answer.value) {
        AttemptPaysForMissing(valid, requests[1..], u, outcomes[1..]);
      }
    }
  }

  /** How many requests of an attempt were answered validly before it stopped. */
  function Answered(valid: Answer -> bool, requests: seq<Request>, t: Tape, outcomes: seq<Outcome>): nat
    requires |outcomes| == |requests|
  {
    if requests == [] then 0
    else
      var (u, answer) := Decided(t, requests[0], outcomes[0]);
      if answer.None? || !valid(answer.value) then 0 else 1 + Answered(valid, requests[1..], u, outcomes[1..])
  }

  lemma {:induction false} AnsweredAreRecorded(valid: Answer -> bool, requests: seq<Request>, t: Tape,
                                               outcomes: seq<Outcome>)
    requires |outcomes| == |requests|
    ensures var u := Attempt(valid, requests, t, outcomes).0;
            Missing(u.records, t.cursor, requests) + Answered(valid, requests, t, outcomes) <= |requests|
    decreases |requests|
  {
    if requests != [] {
      var (u, answer) := Decided(t, requests[0], outcomes[0]);
      if answer.Some? && valid(answer.value) {
        AnsweredAreRecorded(valid, requests[1..], u, outcomes[1..]);
        AnswerStays(valid, requests, t, outcomes);
      } else {
        MissingIsBounded(u.records, t.cursor, requests);
      }
    }
  }

  lemma {:induction false} MissingIsBounded(records: map<Key, Item>, cursor: nat, requests: seq<Request>)
    ensures Missing(records, cursor, requests) <= |requests|
    decreases |requests|
  {
    if requests != [] {
      MissingIsBounded(records, cursor + 1, requests[1..]);
    }
  }

  /** A failed step changes neither state nor cursor, and its retry pays only for the
      answers that were still missing. */
  lemma {:induction false} RetryPaysForTheRest<S>(
        client: Client<S>, s: S, t: Tape, outcomes: seq<Outcome>, again: seq<Outcome>)
    requires |outcomes| == |again| == |client.asks(s)|
    requires !Step(client, s, t, outcomes).2
    ensures var (s', u, _) := Step(client, s, t, outcomes);
            var retried := Step(client, s', u, again).1;
            && s' == s && u.cursor == t.cursor
            && retried.liveCalls - u.liveCalls
                  <= |client.asks(s)| - Answered(client.valid(s), client.asks(s), t, outcomes)
  {
    AnsweredAreRecorded(client.valid(s), client.asks(s), t, outcomes);
    AttemptPaysForMissing(client.valid(s), client.asks(s), Step(client, s, t, outcomes).1, again);
  }

  lemma {:induction false} CompletedWasAnswerable(
        valid: Answer -> bool, requests: seq<Request>, t: Tape, outcomes: seq<Outcome>)
    requires |outcomes| == |requests| && Attempt(valid, requests, t, outcomes).1.Some?
    ensures Answerable(valid, t.records, t.cursor, requests)
    decreases |requests|
  {
    if requests != [] {
      DecideAtItsPlace(valid, t, requests[0], outcomes[0], requests[1..]);
      var (u, answer) := Decided(t, requests[0], outcomes[0]);
      assert answer.Some? && valid(answer.value);
      CompletedWasAnswerable(valid, requests[1..], u, outcomes[1..]);
    }
  }

  lemma {:induction false} CompletedWasAffordable(
        valid: Answer -> bool, requests: seq<Request>, t: Tape, outcomes: seq<Outcome>)
    requires |outcomes| == |requests| && Attempt(valid, requests, t, outcomes).1.Some?
    ensures Missing(t.records, t.cursor, requests) <= Remaining(t)
    decreases |requests|
  {
    if requests != [] {
      DecideAtItsPlace(valid, t, requests[0], outcomes[0], requests[1..]);
      var (u, answer) := Decided(t, requests[0], outcomes[0]);
      assert answer.Some? && valid(answer.value);
      CompletedWasAffordable(valid, requests[1..], u, outcomes[1..]);
    }
  }

  /** There is a valid answer that can be stored: a recorder takes only what it can encode. */
  ghost predicate Satisfiable(valid: Answer -> bool, recorder: bool) {
    exists good :: valid(good) && Storable(recorder, good)
  }

  predicate Storable(recorder: bool, good: Answer) {
    recorder ==> Encodable(good.Written())
  }

  lemma {:induction false} CompletedWasSatisfiable(
        valid: Answer -> bool, requests: seq<Request>, t: Tape, outcomes: seq<Outcome>)
    requires |outcomes| == |requests| && Attempt(valid, requests, t, outcomes).1.Some?
    ensures Missing(t.records, t.cursor, requests) == 0 || Satisfiable(valid, t.recorder)
    decreases |requests|
  {
    if requests != [] {
      DecideFollows(t, requests[0], outcomes[0]);
      var (u, answer) := Decided(t, requests[0], outcomes[0]);
      if (t.cursor, requests[0].fingerprint) in t.records {
        CompletedWasSatisfiable(valid, requests[1..], u, outcomes[1..]);
      } else {
        StoredIsStorable(t, requests[0], outcomes[0]);
      }
    }
  }

  lemma {:induction false} StoredIsStorable(t: Tape, request: Request, outcome: Outcome)
    requires (t.cursor, request.fingerprint) !in t.records && Decided(t, request, outcome).1.Some?
    ensures Storable(t.recorder, Decided(t, request, outcome).1.value)
  {
    var item := Item(t.cursor, request.fingerprint, request.text, outcome.response, outcome.tokens);
    if t.recorder {
      forall k | 0 <= k < |outcome.response.Written()|
        ensures !(0xD800 <= outcome.response.Written()[k] <= 0xDFFF)
      {
        assert item.Line()[|request.text| + k] == outcome.response.Written()[k];
      }
    }
  }

  lemma {:induction false} PossibleCompletes(valid: Answer -> bool, good: Answer, requests: seq<Request>, t: Tape)
    requires Answerable(valid, t.records, t.cursor, requests)
    requires Missing(t.records, t.cursor, requests) <= Remaining(t)
    requires Missing(t.records, t.cursor, requests) > 0 ==> valid(good) && Storable(t.recorder, good)
    ensures Attempt(valid, requests, t, seq(|requests|, i => Completed(good, 0))).1.Some?
    decreases |requests|
  {
    if requests != [] {
      var outcomes := seq(|requests|, i => Completed(good, 0));
      assert outcomes[1..] == seq(|requests[1..]|, i => Completed(good, 0));
      DecideAtItsPlace(valid, t, requests[0], outcomes[0], requests[1..]);
      PossibleCompletes(valid, good, requests[1..], Decided(t, requests[0], outcomes[0]).0);
    }
  }

  /** An attempt can complete under some behaviour of the provider exactly when every prompt
      fits and can be encoded, every recorded answer at its place is valid, the remaining
      budget covers the missing answers, and there is a valid answer to give for them that
      the tape can store. In particular an invalid answer that was recorded fails every
      retry at that place. */
  lemma {:induction false} CompletableIff(valid: Answer -> bool, requests: seq<Request>, t: Tape)
    ensures (exists outcomes :: |outcomes| == |requests| && Attempt(valid, requests, t, outcomes).1.Some?)
            <==> && Answerable(valid, t.records, t.cursor, requests)
                 && Missing(t.records, t.cursor, requests) <= Remaining(t)
                 && (Missing(t.records, t.cursor, requests) == 0 || Satisfiable(valid, t.recorder))
  {
    if outcomes :| |outcomes| == |requests| && Attempt(valid, requests, t, outcomes).1.Some? {
      CompletedWasAnswerable(valid, requests, t, outcomes);
      CompletedWasAffordable(valid, requests, t, outcomes);
      CompletedWasSatisfiable(valid, requests, t, outcomes);
    }
    if Answerable(valid, t.records, t.cursor, requests) && Missing(t.records, t.cursor, requests) <= Remaining(t) {
      if Missing(t.records, t.cursor, requests) == 0 {
        PossibleCompletes(valid, Answer([], [], []), requests, t);
      } else if Satisfiable(valid, t.recorder) {
        var good :| valid(good) && Storable(t.recorder, good);
        PossibleCompletes(valid, good, requests, t);
      }
    }
  }

  /** Concretely: a live tape that caches a malformed second answer can never complete
      that step again, although its retries cost nothing. */
  lemma {:induction false} RecordedNonsenseIsFinal(
        valid: Answer -> bool, good: Answer, bad: Answer, again: seq<Outcome>)
    requires valid(good) && Encodable(good.Written()) && !valid(bad) && |again| == 2
    ensures var requests := [Request("first", []), Request("second", [])];
            var u := Attempt(valid, requests, LiveTape(10), [Completed(good, 0), Completed(bad, 0)]).0.(cursor := 0);
            var (v, answers) := Attempt(valid, requests, u, again);
            answers.None? && v.liveCalls == u.liveCalls == 2
  {
    var requests := [Request("first", []), Request("second", [])];
    var (a, first) := Decided(LiveTape(10), requests[0], Completed(good, 0));
    var (b, second) := Decided(a, requests[1], Completed(bad, 0));
    assert requests[1..] == [Request("second", [])];
    var (c, third) := Decided(b.(cursor := 0), requests[0], again[0]);
    assert third == Some(good);
    var (d, fourth) := Decided(c, requests[1], again[1]);
    assert fourth == Some(bad);
  }

  // ----- the guard of a step -----

  predicate InRange(lines: seq<Item>) {
    forall k :: 0 <= k < |lines| ==> lines[k].index <= LIMIT
  }

  /** As long as its requests end at or before the limit, a step keeps every index in range,
      whatever texts it records. */
  lemma {:induction false} StepStaysInRange<S>(client: Client<S>, s: S, t: Tape, outcomes: seq<Outcome>)
    requires |outcomes| == |client.asks(s)| && InRange(t.recording)
    requires t.cursor + |client.asks(s)| <= LIMIT + 1
    ensures InRange(Step(client, s, t, outcomes).1.recording)
  {
    AttemptStaysInRange(client.valid(s), client.asks(s), t, outcomes);
  }

  lemma {:induction false} AttemptStaysInRange(valid: Answer -> bool, requests: seq<Request>, t: Tape,
                                               outcomes: seq<Outcome>)
    requires |outcomes| == |requests| && InRange(t.recording) && t.cursor + |requests| <= LIMIT + 1
    ensures InRange(Attempt(valid, requests, t, outcomes).0.recording)
  {
    if requests != [] {
      var (u, answer) := Decided(t, requests[0], outcomes[0]);
      if answer.Some? && valid(answer.value) {
        DecideFollows(t, requests[0], outcomes[0]);
        AttemptStaysInRange(valid, requests[1..], u, outcomes[1..]);
      }
    }
  }

  /** Text that a recording carries unharmed. */
  predicate Plain(text: Text) {
    Encodable(text) && Unbroken(text)
  }

  lemma {:induction false} PlainLine(a: Text, b: Text)
    requires Plain(a) && Plain(b)
    ensures Plain(a + b)
  {
  }

  /** The guard of a step: its last request is at or before the limit, and its prompts and
      whatever answers it receives are plain text. */
  predicate Guarded(requests: seq<Request>, cursor: nat, outcomes: seq<Outcome>) {
    && (requests != [] ==> cursor + |requests| - 1 <= LIMIT)
    && (forall k :: 0 <= k < |requests| ==> Plain(requests[k].text))
    && (forall k :: 0 <= k < |outcomes| && outcomes[k].Completed? ==> Plain(outcomes[k].response.Written()))
  }

  /** A recording that loads, of a cache that is written completely. */
  predicate Faithful(t: Tape) {
    && AllLegible(t.recording)
    && forall k :: k in t.records ==> Encodable(t.records[k].Line())
  }

  /** Under its guard a step keeps the recording faithful, whether it completes or fails. */
  lemma {:induction false} StepStaysFaithful<S>(client: Client<S>, s: S, t: Tape, outcomes: seq<Outcome>)
    requires |outcomes| == |client.asks(s)| && Faithful(t) && Guarded(client.asks(s), t.cursor, outcomes)
    ensures Faithful(Step(client, s, t, outcomes).1)
  {
    AttemptStaysFaithful(client.valid(s), client.asks(s), t, outcomes);
  }

  lemma {:induction false} AttemptStaysFaithful(valid: Answer -> bool, requests: seq<Request>, t: Tape,
                                                outcomes: seq<Outcome>)
    requires |outcomes| == |requests| && Faithful(t) && Guarded(requests, t.cursor, outcomes)
    ensures Faithful(Attempt(valid, requests, t, outcomes).0)
  {
    if requests != [] {
      DecideStaysFaithful(t, requests[0], outcomes[0]);
      var (u, answer) := Decided(t, requests[0], outcomes[0]);
      if answer.Some? && valid(answer.value) {
        DecideFollows(t, requests[0], outcomes[0]);
        AttemptStaysFaithful(valid, requests[1..], u, outcomes[1..]);
      }
    }
  }

  lemma {:induction false} DecideStaysFaithful(t: Tape, request: Request, outcome: Outcome)
    requires Faithful(t) && t.cursor <= LIMIT && Plain(request.text)
    requires outcome.Completed? ==> Plain(outcome.response.Written())
    ensures Faithful(Decided(t, request, outcome).0)
  {
    if outcome.Completed? {
      PlainLine(request.text, outcome.response.Written());
    }
  }

  /** Every step of the run meets its guard in the state and at the cursor it starts from. */
  predicate GuardedRun<S>(client: Client<S>, s: S, t: Tape, moves: seq<Move<S>>)
    decreases |moves|
  {
    moves == [] ||
    match moves[0]
    case Rewind(state, cursor) => GuardedRun(client, state, t.(cursor := cursor), moves[1..])
    case Change(change) => GuardedRun(client, change(s), t, moves[1..])
    case Try(outcomes) =>
      if |outcomes| != |client.asks(s)| then GuardedRun(client, s, t, moves[1..])
      else
        var (s', t', _) := Step(client, s, t, outcomes);
        Guarded(client.asks(s), t.cursor, outcomes) && GuardedRun(client, s', t', moves[1..])
  }

  lemma {:induction false} RunStaysFaithful<S>(client: Client<S>, s: S, t: Tape, moves: seq<Move<S>>)
    requires Faithful(t) && GuardedRun(client, s, t, moves)
    ensures Faithful(Run(client, s, t, moves).1)
    decreases |moves|
  {
    if moves != [] {
      match moves[0]
      case Rewind(state, cursor) =>
        RunStaysFaithful(client, state, t.(cursor := cursor), moves[1..]);
      case Change(change) =>
        RunStaysFaithful(client, change(s), t, moves[1..]);
      case Try(outcomes) =>
        if |outcomes| != |client.asks(s)| {
          RunStaysFaithful(client, s, t, moves[1..]);
        } else {
          StepStaysFaithful(client, s, t, outcomes);
          var (s', t', completed) := Step(client, s, t, outcomes);
          RunStaysFaithful(client, s', t', moves[1..]);
        }
    }
  }

  /** A live run whose steps meet their guards leaves a recording that loads and replays. */
  lemma {:induction false} GuardedRunReplays<S>(client: Client<S>, s: S, budget: nat, moves: seq<Move<S>>)
    requires GuardedRun(client, s, LiveTape(budget), moves)
    ensures var (s', t, kept) := Run(client, s, LiveTape(budget), moves);
            && Load(t.recording).Some?
            && var replayed := Replay(client, s, Fresh(Load(t.recording).value), kept);
               replayed.Some? && replayed.value.0 == s' && replayed.value.1.cursor == t.cursor
  {
    RecordedRunReplays(client, s, budget, moves);
    RunStaysFaithful(client, s, LiveTape(budget), moves);
  }

  /** Lines are only added, so what is legible at the end was legible before. */
  lemma {:induction false} LegibleBefore(valid: Answer -> bool, requests: seq<Request>, t: Tape, outcomes: seq<Outcome>)
    requires |outcomes| == |requests|
    ensures AllLegible(Attempt(valid, requests, t, outcomes).0.recording) ==> AllLegible(t.recording)
  {
    if requests != [] {
      var (u, answer) := Decided(t, requests[0], outcomes[0]);
      if answer.Some? && valid(answer.value) {
        LegibleBefore(valid, requests[1..], u, outcomes[1..]);
      }
      assert |t.recording| <= |u.recording| && u.recording[..|t.recording|] == t.recording;
      if AllLegible(u.recording) {
        forall k | 0 <= k < |t.recording| ensures Legible(t.recording[k]) {
          assert t.recording[k] == u.recording[k];
        }
      }
    }
  }

  lemma {:induction false} LegibleWasPlain(t: Tape, request: Request, outcome: Outcome)
    requires (t.cursor, request.fingerprint) !in t.records && t.recorder
    requires Decided(t, request, outcome).1.Some? && AllLegible(Decided(t, request, outcome).0.recording)
    ensures outcome.Completed? && t.cursor <= LIMIT && Plain(request.text + outcome.response.Written())
  {
    var item := Item(t.cursor, request.fingerprint, request.text, outcome.response, outcome.tokens);
    var u := Decided(t, request, outcome).0;
    assert u.recording[|u.recording| - 1] == item;
  }

  lemma {:induction false} GuardIsNeeded(valid: Answer -> bool, requests: seq<Request>, t: Tape, outcomes: seq<Outcome>)
    requires |outcomes| == |requests| && t.recorder
    requires Attempt(valid, requests, t, outcomes).1.Some?
    requires AllLegible(Attempt(valid, requests, t, outcomes).0.recording)
    requires Missing(t.records, t.cursor, requests) == |requests|
    ensures Guarded(requests, t.cursor, outcomes)
    decreases |requests|
  {
    if requests != [] {
      MissingIsBounded(t.records, t.cursor + 1, requests[1..]);
      DecideAtItsPlace(valid, t, requests[0], outcomes[0], requests[1..]);
      var u := Decided(t, requests[0], outcomes[0]).0;
      LegibleBefore(valid, requests[1..], u, outcomes[1..]);
      LegibleWasPlain(t, requests[0], outcomes[0]);
      GuardIsNeeded(valid, requests[1..], u, outcomes[1..]);
      GuardedFromFirst(requests, t.cursor, outcomes);
    }
  }

  /** The guard is exact: when a recorder gets new answers for all prompts of a completed
      attempt, its recording stays faithful only under the guard. */
  lemma {:induction false} GuardIsExact(valid: Answer -> bool, requests: seq<Request>, t: Tape, outcomes: seq<Outcome>)
    requires |outcomes| == |requests| && t.recorder && Faithful(t)
    requires Attempt(valid, requests, t, outcomes).1.Some?
    requires Missing(t.records, t.cursor, requests) == |requests|
    ensures Faithful(Attempt(valid, requests, t, outcomes).0) <==> Guarded(requests, t.cursor, outcomes)
  {
    if Guarded(requests, t.cursor, outcomes) {
      AttemptStaysFaithful(valid, requests, t, outcomes);
    } else if Faithful(Attempt(valid, requests, t, outcomes).0) {
      GuardIsNeeded(valid, requests, t, outcomes);
    }
  }

  lemma {:induction false} GuardedFromFirst(requests: seq<Request>, cursor: nat, outcomes: seq<Outcome>)
    requires |outcomes| == |requests| > 0 && outcomes[0].Completed? && cursor <= LIMIT
    requires Plain(requests[0].text + outcomes[0].response.Written())
    requires Guarded(requests[1..], cursor + 1, outcomes[1..])
    ensures Guarded(requests, cursor, outcomes)
  {
    var a, b := requests[0].text, outcomes[0].response.Written();
    assert forall k :: 0 <= k < |a| ==> (a + b)[k] == a[k];
    assert forall k :: 0 <= k < |b| ==> (a + b)[|a| + k] == b[k];
    forall k | 0 <= k < |requests| ensures Plain(requests[k].text) {
      assert k > 0 ==> requests[k] == requests[1..][k - 1];
    }
    forall k | 0 <= k < |outcomes| && outcomes[k].Completed? ensures Plain(outcomes[k].response.Written()) {
      assert k > 0 ==> outcomes[k] == outcomes[1..][k - 1];
    }
  }

  // ----- the mutable tape -----

  class DecisionTape {
    const budget: Option<nat>
    const recorder: bool
    var cursor: nat
    var liveCalls: nat
    var replayedCalls: nat
    var totalTokens: nat
    var records: map<Key, Item>
    var recording: seq<Item>

    function View(): Tape
      reads this
    {
      Tape(budget, recorder, cursor, liveCalls, replayedCalls, totalTokens, records, recording)
    }

    /** A live tape with a call budget, an empty cache and, with a recorder, no lines yet. */
    constructor Live(maxCalls: nat, recorder: bool)
      ensures View() == LiveTape(maxCalls).(recorder := recorder) && Sound(View())
    {
      budget, this.recorder := Some(maxCalls), recorder;
      cursor, liveCalls, replayedCalls, totalTokens := 0, 0, 0, 0;
      records, recording := map[], [];
      new;
      assert Writable(records) == map[];
    }

    constructor Replaying(records: map<Key, Item>)
      ensures View() == Fresh(records)
    {
      budget, recorder := None, false;
      cursor, liveCalls, replayedCalls, totalTokens := 0, 0, 0, 0;
      this.records, recording := records, [];
    }

    /** Read a recording line by line; an illegible line or a contradiction rejects it. */
    static method Open(lines: seq<Item>) returns (tape: DecisionTape?)
      ensures tape != null <==> Load(lines).Some?
      ensures tape != null ==> fresh(tape) && tape.View() == Fresh(Load(lines).value)
    {
      var found: map<Key, Item> := map[];
      for k := 0 to |lines|
        invariant Indexed(lines[..k]) == Some(found) && AllLegible(lines[..k])
      {
        assert lines[..k + 1][..k] == lines[..k];
        var item := lines[k];
        if !Unbroken(item.Line()) || item.index > LIMIT {
          return null;
        }
        if KeyOf(item) in found && found[KeyOf(item)] != item {
          ContradictionStays(lines, k + 1);
          return null;
        }
        found := found[KeyOf(item) := item];
      }
      assert lines[..|lines|] == lines;
      tape := new DecisionTape.Replaying(found);
    }

    /** Answer one request from the cache, or by one live call that may fail. */
    method Decide(request: Request, outcome: Outcome) returns (answer: Option<Answer>)
      modifies this
      ensures (View(), answer) == Decided(old(View()), request, outcome)
    {
      if |request.text| > PROMPT_LIMIT {
        return None;
      }
      if !Encodable(request.text) {
        return None;
      }
      var key := (cursor, request.fingerprint);
      if key in records {
        cursor := cursor + 1;
        replayedCalls := replayedCalls + 1;
        return Some(records[key].response);
      }
      if budget.None? || liveCalls >= budget.value {
        return None;
      }
      liveCalls := liveCalls + 1;
      match outcome {
        case Failed(charged) =>
          totalTokens := totalTokens + charged;
          return None;
        case Completed(response, tokens) =>
          totalTokens := totalTokens + tokens;
          var item := Item(cursor, request.fingerprint, request.text, response, tokens);
          records := records[key := item];
          if recorder {
            if !Encodable(item.Line()) {
              return None;
            }
            recording := recording + [item];
          }
          cursor := cursor + 1;
          return Some(response);
      }
    }

    /** Ask the requests of one step in order; on a failure or an invalid answer roll the
        cursor back. */
    method AskAll(valid: Answer -> bool, requests: seq<Request>, outcomes: seq<Outcome>)
      returns (answers: Option<seq<Answer>>)
      requires |outcomes| == |requests|
      modifies this
      ensures answers == Attempt(valid, requests, old(View()), outcomes).1
      ensures View() == if answers.Some? then Attempt(valid, requests, old(View()), outcomes).0
                        else Attempt(valid, requests, old(View()), outcomes).0.(cursor := old(cursor))
    {
      var mark := cursor;
      var given: seq<Answer> := [];
      ghost var start := View();
      assert requests[0..] == requests && outcomes[0..] == outcomes;
      ghost var all := Attempt(valid, requests, start, outcomes).1;
      assert all.Some? ==> [] + all.value == all.value;
      for k := 0 to |requests|
        invariant |given| == k
        invariant Attempt(valid, requests, start, outcomes)
                  == var (t, rest) := Attempt(valid, requests[k..], View(), outcomes[k..]);
                     (t, if rest.None? then None else Some(given + rest.value))
      {
        ghost var t := View();
        var answer := Decide(requests[k], outcomes[k]);
        assert requests[k..][1..] == requests[k + 1..] && outcomes[k..][1..] == outcomes[k + 1..];
        if answer.None? || !valid(answer.value) {
          cursor := mark;
          return None;
        }
        ghost var rest := Attempt(valid, requests[k + 1..], View(), outcomes[k + 1..]).1;
        assert rest.Some? ==> given + ([answer.value] + rest.value) == (given + [answer.value]) + rest.value;
        given := given + [answer.value];
      }
      assert given + [] == given;
      answers := Some(given);
    }
  }

  lemma {:induction false} ContradictionStays(lines: seq<Item>, k: nat)
    requires k <= |lines| && Indexed(lines[..k]).None?
    ensures Indexed(lines).None?
    decreases |lines|
  {
    if k < |lines| {
      assert lines[..|lines| - 1][..k] == lines[..k];
      ContradictionStays(lines[..|lines| - 1], k);
    } else {
      assert lines[..k] == lines;
    }
  }
}
