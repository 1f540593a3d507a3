/**
 The tool loop of CompanyLlmAssistant.handle, against an arbitrary model and an arbitrary
 tool server: what is executed, what is answered, and when the model's own words are used.
 Text classification, number grounding and redaction are parameters.
 */
module ToolLoop {
  import opened Wrappers
  import Queries
  import SplitText

  const MAX_DISCOVERY_CALLS: nat := 3
  const MAX_ID_LENGTH: nat := 200
  const MAX_TEXT_LENGTH: nat := 3_500
  const CUT_TEXT_LENGTH: nat := 3_480
  const MAX_HISTORY: nat := 6

  datatype Call = Call(callId: string, name: string, arguments: string)

  datatype Item = UserText(text: string) | Replay(content: string) | Output(callId: string, output: string)

  datatype Turn = Turn(outputText: string, replay: seq<string>, calls: seq<Call>)

  // None: the call to the provider, or to the tool server, throws.
  type Gateway = (seq<Item>, bool) -> Option<Turn>

  datatype ToolReply = ToolReply(code: Option<string>, isError: bool, output: string, evidence: seq<string>)

  /** Everything outside the loop.  The server may answer the n-th executed call as it likes. */
  datatype Host = Host(gateway: Gateway, server: (nat, string, string) -> Option<ToolReply>, parses: string -> bool,
                       listed: set<string>, resourceOf: map<string, string>, refusal: string, maxToolCalls: nat,
                       companyDataTurn: bool, schemaInspection: bool, generalChat: bool,
                       context: seq<string> -> string,
                       corrected: (string, seq<string>) -> string, grounded: (string, seq<string>) -> bool)

  // A message of the conversation so far, of the user or of the assistant.
  datatype Heard = Heard(inbound: bool, text: string)

  datatype Reason = ReasonDenied | ReasonFailed | ReasonUnsupported

  datatype Text = NoData(reason: Reason) | SchemaList | Prose(text: string)

  datatype Outcome = Success | OutcomeDenied | OutcomeUnsupported

  datatype Reply = Reply(text: Text, outcome: Outcome, conversation: bool, resources: seq<string>)

  datatype Failure = ProviderFailed | ServerFailed | BadArguments | TooManyCalls | BadCallId | NoFinalResponse

  // A call, whether the server was asked, and the reply that was counted and sent back.
  datatype Answer = Answer(call: Call, ran: bool, reply: ToolReply)

  // What the model was sent, whether it had to call a tool, and what it answered.
  datatype Request = Request(items: seq<Item>, required: bool, turn: Turn)

  // The variables of the loop, and the trace of what it did.
  datatype State = State(toolCalls: nat, schemaCalls: nat, queryCalls: nat, denied: nat, failed: nat, unsupported: nat,
                         discovered: nat, data: nat, attempted: bool, resources: seq<string>, seen: seq<string>,
                         items: seq<Item>, evidence: seq<string>, answers: seq<Answer>, executed: seq<string>)

  function Count<T(==)>(s: seq<T>, x: T): nat {
    if s == [] then 0 else Count(s[..|s| - 1], x) + if s[|s| - 1] == x then 1 else 0
  }

  lemma CountPush<T>(s: seq<T>, y: T, x: T)
    ensures Count(s + [y], x) == Count(s, x) + if y == x then 1 else 0
  {
    assert (s + [y])[..|s|] == s;
  }

  // ---------------------------------------------------------------- what a reply amounts to

  predicate Denied(a: Answer) { a.reply.code == Some("permission_denied") }

  predicate Succeeded(a: Answer) { !a.reply.isError && !Denied(a) }

  predicate Unknown(a: Answer) { a.reply.isError && a.reply.code == Some("unknown_tool") }

  predicate Broke(a: Answer) { a.reply.isError && !Denied(a) && !Unknown(a) }

  predicate Discovers(a: Answer) { Succeeded(a) && a.call.name == "describe_database" }

  predicate Brings(a: Answer) { Succeeded(a) && a.call.name != "describe_database" }

  predicate Any(answers: seq<Answer>, p: Answer -> bool) { exists a :: a in answers && p(a) }

  predicate All(answers: seq<Answer>, p: Answer -> bool) { forall a :: a in answers ==> p(a) }

  // How many of the calls have this name.
  function Named(answers: seq<Answer>, name: string): nat {
    if answers == [] then 0 else
    Named(answers[..|answers| - 1], name) + if answers[|answers| - 1].call.name == name then 1 else 0
  }

  // The names of the calls that were executed, in order.
  function Ran(answers: seq<Answer>): seq<string> {
    if answers == [] then [] else
    var last := answers[|answers| - 1];
    Ran(answers[..|answers| - 1]) + if last.ran then [last.call.name] else []
  }

  // What the data calls returned, in order.
  function Evidence(answers: seq<Answer>): seq<string> {
    if answers == [] then [] else
    var last := answers[|answers| - 1];
    Evidence(answers[..|answers| - 1]) + if Brings(last) then last.reply.evidence else []
  }

  function Ids(answers: seq<Answer>): (ids: seq<string>)
    ensures |ids| == |answers| && forall i :: 0 <= i < |ids| ==> ids[i] == answers[i].call.callId
  {
    seq(|answers|, i requires 0 <= i < |answers| => answers[i].call.callId)
  }

  function CallsOf(answers: seq<Answer>): (calls: seq<Call>)
    ensures |calls| == |answers| && forall i :: 0 <= i < |calls| ==> calls[i] == answers[i].call
  {
    seq(|answers|, i requires 0 <= i < |answers| => answers[i].call)
  }

  // The answers as the model gets them: each under the id of its call.
  function Outputs(answers: seq<Answer>): (items: seq<Item>)
    ensures |items| == |answers|
    ensures forall i :: 0 <= i < |items| ==> items[i] == Output(answers[i].call.callId, answers[i].reply.output)
  {
    seq(|answers|, i requires 0 <= i < |answers| => Output(answers[i].call.callId, answers[i].reply.output))
  }

  function Replays(replay: seq<string>): (items: seq<Item>)
    ensures |items| == |replay| && forall i :: 0 <= i < |items| ==> items[i] == Replay(replay[i])
  {
    seq(|replay|, i requires 0 <= i < |replay| => Replay(replay[i]))
  }

  lemma TracePush(answers: seq<Answer>, a: Answer)
    ensures forall name :: Named(answers + [a], name) == Named(answers, name) + if a.call.name == name then 1 else 0
    ensures Ran(answers + [a]) == Ran(answers) + if a.ran then [a.call.name] else []
    ensures Evidence(answers + [a]) == Evidence(answers) + if Brings(a) then a.reply.evidence else []
  {
    hide Brings;
    assert (answers + [a])[..|answers|] == answers;
  }

  lemma AnyPush(answers: seq<Answer>, a: Answer, p: Answer -> bool)
    ensures Any(answers + [a], p) <==> Any(answers, p) || p(a)
  {
    assert a in answers + [a];
    if Any(answers, p) {
      var b :| b in answers && p(b);
      assert b in answers + [a];
    }
  }

  predicate Distinct(ids: seq<string>) {
    forall i, j :: 0 <= i < j < |ids| ==> ids[i] != ids[j]
  }

  // ---------------------------------------------------------------- what the loop keeps

  // The counters tell which kinds of replies there were.
  predicate Counted(s: State) {
    && (s.denied > 0 <==> Any(s.answers, Denied)) && (s.failed > 0 <==> Any(s.answers, Broke))
    && (s.unsupported > 0 <==> Any(s.answers, UnknownOnly))
    && (s.discovered > 0 <==> Any(s.answers, Discovers))
    && (s.data > 0 <==> Any(s.answers, Brings)) && s.attempted == (s.answers != [])
    && s.evidence == Evidence(s.answers)
  }

  predicate UnknownOnly(a: Answer) { Unknown(a) && !Denied(a) }

  // Every call so far has an id of its own and one answer.
  predicate AllAnswered(h: Host, s: State) {
    && s.toolCalls == |s.answers| <= h.maxToolCalls && s.seen == Ids(s.answers)
    && Distinct(s.seen) && (forall i :: 0 <= i < |s.seen| ==> 1 <= |s.seen[i]| <= MAX_ID_LENGTH)
    && s.schemaCalls == Named(s.answers, "describe_database") && s.queryCalls == Named(s.answers, "query_database")
    && s.executed == Ran(s.answers)
  }

  /** Where a reply comes from: a listed company tool is executed, as long as there were no
      more than three discoveries and one query, this call included; any other is refused. */
  predicate From(h: Host, before: seq<Answer>, a: Answer) {
    && (a.ran <==>
        && a.call.name in h.listed && a.call.name in h.resourceOf
        && Named(before + [a], "describe_database") <= 3
        && Named(before + [a], "query_database") <= 1)
    && (a.ran ==>
      h.parses(a.call.arguments) && h.server(|Ran(before)|, a.call.name, a.call.arguments) == Some(a.reply))
    && (!a.ran ==> Unknown(a) && a.reply.output == h.refusal)
  }

  predicate Served(h: Host, answers: seq<Answer>) {
    forall i :: 0 <= i < |answers| ==> From(h, answers[..i], answers[i])
  }

  // Only listed company tools are executed, discovery three times at most, the query once.
  predicate Restrained(h: Host, s: State) {
    && (forall i :: 0 <= i < |s.executed| ==> s.executed[i] in h.listed && s.executed[i] in h.resourceOf)
    && Count(s.executed, "describe_database") <= s.schemaCalls
    && Count(s.executed, "describe_database") <= 3
    && Count(s.executed, "query_database") <= s.queryCalls && Count(s.executed, "query_database") <= 1
    && |s.executed| <= s.toolCalls <= h.maxToolCalls
  }

  // The resources reported are those of the executed tools, in the order of their first use.
  ghost predicate Sourced(h: Host, s: State) {
    exists first: seq<nat> :: SourcedAt(h, s, first)
  }

  predicate SourcedAt(h: Host, s: State, first: seq<nat>) {
    && |first| == |s.resources| && (forall j, k :: 0 <= j < k < |first| ==> first[j] < first[k])
    && (forall i :: 0 <= i < |s.executed| ==>
      s.executed[i] in h.resourceOf && h.resourceOf[s.executed[i]] in s.resources)
    && forall j :: 0 <= j < |first| ==> FirstUse(h, s.executed, s.resources[j], first[j])
  }

  predicate FirstUse(h: Host, executed: seq<string>, x: string, i: nat) {
    && i < |executed| && executed[i] in h.resourceOf && h.resourceOf[executed[i]] == x
    && forall k :: 0 <= k < i ==> executed[k] in h.resourceOf && h.resourceOf[executed[k]] != x
  }

  ghost predicate Inv(h: Host, s: State) {
    Counted(s) && AllAnswered(h, s) && Served(h, s.answers) && Restrained(h, s) && Sourced(h, s)
  }

  // The reply is counted and sent back.
  function Record(s: State, a: Answer): State {
    var counted :=
      if a.reply.code == Some("permission_denied") then s.(denied := s.denied + 1)
      else if a.reply.isError then
        if a.reply.code == Some("unknown_tool") then s.(unsupported := s.unsupported + 1)
        else s.(failed := s.failed + 1)
      else if a.call.name == "describe_database" then s.(discovered := s.discovered + 1)
      else s.(data := s.data + 1, evidence := s.evidence + a.reply.evidence);
    counted.(attempted := true, answers := s.answers + [a],
             items := s.items + [Output(a.call.callId, a.reply.output)])
  }

  // Counting the call, before anything is executed.
  function Opened(s: State, call: Call): State {
    s.(toolCalls := s.toolCalls + 1, seen := s.seen + [call.callId],
       schemaCalls := s.schemaCalls + (if call.name == "describe_database" then 1 else 0),
       queryCalls := s.queryCalls + (if call.name == "query_database" then 1 else 0))
  }

  predicate Permitted(h: Host, s: State, name: string) {
    name in h.listed && name in h.resourceOf && s.schemaCalls <= MAX_DISCOVERY_CALLS && s.queryCalls <= 1
  }

  function Executed(h: Host, s: State, name: string): State
    requires name in h.resourceOf
  {
    s.(executed := s.executed + [name],
       resources := if h.resourceOf[name] in s.resources then s.resources else s.resources + [h.resourceOf[name]])
  }

  lemma RecordCounts(s: State, current: State, a: Answer)
    requires Counted(s) && current.answers == s.answers && current.attempted == s.attempted
    requires current.denied == s.denied && current.failed == s.failed && current.unsupported == s.unsupported
    requires current.discovered == s.discovered && current.data == s.data && current.evidence == s.evidence
    ensures Counted(Record(current, a))
  {
    hide Any, Evidence, Named, Ran;
    AnyPush(s.answers, a, Denied);
    AnyPush(s.answers, a, Broke);
    AnyPush(s.answers, a, UnknownOnly);
    AnyPush(s.answers, a, Discovers);
    AnyPush(s.answers, a, Brings);
    TracePush(s.answers, a);
  }

  lemma RecordAnswers(h: Host, s: State, current: State, a: Answer)
    requires AllAnswered(h, s) && s.toolCalls < h.maxToolCalls
    requires 1 <= |a.call.callId| <= MAX_ID_LENGTH && a.call.callId !in s.seen
    requires current.toolCalls == Opened(s, a.call).toolCalls && current.seen == Opened(s, a.call).seen
    requires current.schemaCalls == Opened(s, a.call).schemaCalls && current.queryCalls == Opened(s, a.call).queryCalls
    requires current.executed == s.executed + if a.ran then [a.call.name] else []
    requires current.answers == s.answers
    ensures AllAnswered(h, Record(current, a))
  {
    hide Named, Ran, Evidence;
    TracePush(s.answers, a);
  }

  lemma RecordServes(h: Host, s: State, a: Answer)
    requires AllAnswered(h, s) && Served(h, s.answers)
    requires a.ran <==> Permitted(h, Opened(s, a.call), a.call.name)
    requires a.ran ==>
      h.parses(a.call.arguments) && h.server(|s.executed|, a.call.name, a.call.arguments) == Some(a.reply)
    requires !a.ran ==> Unknown(a) && a.reply.output == h.refusal
    ensures Served(h, s.answers + [a])
  {
    hide Named, Ran, Evidence, Unknown;
    TracePush(s.answers, a);
    var all := s.answers + [a];
    forall i | 0 <= i < |all| ensures From(h, all[..i], all[i]) {
      if i < |s.answers| {
        assert all[..i] == s.answers[..i] && From(h, s.answers[..i], s.answers[i]);
      } else {
        assert all[..i] == s.answers && From(h, s.answers, a);
      }
    }
  }

  lemma ExecutedIsRestrained(h: Host, s: State, call: Call)
    requires Restrained(h, s) && s.toolCalls < h.maxToolCalls && Permitted(h, Opened(s, call), call.name)
    ensures Restrained(h, Executed(h, Opened(s, call), call.name))
  {
    CountPush(s.executed, call.name, "describe_database");
    CountPush(s.executed, call.name, "query_database");
  }

  lemma ExecutedIsSourced(h: Host, s: State, name: string)
    requires Sourced(h, s) && name in h.resourceOf
    ensures Sourced(h, Executed(h, s, name))
  {
    var first: seq<nat> :| SourcedAt(h, s, first);
    var t, n := Executed(h, s, name), |s.executed|;
    var after := if h.resourceOf[name] in s.resources then first else first + [n];
    assert t.executed[n] == name && t.executed[..n] == s.executed;
    forall j | 0 <= j < |after| ensures FirstUse(h, t.executed, t.resources[j], after[j]) {
      if j < |first| {
        assert FirstUse(h, s.executed, s.resources[j], first[j]);
      }
    }
    assert SourcedAt(h, t, after);
  }

  // Why a call ends the whole loop.
  predicate Throws(h: Host, before: seq<Answer>, call: Call, error: Failure) {
    match error
    case TooManyCalls => |before| >= h.maxToolCalls
    case BadCallId => call.callId == "" || |call.callId| > 200 || call.callId in Ids(before)
    case BadArguments => !h.parses(call.arguments)
    case ServerFailed => h.server(|Ran(before)|, call.name, call.arguments) == None
    case ProviderFailed | NoFinalResponse => false
  }

  /** One round of the inner loop.  An error carries the state in which it is thrown. */
  method AnswerCall(h: Host, s: State, call: Call) returns (t: State, error: Option<Failure>)
    requires Inv(h, s)
    ensures Restrained(h, t) && s.executed <= t.executed && s.answers <= t.answers
    ensures error.None? ==> Inv(h, t) && |t.answers| == |s.answers| + 1 && t.answers[|s.answers|].call == call
    ensures error.None? ==> t.items == s.items + [Output(call.callId, t.answers[|s.answers|].reply.output)]
    ensures error.Some? ==> t.answers == s.answers && Throws(h, s.answers, call, error.value)
    ensures error == Some(TooManyCalls) <==> s.toolCalls >= h.maxToolCalls
    ensures error == Some(BadCallId) <==>
      s.toolCalls < h.maxToolCalls && (call.callId == "" || |call.callId| > 200 || call.callId in s.seen)
    ensures call.name !in h.listed ==> t.executed == s.executed
  {
    hide Counted, AllAnswered, Served, Restrained, Sourced, Record, Count, Named, Ran, Evidence;
    StateBounds(h, s);
    if s.toolCalls + 1 > h.maxToolCalls {
      return s, Some(TooManyCalls);
    }
    if call.callId == "" || |call.callId| > MAX_ID_LENGTH || call.callId in s.seen {
      return s, Some(BadCallId);
    }
    var current := Opened(s, call);
    var a: Answer;
    OpenedKeeps(h, s, call);
    if !Permitted(h, current, call.name) {
      a := Answer(call, false, ToolReply(Some("unknown_tool"), true, h.refusal, []));
    } else {
      if !h.parses(call.arguments) {
        return current, Some(BadArguments);
      }
      ExecutedIsRestrained(h, s, call);
      ExecutedIsSourced(h, current, call.name);
      var answer := h.server(|current.executed|, call.name, call.arguments);
      current := Executed(h, current, call.name);
      if answer.None? {
        return current, Some(ServerFailed);
      }
      a := Answer(call, true, answer.value);
    }
    RecordCounts(s, current, a);
    RecordAnswers(h, s, current, a);
    RecordServes(h, s, a);
    RecordKeeps(h, current, a);
    return Record(current, a), None;
  }

  lemma StateBounds(h: Host, s: State)
    ensures AllAnswered(h, s) ==>
      s.toolCalls == |s.answers| <= h.maxToolCalls && s.seen == Ids(s.answers) && s.executed == Ran(s.answers)
  {
  }

  lemma OpenedKeeps(h: Host, s: State, call: Call)
    requires Restrained(h, s) && Sourced(h, s) && s.toolCalls < h.maxToolCalls
    ensures Restrained(h, Opened(s, call)) && Sourced(h, Opened(s, call))
  {
    var first: seq<nat> :| SourcedAt(h, s, first);
    assert SourcedAt(h, Opened(s, call), first);
  }

  lemma RecordKeeps(h: Host, s: State, a: Answer)
    ensures var t := Record(s, a);
            && t.executed == s.executed && t.answers == s.answers + [a]
            && t.items == s.items + [Output(a.call.callId, a.reply.output)]
            && (Restrained(h, s) ==> Restrained(h, t)) && (Sourced(h, s) ==> Sourced(h, t))
  {
    hide Count;
    if Sourced(h, s) {
      var first: seq<nat> :| SourcedAt(h, s, first);
      assert SourcedAt(h, Record(s, a), first);
    }
  }

  lemma AnswerPush(answers: seq<Answer>, a: Answer, from: nat)
    requires from <= |answers|
    ensures CallsOf(answers + [a]) == CallsOf(answers) + [a.call]
    ensures Outputs((answers + [a])[from..]) == Outputs(answers[from..]) + [Output(a.call.callId, a.reply.output)]
  {
    assert (answers + [a])[from..] == answers[from..] + [a];
  }

  // The calls of one turn, in order, until one throws.
  method AnswerTurn(h: Host, s: State, calls: seq<Call>) returns (t: State, error: Option<Failure>)
    requires Inv(h, s)
    ensures Restrained(h, t) && s.executed <= t.executed && s.answers <= t.answers
    ensures error.None? ==> Inv(h, t) && CallsOf(t.answers) == CallsOf(s.answers) + calls
    ensures error.None? ==> t.items == s.items + Outputs(t.answers[|s.answers|..])
    ensures CallsOf(t.answers) <= CallsOf(s.answers) + calls
    ensures s.toolCalls + |calls| > h.maxToolCalls ==> error.Some?
    ensures error.Some? ==>
      && |s.answers| <= |t.answers| < |s.answers| + |calls|
      && Throws(h, t.answers, calls[|t.answers| - |s.answers|], error.value)
  {
    hide Inv, Restrained, Throws;
    t := s;
    InvRestrains(h, s);
    for k := 0 to |calls|
      invariant Inv(h, t) && Restrained(h, t) && s.executed <= t.executed
      invariant s.answers <= t.answers && CallsOf(t.answers) == CallsOf(s.answers) + calls[..k]
      invariant t.items == s.items + Outputs(t.answers[|s.answers|..])
      invariant t.toolCalls == |t.answers| == s.toolCalls + k
      invariant k > 0 ==> s.toolCalls + k <= h.maxToolCalls
    {
      var before := t;
      t, error := AnswerCall(h, before, calls[k]);
      assert CallsOf(s.answers) + calls[..k] <= CallsOf(s.answers) + calls;
      if error.Some? {
        return;
      }
      InvRestrains(h, t);
      assert t.answers == before.answers + [t.answers[|before.answers|]];
      AnswerPush(before.answers, t.answers[|before.answers|], |s.answers|);
      assert calls[..k + 1] == calls[..k] + [calls[k]];
    }
    assert calls[..|calls|] == calls;
    error := None;
  }

  lemma InvRestrains(h: Host, s: State)
    requires Inv(h, s)
    ensures Restrained(h, s) && s.toolCalls == |s.answers| <= h.maxToolCalls
  {
  }

  // ---------------------------------------------------------------- the reply

  // The text without the white space around it, cut behind 3,480 characters if it is too long.
  predicate Final(text: string, visible: string) {
    exists lo: nat, hi: nat ::
      && lo < hi <= |visible| && SplitText.Blank(visible[..lo]) && SplitText.Blank(visible[hi..])
      && !SplitText.IsSpace(visible[lo]) && !SplitText.IsSpace(visible[hi - 1])
      && text == if hi - lo <= 3_500 then visible[lo..hi]
                 else visible[lo..lo + 3_480] + ['\U{2026}']
  }

  // finalText; None where it throws
  function FinalText(outputText: string): (r: Option<string>)
    ensures r.None? <==> SplitText.Blank(Queries.Seen(outputText))
    ensures r.Some? ==> 0 < |r.value| <= 3_500 && SplitText.Trimmed(r.value)
    ensures r.Some? ==> Final(r.value, Queries.Seen(outputText))
  {
    hide *;
    var text := SplitText.Trim(Queries.Seen(outputText));
    FinalParts(Queries.Seen(outputText));
    if text == "" then None
    else if |text| <= MAX_TEXT_LENGTH then Some(text)
    else Some(text[..CUT_TEXT_LENGTH] + ['\U{2026}'])
  }

  lemma FinalParts(visible: string)
    ensures SplitText.Trim(visible) == "" <==> SplitText.Blank(visible)
    ensures var text := SplitText.Trim(visible);
      text != "" ==>
        var final := if |text| <= MAX_TEXT_LENGTH then text else text[..CUT_TEXT_LENGTH] + ['\U{2026}'];
        Final(final, visible) && SplitText.Trimmed(final)
  {
    SplitText.TrimsAway(visible);
    var lo, hi := SplitText.TrimParts(visible);
    var text := SplitText.Trim(visible);
    hide SplitText.Trim, SplitText.Blank;
    if text != "" {
      assert text[0] == visible[lo] && text[|text| - 1] == visible[hi - 1];
      assert |text| > MAX_TEXT_LENGTH ==> text[..CUT_TEXT_LENGTH] == visible[lo..lo + CUT_TEXT_LENGTH];
    }
  }

  // The model's words as the user would see them.
  function Words(h: Host, s: State, final: string): string {
    if s.data > 0 then h.corrected(final, s.evidence) else final
  }

  // A turn without calls ends the loop; this is what the user is told.
  function Decide(h: Host, s: State, outputText: string): Result<Reply, Failure> {
    var company := s.attempted || h.companyDataTurn;
    var troubled := s.denied > 0 || s.failed > 0 || s.unsupported > 0;
    var schemaOnly := s.attempted && s.data == 0 && h.schemaInspection && s.discovered > 0 && !troubled;
    var chat := h.generalChat && s.toolCalls == 0;
    if company && troubled then
      var reason := if s.denied > 0 then ReasonDenied else if s.failed > 0 then ReasonFailed else ReasonUnsupported;
      Ok(Reply(NoData(reason), if reason == ReasonDenied then OutcomeDenied else OutcomeUnsupported, chat, s.resources))
    else if company && s.data == 0 && !schemaOnly then
      Ok(Reply(NoData(ReasonUnsupported), OutcomeUnsupported, chat, s.resources))
    else if schemaOnly then Ok(Reply(SchemaList, Success, chat, s.resources))
    else
      var final := FinalText(outputText);
      if final.None? then Err(NoFinalResponse)
      else if s.data > 0 && !h.grounded(Words(h, s, final.value), s.evidence) then
        Ok(Reply(NoData(ReasonUnsupported), OutcomeUnsupported, chat, s.resources))
      else
        var outcome := if s.data > 0 || chat then Success else OutcomeUnsupported;
        Ok(Reply(Prose(Words(h, s, final.value)), outcome, chat, s.resources))
  }

  // Every call succeeded and one of them brought data, or nothing was called on a turn that
  // is not about company data.
  predicate WordsWanted(h: Host, answers: seq<Answer>) {
    || (All(answers, Succeeded) && Any(answers, Brings))
    || (answers == [] && !h.companyDataTurn)
  }

  // The model's words, corrected by the evidence of the data calls if there were any.
  function Told(h: Host, answers: seq<Answer>, final: string): string {
    if Any(answers, Brings) then h.corrected(final, Evidence(answers)) else final
  }

  /** The model's own words reach the user exactly when they are wanted, not blank, and
      grounded in the data, if any; blank words are an error exactly when they are wanted. */
  lemma ProseIff(h: Host, s: State, outputText: string)
    requires Inv(h, s)
    ensures var answers, final, r := s.answers, FinalText(outputText), Decide(h, s, outputText);
      && (r.Ok? && r.value.text.Prose? <==>
            && WordsWanted(h, answers) && final.Some?
            && (answers != [] ==> h.grounded(Told(h, answers, final.value), Evidence(answers))))
      && (r.Ok? && r.value.text.Prose? ==> r.value.text == Prose(Told(h, answers, final.value)))
      && (r == Err(NoFinalResponse) <==> WordsWanted(h, answers) && final.None?)
      && (r.Err? ==> r.error == NoFinalResponse)
      && (r.Ok? && r.value.text == SchemaList <==>
            h.schemaInspection && answers != [] && All(answers, Discovers))
  {
    DecideCases(s);
  }

  /** What the reply is called: denied exactly when some reply was a denial, a failure when a
      call broke and none was denied, a success exactly for the schema list and for words that
      rest on data or on general chat, a conversation exactly for general chat without calls. */
  lemma OutcomeIff(h: Host, s: State, outputText: string)
    requires Inv(h, s) && Decide(h, s, outputText).Ok?
    ensures var answers, reply := s.answers, Decide(h, s, outputText).value;
      && (reply.outcome == OutcomeDenied <==> Any(answers, Denied))
      && (reply.text == NoData(ReasonDenied) <==> Any(answers, Denied))
      && (reply.text == NoData(ReasonFailed) <==> Any(answers, Broke) && !Any(answers, Denied))
      && (reply.outcome == Success <==>
            reply.text == SchemaList || (reply.text.Prose? && (answers != [] || h.generalChat)))
      && (reply.conversation <==> h.generalChat && answers == [])
      && reply.resources == s.resources
  {
    DecideCases(s);
  }

  // Counters and replies say the same.
  lemma DecideCases(s: State)
    requires Counted(s)
    ensures All(s.answers, Succeeded) <==> s.denied == 0 && s.failed == 0 && s.unsupported == 0
    ensures All(s.answers, Discovers) <==> All(s.answers, Succeeded) && s.data == 0
    ensures s.answers != [] && All(s.answers, Succeeded) ==> s.data > 0 || s.discovered > 0
  {
    forall a | a in s.answers
      ensures Denied(a) || Broke(a) || UnknownOnly(a) || Discovers(a) || Brings(a)
      ensures Succeeded(a) <==> !Denied(a) && !Broke(a) && !UnknownOnly(a)
      ensures Succeeded(a) <==> Discovers(a) || Brings(a)
    {
    }
    if s.answers != [] {
      assert s.answers[0] in s.answers;
    }
  }

  // ---------------------------------------------------------------- what the model is told first

  // What the user wrote before.
  function Inbound(history: seq<Heard>): seq<string> {
    if history == [] then [] else
    var last := history[|history| - 1];
    Inbound(history[..|history| - 1]) + if last.inbound then [last.text] else []
  }

  // The last six of them.
  function Recent(history: seq<Heard>): seq<string> {
    var lines := Inbound(history);
    if |lines| <= MAX_HISTORY then lines else lines[|lines| - MAX_HISTORY..]
  }

  // Recent inbound text as context, if there is any, then the request.
  function Opening(h: Host, history: seq<Heard>, request: string): seq<Item> {
    if Recent(history) == [] then [UserText(request)]
    else [UserText(h.context(Recent(history))), UserText(request)]
  }

  /** Of the earlier messages the model is told the six latest of the user and none of its own:
      the facts it was given then have to be fetched again. */
  lemma RecentIs(history: seq<Heard>, next: Heard)
    ensures Recent([]) == [] && |Recent(history)| <= 6
    ensures !next.inbound ==> Recent(history + [next]) == Recent(history)
    ensures next.inbound ==>
      Recent(history + [next]) ==
        (if |Recent(history)| == 6 then Recent(history)[1..] else Recent(history)) + [next.text]
  {
    var lines, after := Inbound(history), Inbound(history + [next]);
    assert (history + [next])[..|history|] == history;
    if next.inbound {
      assert after == lines + [next.text];
      if |lines| >= 6 {
        assert after[|after| - 6..] == lines[|lines| - 6..][1..] + [next.text];
      }
    } else {
      assert after == lines;
    }
  }

  lemma {:induction false} InboundNone(history: seq<Heard>)
    ensures Inbound(history) == [] <==> forall i :: 0 <= i < |history| ==> !history[i].inbound
  {
    if history != [] {
      InboundNone(history[..|history| - 1]);
    }
  }

  // The request comes last, and before it nothing but the context, if there is any.
  lemma OpeningIs(h: Host, history: seq<Heard>, request: string)
    ensures (forall i :: 0 <= i < |history| ==> !history[i].inbound) ==>
      Opening(h, history, request) == [UserText(request)]
    ensures (exists i :: 0 <= i < |history| && history[i].inbound) ==>
      Opening(h, history, request) == [UserText(h.context(Recent(history))), UserText(request)]
  {
    InboundNone(history);
  }

  // ---------------------------------------------------------------- the loop

  function Initial(items: seq<Item>): State {
    State(0, 0, 0, 0, 0, 0, 0, 0, false, [], [], items, [], [], [])
  }

  // Must the model call a tool on the next turn?
  predicate RequiresTool(h: Host, s: State) {
    h.companyDataTurn && s.data == 0 && s.denied == 0 && s.failed == 0 && s.unsupported == 0
    && (!h.schemaInspection || s.discovered == 0)
  }

  // The same, of the replies so far.
  predicate ForcedAfter(h: Host, answers: seq<Answer>) {
    h.companyDataTurn && All(answers, Discovers) && (h.schemaInspection ==> answers == [])
  }

  lemma RequiresToolIff(h: Host, s: State)
    requires Inv(h, s)
    ensures RequiresTool(h, s) <==> ForcedAfter(h, s.answers)
  {
    hide AllAnswered, Served, Restrained, Sourced;
    DecideCases(s);
  }

  // All calls the model made in these requests, in order.
  function Asked(requests: seq<Request>): seq<Call> {
    if requests == [] then [] else Asked(requests[..|requests| - 1]) + requests[|requests| - 1].turn.calls
  }

  // The conversation as the next turn gets it: the last turn's items, what is replayed of that
  // turn, and the answers to its calls, each once and in order.
  function Conversation(start: seq<Item>, requests: seq<Request>, answers: seq<Answer>): seq<Item>
    requires |Asked(requests)| <= |answers|
  {
    if requests == [] then start else
    var last, n := requests[|requests| - 1], |Asked(requests[..|requests| - 1])|;
    last.items + Replays(last.turn.replay) + Outputs(answers[n..|Asked(requests)|])
  }

  /** Each turn was asked for with the whole conversation so far, all earlier calls answered;
      a tool was demanded as long as a company question had brought nothing but discovery. */
  predicate Transcript(h: Host, start: seq<Item>, requests: seq<Request>, answers: seq<Answer>) {
    forall k :: 0 <= k < |requests| ==> TurnFits(h, start, requests[..k], requests[k], answers)
  }

  predicate TurnFits(h: Host, start: seq<Item>, earlier: seq<Request>, request: Request, answers: seq<Answer>) {
    && |Asked(earlier)| <= |answers|
    && request.items == Conversation(start, earlier, answers)
    && (request.required <==> ForcedAfter(h, answers[..|Asked(earlier)|]))
    && h.gateway(request.items, request.required) == Some(request.turn)
  }

  lemma TurnStillFits(h: Host, start: seq<Item>, earlier: seq<Request>, request: Request, answers: seq<Answer>,
                      more: seq<Answer>)
    requires TurnFits(h, start, earlier, request, answers) && answers <= more
    ensures TurnFits(h, start, earlier, request, more)
  {
    hide ForcedAfter, Asked;
    AskedGrows(earlier);
    var n := |Asked(earlier)|;
    assert more[..n] == answers[..n];
    if earlier != [] {
      var m := |Asked(earlier[..|earlier| - 1])|;
      assert more[m..n] == answers[m..n];
    }
  }

  lemma AskedGrows(requests: seq<Request>)
    ensures requests != [] ==> |Asked(requests[..|requests| - 1])| <= |Asked(requests)|
  {
  }

  lemma TranscriptGrows(h: Host, start: seq<Item>, requests: seq<Request>, answers: seq<Answer>, more: seq<Answer>)
    requires Transcript(h, start, requests, answers) && answers <= more
    ensures Transcript(h, start, requests, more)
  {
    hide TurnFits;
    forall k | 0 <= k < |requests| ensures TurnFits(h, start, requests[..k], requests[k], more) {
      TurnStillFits(h, start, requests[..k], requests[k], answers, more);
    }
  }

  lemma TranscriptPush(h: Host, start: seq<Item>, requests: seq<Request>, request: Request, answers: seq<Answer>)
    requires Transcript(h, start, requests, answers) && TurnFits(h, start, requests, request, answers)
    ensures Transcript(h, start, requests + [request], answers)
    ensures Asked(requests + [request]) == Asked(requests) + request.turn.calls
  {
    hide TurnFits;
    var all := requests + [request];
    assert all[..|requests|] == requests;
    forall k | 0 <= k < |all| ensures TurnFits(h, start, all[..k], all[k], answers) {
      if k < |requests| {
        assert all[..k] == requests[..k] && all[k] == requests[k];
      }
    }
  }

  lemma InitialInv(h: Host, items: seq<Item>)
    ensures Inv(h, Initial(items))
  {
    var s := Initial(items);
    var first: seq<nat> := [];
    assert SourcedAt(h, s, first);
  }

  lemma ItemsAreNoInv(h: Host, s: State, items: seq<Item>)
    requires Inv(h, s)
    ensures Inv(h, s.(items := items))
  {
    hide Count, Named, Ran, Evidence;
    var first: seq<nat> :| SourcedAt(h, s, first);
    assert SourcedAt(h, s.(items := items), first);
  }

  /** handle, from the opened session on: at most one turn more than there may be calls, every
      call answered before the next turn, and a reply decided by the replies alone. */
  method Handle(h: Host, history: seq<Heard>, request: string)
    returns (r: Result<Reply, Failure>, requests: seq<Request>, last: State)
    ensures |requests| <= h.maxToolCalls + 1
    ensures Transcript(h, Opening(h, history, request), requests, last.answers)
    ensures CallsOf(last.answers) <= Asked(requests)
    ensures Restrained(h, last)
    ensures r.Ok? || r == Err(NoFinalResponse) ==>
      Inv(h, last) && requests != [] && CallsOf(last.answers) == Asked(requests)
    ensures r.Ok? || r == Err(NoFinalResponse) ==>
      requests[|requests| - 1].turn.calls == [] && r == Decide(h, last, requests[|requests| - 1].turn.outputText)
    ensures r == Err(ProviderFailed) ==>
      && CallsOf(last.answers) == Asked(requests)
      && var items := Conversation(Opening(h, history, request), requests, last.answers);
         h.gateway(items, ForcedAfter(h, last.answers)) == None
    ensures r.Err? && r.error != NoFinalResponse && r.error != ProviderFailed ==>
      |last.answers| < |Asked(requests)| && Throws(h, last.answers, Asked(requests)[|last.answers|], r.error)
  {
    hide Throws, Conversation, Inv, Restrained, Decide, Replays, Asked, RequiresTool, Transcript, TurnFits, ForcedAfter;
    ghost var start := Opening(h, history, request);
    last, requests := Initial(Opening(h, history, request)), [];
    InitialInv(h, start);
    NothingAsked(h, start);
    while true
      invariant Inv(h, last) && Transcript(h, start, requests, last.answers)
      invariant CallsOf(last.answers) == Asked(requests)
      invariant last.items == Conversation(start, requests, last.answers)
      invariant |requests| <= last.toolCalls
      decreases h.maxToolCalls - last.toolCalls
    {
      InvRestrains(h, last);
      var required := RequiresTool(h, last);
      RequiresToolIff(h, last);
      var turn := h.gateway(last.items, required);
      if turn.None? {
        return Err(ProviderFailed), requests, last;
      }
      var next := Request(last.items, required, turn.value);
      NextFits(h, start, requests, next, last);
      TranscriptPush(h, start, requests, next, last.answers);
      ghost var earlier := requests;
      requests := requests + [next];
      ItemsAreNoInv(h, last, last.items + Replays(turn.value.replay));
      last := last.(items := last.items + Replays(turn.value.replay));
      if turn.value.calls == [] {
        InvRestrains(h, last);
        DecideErrs(h, last, turn.value.outputText);
        return Decide(h, last, turn.value.outputText), requests, last;
      }
      var before, error := last, None;
      InvRestrains(h, before);
      last, error := AnswerTurn(h, before, turn.value.calls);
      TranscriptGrows(h, start, requests, before.answers, last.answers);
      if error.Some? {
        ThrowsWhat(h, last.answers, error.value);
        return Err(error.value), requests, last;
      }
      InvRestrains(h, last);
      Converses(start, earlier, next, before.answers, last.answers);
    }
  }

  lemma DecideErrs(h: Host, s: State, outputText: string)
    ensures Decide(h, s, outputText).Err? ==> Decide(h, s, outputText).error == NoFinalResponse
  {
  }

  lemma ThrowsWhat(h: Host, before: seq<Answer>, error: Failure)
    ensures forall call :: Throws(h, before, call, error) ==> error != NoFinalResponse && error != ProviderFailed
  {
  }

  lemma NextFits(h: Host, start: seq<Item>, requests: seq<Request>, next: Request, s: State)
    requires Inv(h, s) && CallsOf(s.answers) == Asked(requests) && s.items == Conversation(start, requests, s.answers)
    requires next.items == s.items && next.required == RequiresTool(h, s)
    requires h.gateway(next.items, next.required) == Some(next.turn)
    ensures TurnFits(h, start, requests, next, s.answers)
  {
    hide Inv, Asked, ForcedAfter, Conversation;
    RequiresToolIff(h, s);
    assert s.answers[..|Asked(requests)|] == s.answers;
  }

  lemma Converses(start: seq<Item>, earlier: seq<Request>, next: Request, before: seq<Answer>, after: seq<Answer>)
    requires CallsOf(before) == Asked(earlier) && before <= after
    requires CallsOf(after) == Asked(earlier + [next])
    ensures Conversation(start, earlier + [next], after) ==
      next.items + Replays(next.turn.replay) + Outputs(after[|before|..])
  {
    hide Asked;
    var all := earlier + [next];
    assert all[..|all| - 1] == earlier && all[|all| - 1] == next;
    assert after[|before|..|after|] == after[|before|..];
  }

  lemma NothingAsked(h: Host, start: seq<Item>)
    ensures Asked([]) == [] && Transcript(h, start, [], []) && Conversation(start, [], []) == start
  {
  }

}
