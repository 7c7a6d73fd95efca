/** online_pipeline_models/base_chat_pipeline.py: the conversation state
    every chat pipeline keeps. The reply itself comes from the subclass's
    `_respond`, a parameter here, which sees the history as it stands when
    it is called. */
module BaseChat {

  datatype Role = User | Assistant

  /** `{"role": ..., "content": ...}` */
  datatype Message = Message(role: Role, content: string)

  datatype Pipeline = Pipeline(history: seq<Message>)

  /** `__init__`: a new pipeline has said nothing yet. */
  function New(): (p: Pipeline)
    ensures |p.history| == 0
  {
    Pipeline([])
  }

  /** `_respond`, given the history at the moment of the call and the
      user's message. */
  type Responder = (seq<Message>, string) -> string

  /** `ask` (lines 17-24): the user turn is recorded, then `_respond` is
      called, then its reply is recorded and returned. Nothing earlier in
      the history changes. */
  function Ask(p: Pipeline, userMessage: string, respond: Responder): (r: (Pipeline, string))
    ensures |r.0.history| == |p.history| + 2
    ensures r.0.history[..|p.history|] == p.history
    ensures r.0.history[|p.history|] == Message(User, userMessage)
    ensures r.0.history[|p.history| + 1] == Message(Assistant, r.1)
    ensures r.1 == respond(p.history + [Message(User, userMessage)], userMessage)
  {
    var withUser := p.history + [Message(User, userMessage)];
    var reply := respond(withUser, userMessage);
    (Pipeline(withUser + [Message(Assistant, reply)]), reply)
  }

  /** `reset` (lines 26-28). */
  function Reset(p: Pipeline): (r: Pipeline)
    ensures |r.history| == 0
  {
    Pipeline([])
  }

  /** A history of whole exchanges: user and assistant turns alternate,
      the user first. */
  predicate Alternating(h: seq<Message>) {
    && |h| % 2 == 0
    && forall i :: 0 <= i < |h| ==> h[i].role == (if i % 2 == 0 then User else Assistant)
  }

  /** A new or reset pipeline holds whole exchanges, and `ask` keeps it
      that way. */
  lemma AskAlternates(p: Pipeline, userMessage: string, respond: Responder)
    requires Alternating(p.history)
    ensures Alternating(Ask(p, userMessage, respond).0.history)
    ensures Alternating(New().history) && Alternating(Reset(p).history)
  {
    var h := Ask(p, userMessage, respond).0.history;
    forall i | 0 <= i < |h| ensures h[i].role == (if i % 2 == 0 then User else Assistant) {
      if i < |p.history| {
        assert h[i] == h[..|p.history|][i] == p.history[i];
      }
    }
  }

  /** `ask` on each message in turn. */
  function Converse(p: Pipeline, messages: seq<string>, respond: Responder): (r: (Pipeline, seq<string>))
    ensures |r.1| == |messages|
    ensures |r.0.history| == |p.history| + 2 * |messages|
    ensures r.0.history[..|p.history|] == p.history
  {
    if |messages| == 0 then (p, [])
    else
      var n := |messages| - 1;
      var (q, replies) := Converse(p, messages[..n], respond);
      var (s, reply) := Ask(q, messages[n], respond);
      (s, replies + [reply])
  }

  /** After a conversation from a new pipeline, the history is exactly the
      messages asked and the replies returned, interleaved. */
  lemma {:induction false} ConverseHistory(messages: seq<string>, respond: Responder)
    ensures var (p, replies) := Converse(New(), messages, respond);
      |p.history| == 2 * |messages|
      && forall i :: 0 <= i < |messages| ==>
        p.history[2 * i] == Message(User, messages[i]) && p.history[2 * i + 1] == Message(Assistant, replies[i])
  {
    if |messages| > 0 {
      var n := |messages| - 1;
      ConverseHistory(messages[..n], respond);
      var (q, replies) := Converse(New(), messages[..n], respond);
      var (s, reply) := Ask(q, messages[n], respond);
      assert Converse(New(), messages, respond) == (s, replies + [reply]);
      forall i | 0 <= i < |messages|
        ensures s.history[2 * i] == Message(User, messages[i])
        ensures s.history[2 * i + 1] == Message(Assistant, (replies + [reply])[i])
      {
        if i < n {
          assert s.history[2 * i] == s.history[..|q.history|][2 * i];
          assert s.history[2 * i + 1] == s.history[..|q.history|][2 * i + 1];
        }
      }
    }
  }
}
