/** The scripted transport of crates/dam-ai/src/testing.rs: it answers from a queue, repeats the last reply when
    the queue runs out, and remembers every request. */
module Recorded {
  import opened Json
  import opened Model
  import opened Widths
  import opened Wrappers

  type Headers = map<string, string>

  datatype Sent = Sent(url: string, headers: Headers, body: Json)

  datatype Reply =
    | Http(status: nat, body: Json)
    | Throttled(seconds: U64, body: Json)
    | Text(status: nat, text: string)
    | Broken(why: string)

  /** The reply call number `k` gets: the script, its last entry repeated for ever. */
  function ReplyAt(script: seq<Reply>, k: nat): Reply {
    if script == [] then Broken("the script was empty")
    else if k < |script| then script[k]
    else script[|script| - 1]
  }

  function PostAnswer(reply: Reply): Result<Answer, ModelError> {
    match reply
    case Text(status, text) => Err(Unreadable(TextReplyToJson(status, text)))
    case Http(status, body) => Ok(Answer(status, body, None))
    case Throttled(seconds, body) => Ok(Answer(429, body, Some(seconds)))
    case Broken(why) => Err(Transient(Unreachable(why)))
  }

  /** `render` is JSON serialisation. */
  function GetAnswer(reply: Reply, render: Json -> string): Result<(nat, string), ModelError> {
    match reply
    case Text(status, text) => Ok((status, text))
    case Http(status, body) => Ok((status, render(body)))
    case Throttled(_, body) => Ok((429, render(body)))
    case Broken(why) => Err(Transient(Unreachable(why)))
  }

  class Transport {
    var replies: seq<Reply>
    var last: Option<Reply>
    var sent: seq<Sent>
    const render: Json -> string
    ghost const script: seq<Reply>
    ghost var answered: nat

    /** The queue and the remembered reply are what is left of the script after `answered` replies. */
    ghost predicate QueueFollowsScript()
      reads this
    {
      && replies == (if answered < |script| then script[answered..] else [])
      && last == (if answered == 0 || script == [] then None else Some(ReplyAt(script, answered - 1)))
    }

    ghost predicate Valid()
      reads this
    {
      QueueFollowsScript() && answered == |sent|
    }

    constructor Script(script: seq<Reply>, render: Json -> string)
      ensures Valid() && sent == [] && this.script == script && this.render == render
    {
      this.replies, this.last, this.sent := script, None, [];
      this.render := render;
      this.script, this.answered := script, 0;
    }

    constructor Always(status: nat, body: Json, render: Json -> string)
      ensures Valid() && sent == [] && this.render == render
      ensures forall k: nat :: ReplyAt(script, k) == Http(status, body)
    {
      this.replies, this.last, this.sent := [Http(status, body)], None, [];
      this.render := render;
      this.script, this.answered := [Http(status, body)], 0;
    }

    method Record(url: string, headers: Headers, body: Json)
      modifies this`sent
      ensures sent == old(sent) + [Sent(url, headers, body)]
    {
      sent := sent + [Sent(url, headers, body)];
    }

    method NextReply() returns (reply: Reply)
      requires QueueFollowsScript()
      modifies this`replies, this`last, this`answered
      ensures QueueFollowsScript() && answered == old(answered) + 1
      ensures reply == ReplyAt(script, old(answered))
    {
      if replies != [] {
        reply := replies[0];
        replies := replies[1..];
        last := Some(reply);
      } else {
        reply := last.GetOr(Broken("the script was empty"));
      }
      answered := answered + 1;
    }

    /** Call number `|sent|` gets the script's entry of that number, and is remembered whatever comes back. */
    method PostJson(url: string, headers: Headers, body: Json) returns (answer: Result<Answer, ModelError>)
      requires Valid()
      modifies this
      ensures Valid()
      ensures answer == PostAnswer(ReplyAt(script, |old(sent)|))
      ensures sent == old(sent) + [Sent(url, headers, body)]
    {
      Record(url, headers, body);
      var reply := NextReply();
      answer := PostAnswer(reply);
    }

    method GetText(url: string, headers: Headers) returns (answer: Result<(nat, string), ModelError>)
      requires Valid()
      modifies this
      ensures Valid()
      ensures answer == GetAnswer(ReplyAt(script, |old(sent)|), render)
      ensures sent == old(sent) + [Sent(url, headers, Null)]
    {
      Record(url, headers, Null);
      var reply := NextReply();
      answer := GetAnswer(reply, render);
    }
  }
}
