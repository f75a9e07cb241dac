/**
  Sending to the LINE chat (send_line_message.py:41-74) and pushing a quiz
  (main.py:227-236).

  send_message picks at most one request from the message type and the
  broadcasting flag: a push to the configured user, or a broadcast to every
  follower, carrying a text or a sticker. The LINE platform is a `Channel`
  object that records the requests it receives and answers the n-th of them
  with `answer(n)`; the user id is what read_secrets found in the secrets
  file (None when the key is missing).
*/
module Messaging {
  import opened Wrappers
  import opened PyText
  import opened Store

  /** TextSendMessage and StickerSendMessage. */
  datatype Message =
    | TextSendMessage(text: Option<string>)
    | StickerSendMessage(packageId: Option<string>, stickerId: Option<string>)

  /** line_bot_api.push_message and line_bot_api.broadcast. */
  datatype Request = PushMessage(to: Option<string>, message: Message) | Broadcast(message: Message)

  /** How the platform answers a request: accepted, LineBotApiError, or
      requests.exceptions.ConnectTimeout. */
  datatype Reply = Accepted | LineBotApiError | ConnectTimeout

  /** The requests send_message makes. */
  function Requests(messageType: string, content: Option<string>, broadcasting: bool,
                    packageId: Option<string>, stickerId: Option<string>, userId: Option<string>): (r: seq<Request>)
    ensures |r| == 1 <==> messageType == "text" || messageType == "stamp"
    ensures |r| <= 1
    ensures forall q :: q in r ==> (q.PushMessage? <==> !broadcasting)
    ensures forall q :: q in r && q.PushMessage? ==> q.to == userId
    ensures forall q :: q in r && messageType == "text" ==> q.message == TextSendMessage(content)
    ensures forall q :: q in r && messageType == "stamp" ==> q.message == StickerSendMessage(packageId, stickerId)
  {
    if !broadcasting then
      if messageType == "text" then [PushMessage(userId, TextSendMessage(content))]
      else if messageType == "stamp" then [PushMessage(userId, StickerSendMessage(packageId, stickerId))]
      else []
    else
      if messageType == "text" then [Broadcast(TextSendMessage(content))]
      else if messageType == "stamp" then [Broadcast(StickerSendMessage(packageId, stickerId))]
      else []
  }

  /** How send_message ends once the platform has answered its requests
      with `reply`: a refused token becomes PermissionError, a timeout
      exits with status 1, and no request means nothing can go wrong. */
  function Delivery(requests: seq<Request>, reply: Reply): (r: Result<()>)
    ensures r.Success? <==> requests == [] || reply == Accepted
    ensures r == Failure(PermissionError) <==> requests != [] && reply == LineBotApiError
    ensures r == Failure(SystemExit(1)) <==> requests != [] && reply == ConnectTimeout
  {
    if requests == [] then Success(())
    else
      match reply
      case Accepted => Success(())
      case LineBotApiError => Failure(PermissionError)
      case ConnectTimeout => Failure(SystemExit(1))
  }

  /** The LINE platform as the program sees it. */
  class Channel {
    /** Every request received, in order. */
    var requests: seq<Request>
    /** The answer to the n-th request. */
    const answer: nat -> Reply

    constructor (answer: nat -> Reply)
      ensures requests == [] && this.answer == answer
    {
      requests := [];
      this.answer := answer;
    }

    method Receive(q: Request) returns (reply: Reply)
      modifies this
      ensures requests == old(requests) + [q]
      ensures reply == answer(|old(requests)|)
    {
      reply := answer(|requests|);
      requests := requests + [q];
    }
  }

  /** send_message: routes the message, then turns the platform's answer
      into the program's outcome. */
  method SendMessage(api: Channel, userId: Option<string>, messageType: string, content: Option<string>,
                     broadcasting: bool, packageId: Option<string>, stickerId: Option<string>)
    returns (r: Result<()>)
    modifies api
    ensures api.requests == old(api.requests) + Requests(messageType, content, broadcasting, packageId, stickerId, userId)
    ensures r == Delivery(Requests(messageType, content, broadcasting, packageId, stickerId, userId),
                          api.answer(|old(api.requests)|))
  {
    var reply := Accepted;
    if !broadcasting {
      if messageType == "text" {
        reply := api.Receive(PushMessage(userId, TextSendMessage(content)));
      } else if messageType == "stamp" {
        reply := api.Receive(PushMessage(userId, StickerSendMessage(packageId, stickerId)));
      }
    } else {
      if messageType == "text" {
        reply := api.Receive(Broadcast(TextSendMessage(content)));
      } else if messageType == "stamp" {
        reply := api.Receive(Broadcast(StickerSendMessage(packageId, stickerId)));
      }
    }
    match reply
    case Accepted => r := Success(());
    case LineBotApiError => r := Failure(PermissionError);
    case ConnectTimeout => r := Failure(SystemExit(1));
  }

  /** What push_quiz does with the content of a quiz file, when the
      platform has received n requests before: its outcome and the requests
      it makes. */
  function QuizDelivery(content: string, broadcasting: bool, userId: Option<string>,
                        answer: nat -> Reply, n: nat): (r: (Result<()>, seq<Request>))
    ensures QuizParts(content).Failure? ==> r == (Failure(IndexError), [])
    ensures QuizParts(content).Success? ==>
      && 1 <= |r.1| <= 2
      && (|r.1| == 2 <==> answer(n) == Accepted)
      && r.1[0] == Requests("text", Some(QuizParts(content).value.0), broadcasting, None, None, userId)[0]
      && (|r.1| == 2 ==> r.1[1] == Requests("text", Some(QuizParts(content).value.1), broadcasting, None, None, userId)[0])
      && (r.0.Success? <==> answer(n) == Accepted && answer(n + 1) == Accepted)
  {
    match QuizParts(content)
    case Failure(e) =>
      QuizPartsSpec(content);
      (Failure(e), [])
    case Success((instruction, questions)) =>
      var first := Requests("text", Some(instruction), broadcasting, None, None, userId);
      var second := Requests("text", Some(questions), broadcasting, None, None, userId);
      if answer(n) == Accepted then (Delivery(second, answer(n + 1)), first + second)
      else (Delivery(first, answer(n)), first)
  }

  /** push_quiz on the content of a quiz file: IndexError before anything is
      sent when the file has no "---"; otherwise the stripped instruction
      and then the stripped questions, each as one text message, stopping
      at the first request that fails. */
  method PushQuiz(api: Channel, userId: Option<string>, content: string, broadcasting: bool)
    returns (r: Result<()>)
    modifies api
    ensures var (outcome, requests) := QuizDelivery(content, broadcasting, userId, api.answer, |old(api.requests)|);
      r == outcome && api.requests == old(api.requests) + requests
  {
    match QuizParts(content)
    case Failure(e) =>
      r := Failure(e);
    case Success((instruction, questions)) =>
      r := SendMessage(api, userId, "text", Some(instruction), broadcasting, None, None);
      if r.Success? {
        r := SendMessage(api, userId, "text", Some(questions), broadcasting, None, None);
      }
  }
}
