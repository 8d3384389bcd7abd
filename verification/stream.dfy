/**
 * The simulated stream renderer (`stream_response` in MushroomExpert.py) and the turn it
 * drives: route the question, obtain the reply text, replay it one character at a time,
 * then record the exchange in the history.
 *
 * The remote chat session is the parameter `remote`, mapping a prompt to the text of its
 * reply, or to None when the call raises or the reply has no text; the per-character delay
 * is timing only and is not modelled.
 */
module Stream {
  import opened Wrappers
  import opened Text
  import opened Router

  /** One (question, answer) pair of the chat transcript. */
  type Exchange = (string, string)

  /** The chat transcript, oldest exchange first. */
  type History = seq<Exchange>

  /**
   * The frames emitted while `rest` is typed after `typed` has already been shown: each
   * frame is the untouched history plus the question paired with the text typed so far.
   */
  function Replay(history: History, question: string, typed: string, rest: string): (frames: seq<History>)
    ensures |frames| == |rest|
    ensures forall k | 0 <= k < |rest| :: frames[k] == history + [(question, typed + rest[..k + 1])]
    decreases |rest|
  {
    if rest == [] then []
    else
      var shown := typed + [rest[0]];
      var tail := Replay(history, question, shown, rest[1..]);
      var frames := [history + [(question, shown)]] + tail;
      assert forall k | 0 <= k < |rest| :: frames[k] == history + [(question, typed + rest[..k + 1])] by {
        forall k | 0 <= k < |rest|
          ensures frames[k] == history + [(question, typed + rest[..k + 1])]
        {
          assert rest[..k + 1] == [rest[0]] + rest[1..][..k];
          assert typed + rest[..k + 1] == shown + rest[1..][..k];
          if k > 0 {
            assert frames[k] == tail[k - 1];
            assert tail[k - 1] == history + [(question, shown + rest[1..][..k])];
          } else {
            assert frames[0] == history + [(question, shown)];
            assert shown == typed + rest[..1];
          }
        }
      }
      frames
  }

  /** What the renderer produces: the frames it yields, then the history it leaves behind. */
  datatype Rendering = Rendering(frames: seq<History>, history: History)

  /** Replay `reply` from the empty string, then append the full exchange once. */
  function Render(history: History, question: string, reply: string): (r: Rendering)
    ensures |r.frames| == |reply|
    ensures forall k | 1 <= k <= |reply| :: r.frames[k - 1] == history + [(question, reply[..k])]
  {
    var frames := Replay(history, question, "", reply);
    assert forall k | 0 <= k < |reply| :: frames[k] == history + [(question, reply[..k + 1])] by {
      forall k | 0 <= k < |reply|
        ensures frames[k] == history + [(question, reply[..k + 1])]
      {
        assert "" + reply[..k + 1] == reply[..k + 1];
      }
    }
    Rendering(frames, history + [(question, reply)])
  }

  /**
   * The history is left alone while frames are emitted, grows by exactly the one exchange
   * afterwards, and each frame's answer is the previous one with one more character.
   */
  lemma RenderKeepsHistory(history: History, question: string, reply: string)
    ensures var r := Render(history, question, reply);
            && (forall k | 0 <= k < |r.frames| :: r.frames[k][..|history|] == history && |r.frames[k]| == |history| + 1)
            && r.history[..|history|] == history
            && r.history[|history|..] == [(question, reply)]
            && (reply != [] ==> r.frames[|reply| - 1] == r.history)
            && (reply == [] ==> r.frames == [] && r.history == history + [(question, "")])
            && (forall k | 0 < k < |r.frames| ::
                  r.frames[k][|history|].1 == r.frames[k - 1][|history|].1 + [reply[k]])
  {
    var r := Render(history, question, reply);
    forall k | 0 < k < |r.frames|
      ensures r.frames[k][|history|].1 == r.frames[k - 1][|history|].1 + [reply[k]]
    {
      assert r.frames[k] == history + [(question, reply[..k + 1])];
      assert r.frames[k - 1] == history + [(question, reply[..k])];
      assert reply[..k + 1] == reply[..k] + [reply[k]];
    }
    if reply != [] {
      assert reply[..|reply|] == reply;
    }
  }

  /** Rendering "abc" shows "a", "ab", "abc" and then records ("abc") once. */
  lemma RenderAbc(history: History, question: string)
    ensures Render(history, question, "abc")
         == Rendering([history + [(question, "a")], history + [(question, "ab")], history + [(question, "abc")]],
                      history + [(question, "abc")])
  {
    var r := Render(history, question, "abc");
    assert "abc"[..1] == "a" && "abc"[..2] == "ab" && "abc"[..3] == "abc";
    assert r.frames[0] == history + [(question, "a")];
    assert r.frames[1] == history + [(question, "ab")];
    assert r.frames[2] == history + [(question, "abc")];
  }

  // ---------------------------------------------------------------------------------------
  // A whole turn

  /**
   * Why a turn shows nothing: reading `.text` on a plain string, or a remote call that raises
   * (a failed `send_message`, or a reply without text).
   */
  datatype TurnError = MissingTextAttribute | RemoteCallFailed

  /** The remote session: the text of the reply to a prompt, or None when the call raises. */
  type Remote = string -> Option<string>

  /**
   * The reply text as `stream_response` obtains it: it reads `.text` on whatever the router
   * returned, but a canned reply is a plain string, which has no such attribute.
   */
  function ReplyTextAsWritten(outcome: Outcome, remote: Remote): (r: Result<string, TurnError>)
    ensures outcome.Canned? ==> r == Failure(MissingTextAttribute)
    ensures outcome.Send? ==> (r.Success? <==> remote(outcome.prompt).Some?)
    ensures r.Success? ==> outcome.Send? && r.value == remote(outcome.prompt).value
  {
    match outcome
    case Canned(_) => Failure(MissingTextAttribute)
    case Send(prompt) =>
      match remote(prompt)
      case None => Failure(RemoteCallFailed)
      case Some(text) => Success(text)
  }

  /** The reply text as evidently intended: the canned message itself, or the remote reply. */
  function ReplyText(outcome: Outcome, remote: Remote): Result<string, TurnError> {
    match outcome
    case Canned(msg) => Success(msg)
    case Send(prompt) =>
      match remote(prompt)
      case None => Failure(RemoteCallFailed)
      case Some(text) => Success(text)
  }

  /**
   * One submission as the source is written. A keyword question fails before any frame; a
   * sent prompt fails when the remote call does, and otherwise its reply is rendered. A
   * failure shows no frame and appends nothing, since the append follows the replay.
   */
  function TurnAsWritten(history: History, question: string, hasImage: bool, mushroomInfo: string,
                         remote: Remote): (r: Result<Rendering, TurnError>)
    ensures MentionsKeyword(question) ==> r == Failure(MissingTextAttribute)
    ensures !MentionsKeyword(question) ==>
              var reply := remote(Route(question, hasImage, mushroomInfo).prompt);
              && (r.Success? <==> reply.Some?)
              && (r.Success? ==> r.value == Render(history, question, reply.value))
              && (r.Failure? ==> r.error == RemoteCallFailed)
  {
    match ReplyTextAsWritten(Route(question, hasImage, mushroomInfo), remote)
    case Failure(e) => Failure(e)
    case Success(reply) => Success(Render(history, question, reply))
  }

  /** One submission with the canned reply rendered like any other. */
  function Turn(history: History, question: string, hasImage: bool, mushroomInfo: string,
                remote: Remote): (r: Result<Rendering, TurnError>)
    ensures MentionsKeyword(question) ==>
              r == Success(Render(history, question, Route(question, hasImage, mushroomInfo).msg))
    ensures !MentionsKeyword(question) ==>
              var reply := remote(Route(question, hasImage, mushroomInfo).prompt);
              && (r.Success? <==> reply.Some?)
              && (r.Success? ==> r.value == Render(history, question, reply.value))
              && (r.Failure? ==> r.error == RemoteCallFailed)
  {
    match ReplyText(Route(question, hasImage, mushroomInfo), remote)
    case Failure(e) => Failure(e)
    case Success(reply) => Success(Render(history, question, reply))
  }

  /** As written, every keyword question ends in the attribute error, e.g. "hello". */
  lemma CannedReplyFailsAsWritten(history: History, question: string, hasImage: bool, mushroomInfo: string,
                                  remote: Remote)
    requires MentionsKeyword(question)
    ensures TurnAsWritten(history, question, hasImage, mushroomInfo, remote) == Failure(MissingTextAttribute)
  {
  }

  /** The concrete case: "hello", with or without an image, fails before showing anything. */
  lemma HelloFailsAsWritten(history: History, hasImage: bool, mushroomInfo: string, remote: Remote)
    ensures TurnAsWritten(history, "hello", hasImage, mushroomInfo, remote) == Failure(MissingTextAttribute)
  {
  }

  /** Corrected, "hello" types out the greeting character by character and records it. */
  lemma HelloRendered(history: History, hasImage: bool, mushroomInfo: string, remote: Remote)
    ensures Turn(history, "hello", hasImage, mushroomInfo, remote).Success?
    ensures var r := Turn(history, "hello", hasImage, mushroomInfo, remote).value;
            && |r.frames| == |GreetingMessage|
            && (forall k | 1 <= k <= |GreetingMessage| :: r.frames[k - 1] == history + [("hello", GreetingMessage[..k])])
            && r.history == history + [("hello", GreetingMessage)]
  {
    assert OccursAt("hello", "hello", 0);
    GreetingBeforeFarewell("hello", hasImage, mushroomInfo);
  }

  /**
   * With the correction, a keyword question replays its canned message and records it;
   * the remote session is never consulted, so the result is the same for every `remote`.
   */
  lemma CannedReplyRendered(history: History, question: string, hasImage: bool, mushroomInfo: string,
                            remote1: Remote, remote2: Remote)
    requires MentionsKeyword(question)
    ensures Turn(history, question, hasImage, mushroomInfo, remote1).Success?
    ensures var r := Turn(history, question, hasImage, mushroomInfo, remote1);
            && r == Turn(history, question, hasImage, mushroomInfo, remote2)
            && r.value.history == history + [(question, Route(question, hasImage, mushroomInfo).msg)]
            && |r.value.frames| == |Route(question, hasImage, mushroomInfo).msg|
  {
  }

  /**
   * When a prompt is sent, the corrected turn and the source agree: the remote reply is
   * rendered and recorded, or, when the remote call fails, both fail alike.
   */
  lemma SentReplyAgrees(history: History, question: string, hasImage: bool, mushroomInfo: string,
                        remote: Remote)
    requires !MentionsKeyword(question)
    ensures TurnAsWritten(history, question, hasImage, mushroomInfo, remote)
         == Turn(history, question, hasImage, mushroomInfo, remote)
    ensures var reply := remote(Route(question, hasImage, mushroomInfo).prompt);
            reply.Some? ==> Turn(history, question, hasImage, mushroomInfo, remote).value.history
                            == history + [(question, reply.value)]
  {
  }
}
