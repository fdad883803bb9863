/**
  The push-to-talk voice controller of the home page. Browser events arrive one at a
  time as method calls: the talk button, the recognizer's start, result and end
  events, the end of an utterance, the voices-ready notification and unmounting.
  The asynchronous result handler is split at its `await` into RecognitionResult (up
  to the call of the intent resolver) and ResolveSucceeded or ResolveFailed (after it).
 */
module Home {
  import opened Options
  import WakeWord
  import CommandDispatch
  import Display
  import Text

  /** The language tag of every utterance. */
  const SpeechLang: string := "hi-IN"

  /**
    One entry of the speech-synthesis queue. `endsSpeaking` marks a reply, whose end
    handler clears `isSpeaking`; the greeting has no end handler.
   */
  datatype Utterance = Utterance(text: string, lang: string, endsSpeaking: bool)

  function Reply(text: string): (u: Utterance)
    ensures u.endsSpeaking && u.text == text
  {
    Utterance(text, SpeechLang, true)
  }

  function GreetingText(name: string): string
  {
    "Hello " + name + ", tap the mic and ask me something!"
  }

  /**
    What the greeting queues: one utterance for a signed-in user and none otherwise. It
    has no end handler, is spoken in the reply language and addresses the user by name.
   */
  function Greeting(profile: Option<WakeWord.Profile>): (q: seq<Utterance>)
    ensures |q| == if profile.Some? then 1 else 0
    ensures forall u <- q :: !u.endsSpeaking && u.lang == SpeechLang
    ensures profile.Some? ==> Text.Occurs(q[0].text, profile.value.name)
  {
    if profile.None? then []
    else
      var name := profile.value.name;
      assert Text.OccursAt(GreetingText(name), name, |"Hello "|);
      [Utterance(GreetingText(name), SpeechLang, false)]
  }

  predicate ReplyQueued(q: seq<Utterance>)
  {
    exists i :: 0 <= i < |q| && q[i].endsSpeaking
  }

  predicate AtMostOneReply(q: seq<Utterance>)
  {
    forall i, j :: 0 <= i < j < |q| ==> !(q[i].endsSpeaking && q[j].endsSpeaking)
  }

  /** Queuing the greeting behind a queue neither adds a reply nor a second one. */
  lemma GreetingAddsNoReply(q: seq<Utterance>, profile: Option<WakeWord.Profile>)
    ensures ReplyQueued(q + Greeting(profile)) <==> ReplyQueued(q)
    ensures AtMostOneReply(q) ==> AtMostOneReply(q + Greeting(profile))
  {
    var r := q + Greeting(profile);
    if ReplyQueued(r) {
      var i :| 0 <= i < |r| && r[i].endsSpeaking;
      assert i < |q| && q[i] == r[i];
    }
    if ReplyQueued(q) {
      var i :| 0 <= i < |q| && q[i].endsSpeaking;
      assert r[i] == q[i];
    }
  }

  /**
    When the utterance at the head of the queue ends, a reply is left in the queue
    exactly when there was one and the finished utterance was not it.
   */
  lemma PopKeepsOtherReplies(q: seq<Utterance>)
    requires q != [] && AtMostOneReply(q)
    ensures AtMostOneReply(q[1..])
    ensures ReplyQueued(q[1..]) <==> ReplyQueued(q) && !q[0].endsSpeaking
  {
    var r := q[1..];
    if ReplyQueued(r) {
      var i :| 0 <= i < |r| && r[i].endsSpeaking;
      assert q[i + 1] == r[i];
    }
    if ReplyQueued(q) && !q[0].endsSpeaking {
      var i :| 0 <= i < |q| && q[i].endsSpeaking;
      assert r[i - 1] == q[i];
    }
  }

  /** The pages a command opens: none or one. */
  function Opens(cmd: CommandDispatch.Command): (w: seq<CommandDispatch.WindowOpen>)
    ensures |w| <= 1
  {
    ToSeq(CommandDispatch.Dispatch(cmd.kind, cmd.userInput))
  }

  /** All the fields of a controller, as one value. */
  datatype State = State(
    listening: bool,
    isSpeaking: bool,
    userText: string,
    aiText: string,
    recognizing: bool,
    stopRequested: bool,
    pending: Option<string>,
    queue: seq<Utterance>,
    windowsOpened: seq<CommandDispatch.WindowOpen>,
    greetOnVoicesChanged: bool,
    mounted: bool)

  class VoiceController {
    /** The signed-in user's profile, if any; read-only to the controller. */
    const profile: Option<WakeWord.Profile>
    /** The `listening` state: set by the recognizer's start event, cleared by its end event. */
    var listening: bool
    /** `isSpeakingRef.current`: a reply is queued or playing. */
    var isSpeaking: bool
    /** The `userText` state: the transcript being resolved. */
    var userText: string
    /** The `aiText` state: the last reply. */
    var aiText: string
    /** The recognizer holds a session: `start()` succeeded and no end event has come yet. */
    var recognizing: bool
    /** `recognition.stop()` has been called. */
    var stopRequested: bool
    /** The transcript whose resolve is awaited, if any. */
    var pending: Option<string>
    /** The speech-synthesis queue; its head is the utterance being spoken. */
    var queue: seq<Utterance>
    /** Every `window.open` call so far, in order. */
    var windowsOpened: seq<CommandDispatch.WindowOpen>
    /** The greeting is installed as the voices-changed handler. */
    var greetOnVoicesChanged: bool
    /** The page is mounted: teardown has not run. */
    var mounted: bool

    function Snapshot(): State
      reads this
    {
      State(listening, isSpeaking, userText, aiText, recognizing, stopRequested,
            pending, queue, windowsOpened, greetOnVoicesChanged, mounted)
    }

    /**
      While the page is mounted, `isSpeaking` is true exactly while a reply is queued,
      and there is never more than one; while a resolve is awaited, the caption holds
      its transcript and the reply text is empty.
     */
    ghost predicate Valid()
      reads this
    {
      && (mounted ==> (isSpeaking <==> ReplyQueued(queue)) && AtMostOneReply(queue))
      && (pending.Some? ==> userText == pending.value && aiText == [])
    }

    /**
      Mounting: the recognizer is configured but not started, and the greeting is spoken
      at once if the voice list is loaded, or installed as the voices-changed handler.
     */
    constructor (profile: Option<WakeWord.Profile>, voicesReady: bool)
      ensures Valid()
      ensures this.profile == profile
      ensures Snapshot() == State(false, false, [], [], false, false, None,
                                  if voicesReady then Greeting(profile) else [], [], !voicesReady, true)
    {
      this.profile := profile;
      listening, isSpeaking, userText, aiText := false, false, [], [];
      recognizing, stopRequested, pending := false, false, None;
      queue := if voicesReady then Greeting(profile) else [];
      windowsOpened := [];
      greetOnVoicesChanged := !voicesReady;
      mounted := true;
    }

    /** `speak`: mark speaking, cancel everything queued, queue the reply. */
    method Speak(text: string)
      modifies this
      ensures Snapshot() == old(Snapshot()).(isSpeaking := true, queue := [Reply(text)])
    {
      isSpeaking := true;
      queue := [];
      queue := queue + [Reply(text)];
    }

    /** `greet`: queue the greeting behind whatever is queued; no cancel, no `isSpeaking`. */
    method Greet()
      modifies this
      ensures Snapshot() == old(Snapshot()).(queue := old(queue) + Greeting(profile))
    {
      queue := queue + Greeting(profile);
    }

    /** The voices-changed notification, which runs the greeting if it was deferred to it. */
    method VoicesChanged()
      requires Valid()
      modifies this
      ensures Valid()
      ensures Snapshot() == old(Snapshot()).(
        queue := old(queue) + (if old(greetOnVoicesChanged) then Greeting(profile) else []))
    {
      if greetOnVoicesChanged {
        GreetingAddsNoReply(queue, profile);
        Greet();
      }
    }

    /** `handleCommand`: speak the reply, show it, and open the page its type selects. */
    method HandleCommand(cmd: CommandDispatch.Command)
      modifies this
      ensures Snapshot() == old(Snapshot()).(
        isSpeaking := true, queue := [Reply(cmd.response)], aiText := cmd.response,
        windowsOpened := old(windowsOpened) + Opens(cmd))
    {
      Speak(cmd.response);
      aiText := cmd.response;
      match CommandDispatch.Dispatch(cmd.kind, cmd.userInput)
      case None =>
      case Some(w) => windowsOpened := windowsOpened + [w];
    }

    /**
      `handleTalkClick`: while a reply is speaking nothing happens; otherwise the
      recognizer is started, and if it already holds a session the InvalidStateError
      is swallowed and nothing changes either.
     */
    method TalkClick()
      requires Valid()
      modifies this
      ensures Valid()
      ensures old(isSpeaking) || old(recognizing) ==> Snapshot() == old(Snapshot())
      ensures !old(isSpeaking) && !old(recognizing) ==> Snapshot() == old(Snapshot()).(recognizing := true)
    {
      if !isSpeaking {
        if recognizing {
          // start() throws InvalidStateError, which is caught and ignored
        } else {
          recognizing := true;
        }
      }
    }

    /** The recognizer's start event. */
    method RecognitionStarted()
      requires Valid()
      modifies this
      ensures Valid()
      ensures Snapshot() == old(Snapshot()).(listening := true)
      ensures Display.ButtonLabel(listening) == Display.ListeningLabel
    {
      listening := true;
    }

    /** The recognizer's end event: the session is over. */
    method RecognitionEnded()
      requires Valid()
      modifies this
      ensures Valid()
      ensures Snapshot() == old(Snapshot()).(listening := false, recognizing := false)
      ensures Display.ButtonLabel(listening) == Display.TalkLabel
    {
      listening := false;
      recognizing := false;
    }

    /**
      The result handler up to its `await`: take the trimmed first alternative of the
      last result; if it addresses the assistant, show it, clear the reply and call the
      resolver (`resolving`); otherwise change nothing.
     */
    method RecognitionResult(results: seq<seq<string>>) returns (resolving: bool)
      requires Valid()
      requires pending.None?
      modifies this
      ensures Valid()
      ensures resolving <==> var heard := WakeWord.HeardTranscript(results);
                             heard.Some? && WakeWord.IsAddressed(profile, heard.value)
      ensures resolving ==> Snapshot() == old(Snapshot()).(
        userText := WakeWord.HeardTranscript(results).value, aiText := [],
        pending := WakeWord.HeardTranscript(results))
      ensures !resolving ==> Snapshot() == old(Snapshot())
    {
      var heard := WakeWord.HeardTranscript(results);
      resolving := false;
      if heard.Some? && WakeWord.IsAddressed(profile, heard.value) {
        userText := heard.value;
        aiText := [];
        pending := heard;
        resolving := true;
      }
    }

    /**
      The result handler after its `await`, when the resolver returns a command:
      handle it, then clear the caption, which then shows the reply.
     */
    method ResolveSucceeded(cmd: CommandDispatch.Command)
      requires Valid()
      requires pending.Some?
      modifies this
      ensures Valid()
      ensures Snapshot() == old(Snapshot()).(
        pending := None, isSpeaking := true, queue := [Reply(cmd.response)],
        userText := [], aiText := cmd.response, windowsOpened := old(windowsOpened) + Opens(cmd))
      ensures Display.ShownText(userText, aiText) == cmd.response
      ensures Display.Avatars(aiText) == if cmd.response == [] then {Display.UserAvatar} else {Display.AssistantAvatar}
    {
      pending := None;
      HandleCommand(cmd);
      userText := [];
      assert queue[0].endsSpeaking;
    }

    /**
      The result handler after its `await`, when the resolver rejects: nothing catches
      the rejection, so the transcript stays in the caption and the reply stays empty.
     */
    method ResolveFailed()
      requires Valid()
      requires pending.Some?
      modifies this
      ensures Valid()
      ensures Snapshot() == old(Snapshot()).(pending := None)
      ensures userText == old(pending).value && aiText == []
      ensures Display.ShownText(userText, aiText) == old(pending).value
    {
      pending := None;
    }

    /**
      The end of the utterance at the head of the queue. Only a reply's end handler
      clears `isSpeaking`; the greeting's end changes nothing else.
     */
    method UtteranceEnded()
      requires Valid()
      modifies this
      ensures Valid()
      ensures old(queue) == [] ==> Snapshot() == old(Snapshot())
      ensures old(queue) != [] ==> Snapshot() == old(Snapshot()).(
        queue := old(queue)[1..],
        isSpeaking := if old(queue)[0].endsSpeaking then false else old(isSpeaking))
    {
      if queue != [] {
        if mounted {
          PopKeepsOtherReplies(queue);
        }
        var u := queue[0];
        queue := queue[1..];
        if u.endsSpeaking {
          isSpeaking := false;
        }
      }
    }

    /** Unmounting: stop the recognizer and cancel all speech. */
    method Teardown()
      requires Valid()
      modifies this
      ensures Valid()
      ensures Snapshot() == old(Snapshot()).(stopRequested := true, queue := [], mounted := false)
    {
      stopRequested := true;
      queue := [];
      mounted := false;
    }
  }
}
