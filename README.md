# Push-to-talk voice controller of the assistant's home page

This project models the voice-interaction controller of the assistant's home page,
`Frontend/src/pages/Home.jsx`, and proves what it does. The user presses the talk
button. The browser's speech recognizer hears one phrase, and the controller keeps
that phrase only if it contains the assistant's name. The intent resolver then turns
the phrase into a command `{type, userInput, response}`. The controller speaks and
shows the response, and it may open one page in a new tab.

The modules follow the parts of the page:

- `Text` models the three string operations of the wake-word test: `trim`, `toLowerCase`
  and `includes`.
- `UriComponent` models `encodeURIComponent`: UTF-8 bytes, percent-encoded as in
  section 2.1 of RFC 3986. Beside it is a decoder, so that the model can state that
  encoding loses nothing.
- `WakeWord` picks the transcript the result handler acts on and decides whether it
  addresses the assistant.
- `CommandDispatch` models the `switch` from a command's `type` to the page it opens.
  The source field `type` is called `kind`, because `type` is a reserved word in Dafny.
- `Display` models the caption, the avatar animation and the talk button's label.
- `Home` holds the class `VoiceController`. Its fields are the page's state
  (`listening`, `userText`, `aiText`) and the `isSpeaking` ref. It also keeps the
  recognizer's session, the speech-synthesis queue and the log of opened pages. Each
  browser event is one method call. The asynchronous result handler is split at its
  `await`:
  - `RecognitionResult` runs up to the call of the resolver.
  - `ResolveSucceeded` and `ResolveFailed` model what happens once the resolver answers.

  The resolver itself is not modelled: it may return any command, or reject.

Two behaviours of the code are modelled as written:

- **Instagram.** The `instagram-open` branch passes one argument to `window.open`: a
  string literal that swallowed the intended second argument. So the "URL" ends in a
  back-quote, a comma, a space and `'_blank`. No target is passed, so `window.open`
  uses its default target, which also opens a new tab; only the URL is wrong.
  `CommandDispatch.ExplicitTargetExceptInstagram` states this.
- **Failed resolve.** Nothing catches a rejected resolve. The transcript stays in the
  caption, the reply text stays empty and nothing is spoken. `userText` is cleared right
  after the command is handled, not when the spoken reply ends.

Teardown only calls `recognition.stop()` and `speechSynthesis.cancel()`. It detaches
no handler, so events that arrive later are still acted upon.

## Model

| member | source | states |
|---|---|---|
| `Text.Trim` | Frontend/src/pages/Home.jsx:102 | `trim` returns a contiguous slice of its input. Only white space lies before and after that slice, and the result neither starts nor ends with white space. White space is ECMAScript's WhiteSpace and LineTerminator set. |
| `Text.TrimIdempotent` | Frontend/src/pages/Home.jsx:102 | Trimming a trimmed transcript changes nothing. |
| `Text.Lower` | Frontend/src/pages/Home.jsx:105 | `toLowerCase` keeps the length and lower-cases each character on its own (ASCII letters). |
| `Text.LowerAppend` | Frontend/src/pages/Home.jsx:105 | Lower-casing distributes over concatenation. |
| `Text.Contains` | Frontend/src/pages/Home.jsx:105 | `includes` finds a needle only in a string at least as long as it, and always finds the empty needle. |
| `Text.ContainsIffOccurs` | Frontend/src/pages/Home.jsx:105 | The left-to-right scan of `includes` succeeds exactly when the needle occurs at some index. |
| `UriComponent.Utf8` | Frontend/src/pages/Home.jsx:58 | Each character becomes the shortest UTF-8 form of its code point: 1, 2, 3 or 4 bytes for code points below 0x80, 0x800, 0x10000 and above, as in section 3 of RFC 3629. |
| `UriComponent.Encode` | Frontend/src/pages/Home.jsx:58 | `encodeURIComponent` never shortens its input. Its partners are the four lemmas below. |
| `UriComponent.EncodeIsEncoded` | Frontend/src/pages/Home.jsx:58 | Every encoded query consists only of ``A–Z a–z 0–9 - _ . ! ~ * ' ( )`` and `%HH` escapes with upper-case hex digits. |
| `UriComponent.EncodeUnchangedIff` | Frontend/src/pages/Home.jsx:58 | Encoding leaves a string unchanged exactly when every character is unreserved. |
| `UriComponent.RoundTrip` | Frontend/src/pages/Home.jsx:58 | Decoding the encoding (UTF-8 then `%HH`) of any string gives back that string. The decoder accepts only shortest-form UTF-8, so the round trip also pins the bytes to the canonical form. |
| `UriComponent.EncodeInjective` | Frontend/src/pages/Home.jsx:58 | Two different inputs never produce the same query. |
| `WakeWord.HeardTranscript` | Frontend/src/pages/Home.jsx:102 | The handler acts on the first alternative of the last result, trimmed: a slice of it with only white space before and after, and no white space at either end. It acts on nothing when there is no result, or when the last result has no alternative. |
| `WakeWord.LastResultWins` | Frontend/src/pages/Home.jsx:102 | Results before the last one have no influence on the transcript. |
| `WakeWord.IsAddressed` | Frontend/src/pages/Home.jsx:103-106 | The test fails without a profile and when the transcript is shorter than the assistant name. An empty name passes with any transcript. |
| `WakeWord.AddressedIff` | Frontend/src/pages/Home.jsx:103-106 | The wake-word test passes iff a profile exists and the lower-cased assistant name occurs in the lower-cased transcript. |
| `WakeWord.NameInPhraseIsHeard` | Frontend/src/pages/Home.jsx:105 | A phrase containing the assistant's name, in any ASCII case, anywhere, passes the test. |
| `WakeWord.EmptyNameWakesOnEverything` | Frontend/src/pages/Home.jsx:105 | An empty assistant name matches every transcript. |
| `WakeWord.NoProfileNoWake` | Frontend/src/pages/Home.jsx:104 | Without a profile no transcript passes. |
| `CommandDispatch.Dispatch` | Frontend/src/pages/Home.jsx:59-81 | A page is opened iff the type is one of the seven recognised ones. Any other type opens nothing and does not fail. |
| `CommandDispatch.SearchCarriesInput` | Frontend/src/pages/Home.jsx:58-78 | Google and YouTube searches open their prefix followed by exactly `Encode(userInput)`, in a new tab. That query is well formed and decodes back to the user's words. |
| `CommandDispatch.SearchUrlsDistinguishInputs` | Frontend/src/pages/Home.jsx:58-78 | Different inputs of one search type open different pages. |
| `CommandDispatch.YoutubeKindsAgree` | Frontend/src/pages/Home.jsx:75-78 | `youtube-search` and `youtube-play` open the identical results page. |
| `CommandDispatch.CalculatorPage` | Frontend/src/pages/Home.jsx:63-65 | `calculator-open` opens the same page as a Google search for "calculator". |
| `CommandDispatch.WeatherPage` | Frontend/src/pages/Home.jsx:72-74 | `weather-show` opens the same page as a Google search for "weather". |
| `CommandDispatch.FacebookPage` | Frontend/src/pages/Home.jsx:69-71 | `facebook-open` opens `https://www.facebook.com/` in a new tab. |
| `CommandDispatch.InstagramPage` | Frontend/src/pages/Home.jsx:66-68 | `instagram-open` passes the single literal argument ``https://www.instagram.com/`, '_blank`` and no target. |
| `CommandDispatch.FixedPagesIgnoreInput` | Frontend/src/pages/Home.jsx:63-74 | The calculator, Instagram, Facebook and weather pages do not depend on the input. |
| `CommandDispatch.ExplicitTargetExceptInstagram` | Frontend/src/pages/Home.jsx:59-78 | Every call passes the target `_blank` explicitly, except Instagram's. The Instagram call passes only a URL, so the default target applies, and that URL contains a back-quote. |
| `Display.ShownText` | Frontend/src/pages/Home.jsx:216-218 | The caption is `userText` when it is non-empty, else `aiText`. It is empty only when both are. |
| `Display.Avatars` | Frontend/src/pages/Home.jsx:213-214 | Exactly one animation is rendered. It is the assistant's iff there is reply text. |
| `Display.ButtonLabel` | Frontend/src/pages/Home.jsx:227 | The button reads "Listening..." iff `listening`, and "🎤 Talk" otherwise. |
| `Home.Greeting` | Frontend/src/pages/Home.jsx:116-123 | The greeting is one utterance when a profile exists and none otherwise. It has no end handler, is spoken in `hi-IN`, and its text contains the user's name. |
| `Home.GreetingAddsNoReply` | Frontend/src/pages/Home.jsx:116-124 | Queuing the greeting adds no reply and never a second one. |
| `Home.PopKeepsOtherReplies` | Frontend/src/pages/Home.jsx:45-49 | When the head utterance ends, a reply is still queued iff one was queued and the finished utterance was not it. |
| `Home.Opens` | Frontend/src/pages/Home.jsx:59-81 | A command opens at most one page. |
| `Home.VoiceController.constructor` | Frontend/src/pages/Home.jsx:85-125 | Mounting: every flag is false and both texts are empty. The greeting is queued at once if the voices are loaded; otherwise it is installed as the voices-changed handler. |
| `Home.VoiceController.Speak` | Frontend/src/pages/Home.jsx:37-50 | `speak` sets `isSpeaking` and cancels everything queued. It then queues exactly the new reply, and nothing else changes. |
| `Home.VoiceController.Greet` | Frontend/src/pages/Home.jsx:116-123 | `greet` appends the greeting without cancelling and leaves `isSpeaking` alone. |
| `Home.VoiceController.VoicesChanged` | Frontend/src/pages/Home.jsx:124 | The voices-changed notification greets only if the greeting was deferred to it. |
| `Home.VoiceController.HandleCommand` | Frontend/src/pages/Home.jsx:53-82 | Every command speaks its response and sets `aiText` to it. The only other change is the zero or one page its type selects. |
| `Home.VoiceController.TalkClick` | Frontend/src/pages/Home.jsx:134-142 | While a reply is speaking, or while a session is active (InvalidStateError swallowed), nothing changes. Otherwise a session starts. |
| `Home.VoiceController.RecognitionStarted` | Frontend/src/pages/Home.jsx:95 | The start event sets `listening`, so the button reads "Listening...". |
| `Home.VoiceController.RecognitionEnded` | Frontend/src/pages/Home.jsx:96 | The end event clears `listening` and ends the session. |
| `Home.VoiceController.RecognitionResult` | Frontend/src/pages/Home.jsx:101-109 | The resolver is called iff the heard transcript passes the wake-word test. Then the caption holds the transcript and the reply is empty. On a miss, nothing changes. |
| `Home.VoiceController.ResolveSucceeded` | Frontend/src/pages/Home.jsx:109-111 | After a successful resolve, `userText` is empty and `aiText` is the response, so the caption shows the response. The reply is queued and speaking is set. |
| `Home.VoiceController.ResolveFailed` | Frontend/src/pages/Home.jsx:109 | A rejected resolve leaves the transcript in `userText` and `aiText` empty. Only the pending resolve is dropped. |
| `Home.VoiceController.UtteranceEnded` | Frontend/src/pages/Home.jsx:46 | Only the end of a reply clears `isSpeaking`. The end of the greeting changes nothing else. |
| `Home.VoiceController.Teardown` | Frontend/src/pages/Home.jsx:127-130 | Unmounting stops the recognizer and empties the synthesis queue. |

The class invariant `Home.VoiceController.Valid` holds while the page is mounted, and
every event method preserves it. It says two things:
- `isSpeaking` is true exactly while a reply is queued or playing, and there is never
  more than one reply.
- While a resolve is awaited, the caption holds its transcript and the reply text is
  empty.

## Left out

- `handleLogOut` (`Home.jsx:25-34`) is a network call plus navigation, so it is I/O.
  The navigation buttons, the hamburger menu, the history list, the assistant image and
  name heading, and all styling (such as the button colour) are rendering only.
- The intent resolver (`getGeminiResponse`) is an external service. Its success with an
  arbitrary command is `ResolveSucceeded(cmd)`; its rejection is `ResolveFailed()`.
- Voice selection in `speak` (`Home.jsx:41-43`) and the content of the browser's voice
  list are left out: the choice of voice changes no state the controller reads. Whether
  voices are loaded at mount is the constructor's `voicesReady` input. Audio playback
  itself is also left out.
- The recognizer's configuration (`en-US`, no interim results, not continuous) is left
  out. So is its error handler (`Home.jsx:98-99`), which only logs.
- The event methods do not restrict the order in which the browser fires events. For
  example, `RecognitionStarted` may be called without a session.
- Home.VoiceController.RecognitionResult: requires that no resolve is pending. So
  overlapping result handlers that interleave at the `await` are not modelled; the
  model allows one resolve at a time.
- Home.VoiceController.Teardown: React drops state updates made after unmount, and the
  model does not. Event methods called after `Teardown` keep updating the fields. The
  class invariant constrains `isSpeaking` only while mounted. Teardown empties the queue
  but does not clear `isSpeaking`.
- Home.VoiceController.UtteranceEnded: a cancelled utterance fires no end event in the
  model. Browsers differ on whether `cancel()` reports an end or an error for the
  utterances it removes.
- Text.Lower: lower-cases the ASCII letters `A`–`Z` only. `toLowerCase` applies full
  Unicode case mapping.
- Home.VoiceController.HandleCommand: does not model two things.
  - A lone UTF-16 surrogate in `userInput` makes `encodeURIComponent` throw `URIError`.
    Dafny characters are Unicode scalar values, so this path does not arise.
  - A command with a missing field (JavaScript `undefined`) is not modelled either.
- WakeWord.IsAddressed: a profile always has an assistant name here. A profile without
  `assistantName` makes `Home.jsx:105` throw a TypeError before anything changes; that
  path is not modelled.
- The re-run of the mount effect when the profile or the resolver changes is left out.
  The model mounts once and tears down once.
- `Backend/utils/genToken.js` is a single `jwt.sign` call with a secret from the
  environment. `Backend/config/db.js` is a `mongoose.connect` call with logging. Neither
  holds logic to verify, and neither is part of this model.
