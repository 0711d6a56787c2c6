# nao-translator: a verified model of the conversation core

nao-translator is a single-page browser application for a conversation between two
people who do not share a language, for example a patient and a care provider. One
person types or speaks a phrase. The browser's speech recognition turns speech into
text, and the page sends the text to its own `POST /api/translate` endpoint, which asks
a language model for a translation. The phrase and its translation appear as a pair of
chat bubbles. Speakers of English sit on the right and everyone else on the left. Each
bubble can be read aloud. A spoken phrase is also recorded. When the recorder stops, the
recording is attached to the last message, and that message's original bubble replays it
instead of synthesising speech. The conversation and the two chosen languages
are kept in session storage. Recorded audio is never stored.

This project models the decision logic under that interface and proves what it
promises. The model is split into these modules:

- `JsText` (js_text.dfy). JavaScript's `String.prototype.trim` over the full ECMAScript
  white-space and line-terminator set, `startsWith`, and `split(sep)[0]` and
  `split(sep)[1]`.
- `TranslateRoute` (translate_route.dfy). The endpoint as a pure function of the
  configured key, the parsed request body and two oracles:
  - the display-name lookup (`Intl.DisplayNames`);
  - the language-model call.
- `Conversation` (conversation.dfy). The pure parts of the page's conversation store:
  - the message record and appending a translation reply, including the speaker-side rule;
  - attaching a recording to the last message;
  - the audio-free copies that are saved and restored, with storage as a key-to-string map;
  - the choice between replaying a recording and text-to-speech.
- `Recognition` (recognition.dfy). The `onresult` scan loop and its specification
  functions, and the error-code policy of `onerror`.
- `Home` (home_page.dfy). The page component as a class.
  - Its React state and refs are fields.
  - Each event handler is a method.
  - Every browser or network effect is returned as an `Effect` value: starting or
    stopping recognition and the recorder, scheduling a restart timer, a fetch, an
    alert, cancelling speech. The environment carries these out.
- `Controls` (controls.dfy). The input bar:
  - the language table and its display lookup;
  - the typed text with send, Enter and the action button (class `TextInput`);
  - the textarea's shown value and placeholder;
  - the language swap through the page's setters.
- `MessageList` (message_list.dfy). The layout of the conversation view: bubbles, sides,
  language labels, play calls and separators.
- `Scenarios` (scenarios.dfy). Whole-page runs on a fresh page, checked only against
  the handlers' contracts. One of them ends a recording session and replays the blob
  that comes out. Like the handlers, these runs read the current state, not the state a
  closure captured (see "## Left out").

Oracle answers are parameters. These are a user's answer to a confirmation, whether the
microphone was granted, whether `recognition.start()` throws, and a fetch's outcome.

## Model

| member | source | states |
|---|---|---|
| JsText.Trim | src/app/page.tsx:263-265 | the result is the input with its leading and trailing white space cut off (the cut-off ends are blank, the result starts and ends with a non-white-space character), and it is empty exactly when the input is blank |
| JsText.TrimIdempotent | src/app/components/Controls.tsx:58-59 | trimming twice is trimming once |
| JsText.TrimOfTrimmed | src/app/components/Controls.tsx:58-59 | a text without surrounding white space is its own trim |
| JsText.BeforeFirst | src/app/components/MessageList.tsx:91 | `split(sep)[0]` is a prefix of the text that does not contain the separator, followed in the text by the separator or by the end |
| JsText.BeforeFirstUnique | src/app/components/MessageList.tsx:91 | any prefix without the separator that is followed by the separator or by the end is exactly `split(sep)[0]` |
| JsText.BeforeFirstAbsent | src/app/components/MessageList.tsx:112 | a text without the separator is its own first piece |
| JsText.SecondPiece | src/app/components/Controls.tsx:135 | `split(sep)[1]` is absent when the text has no separator, and otherwise is the text after the first separator up to the next one |
| TranslateRoute.LanguageCode | src/app/api/translate/route.ts:54-55 | a code exists exactly for a string field (a non-string throws in `split`), and it is the longest prefix of the tag without "-": the tag ends there or continues with "-" |
| TranslateRoute.PromptFor | src/app/api/translate/route.ts:54-71 | a prompt can be built exactly when both language fields are strings and both of their codes have display names; it carries the request's text, its "from" name is the display name of the source tag's code and its "to" name that of the target tag's code |
| TranslateRoute.Post | src/app/api/translate/route.ts:9-88 | a missing or empty key gives 500 "API key not configured" before the body is examined; an unreadable body gives 500 "Failed to translate text"; any falsy field gives 400 "Missing required fields"; valid fields whose prompt cannot be built (a non-string tag, an unknown code) give 500 "Failed to translate text"; status 200 holds exactly for a translation; each non-200 answer is one of the three error responses; a 200 carries the trimmed model reply for the prompt built from the body, so it has no surrounding white space |
| TranslateRoute.SuccessExactlyWhenModelReplies | src/app/api/translate/route.ts:73-87 | a validated request whose prompt can be built gets 200 exactly when the model replies, and 500 "Failed to translate text" when it throws |
| TranslateRoute.RejectedRequestsIgnoreModel | src/app/api/translate/route.ts:10-51 | a request rejected for its key, body or fields gets the same response whatever the model does, so the model is not consulted |
| TranslateRoute.OnlyLanguagePrefixMatters | src/app/api/translate/route.ts:54-59 | two bodies with the same text whose language tags agree before the first "-" (and agree on being empty) get the same response, e.g. "en-US" and "en-GB" |
| TranslateRoute.SamePromptForSameCodes | src/app/api/translate/route.ts:54-71 | the prompt depends on the languages only through their codes |
| TranslateRoute.SameResponseForSamePrompt | src/app/api/translate/route.ts:44-80 | the response depends on a parsed body only through the validation outcome and the prompt |
| TranslateRoute.BlankReplyGivesEmptyTranslation | src/app/api/translate/route.ts:78-80 | a model reply of only white space gives a 200 whose translation is empty |
| Conversation.ApplyReply | src/app/page.tsx:160-174 | a reply with a truthy `translatedText` appends exactly one message at the end and keeps all earlier ones; it copies both texts and both languages, takes the given id, wasRecorded and audio, and sits on the right exactly when the source language starts with "en"; any other reply or an exception leaves the list unchanged |
| Conversation.ServerReplyAppends | src/app/page.tsx:160-174 | combined with the endpoint: exactly one message is appended when the endpoint answers 200 with a non-empty translation, and that translation has no surrounding white space; otherwise nothing changes |
| Conversation.AttachAudio | src/app/page.tsx:392-398 | the length is kept; every message but the last is untouched; the last changes only in its audio, which becomes the blob exactly when that message was recorded |
| Conversation.AudioInvariantPreserved | src/app/page.tsx:163-173 | attaching audio and appending a reply both preserve "only recorded messages hold audio" |
| Conversation.StripAudio | src/app/page.tsx:102-105 | the copy that is saved has the same length and order, and each message keeps every field but loses its audio |
| Conversation.StripAudioIdempotent | src/app/page.tsx:78-81 | a stripped list holds no audio, and stripping it again changes nothing, so stripping again on load is harmless |
| Conversation.StripAudioOfNoAudio | src/app/page.tsx:78-81 | a list without audio is saved and loaded as it is |
| Conversation.StripAudioAppend | src/app/page.tsx:102-105 | stripping commutes with appending, so the saved list grows as the conversation does |
| Conversation.AttachAudioNotPersisted | src/app/page.tsx:392-398 | attaching a recording does not change what is saved |
| Conversation.SaveMessages | src/app/page.tsx:101-109 | the save writes the encoded audio-free list under the messages key and keeps every other key and value |
| Conversation.Restore | src/app/page.tsx:70-94 | a non-empty stored list is parsed and stripped of audio; each stored language is applied only when it is non-empty; a stored list that does not parse aborts the whole load, languages included |
| Conversation.SaveThenRestore | src/app/page.tsx:74-140 | with a JSON codec that round-trips audio-free lists, saving the conversation and two non-empty languages and then loading gives back both languages and the conversation without its audio |
| Conversation.FindPlayback | src/app/page.tsx:491-495 | the result is the first recorded message whose original or translated text equals the played text, or none when no message matches |
| Conversation.PlayAudio | src/app/page.tsx:485-515 | without speech synthesis nothing happens; otherwise speech is cancelled first and followed by exactly one action; a replay happens only for a recorded-play request, of a recorded message whose original text is the played text, with the played text and language as its fallback; a translation's play always speaks |
| Conversation.FirstMatchWithRecordingPlays | src/app/page.tsx:491-504 | when the first match has a recording of the played text, that recording is replayed |
| Conversation.FirstMatchWithoutRecordingSpeaks | src/app/page.tsx:491-513 | when the first match has no recording, or matched through its translation, text-to-speech is used even if a later message has a recording |
| Conversation.FirstMatchIndex | src/app/page.tsx:491-495 | the search returns the index of the first match |
| Recognition.TextsOfConcatenation | src/app/page.tsx:247-257 | the final text and the interim text of two result lists in a row are the two texts concatenated in order |
| Recognition.TextsOfOneResult | src/app/page.tsx:248-256 | one result's transcript is the final text when the result is final, and otherwise the interim text |
| Recognition.TextsAround | src/app/page.tsx:247-257 | for results `before`, `r`, `after` in a row, each text is `before`'s text, then `r`'s transcript if `r` belongs to that text, then `after`'s text |
| Recognition.ResultLandsInOneText | src/app/page.tsx:247-257 | the transcript of result `i` appears in the final text exactly when it is final and in the interim text otherwise, between the contributions of the results before and after it |
| Recognition.TextsPartitionTranscripts | src/app/page.tsx:247-257 | the final and interim texts together are as long as all transcripts together |
| Recognition.AllFinalMeansNoInterim | src/app/page.tsx:247-257 | only final results give no interim text, and only interim results give no final text |
| Recognition.ScanResults | src/app/page.tsx:244-257 | the loop from `resultIndex` yields the final transcripts concatenated in order and, when interim results are used, the interim ones concatenated in order (none otherwise) |
| Recognition.ReactToError | src/app/page.tsx:295-357 | every code except "no-speech" stops listening; "network", "not-allowed" and "service-not-allowed" and no other code show their notice; "no-speech" schedules a 200 ms restart exactly under the Brave profile while listening, and no other code schedules one |
| Home.HomePage.constructor | src/app/page.tsx:30-45 | a new page has no messages, en-US to es-ES, is not listening, has an empty interim text, is not yet mounted, and has no recorder chunks |
| Home.HomePage.Mount | src/app/page.tsx:67-95 | the mount marks the page mounted and applies exactly what Restore finds; the rest is kept |
| Home.HomePage.PersistMessages | src/app/page.tsx:98-119 | once mounted, storage becomes SaveMessages of the current list; before mounting it is unchanged |
| Home.HomePage.PersistLanguages | src/app/page.tsx:122-140 | once mounted, both language tags are written under their keys; before mounting storage is unchanged |
| Home.HomePage.SetFromLanguage | src/app/page.tsx:31 | the source language becomes the given tag |
| Home.HomePage.SetToLanguage | src/app/page.tsx:32 | the target language becomes the given tag |
| Home.HomePage.GetTranslation | src/app/page.tsx:148-159 | empty text issues no request; any other text issues exactly one request with the current languages and the recorded flag |
| Home.HomePage.OnTranslationReply | src/app/page.tsx:160-177 | the message list becomes ApplyReply of the old list, and nothing else changes |
| Home.HomePage.OnResult | src/app/page.tsx:243-268 | a non-blank final text issues exactly one recorded translation of the trimmed text and clears the interim text; otherwise nothing is sent, and the interim text is replaced by this event's interim text or, under the Brave profile, kept |
| Home.HomePage.OnEnd | src/app/page.tsx:270-288 | while listening, one restart is scheduled after 500 ms under the Brave profile or 100 ms otherwise, and the interim text is kept; when not listening, nothing is scheduled and the interim text is cleared |
| Home.HomePage.OnRestartTimer | src/app/page.tsx:275-284 | while listening, recognition starts again in the source language, and a `start()` that throws stops listening; when not listening, nothing happens |
| Home.HomePage.OnError | src/app/page.tsx:290-358 | listening and the interim text change exactly as ReactToError says, and the effects are ReactToError's notice followed by its restart |
| Home.HomePage.OnDataAvailable | src/app/page.tsx:380-384 | a non-empty chunk is appended to the buffer, and an empty one is dropped |
| Home.HomePage.OnRecorderStop | src/app/page.tsx:386-402 | the buffer is emptied; the messages become AttachAudio of one blob made from all buffered chunks in order, tagged with the recorder's type; the microphone is released |
| Home.HomePage.HandleListen | src/app/page.tsx:414-482 | stopping: stop recognition, and the recorder if it records, then clear listening and the interim text; starting without recognition support: a notice and nothing else; a Brave user who declines: nothing; otherwise clear the interim text, start the recorder (not under the Brave profile; a notice when the microphone is refused), start recognition, and stay listening exactly when `start()` does not throw |
| Home.HomePage.ClearChat | src/app/page.tsx:530-572 | messages and the chunk buffer become empty and the messages key is removed with every other key kept; speech is cancelled; if listening, recognition and the recorder are stopped and listening and the interim text are reset; if not, both are kept |
| Controls.LanguageTableWellFormed | src/app/components/Controls.tsx:5-22 | the table has sixteen entries with pairwise distinct codes, and no flag contains a space |
| Controls.FindCode | src/app/components/Controls.tsx:78 | `find` gives the first entry with the code, or none when no entry has it |
| Controls.FindCodeUnique | src/app/components/Controls.tsx:78 | with distinct codes, looking up an entry's code finds exactly that entry |
| Controls.LanguageDisplay | src/app/components/Controls.tsx:77-80 | a code outside the table is displayed as itself |
| Controls.DisplayOfTableEntry | src/app/components/Controls.tsx:77-80 | a code in the table is displayed as its flag, a space and its name |
| Controls.ActionFor | src/app/components/Controls.tsx:153 | the action button sends exactly when the typed text is not blank, and otherwise toggles listening |
| Controls.SendPayload | src/app/components/Controls.tsx:57-62 | what is sent is nothing exactly for blank text, and otherwise the non-empty trimmed text |
| Controls.TextareaFor | src/app/components/Controls.tsx:126-141 | the textarea is disabled exactly while listening; it then shows the interim transcript and the listening placeholder; otherwise it shows the typed text and the "Type in ..." placeholder for the source language (see the two placeholder lemmas) |
| Controls.PlaceholderForTableEntry | src/app/components/Controls.tsx:131-137 | for a table language the placeholder names the first word of its name |
| Controls.PlaceholderForUnknownCode | src/app/components/Controls.tsx:131-137 | for a code outside the table without a space the placeholder is "Type in undefined..." |
| Controls.TextInput.constructor | src/app/components/Controls.tsx:45 | the typed text starts empty |
| Controls.TextInput.SetText | src/app/components/Controls.tsx:129 | the typed text becomes the textarea's value |
| Controls.TextInput.HandleSend | src/app/components/Controls.tsx:57-62 | non-blank text sends the trimmed text and clears the input; blank text sends nothing and keeps the input |
| Controls.TextInput.HandleKeyDown | src/app/components/Controls.tsx:64-69 | Enter without Shift is intercepted and acts as send; any other key, Shift+Enter included, sends nothing and changes nothing |
| Controls.TextInput.Click | src/app/components/Controls.tsx:153 | the button toggles listening exactly when the text is blank (sending nothing, keeping the text); otherwise it sends the trimmed text and clears the input |
| Controls.SwapLanguages | src/app/components/Controls.tsx:71-75 | the source and target languages are exchanged |
| Controls.SwapTwice | src/app/components/Controls.tsx:71-75 | swapping twice restores both languages |
| MessageList.Render | src/app/components/MessageList.tsx:12-82 | the welcome state is shown exactly for an empty conversation; otherwise there is one block per message, in order, keyed by the message id |
| MessageList.EmptyShowsOnlyWelcome | src/app/components/MessageList.tsx:12-77 | an empty conversation shows the welcome state and no bubble |
| MessageList.BubblesAt | src/app/components/MessageList.tsx:81-119 | bubble 2k is block k's original and bubble 2k+1 its translation |
| MessageList.TwoBubblesPerMessageInOrder | src/app/components/MessageList.tsx:81-119 | n messages give exactly 2n bubbles; message k gives bubble 2k with its original text and then bubble 2k+1 with its translation |
| MessageList.BlockLayout | src/app/components/MessageList.tsx:84-113 | the original bubble is aligned right exactly for a right-hand speaker; the translation is on the opposite side; their `isUser` values are complementary and each means "on the right" |
| MessageList.BlockLabelsAndPlayback | src/app/components/MessageList.tsx:89-117 | each bubble's language label is the part of its tag before the first "-"; the original's play passes its text, full tag and the message's wasRecorded; the translation's play passes false |
| MessageList.SeparatorsAllButLast | src/app/components/MessageList.tsx:122-126 | blocks with a separator on all but the last have n-1 separators |
| MessageList.SeparatorCountOfThread | src/app/components/MessageList.tsx:122-126 | n messages show n-1 separators, and none follows the last message |
| Scenarios.TypedHelloIsAppended | src/app/page.tsx:148-174 | typed "Hello" from en-US to es-ES, answered "Hola", becomes a single right-hand, unrecorded message with those texts and languages |
| Scenarios.FinalTranscriptIsTranslatedOnce | src/app/page.tsx:243-268 | an interim "tes" is shown, and then a final "test " issues exactly one recorded request for "test" and clears the interim text |
| Scenarios.PermissionDeniedResets | src/app/page.tsx:309-321 | a "not-allowed" error while listening stops listening, clears the interim text and schedules no restart |
| Scenarios.ClearWhileListening | src/app/page.tsx:530-572 | clearing while listening leaves no messages, no stored conversation, no listening and no chunks |
| Scenarios.SpokenPhraseGetsItsRecording | src/app/page.tsx:386-504 | in the model, which reads the current message list: after a spoken Spanish phrase is translated and listening stops, the message holds a blob of the recorder's non-empty chunks, and playing its original replays that blob |

## Left out

- React's asynchronous state is not modelled. Every handler reads the current state, so
  the stale closures are not captured:
  - `onend` and `onerror`, and the restart timer, read the `isListening` of the effect
    that created them;
  - `onstop` reads the `messages` captured when `handleListen` set up the recorder
    (src/app/page.tsx:393-396, 458). In the code as written, a phrase spoken during a
    listening session therefore never receives that session's recording: the recording
    goes to the message that was last when listening began, if that one was recorded.
    The model attaches it to the message that is last when the recorder stops;
  - `onresult`'s translation reads the languages captured when the recognition object
    was built.
- Replies to two translation requests can arrive in either order. The model applies each
  reply when it arrives, through `OnTranslationReply`, and does not order them.
- The recognition object being re-created when the source language changes
  (the `[fromLanguage]` dependency at src/app/page.tsx:361) is not modelled. Each `StartRecognition` effect carries the
  current source language instead.
- `Date.now()` message ids are a parameter of `OnTranslationReply`. The code does not
  promise that they are unique, and neither does the model.
- `JSON.stringify` and `JSON.parse` are an oracle pair (`JsonCodec`). The round trip is
  proved for any codec that undoes itself on audio-free lists. The fetch body's JSON
  encoding is not modelled: a request goes out as a `Request` value.
- Exceptions from `sessionStorage` itself (quota, unavailability) are not modelled. Only
  a stored list that does not parse aborts the load.
- `Intl.DisplayNames`, the Gemini SDK, its safety settings and the prompt's wording are
  foreign. The first two are oracle functions, and the prompt is reduced to the two
  display names and the text.
- The text of alerts, confirmations, console messages and toasts, and the toast timers,
  are not modelled. Notices are datatype values.
- Text-to-speech rate 0.9 and pitch 0.8 are floating point and not modelled. Neither is
  a `SpeechSynthesisUtterance`'s voice handling, nor a rejected `audio.play()` falling
  back to speech beyond the fallback text and language carried by `PlayRecording`.
- Browser sniffing in `getBrowserInfo` is left out. The Brave profile is a constructor
  flag, and the browser's name appears only as that flag in notices.
- Only the first alternative of each recognition result is read. The page sets
  `maxAlternatives = 1`, and recognition settings such as `continuous` are not modelled.
- `getUserMedia`, MediaRecorder encoding and `Blob` contents are opaque. A chunk is an id
  and a size. The model tags the blob with the requested MIME type (`audio/webm` when
  supported, otherwise `audio/ogg`). The code tags it with `mediaRecorder.mimeType`, which
  is whatever the browser reports and may carry a codecs parameter.
- `HandleListen` models a `recognition.start()` that throws after the recorder started:
  listening stops but the recorder keeps recording, as in the code.
- `Home.HomePage.GetTranslation`: the optional `audioBlob` argument is always absent,
  because no caller in src/app/page.tsx passes it. A request's `audio` is still part of
  `Request`, so `ApplyReply` copies it.
- src/app/components/MessageBubble.tsx and src/app/components/Header.tsx are
  presentation only and not part of this model: styling, the play button's busy timer and
  the flag table. So are JSX, CSS classes, textarea auto-resize, auto-scroll and
  `window.gc`.
- `Controls.LanguageDisplay`: its own contract states only the case of a code outside the
  table. The case of a code in the table is `Controls.DisplayOfTableEntry`, because it
  needs the table's distinct codes.
- Two behaviours a reader might not expect; the model follows the code in both:
  - one might expect a recording never to replace an existing one, but `onstop`
    (src/app/page.tsx:393-396) assigns the new blob to the last message even when that
    message already holds one, so the earlier recording is overwritten;
  - one might expect storage to hold no conversation after `clearChat`, but it removes
    the stored key (src/app/page.tsx:530-572) and the save that runs after `messages`
    changes (`Home.HomePage.PersistMessages`) then writes the empty list `[]` back under
    the same key.
